/** Which match owns an effective region, stated over the detector's matches and an explicit order of actions. */
module Owners {
  import opened Ordering
  import opened Spans
  import opened PolicyConfig
  import opened Matches
  import opened Regions
  import opened Prepare

  // ---- keys, component by component ----

  /** What decides between equally good candidates: the smaller name, source and position. */
  datatype Tie = Tie(entity: string, source: string, start: int, end: int)

  /** One after another: entity, source, start, end. */
  predicate TieFirst(a: Tie, b: Tie) {
    || StrLess(a.entity, b.entity)
    || (a.entity == b.entity && StrLess(a.source, b.source))
    || (a.entity == b.entity && a.source == b.source && a.start < b.start)
    || (a.entity == b.entity && a.source == b.source && a.start == b.start && a.end <= b.end)
  }

  function TieKey(t: Tie): Key { [Str(t.entity), Str(t.source), Num(t.start as real), Num(t.end as real)] }

  lemma LeqHead(a: Key, b: Key)
    requires a != [] && b != [] && Leq(a, b)
    ensures PartLess(a[0], b[0]) || (a[0] == b[0] && Leq(a[1..], b[1..]))
  {
    PartTotal(a[0], b[0]);
  }

  lemma LeqIsTieFirst(a: Tie, b: Tie)
    requires Leq(TieKey(a), TieKey(b))
    ensures TieFirst(a, b)
  {
    var x, y := TieKey(a), TieKey(b);
    LeqHead(x, y);
    if x[0] == y[0] {
      LeqHead(x[1..], y[1..]);
      if x[1] == y[1] {
        LeqHead(x[2..], y[2..]);
        assert x[2..][1..] == x[3..] && y[2..][1..] == y[3..];
        if x[2] == y[2] {
          LeqHead(x[3..], y[3..]);
        }
      }
    }
  }

  // ---- the match that represents a coalesced detection ----

  function Width(m: Match): int { m.end - m.start }

  function TieOfMatch(m: Match): Tie { Tie(m.entity, m.source, m.start, m.end) }

  /** One after another: the wider match, then the higher score, then the tie. */
  predicate Represents(m: Match, x: Match) {
    || Width(m) > Width(x)
    || (Width(m) == Width(x) && m.score > x.score)
    || (Width(m) == Width(x) && m.score == x.score && TieFirst(TieOfMatch(m), TieOfMatch(x)))
  }

  lemma OwnerKeyRepresents(m: Match, x: Match)
    requires Leq(OwnerKey(m), OwnerKey(x))
    ensures Represents(m, x)
  {
    var a, b := OwnerKey(m), OwnerKey(x);
    LeqHead(a, b);
    assert a[0].n == -(Width(m) as real) && b[0].n == -(Width(x) as real);
    if a[0] == b[0] {
      LeqHead(a[1..], b[1..]);
      if a[1] == b[1] {
        assert a[1..][1..] == TieKey(TieOfMatch(m)) && b[1..][1..] == TieKey(TieOfMatch(x));
        LeqIsTieFirst(TieOfMatch(m), TieOfMatch(x));
      }
    }
  }

  lemma MemberWithin(gs: seq<seq<Match>>, k: nat, m: Match)
    requires k < |gs| && gs[k] != [] && m in gs[k]
    ensures Within(MIv(m), Hull(gs[k], MIv))
  {
    HullBounds(gs[k], MIv);
    var i :| 0 <= i < |gs[k]| && gs[k][i] == m;
    assert Within(MIv(gs[k][i]), Hull(gs[k], MIv));
  }

  /** A non-empty interval lies in at most one tile. */
  lemma OneTile(R: seq<Iv>, a: Iv, j: nat, k: nat, xs: seq<Match>, m: Match, length: int)
    requires Tiles(R) && j < |R| && k < |R| && Within(a, R[j]) && Within(a, R[k])
    requires m in xs && a == MIv(m) && ValidSpans(xs, length)
    ensures j == k
  {
    var i :| 0 <= i < |xs| && xs[i] == m;
    assert ValidSpan(xs[i], length);
  }

  lemma EntityGroups(ms: seq<Match>, e: string, length: int)
    requires ValidSpans(ms, length)
    ensures var gs := Sweep(EntitySorted(ms, e), MIv);
            && Tiles(Hulls(gs, MIv))
            && forall m :: InSome(gs, m) <==> m in ms && m.entity == e
  {
    EntityOrdered(ms, e, length);
    EntitySortedFacts(ms, e);
    SweepComponents(EntitySorted(ms, e), MIv);
    SweepMembers(EntitySorted(ms, e), MIv);
  }

  /** A match lies in the group whose hull it lies in. */
  lemma InsideHull(gs: seq<seq<Match>>, k: nat, m: Match, ms: seq<Match>, length: int)
    requires (forall j :: 0 <= j < |gs| ==> gs[j] != []) && Tiles(Hulls(gs, MIv)) && k < |gs| && InSome(gs, m)
    requires m in ms && ValidSpans(ms, length)
    ensures m in gs[k] <==> Within(MIv(m), Hull(gs[k], MIv))
  {
    var j :| 0 <= j < |gs| && m in gs[j];
    MemberWithin(gs, j, m);
    if Within(MIv(m), Hull(gs[k], MIv)) {
      OneTile(Hulls(gs, MIv), MIv(m), j, k, ms, m, length);
    }
    if m in gs[k] {
      MemberWithin(gs, k, m);
    }
  }

  /** A logical detection was coalesced from exactly the matches of its entity that lie inside it. */
  lemma GroupIsInside(ms: seq<Match>, l: Logical, length: int) returns (g: seq<Match>)
    requires ValidSpans(ms, length) && l in LogicalOf(ms)
    ensures g != [] && Coalesced(g) == l
    ensures forall m :: m in g <==> m in ms && m.entity == l.entity && Within(MIv(m), LIv(l))
  {
    LogicalMembers(ms, length);
    var gs := Sweep(EntitySorted(ms, l.entity), MIv);
    var k :| 0 <= k < |gs| && Coalesced(gs[k]) == l;
    g := gs[k];
    EntityGroups(ms, l.entity, length);
    CoalescedFacts(g);
    forall m ensures m in g <==> m in ms && m.entity == l.entity && Within(MIv(m), LIv(l)) {
      assert m in g ==> InSome(gs, m);
      if m in ms && m.entity == l.entity {
        InsideHull(gs, k, m, ms, length);
      }
    }
  }

  /**
   * A coalesced detection takes score, source and width from the best match of its entity inside it:
   * the widest, then the one of highest score, then the one first by source and position.
   */
  lemma BestRepresents(ms: seq<Match>, l: Logical, length: int) returns (m: Match)
    requires ValidSpans(ms, length) && l in LogicalOf(ms)
    ensures m in ms && m.entity == l.entity && Within(MIv(m), LIv(l))
    ensures l.score == m.score && l.source == m.source && l.ownerWidth == Width(m)
    ensures forall x :: x in ms && x.entity == l.entity && Within(MIv(x), LIv(l)) ==> Represents(m, x)
  {
    var g := GroupIsInside(ms, l, length);
    m := MinBy(g, OwnerKey);
    MinByLeast(g, OwnerKey);
    forall x | x in ms && x.entity == l.entity && Within(MIv(x), LIv(l)) ensures Represents(m, x) {
      assert x in g;
      OwnerKeyRepresents(m, x);
    }
  }

  // ---- the detection that owns a region ----

  function TieOfLogical(l: Logical): Tie { Tie(l.entity, l.source, l.start, l.end) }

  /** One after another: the stricter action, then the wider detection, the higher score, the tie. */
  ghost predicate Outranks(a: Action, w: Logical, b: Action, l: Logical) {
    || Milder(b, a)
    || (a == b && w.ownerWidth > l.ownerWidth)
    || (a == b && w.ownerWidth == l.ownerWidth && w.score > l.score)
    || (a == b && w.ownerWidth == l.ownerWidth && w.score == l.score && TieFirst(TieOfLogical(w), TieOfLogical(l)))
  }

  lemma WinnerKeyOutranks(p: PolicySettings, rab: bool, w: Logical, l: Logical)
    requires ValidPolicy(p) && Leq(WinnerKey(p, rab)(w), WinnerKey(p, rab)(l))
    ensures Outranks(Effective(p, w.entity, rab), w, Effective(p, l.entity, rab), l)
  {
    var x, y := WinnerKey(p, rab)(w), WinnerKey(p, rab)(l);
    var a, b := Effective(p, w.entity, rab), Effective(p, l.entity, rab);
    EffectiveIsResolved(p, rab, w.entity, a);
    EffectiveIsResolved(p, rab, l.entity, b);
    StrictnessIsOrder(b, a);
    LeqHead(x, y);
    assert x[0].n == -(Strictness(a) as real) && y[0].n == -(Strictness(b) as real);
    if x[0] == y[0] {
      LeqHead(x[1..], y[1..]);
      if x[1] == y[1] {
        LaterKeys(x[1..], y[1..], w, l);
      }
    }
  }

  lemma LaterKeys(x: Key, y: Key, w: Logical, l: Logical)
    requires x == [Num(-(w.ownerWidth as real)), Num(-w.score)] + TieKey(TieOfLogical(w))
    requires y == [Num(-(l.ownerWidth as real)), Num(-l.score)] + TieKey(TieOfLogical(l))
    requires Leq(x[1..], y[1..])
    ensures w.score > l.score || (w.score == l.score && TieFirst(TieOfLogical(w), TieOfLogical(l)))
  {
    LeqHead(x[1..], y[1..]);
    if x[1] == y[1] {
      assert x[1..][1..] == TieKey(TieOfLogical(w)) && y[1..][1..] == TieKey(TieOfLogical(l));
      LeqIsTieFirst(TieOfLogical(w), TieOfLogical(l));
    }
  }

  /** The group of a region holds exactly the logical detections inside the region. */
  lemma GroupIsRegion(ms: seq<Match>, k: nat, l: Logical, length: int)
    requires ValidSpans(ms, length) && k < |Groups(ms)|
    ensures l in Groups(ms)[k] <==> l in LogicalOf(ms) && Within(LIv(l), RegionsOf(ms)[k])
  {
    if l in Groups(ms)[k] {
      GroupMember(ms, k, l, length);
      HullBounds(Groups(ms)[k], LIv);
      var i :| 0 <= i < |Groups(ms)[k]| && Groups(ms)[k][i] == l;
      assert Within(LIv(Groups(ms)[k][i]), Hull(Groups(ms)[k], LIv));
    }
    if l in LogicalOf(ms) && Within(LIv(l), RegionsOf(ms)[k]) {
      var j := GroupOf(ms, l, length);
      RegionsAreComponents(ms, length);
      LogicalMembers(ms, length);
      LogicalOrigin(ms, l, length);
      assert Within(LIv(l), RegionsOf(ms)[j]);
    }
  }

  /** This detection owns the region: it is inside it and outranks every detection inside it. */
  ghost predicate Owns(p: PolicySettings, rab: bool, ms: seq<Match>, w: Logical, r: Match) {
    && w in LogicalOf(ms) && Within(LIv(w), MIv(r))
    && r.entity == w.entity && r.score == w.score && r.source == w.source
    && forall l, a, b ::
         (l in LogicalOf(ms) && Within(LIv(l), MIv(r)) && Resolves(p, rab, w.entity, a)
           && Resolves(p, rab, l.entity, b))
         ==> Outranks(a, w, b, l)
  }

  /**
   * Every region is owned by the best of the logical detections inside it: the one of the strictest
   * action, then the widest, then the one of highest score, then first by name, source and position.
   */
  lemma BestOwns(p: PolicySettings, rab: bool, ms: seq<Match>, k: nat, length: int) returns (w: Logical)
    requires ValidPolicy(p) && ValidSpans(ms, length) && k < |EffectiveOf(p, rab, ms)|
    ensures Owns(p, rab, ms, w, EffectiveOf(p, rab, ms)[k])
  {
    var g, key := Groups(ms)[k], WinnerKey(p, rab);
    w := Winner(p, rab, g);
    MinByLeast(g, key);
    GroupIsRegion(ms, k, w, length);
    forall l, a, b
      | l in LogicalOf(ms) && Within(LIv(l), RegionsOf(ms)[k]) && Resolves(p, rab, w.entity, a)
        && Resolves(p, rab, l.entity, b)
      ensures Outranks(a, w, b, l)
    {
      GroupIsRegion(ms, k, l, length);
      EffectiveIsResolved(p, rab, w.entity, a);
      EffectiveIsResolved(p, rab, l.entity, b);
      WinnerKeyOutranks(p, rab, w, l);
    }
  }

  /** A raw match inside a region is inside a logical detection inside that region. */
  lemma RawInRegion(ms: seq<Match>, k: nat, m: Match, length: int) returns (l: Logical)
    requires ValidSpans(ms, length) && k < |RegionsOf(ms)| && m in ms && Within(MIv(m), RegionsOf(ms)[k])
    ensures l in LogicalOf(ms) && l.entity == m.entity && Within(MIv(m), LIv(l)) && Within(LIv(l), RegionsOf(ms)[k])
  {
    LogicalMembers(ms, length);
    l := RawHoused(ms, m, length);
    var j := GroupOf(ms, l, length);
    RegionsAreComponents(ms, length);
    OneTile(RegionsOf(ms), MIv(m), j, k, ms, m, length);
  }

  /** Some match of the region's own entity lies inside it, and no match inside it resolves more strictly. */
  ghost predicate StrictestOwner(p: PolicySettings, rab: bool, ms: seq<Match>, r: Match) {
    && (exists m :: m in ms && m.entity == r.entity && Within(MIv(m), MIv(r)))
    && forall m, a, b ::
         (m in ms && Within(MIv(m), MIv(r)) && Resolves(p, rab, r.entity, a) && Resolves(p, rab, m.entity, b))
         ==> a == b || Milder(b, a)
  }

  lemma NoneStricter(
    p: PolicySettings, rab: bool, ms: seq<Match>, k: nat, length: int, w: Logical, m: Match, a: Action, b: Action)
    requires ValidSpans(ms, length) && k < |EffectiveOf(p, rab, ms)|
    requires Owns(p, rab, ms, w, EffectiveOf(p, rab, ms)[k]) && m in ms && Within(MIv(m), RegionsOf(ms)[k])
    requires Resolves(p, rab, w.entity, a) && Resolves(p, rab, m.entity, b)
    ensures a == b || Milder(b, a)
  {
    var l := RawInRegion(ms, k, m, length);
    assert Outranks(a, w, b, l);
  }

  lemma OwnerInRegion(p: PolicySettings, rab: bool, ms: seq<Match>, w: Logical, r: Match, length: int)
    requires ValidSpans(ms, length) && Owns(p, rab, ms, w, r)
    ensures exists m :: m in ms && m.entity == r.entity && Within(MIv(m), MIv(r))
  {
    LogicalMembers(ms, length);
    LogicalOrigin(ms, w, length);
    var m :| m in ms && m.entity == w.entity && Within(MIv(m), LIv(w));
    assert Within(MIv(m), MIv(r));
  }

  /** The action of every region is the latest, in the order of actions, among the raw matches inside it. */
  lemma StrictestOwns(p: PolicySettings, rab: bool, ms: seq<Match>, k: nat, length: int)
    requires ValidPolicy(p) && ValidSpans(ms, length) && k < |EffectiveOf(p, rab, ms)|
    ensures StrictestOwner(p, rab, ms, EffectiveOf(p, rab, ms)[k])
  {
    var r := EffectiveOf(p, rab, ms)[k];
    var w := BestOwns(p, rab, ms, k, length);
    OwnerInRegion(p, rab, ms, w, r, length);
    forall m, a, b
      | m in ms && Within(MIv(m), MIv(r)) && Resolves(p, rab, r.entity, a) && Resolves(p, rab, m.entity, b)
      ensures a == b || Milder(b, a)
    {
      NoneStricter(p, rab, ms, k, length, w, m, a, b);
    }
  }

  // ---- counts ----

  /** The spans of one entity's matches. */
  ghost function SpansOf(ms: seq<Match>, e: string): set<Iv> {
    set i | 0 <= i < |ms| && ms[i].entity == e :: MIv(ms[i])
  }

  lemma SpansOfSorted(ms: seq<Match>, e: string)
    ensures IvSet(EntitySorted(ms, e), MIv) == SpansOf(ms, e)
  {
    var xs := EntitySorted(ms, e);
    EntitySortedFacts(ms, e);
    forall a ensures a in IvSet(xs, MIv) <==> a in SpansOf(ms, e) {
      if a in IvSet(xs, MIv) {
        var i :| 0 <= i < |xs| && MIv(xs[i]) == a;
        assert xs[i] in ms;
        var j :| 0 <= j < |ms| && ms[j] == xs[i];
        assert MIv(ms[j]) in SpansOf(ms, e);
      }
      if a in SpansOf(ms, e) {
        var i :| 0 <= i < |ms| && ms[i].entity == e && MIv(ms[i]) == a;
        assert ms[i] in xs;
        var j :| 0 <= j < |xs| && xs[j] == ms[i];
        assert MIv(xs[j]) in IvSet(xs, MIv);
      }
    }
  }

  /** The detected count of an entity is the number of overlap components of its own matches. */
  lemma CountIsComponents(ms: seq<Match>, e: string, R: seq<Iv>, length: int)
    requires ValidSpans(ms, length) && Components(SpansOf(ms, e), R)
    ensures CountOf(LogicalOf(ms), LEntity, e) == |R|
  {
    DetectedCount(ms, e, length);
    LogicalForFacts(ms, e, length);
    SpansOfSorted(ms, e);
    ComponentsUnique(SpansOf(ms, e), LogicalIvs(LogicalFor(ms, e)), R);
    if e !in EntitiesOf(ms) {
      assert SpansOf(ms, e) == {};
      if R != [] {
        SomeSpan(SpansOf(ms, e), R);
      }
    }
  }

  lemma SomeSpan(S: set<Iv>, R: seq<Iv>)
    requires Components(S, R) && R != []
    ensures S != {}
  {
    assert Tight(S, R[0]);
  }

  /** Matches of two entity types lie inside the region. */
  ghost predicate Mixed(ms: seq<Match>, r: Iv) {
    exists a, b :: a in ms && b in ms && a.entity != b.entity && Within(MIv(a), r) && Within(MIv(b), r)
  }

  lemma TwoTypes(g: seq<Logical>)
    ensures Overlapped(g) == 1 <==> exists a, b :: a in g && b in g && a.entity != b.entity
  {
    var es := EntityTypes(g);
    if |es| > 1 {
      var x :| x in es;
      assert |es - {x}| == |es| - 1;
      var y :| y in es - {x};
      var i :| 0 <= i < |g| && g[i].entity == x;
      var j :| 0 <= j < |g| && g[j].entity == y;
      assert g[i] in g && g[j] in g;
    }
    if a, b :| a in g && b in g && a.entity != b.entity {
      var i :| 0 <= i < |g| && g[i] == a;
      var j :| 0 <= j < |g| && g[j] == b;
      assert g[i].entity in es && g[j].entity in es;
      assert {a.entity, b.entity} <= es;
      SizeAtLeast(es, {a.entity, b.entity});
    }
  }

  lemma SizeAtLeast<T>(big: set<T>, small: set<T>)
    requires small <= big
    ensures |small| <= |big|
  {
    assert big == small + (big - small);
  }

  lemma GroupMixed(ms: seq<Match>, k: nat, length: int)
    requires ValidSpans(ms, length) && k < |Groups(ms)|
    ensures Overlapped(Groups(ms)[k]) == 1 <==> Mixed(ms, RegionsOf(ms)[k])
  {
    var g, r := Groups(ms)[k], RegionsOf(ms)[k];
    TwoTypes(g);
    LogicalMembers(ms, length);
    if a, b :| a in g && b in g && a.entity != b.entity {
      GroupIsRegion(ms, k, a, length);
      GroupIsRegion(ms, k, b, length);
      LogicalOrigin(ms, a, length);
      LogicalOrigin(ms, b, length);
      var x :| x in ms && x.entity == a.entity && Within(MIv(x), LIv(a));
      var y :| y in ms && y.entity == b.entity && Within(MIv(y), LIv(b));
      assert Within(MIv(x), r) && Within(MIv(y), r);
    }
    if x, y :| x in ms && y in ms && x.entity != y.entity && Within(MIv(x), r) && Within(MIv(y), r) {
      var a := RawInRegion(ms, k, x, length);
      var b := RawInRegion(ms, k, y, length);
      GroupIsRegion(ms, k, a, length);
      GroupIsRegion(ms, k, b, length);
    }
  }

  lemma {:induction false} OverlapsAreMixed(gs: seq<seq<Logical>>, mixed: nat -> bool)
    requires forall k: nat :: k < |gs| ==> (Overlapped(gs[k]) == 1 <==> mixed(k))
    ensures OverlapCount(gs) == |set k: nat | k < |gs| && mixed(k)|
  {
    var all := set k: nat | k < |gs| && mixed(k);
    if gs == [] {
      assert all == {};
    } else {
      var n: nat := |gs| - 1;
      OverlapsAreMixed(gs[..n], mixed);
      var front := set k: nat | k < n && mixed(k);
      assert all == front + (if mixed(n) then {n} else {});
      assert front == set k: nat | k < |gs[..n]| && mixed(k);
    }
  }

  /** The overlap count is the number of regions that matches of two entity types lie in. */
  lemma OverlapsCounted(ms: seq<Match>, length: int)
    requires ValidSpans(ms, length)
    ensures OverlapCount(Groups(ms)) == |set k: nat | k < |RegionsOf(ms)| && Mixed(ms, RegionsOf(ms)[k])|
  {
    var gs := Groups(ms);
    ghost var mixed := (k: nat) => k < |RegionsOf(ms)| && Mixed(ms, RegionsOf(ms)[k]);
    forall k: nat | k < |gs| ensures Overlapped(gs[k]) == 1 <==> mixed(k) {
      GroupMixed(ms, k, length);
    }
    OverlapsAreMixed(gs, mixed);
    assert (set k: nat | k < |gs| && mixed(k)) == set k: nat | k < |RegionsOf(ms)| && Mixed(ms, RegionsOf(ms)[k]);
  }
}
