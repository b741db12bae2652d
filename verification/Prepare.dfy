/** What `prepare` decides for one leaf: order-independence, count bounds and the strictest action. */
module Prepare {
  import opened Ordering
  import opened Spans
  import opened PolicyConfig
  import opened Matches
  import opened Regions

  // ---- the result depends only on the set of matches ----

  lemma SpanKeyInjective(xs: seq<Match>, e: string)
    requires forall m :: m in xs ==> m.entity == e
    ensures KeyInjective(xs, SpanKey)
  {
    forall x, y | x in xs && y in xs && SpanKey(x) == SpanKey(y) ensures x == y {
      var a, b := SpanKey(x), SpanKey(y);
      assert a[0].n == b[0].n && a[1].n == b[1].n && a[2].n == b[2].n && a[3].s == b[3].s;
    }
  }

  /** Any duplicate-free listing of one entity's matches sorts to the same list. */
  lemma EntityListing(ms: seq<Match>, e: string, xs: seq<Match>)
    requires NoDup(xs) && forall m :: m in xs <==> m in ms && m.entity == e
    ensures Sort(xs, SpanKey) == EntitySorted(ms, e)
  {
    OfEntityNoDup(Dedup(ms), e);
    SpanKeyInjective(xs, e);
    SortCanonical(xs, OfEntity(Dedup(ms), e), SpanKey);
  }

  lemma {:induction false} GatherCongruent<T(!new)>(es: seq<string>, f: string -> seq<T>, g: string -> seq<T>)
    requires forall e :: f(e) == g(e)
    ensures Gather(es, f) == Gather(es, g)
  {
    if es != [] {
      GatherCongruent(es[..|es| - 1], f, g);
    }
  }

  /** Reordering or repeating detector output changes nothing `prepare` returns. */
  lemma PrepareIgnoresOrder(p: PolicySettings, rerouteAsBlock: bool, a: seq<Match>, b: seq<Match>)
    requires forall m :: m in a <==> m in b
    ensures LogicalOf(a) == LogicalOf(b)
    ensures EffectiveOf(p, rerouteAsBlock, a) == EffectiveOf(p, rerouteAsBlock, b)
    ensures OverlapCount(Groups(a)) == OverlapCount(Groups(b))
  {
    forall e ensures LogicalFor(a, e) == LogicalFor(b, e) {
      OfEntityNoDup(Dedup(a), e);
      EntityListing(b, e, OfEntity(Dedup(a), e));
    }
    assert EntitiesOf(a) == EntitiesOf(b) by {
      SameEntities(a, b);
      SameEntities(b, a);
    }
    var es := SortedNames(EntitiesOf(a));
    GatherCongruent(es, (e: string) => LogicalFor(a, e), (e: string) => LogicalFor(b, e));
  }

  lemma SameEntities(a: seq<Match>, b: seq<Match>)
    requires forall m :: m in a ==> m in b
    ensures EntitiesOf(a) <= EntitiesOf(b)
  {
    forall e | e in EntitiesOf(a) ensures e in EntitiesOf(b) {
      var i :| 0 <= i < |a| && a[i].entity == e;
      assert a[i] in b;
      var j :| 0 <= j < |b| && b[j] == a[i];
      assert b[j].entity == e;
    }
  }

  // ---- counting ----

  function LEntity(l: Logical): string { l.entity }

  function MEntity(m: Match): string { m.entity }

  function CountOf<T>(xs: seq<T>, f: T -> string, e: string): nat {
    if xs == [] then 0
    else CountOf(xs[..|xs| - 1], f, e) + (if f(xs[|xs| - 1]) == e then 1 else 0)
  }

  lemma {:induction false} CountSplit<T(!new)>(xs: seq<T>, ys: seq<T>, f: T -> string, e: string)
    ensures CountOf(xs + ys, f, e) == CountOf(xs, f, e) + CountOf(ys, f, e)
  {
    if ys == [] {
      assert xs + ys == xs;
    } else {
      var n := |ys| - 1;
      assert (xs + ys)[..|xs + ys| - 1] == xs + ys[..n];
      CountSplit(xs, ys[..n], f, e);
    }
  }

  lemma {:induction false} CountInsert<T(!new)>(x: T, xs: seq<T>, key: T -> Key, f: T -> string, e: string)
    ensures CountOf(Insert(x, xs, key), f, e) == CountOf([x], f, e) + CountOf(xs, f, e)
  {
    if xs == [] || Leq(key(x), key(xs[0])) {
      CountSplit([x], xs, f, e);
    } else {
      CountInsert(x, xs[1..], key, f, e);
      CountSplit([xs[0]], Insert(x, xs[1..], key), f, e);
      CountSplit([xs[0]], xs[1..], f, e);
      assert xs == [xs[0]] + xs[1..];
    }
  }

  lemma {:induction false} CountSort<T(!new)>(xs: seq<T>, key: T -> Key, f: T -> string, e: string)
    ensures CountOf(Sort(xs, key), f, e) == CountOf(xs, f, e)
  {
    if xs != [] {
      CountSort(xs[1..], key, f, e);
      CountInsert(xs[0], Sort(xs[1..], key), key, f, e);
      CountSplit([xs[0]], xs[1..], f, e);
      assert xs == [xs[0]] + xs[1..];
    }
  }

  lemma {:induction false} CountUniform<T(!new)>(xs: seq<T>, f: T -> string, e: string, e': string)
    requires forall i :: 0 <= i < |xs| ==> f(xs[i]) == e'
    ensures CountOf(xs, f, e) == if e == e' then |xs| else 0
  {
    if xs != [] {
      CountUniform(xs[..|xs| - 1], f, e, e');
    }
  }

  lemma {:induction false} CountAbsent<T(!new)>(xs: seq<T>, f: T -> string, e: string)
    ensures CountOf(xs, f, e) > 0 <==> exists i :: 0 <= i < |xs| && f(xs[i]) == e
  {
    if xs != [] {
      var n := |xs| - 1;
      CountAbsent(xs[..n], f, e);
      assert forall i :: 0 <= i < n ==> xs[..n][i] == xs[i];
      if CountOf(xs[..n], f, e) > 0 {
        var i :| 0 <= i < n && f(xs[..n][i]) == e;
        assert f(xs[i]) == e;
      }
    }
  }

  lemma {:induction false} CountGather<T(!new)>(es: seq<string>, g: string -> seq<T>, f: T -> string, e: string)
    requires NoDup(es) && forall e', i :: 0 <= i < |g(e')| ==> f(g(e')[i]) == e'
    ensures CountOf(Gather(es, g), f, e) == if e in es then |g(e)| else 0
  {
    if es != [] {
      var n := |es| - 1;
      CountGather(es[..n], g, f, e);
      CountUniform(g(es[n]), f, e, es[n]);
      CountSplit(Gather(es[..n], g), g(es[n]), f, e);
      assert es == es[..n] + [es[n]];
    }
  }

  /** The count reported for an entity is the number of its coalesced detections. */
  lemma DetectedCount(ms: seq<Match>, e: string, length: int)
    requires ValidSpans(ms, length)
    ensures CountOf(LogicalOf(ms), LEntity, e) == if e in EntitiesOf(ms) then |LogicalFor(ms, e)| else 0
  {
    var es := SortedNames(EntitiesOf(ms));
    var g := (e': string) => LogicalFor(ms, e');
    CountSort(LogicalForAll(ms, es), LogicalKey, LEntity, e);
    forall e', i | 0 <= i < |g(e')| ensures LEntity(g(e')[i]) == e' {
      LogicalForFacts(ms, e', length);
    }
    CountGather(es, g, LEntity, e);
  }

  /** Disjoint non-empty intervals inside a text are no more than its characters. */
  lemma {:induction false} TilesBounded(R: seq<Iv>, length: int)
    requires Tiles(R) && 0 <= length && forall k :: 0 <= k < |R| ==> 0 <= R[k].lo && R[k].hi <= length
    ensures |R| <= length
  {
    if R != [] {
      var n := |R| - 1;
      TilesBounded(R[..n], R[n].lo);
    }
  }

  /** Detected and overlap counts of one leaf stay within its characters. */
  lemma CountsWithinText(ms: seq<Match>, e: string, length: int)
    requires ValidSpans(ms, length) && 0 <= length
    ensures CountOf(LogicalOf(ms), LEntity, e) <= length
    ensures OverlapCount(Groups(ms)) <= |Groups(ms)| <= length
  {
    DetectedCount(ms, e, length);
    LogicalForFacts(ms, e, length);
    forall l | l in LogicalFor(ms, e) ensures 0 <= l.start && l.end <= length {
      LogicalOrigin(ms, l, length);
    }
    TilesBounded(LogicalIvs(LogicalFor(ms, e)), length);
    RegionsAreComponents(ms, length);
    forall k | 0 <= k < |RegionsOf(ms)| ensures 0 <= RegionsOf(ms)[k].lo && RegionsOf(ms)[k].hi <= length {
      RegionInText(ms, k, length);
    }
    TilesBounded(RegionsOf(ms), length);
    OverlapAtMostGroups(Groups(ms));
  }

  lemma RegionInText(ms: seq<Match>, k: nat, length: int)
    requires ValidSpans(ms, length) && k < |RegionsOf(ms)|
    ensures 0 <= RegionsOf(ms)[k].lo < RegionsOf(ms)[k].hi <= length
  {
    RegionsAreComponents(ms, length);
    assert Tight(RawIvs(ms), RegionsOf(ms)[k]);
  }

  lemma {:induction false} OverlapAtMostGroups(gs: seq<seq<Logical>>)
    ensures OverlapCount(gs) <= |gs|
  {
    if gs != [] { OverlapAtMostGroups(gs[..|gs| - 1]); }
  }

  /** Groups hold every detection once: counts over the groups add up to the count of the list. */
  function CountGroups(gs: seq<seq<Logical>>, e: string): nat {
    if gs == [] then 0 else CountGroups(gs[..|gs| - 1], e) + CountOf(gs[|gs| - 1], LEntity, e)
  }

  lemma CountSnoc<T(!new)>(xs: seq<T>, x: T, f: T -> string, e: string)
    ensures CountOf(xs + [x], f, e) == CountOf(xs, f, e) + (if f(x) == e then 1 else 0)
  {
    assert (xs + [x])[..|xs + [x]| - 1] == xs;
  }

  lemma GroupsSnoc(gs: seq<seq<Logical>>, g: seq<Logical>, e: string)
    ensures CountGroups(gs + [g], e) == CountGroups(gs, e) + CountOf(g, LEntity, e)
  {
    assert (gs + [g])[..|gs + [g]| - 1] == gs;
  }

  lemma {:induction false} CountSweep(xs: seq<Logical>, e: string)
    ensures CountGroups(Sweep(xs, LIv), e) == CountOf(xs, LEntity, e)
  {
    if xs != [] {
      var n := |xs| - 1;
      CountSweep(xs[..n], e);
      SweepCount(Sweep(xs[..n], LIv), xs[n], e);
    }
  }

  lemma SweepCount(gs: seq<seq<Logical>>, x: Logical, e: string)
    ensures CountGroups(gs + [[x]], e) == CountGroups(gs, e) + (if x.entity == e then 1 else 0)
    ensures gs != [] ==>
              CountGroups(gs[..|gs| - 1] + [gs[|gs| - 1] + [x]], e) == CountGroups(gs, e) +
              (if x.entity == e then 1 else 0)
  {
    GroupsSnoc(gs, [x], e);
    CountSnoc([], x, LEntity, e);
    assert [] + [x] == [x];
    if gs != [] {
      var m := |gs| - 1;
      GroupsSnoc(gs[..m], gs[m] + [x], e);
      CountSnoc(gs[m], x, LEntity, e);
    }
  }

  /** A region is owned by an entity detected inside it, so regions never outnumber detections. */
  lemma {:induction false} RegionsAtMostDetections(p: PolicySettings, rab: bool, gs: seq<seq<Logical>>, e: string)
    requires forall k :: 0 <= k < |gs| ==> gs[k] != []
    ensures CountOf(SelectedAll(p, rab, gs), MEntity, e) <= CountGroups(gs, e)
  {
    if gs != [] {
      var n := |gs| - 1;
      RegionsAtMostDetections(p, rab, gs[..n], e);
      assert SelectedAll(p, rab, gs)[..n] == SelectedAll(p, rab, gs[..n]);
      MinByLeast(gs[n], WinnerKey(p, rab));
      CountAbsent(gs[n], LEntity, Selected(p, rab, gs[n]).entity);
    }
  }

  lemma EffectiveAtMostDetected(p: PolicySettings, rab: bool, ms: seq<Match>, e: string)
    ensures CountOf(EffectiveOf(p, rab, ms), MEntity, e) <= CountOf(LogicalOf(ms), LEntity, e)
  {
    RegionsAtMostDetections(p, rab, Groups(ms), e);
    CountSweep(Sort(LogicalOf(ms), GroupKey), e);
    CountSort(LogicalOf(ms), GroupKey, LEntity, e);
  }

  // ---- the strictest action owns each region ----

  /** The winner of a group is at least as strict as each of its members. */
  lemma WinnerStrictest(p: PolicySettings, rab: bool, g: seq<Logical>, l: Logical)
    requires g != [] && l in g
    ensures Strictness(Effective(p, l.entity, rab)) <= Strictness(Effective(p, Winner(p, rab, g).entity, rab))
  {
    var key := WinnerKey(p, rab);
    MinByLeast(g, key);
    var w := MinBy(g, key);
    assert Leq(key(w), key(l));
    assert key(w)[0].n == -(Strictness(Effective(p, w.entity, rab)) as real);
    assert key(l)[0].n == -(Strictness(Effective(p, l.entity, rab)) as real);
  }

  ghost predicate SomeMatch(p: PolicySettings, rab: bool, ms: seq<Match>, level: int) {
    exists i :: 0 <= i < |ms| && Strictness(Effective(p, ms[i].entity, rab)) >= level
  }

  /** The group of a detection, as an index of its region. */
  lemma GroupOf(ms: seq<Match>, l: Logical, length: int) returns (k: nat)
    requires ValidSpans(ms, length) && l in LogicalOf(ms)
    ensures k < |Groups(ms)| && l in Groups(ms)[k] && Within(LIv(l), Hull(Groups(ms)[k], LIv))
  {
    LogicalOrdered(ms, length);
    SweepMembers(Sort(LogicalOf(ms), GroupKey), LIv);
    k :| 0 <= k < |Groups(ms)| && l in Groups(ms)[k];
    HullBounds(Groups(ms)[k], LIv);
    var i :| 0 <= i < |Groups(ms)[k]| && Groups(ms)[k][i] == l;
    assert Within(LIv(Groups(ms)[k][i]), Hull(Groups(ms)[k], LIv));
  }

  lemma GroupMember(ms: seq<Match>, k: nat, l: Logical, length: int)
    requires ValidSpans(ms, length) && k < |Groups(ms)| && l in Groups(ms)[k]
    ensures l in LogicalOf(ms)
  {
    LogicalOrdered(ms, length);
    SweepMembers(Sort(LogicalOf(ms), GroupKey), LIv);
  }

  lemma LevelUp(p: PolicySettings, rab: bool, ms: seq<Match>, i: nat, length: int) returns (k: nat)
    requires ValidSpans(ms, length) && i < |ms|
    ensures k < |EffectiveOf(p, rab, ms)| && Within(MIv(ms[i]), MIv(EffectiveOf(p, rab, ms)[k]))
    ensures Strictness(Effective(p, ms[i].entity, rab)) <= Strictness(Effective(p, EffectiveOf(p, rab, ms)[k].entity,
              rab))
  {
    LogicalMembers(ms, length);
    var l := RawHoused(ms, ms[i], length);
    k := GroupOf(ms, l, length);
    WinnerStrictest(p, rab, Groups(ms)[k], l);
  }

  lemma LevelDown(p: PolicySettings, rab: bool, ms: seq<Match>, k: nat, length: int) returns (i: nat)
    requires ValidSpans(ms, length) && k < |EffectiveOf(p, rab, ms)|
    ensures i < |ms| && ms[i].entity == EffectiveOf(p, rab, ms)[k].entity
  {
    var g := Groups(ms)[k];
    MinByLeast(g, WinnerKey(p, rab));
    var w := Winner(p, rab, g);
    GroupMember(ms, k, w, length);
    LogicalMembers(ms, length);
    LogicalOrigin(ms, w, length);
    i :| 0 <= i < |ms| && ms[i].entity == w.entity;
  }

  /** A region of at least some strictness exists exactly when such a raw match does. */
  lemma RegionsJoinMatches(p: PolicySettings, rab: bool, ms: seq<Match>, level: int, length: int)
    requires ValidSpans(ms, length)
    ensures SomeMatch(p, rab, EffectiveOf(p, rab, ms), level) <==> SomeMatch(p, rab, ms, level)
  {
    if i :| 0 <= i < |ms| && Strictness(Effective(p, ms[i].entity, rab)) >= level {
      var k := LevelUp(p, rab, ms, i, length);
      assert Strictness(Effective(p, EffectiveOf(p, rab, ms)[k].entity, rab)) >= level;
    }
    var rs := EffectiveOf(p, rab, ms);
    if k :| 0 <= k < |rs| && Strictness(Effective(p, rs[k].entity, rab)) >= level {
      var i := LevelDown(p, rab, ms, k, length);
      assert Strictness(Effective(p, ms[i].entity, rab)) >= level;
    }
  }

  // ---- diagnostics: the region of a logical detection ----

  /** Each logical detection overlaps exactly one effective region, the one of its own group. */
  lemma UniqueRegion(p: PolicySettings, rab: bool, ms: seq<Match>, l: Logical, length: int) returns (k: nat)
    requires ValidSpans(ms, length) && l in LogicalOf(ms)
    ensures k < |EffectiveOf(p, rab, ms)| && l in Groups(ms)[k]
    ensures Within(LIv(l), MIv(EffectiveOf(p, rab, ms)[k]))
    ensures forall j :: 0 <= j < |EffectiveOf(p, rab, ms)| ==>
              (Overlap(MIv(EffectiveOf(p, rab, ms)[j]), LIv(l)) <==> j == k)
    ensures Strictness(Effective(p, EffectiveOf(p, rab, ms)[k].entity, rab)) >= Strictness(Effective(p, l.entity, rab))
  {
    k := GroupOf(ms, l, length);
    LogicalMembers(ms, length);
    LogicalOrigin(ms, l, length);
    WinnerStrictest(p, rab, Groups(ms)[k], l);
    RegionsAreComponents(ms, length);
    OnlyRegion(RegionsOf(ms), LIv(l), k);
    forall j | 0 <= j < |EffectiveOf(p, rab, ms)|
      ensures Overlap(MIv(EffectiveOf(p, rab, ms)[j]), LIv(l)) <==> j == k
    {
      assert MIv(EffectiveOf(p, rab, ms)[j]) == RegionsOf(ms)[j];
    }
  }

  lemma OnlyRegion(R: seq<Iv>, a: Iv, k: nat)
    requires Tiles(R) && k < |R| && Within(a, R[k]) && a.lo < a.hi
    ensures forall j {:trigger R[j]} :: 0 <= j < |R| ==> (Overlap(R[j], a) <==> j == k)
  {
  }
}
