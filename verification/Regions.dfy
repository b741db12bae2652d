/** The effective regions are the connected components of strict overlap among the raw matches. */
module Regions {
  import opened Ordering
  import opened Spans
  import opened Matches

  function RawIvs(ms: seq<Match>): set<Iv> {
    IvSet(ms, MIv)
  }

  /** The intervals of the effective regions. */
  ghost function RegionsOf(ms: seq<Match>): seq<Iv> {
    Hulls(Groups(ms), LIv)
  }

  // ---- one entity ----

  lemma EntitySortedFacts(ms: seq<Match>, e: string)
    ensures forall m :: m in EntitySorted(ms, e) <==> m in ms && m.entity == e
    ensures NoDup(EntitySorted(ms, e)) && Sorted(EntitySorted(ms, e), SpanKey)
  {
    var xs := OfEntity(Dedup(ms), e);
    OfEntityNoDup(Dedup(ms), e);
    SortFacts(xs, SpanKey);
    SortMembers(xs, SpanKey);
  }

  lemma {:induction false} OfEntityNoDup(ms: seq<Match>, e: string)
    requires NoDup(ms)
    ensures NoDup(OfEntity(ms, e))
  {
    if ms != [] {
      OfEntityNoDup(ms[1..], e);
      assert ms[0] !in ms[1..];
    }
  }

  lemma SpanKeyOrders(xs: seq<Match>, length: int)
    requires Sorted(xs, SpanKey) && ValidSpans(xs, length)
    ensures Ordered(xs, MIv)
  {
    forall i, j | 0 <= i < j < |xs| ensures xs[i].start <= xs[j].start {
      var a, b := SpanKey(xs[i]), SpanKey(xs[j]);
      assert Leq(a, b) && a[0].n == xs[i].start as real && b[0].n == xs[j].start as real;
    }
  }

  lemma ValidSubset(ms: seq<Match>, xs: seq<Match>, length: int)
    requires ValidSpans(ms, length) && forall m :: m in xs ==> m in ms
    ensures ValidSpans(xs, length)
  {
    forall i | 0 <= i < |xs| ensures ValidSpan(xs[i], length) {
      assert xs[i] in ms;
    }
  }

  lemma EntityOrdered(ms: seq<Match>, e: string, length: int)
    requires ValidSpans(ms, length)
    ensures Ordered(EntitySorted(ms, e), MIv) && ValidSpans(EntitySorted(ms, e), length)
  {
    EntitySortedFacts(ms, e);
    ValidSubset(ms, EntitySorted(ms, e), length);
    SpanKeyOrders(EntitySorted(ms, e), length);
  }

  /** A logical detection is the hull of its group, owned by one of its members. */
  lemma CoalescedFacts(g: seq<Match>)
    requires g != []
    ensures LIv(Coalesced(g)) == Hull(g, MIv)
    ensures exists m :: m in g && Coalesced(g).entity == m.entity && Coalesced(g).ownerWidth == m.end - m.start
              && Coalesced(g).score == m.score && Coalesced(g).source == m.source
  {
    MinByLeast(g, OwnerKey);
  }

  lemma LogicalForFacts(ms: seq<Match>, e: string, length: int)
    requires ValidSpans(ms, length)
    ensures forall l :: l in LogicalFor(ms, e) ==> l.entity == e
    ensures Components(IvSet(EntitySorted(ms, e), MIv), LogicalIvs(LogicalFor(ms, e)))
  {
    var xs := EntitySorted(ms, e);
    var gs := Sweep(xs, MIv);
    EntityOrdered(ms, e, length);
    EntitySortedFacts(ms, e);
    SweepComponents(xs, MIv);
    SweepMembers(xs, MIv);
    forall k | 0 <= k < |gs| ensures Coalesced(gs[k]).entity == e && LIv(Coalesced(gs[k])) == Hull(gs[k], MIv) {
      CoalescedFacts(gs[k]);
    }
    assert LogicalIvs(LogicalFor(ms, e)) == Hulls(gs, MIv);
  }

  function LogicalIvs(ls: seq<Logical>): (r: seq<Iv>)
    ensures |r| == |ls| && forall k :: 0 <= k < |ls| ==> r[k] == LIv(ls[k])
  {
    seq(|ls|, k requires 0 <= k < |ls| => LIv(ls[k]))
  }

  // ---- all logical detections ----

  lemma {:induction false} GatherMembers<T(!new)>(es: seq<string>, f: string -> seq<T>, l: T)
    ensures l in Gather(es, f) <==> exists e :: e in es && l in f(e)
  {
    if es != [] {
      var n := |es| - 1;
      GatherMembers(es[..n], f, l);
      assert es == es[..n] + [es[n]];
    }
  }

  /** A detection is logical exactly when its own entity's coalescing yields it. */
  lemma LogicalMembers(ms: seq<Match>, length: int)
    requires ValidSpans(ms, length)
    ensures forall l :: l in LogicalOf(ms) <==> l in LogicalFor(ms, l.entity)
  {
    var es := SortedNames(EntitiesOf(ms));
    var all := LogicalForAll(ms, es);
    SortMembers(all, LogicalKey);
    forall l ensures l in LogicalOf(ms) <==> l in LogicalFor(ms, l.entity) {
      GatherMembers(es, (e: string) => LogicalFor(ms, e), l);
      if l in LogicalOf(ms) {
        var e :| e in es && l in LogicalFor(ms, e);
        LogicalForFacts(ms, e, length);
      }
      if l in LogicalFor(ms, l.entity) {
        LogicalOrigin(ms, l, length);
        assert l.entity in es;
      }
    }
  }

  /** The group a logical detection was coalesced from: matches of its entity. */
  lemma LogicalGroup(ms: seq<Match>, l: Logical, length: int) returns (g: seq<Match>)
    requires ValidSpans(ms, length) && l in LogicalFor(ms, l.entity)
    ensures g != [] && Coalesced(g) == l
    ensures forall m :: m in g ==> m in ms && m.entity == l.entity
  {
    var xs := EntitySorted(ms, l.entity);
    var gs := Sweep(xs, MIv);
    var k :| 0 <= k < |gs| && Coalesced(gs[k]) == l;
    g := gs[k];
    EntityOrdered(ms, l.entity, length);
    EntitySortedFacts(ms, l.entity);
    SweepMembers(xs, MIv);
    forall m | m in g ensures m in ms && m.entity == l.entity {
      assert m in xs;
    }
  }

  /** Every logical detection has a raw match of its entity inside it. */
  lemma LogicalOrigin(ms: seq<Match>, l: Logical, length: int)
    requires ValidSpans(ms, length) && l in LogicalFor(ms, l.entity)
    ensures exists m :: m in ms && m.entity == l.entity && Within(MIv(m), LIv(l))
    ensures l.entity in EntitiesOf(ms)
    ensures 0.0 <= l.score <= 1.0 && 0 <= l.start < l.end <= length
  {
    var g := LogicalGroup(ms, l, length);
    HullBounds(g, MIv);
    CoalescedFacts(g);
    forall i | 0 <= i < |g| ensures ValidSpan(g[i], length) {
      assert g[i] in ms;
    }
    assert g[0] in g && Within(MIv(g[0]), LIv(l));
    var i :| 0 <= i < |ms| && ms[i] == g[0];
    assert ms[i].entity in EntitiesOf(ms);
  }

  /** Every raw match lies inside a logical detection of its entity. */
  lemma RawHoused(ms: seq<Match>, m: Match, length: int) returns (l: Logical)
    requires ValidSpans(ms, length) && m in ms
    ensures l in LogicalFor(ms, m.entity) && l.entity == m.entity && Within(MIv(m), LIv(l))
  {
    var xs := EntitySorted(ms, m.entity);
    EntitySortedFacts(ms, m.entity);
    LogicalForFacts(ms, m.entity, length);
    var i :| 0 <= i < |xs| && xs[i] == m;
    assert MIv(xs[i]) in IvSet(xs, MIv);
    var k := House(IvSet(xs, MIv), LogicalIvs(LogicalFor(ms, m.entity)), MIv(m));
    l := LogicalFor(ms, m.entity)[k];
  }

  /** Each logical detection is tight and seamless over the raw matches. */
  lemma LogicalSeamless(ms: seq<Match>, l: Logical, length: int)
    requires ValidSpans(ms, length) && l in LogicalFor(ms, l.entity)
    ensures Tight(RawIvs(ms), LIv(l)) && Seamless(RawIvs(ms), LIv(l))
  {
    var xs := EntitySorted(ms, l.entity);
    var S, R := IvSet(xs, MIv), LogicalIvs(LogicalFor(ms, l.entity));
    LogicalForFacts(ms, l.entity, length);
    EntitySortedFacts(ms, l.entity);
    var k :| 0 <= k < |LogicalFor(ms, l.entity)| && LogicalFor(ms, l.entity)[k] == l;
    assert Tight(S, R[k]) && Seamless(S, R[k]);
    assert S <= RawIvs(ms) by {
      forall a | a in S ensures a in RawIvs(ms) {
        var i :| 0 <= i < |xs| && MIv(xs[i]) == a;
        assert xs[i] in ms;
        var j :| 0 <= j < |ms| && ms[j] == xs[i];
        assert MIv(ms[j]) in RawIvs(ms);
      }
    }
    SeamlessGrows(S, RawIvs(ms), LIv(l));
  }

  lemma SeamlessGrows(S: set<Iv>, S': set<Iv>, r: Iv)
    requires S <= S' && Tight(S, r) && Seamless(S, r)
    ensures Tight(S', r) && Seamless(S', r)
  {
    forall p | Straddles(r, p) ensures Bridged(S', p) {
      assert Bridged(S, p);
    }
  }

  ghost predicate Sheltered(a: Iv, mid: set<Iv>) {
    exists l :: l in mid && Within(a, l)
  }

  lemma HouseCompose(mid: set<Iv>, R: seq<Iv>, a: Iv)
    requires Components(mid, R) && Sheltered(a, mid)
    ensures Housed(a, R)
  {
    var l :| l in mid && Within(a, l);
    var k := House(mid, R, l);
    assert Within(a, R[k]);
  }

  lemma RegionCompose(raw: set<Iv>, mid: set<Iv>, r: Iv)
    requires Tight(mid, r) && Seamless(mid, r)
    requires forall l {:trigger Tight(raw, l)} :: l in mid ==> Tight(raw, l)
    requires forall l {:trigger Seamless(raw, l)} :: l in mid ==> Seamless(raw, l)
    ensures Tight(raw, r) && Seamless(raw, r)
  {
    var a :| a in mid && a.lo == r.lo && a.hi <= r.hi;
    var b :| b in mid && b.hi == r.hi && r.lo <= b.lo;
    assert Tight(raw, a) && Tight(raw, b);
    forall p | Straddles(r, p) ensures Bridged(raw, p) {
      assert Bridged(mid, p);
      var l :| l in mid && Straddles(l, p);
      assert Seamless(raw, l);
    }
  }

  lemma ComposeHouses(raw: set<Iv>, mid: set<Iv>, R: seq<Iv>)
    requires Components(mid, R)
    requires forall a {:trigger Sheltered(a, mid)} :: a in raw ==> Sheltered(a, mid)
    ensures forall a {:trigger Housed(a, R)} :: a in raw ==> Housed(a, R)
  {
    forall a | a in raw ensures Housed(a, R) {
      assert Sheltered(a, mid);
      HouseCompose(mid, R, a);
    }
  }

  lemma ComposeRegions(raw: set<Iv>, mid: set<Iv>, R: seq<Iv>)
    requires Components(mid, R)
    requires forall l {:trigger Tight(raw, l)} :: l in mid ==> Tight(raw, l)
    requires forall l {:trigger Seamless(raw, l)} :: l in mid ==> Seamless(raw, l)
    ensures forall k {:trigger Tight(raw, R[k])} {:trigger Seamless(raw, R[k])} :: 0 <= k < |R| ==>
              Tight(raw, R[k]) && Seamless(raw, R[k])
  {
    forall k | 0 <= k < |R| ensures Tight(raw, R[k]) && Seamless(raw, R[k]) {
      assert Tight(mid, R[k]) && Seamless(mid, R[k]);
      RegionCompose(raw, mid, R[k]);
    }
  }

  /** Components of tight, seamless super-intervals are components of the intervals below them. */
  lemma ComponentsCompose(raw: set<Iv>, mid: set<Iv>, R: seq<Iv>)
    requires Components(mid, R)
    requires forall a {:trigger Sheltered(a, mid)} :: a in raw ==> Sheltered(a, mid)
    requires forall l {:trigger Tight(raw, l)} :: l in mid ==> Tight(raw, l)
    requires forall l {:trigger Seamless(raw, l)} :: l in mid ==> Seamless(raw, l)
    ensures Components(raw, R)
  {
    ComposeHouses(raw, mid, R);
    ComposeRegions(raw, mid, R);
  }

  lemma LogicalSorted(ms: seq<Match>)
    ensures forall l :: l in Sort(LogicalOf(ms), GroupKey) <==> l in LogicalOf(ms)
    ensures Sorted(Sort(LogicalOf(ms), GroupKey), GroupKey)
  {
    SortFacts(LogicalOf(ms), GroupKey);
    SortMembers(LogicalOf(ms), GroupKey);
  }

  lemma GroupKeyStarts(a: Logical, b: Logical)
    requires Leq(GroupKey(a), GroupKey(b))
    ensures a.start <= b.start
  {
    assert GroupKey(a)[0].n == a.start as real && GroupKey(b)[0].n == b.start as real;
  }

  lemma LogicalOrdered(ms: seq<Match>, length: int)
    requires ValidSpans(ms, length)
    ensures forall l :: l in Sort(LogicalOf(ms), GroupKey) <==> l in LogicalOf(ms)
    ensures Ordered(Sort(LogicalOf(ms), GroupKey), LIv)
  {
    var xs := Sort(LogicalOf(ms), GroupKey);
    LogicalSorted(ms);
    LogicalMembers(ms, length);
    forall i | 0 <= i < |xs| ensures xs[i].start < xs[i].end {
      assert xs[i] in LogicalOf(ms);
      LogicalOrigin(ms, xs[i], length);
    }
    forall i, j | 0 <= i < j < |xs| ensures xs[i].start <= xs[j].start {
      GroupKeyStarts(xs[i], xs[j]);
    }
  }

  lemma RawNonEmpty(ms: seq<Match>, length: int)
    requires ValidSpans(ms, length)
    ensures NonEmpty(RawIvs(ms))
  {
  }

  /** The effective regions are the components of the raw matches. */
  lemma RegionsAreComponents(ms: seq<Match>, length: int)
    requires ValidSpans(ms, length)
    ensures Components(RawIvs(ms), RegionsOf(ms))
  {
    var xs := Sort(LogicalOf(ms), GroupKey);
    var mid := IvSet(xs, LIv);
    LogicalOrdered(ms, length);
    LogicalMembers(ms, length);
    SweepComponents(xs, LIv);
    forall a | a in RawIvs(ms) ensures Sheltered(a, mid) {
      var i :| 0 <= i < |ms| && MIv(ms[i]) == a;
      var l := RawHoused(ms, ms[i], length);
      assert l in xs;
      var j :| 0 <= j < |xs| && xs[j] == l;
      assert LIv(xs[j]) in mid;
    }
    forall l | l in mid ensures Tight(RawIvs(ms), l) && Seamless(RawIvs(ms), l) {
      var j :| 0 <= j < |xs| && LIv(xs[j]) == l;
      assert xs[j] in LogicalOf(ms);
      LogicalSeamless(ms, xs[j], length);
    }
    ComponentsCompose(RawIvs(ms), mid, RegionsOf(ms));
  }

  /** Coalescing per entity first changes no component: one direct sweep of the raw matches agrees. */
  lemma CoalescingChangesNoRegion(ms: seq<Match>, length: int)
    requires ValidSpans(ms, length)
    ensures RegionsOf(ms) == Hulls(Sweep(Sort(ms, SpanKey), MIv), MIv)
  {
    var xs := Sort(ms, SpanKey);
    SortFacts(ms, SpanKey);
    SortMembers(ms, SpanKey);
    ValidSubset(ms, xs, length);
    SpanKeyOrders(xs, length);
    SweepComponents(xs, MIv);
    assert IvSet(xs, MIv) == RawIvs(ms) by {
      SameIvs(xs, ms);
      SameIvs(ms, xs);
    }
    RegionsAreComponents(ms, length);
    RawNonEmpty(ms, length);
    ComponentsUnique(RawIvs(ms), RegionsOf(ms), Hulls(Sweep(xs, MIv), MIv));
  }

  lemma SameIvs(xs: seq<Match>, ys: seq<Match>)
    requires forall m :: m in xs ==> m in ys
    ensures RawIvs(xs) <= RawIvs(ys)
  {
    forall a | a in RawIvs(xs) ensures a in RawIvs(ys) {
      var i :| 0 <= i < |xs| && MIv(xs[i]) == a;
      assert xs[i] in ys;
      var j :| 0 <= j < |ys| && ys[j] == xs[i];
      assert MIv(ys[j]) in RawIvs(ys);
    }
  }

  /** Two raw matches end in one effective region exactly when a chain of overlapping raw matches joins them. */
  lemma SameRegionIffConnected(ms: seq<Match>, length: int, m1: Match, m2: Match)
    requires ValidSpans(ms, length) && m1 in ms && m2 in ms
    ensures Connected(RawIvs(ms), MIv(m1), MIv(m2)) <==>
            exists k :: 0 <= k < |RegionsOf(ms)| && Within(MIv(m1), RegionsOf(ms)[k])
              && Within(MIv(m2), RegionsOf(ms)[k])
  {
    RegionsAreComponents(ms, length);
    RawNonEmpty(ms, length);
    var i :| 0 <= i < |ms| && ms[i] == m1;
    var j :| 0 <= j < |ms| && ms[j] == m2;
    assert MIv(ms[i]) in RawIvs(ms) && MIv(ms[j]) in RawIvs(ms);
    ConnectedIffSameRegion(RawIvs(ms), RegionsOf(ms), MIv(m1), MIv(m2));
  }

  /** A character is in some effective region exactly when a raw match covers it. */
  lemma CoveredIffMatched(ms: seq<Match>, length: int, c: int)
    requires ValidSpans(ms, length)
    ensures (exists k :: 0 <= k < |RegionsOf(ms)| && RegionsOf(ms)[k].lo <= c < RegionsOf(ms)[k].hi)
            <==> exists i :: 0 <= i < |ms| && ms[i].start <= c < ms[i].end
  {
    RegionsAreComponents(ms, length);
    RawNonEmpty(ms, length);
    CoverageExact(RawIvs(ms), RegionsOf(ms), c);
    if a :| a in RawIvs(ms) && a.lo <= c < a.hi {
      var i :| 0 <= i < |ms| && MIv(ms[i]) == a;
      assert ms[i].start <= c < ms[i].end;
    }
    if i :| 0 <= i < |ms| && ms[i].start <= c < ms[i].end {
      assert MIv(ms[i]) in RawIvs(ms);
    }
  }
}
