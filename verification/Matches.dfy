/**
 * Detector output, its per-entity coalescing and the cross-entity overlap groups, as functions of
 * the match list. `ActionPlanner` (Planner.dfy) computes these step by step.
 */
module Matches {
  import opened Ordering
  import opened Spans
  import opened PolicyConfig

  datatype Match = Match(entity: string, start: int, end: int, score: real, source: string)

  /** Overlapping matches of one entity taken together: their union, and score, source and width of the best. */
  datatype Logical = Logical(entity: string, start: int, end: int, score: real, source: string, ownerWidth: int)

  function MIv(m: Match): Iv { Iv(m.start, m.end) }

  function LIv(l: Logical): Iv { Iv(l.start, l.end) }

  function AsMatch(l: Logical): Match { Match(l.entity, l.start, l.end, l.score, l.source) }

  predicate ValidSpan(m: Match, length: int) {
    && !(m.start < 0 || m.end > length || m.end <= m.start)
    && 0.0 <= m.score <= 1.0
  }

  ghost predicate ValidSpans(ms: seq<Match>, length: int) {
    forall i :: 0 <= i < |ms| ==> ValidSpan(ms[i], length)
  }

  // ---- sort and selection keys ----

  function SpanKey(m: Match): Key {
    [Num(m.start as real), Num(m.end as real), Num(-m.score), Str(m.source)]
  }

  function OwnerKey(m: Match): Key {
    [Num(-((m.end - m.start) as real)), Num(-m.score), Str(m.entity), Str(m.source), Num(m.start as real),
      Num(m.end as real)]
  }

  function LogicalKey(l: Logical): Key {
    [Num(l.start as real), Num(l.end as real), Str(l.entity)]
  }

  function GroupKey(l: Logical): Key {
    [Num(l.start as real), Num(l.end as real), Str(l.entity), Str(l.source)]
  }

  function WinnerKey(p: PolicySettings, rerouteAsBlock: bool): Logical -> Key {
    (l: Logical) => [
      Num(-(Strictness(Effective(p, l.entity, rerouteAsBlock)) as real)), Num(-(l.ownerWidth as real)), Num(-l.score),
      Str(l.entity), Str(l.source), Num(l.start as real), Num(l.end as real)]
  }

  // ---- coalescing one entity's matches ----

  function Dedup<T(==,!new)>(xs: seq<T>): (r: seq<T>)
    ensures forall x :: x in r <==> x in xs
    ensures forall i, j :: 0 <= i < j < |r| ==> r[i] != r[j]
  {
    if xs == [] then []
    else
      var n := |xs| - 1;
      var r := Dedup(xs[..n]);
      assert xs == xs[..n] + [xs[n]];
      if xs[n] in r then r else r + [xs[n]]
  }

  function OfEntity(ms: seq<Match>, e: string): (r: seq<Match>)
    ensures forall m :: m in r <==> m in ms && m.entity == e
  {
    if ms == [] then []
    else if ms[0].entity == e then [ms[0]] + OfEntity(ms[1..], e)
    else OfEntity(ms[1..], e)
  }

  function EntitiesOf(ms: seq<Match>): set<string> {
    set i | 0 <= i < |ms| :: ms[i].entity
  }

  function Coalesced(g: seq<Match>): Logical
    requires g != []
  {
    var owner := MinBy(g, OwnerKey);
    Logical(owner.entity, MinLo(g, MIv), MaxHi(g, MIv), owner.score, owner.source, owner.end - owner.start)
  }

  function CoalescedAll(gs: seq<seq<Match>>): (r: seq<Logical>)
    requires forall k :: 0 <= k < |gs| ==> gs[k] != []
    ensures |r| == |gs| && forall k :: 0 <= k < |gs| ==> r[k] == Coalesced(gs[k])
  {
    seq(|gs|, k requires 0 <= k < |gs| => Coalesced(gs[k]))
  }

  function EntitySorted(ms: seq<Match>, e: string): seq<Match> {
    Sort(OfEntity(Dedup(ms), e), SpanKey)
  }

  function LogicalFor(ms: seq<Match>, e: string): seq<Logical> {
    CoalescedAll(Sweep(EntitySorted(ms, e), MIv))
  }

  function Gather<T>(es: seq<string>, f: string -> seq<T>): seq<T> {
    if es == [] then [] else Gather(es[..|es| - 1], f) + f(es[|es| - 1])
  }

  function LogicalForAll(ms: seq<Match>, es: seq<string>): seq<Logical> {
    Gather(es, (e: string) => LogicalFor(ms, e))
  }

  /** All logical detections, in span order. */
  ghost function LogicalOf(ms: seq<Match>): seq<Logical> {
    Sort(LogicalForAll(ms, SortedNames(EntitiesOf(ms))), LogicalKey)
  }

  // ---- overlap groups across entities ----

  function EntityTypes(g: seq<Logical>): set<string> {
    set i | 0 <= i < |g| :: g[i].entity
  }

  function Winner(p: PolicySettings, rerouteAsBlock: bool, g: seq<Logical>): Logical
    requires g != []
  {
    MinBy(g, WinnerKey(p, rerouteAsBlock))
  }

  function Selected(p: PolicySettings, rerouteAsBlock: bool, g: seq<Logical>): Match
    requires g != []
  {
    var w := Winner(p, rerouteAsBlock, g);
    Match(w.entity, MinLo(g, LIv), MaxHi(g, LIv), w.score, w.source)
  }

  function SelectedAll(p: PolicySettings, rerouteAsBlock: bool, gs: seq<seq<Logical>>): (r: seq<Match>)
    requires forall k :: 0 <= k < |gs| ==> gs[k] != []
    ensures |r| == |gs| && forall k :: 0 <= k < |gs| ==> r[k] == Selected(p, rerouteAsBlock, gs[k])
  {
    if gs == [] then []
    else SelectedAll(p, rerouteAsBlock, gs[..|gs| - 1]) + [Selected(p, rerouteAsBlock, gs[|gs| - 1])]
  }

  function Overlapped(g: seq<Logical>): nat {
    if |EntityTypes(g)| > 1 then 1 else 0
  }

  function OverlapCount(gs: seq<seq<Logical>>): nat {
    if gs == [] then 0 else OverlapCount(gs[..|gs| - 1]) + Overlapped(gs[|gs| - 1])
  }

  ghost function Groups(ms: seq<Match>): seq<seq<Logical>> {
    Sweep(Sort(LogicalOf(ms), GroupKey), LIv)
  }

  ghost function EffectiveOf(p: PolicySettings, rerouteAsBlock: bool, ms: seq<Match>): seq<Match> {
    SelectedAll(p, rerouteAsBlock, Groups(ms))
  }
}
