/** The policy service's own loops over mutable leaf plans, proved against the pipeline function. */
module PolicyService {
  import opened Ordering
  import opened PolicyConfig
  import opened Matches
  import opened Rewrite
  import opened Planner
  import opened Contracts
  import opened Policy
  import opened Verdict

  /** A fully evaluated request whose fields later stages still change. */
  class PolicyResult {
    var decision: Decision
    var remoteAllowed: bool
    var segments: Option<seq<Segment>>
    var entities: seq<string>
    var entityCounts: map<string, int>
    var appliedActions: set<Action>
    var rows: seq<Row>
    var source: Source
    var scanPerformed: bool
    var durationMs: Option<int>
    var overlapCount: int
    var cachedDecisionApplied: bool
    var routeClass: Option<string>
    var reversal: map<string, string>
    var safetyRule: Option<string>
    var requestNotices: seq<string>
    var responseNotices: seq<string>
    var textLeafCount: nat

    constructor (v: Result)
      ensures Data() == v
    {
      decision, remoteAllowed, segments, entities, entityCounts :=
        v.decision, v.remoteAllowed, v.segments, v.entities, v.entityCounts;
      appliedActions, rows, source, scanPerformed, durationMs :=
        v.appliedActions, v.rows, v.source, v.scanPerformed, v.durationMs;
      overlapCount, cachedDecisionApplied, routeClass, reversal :=
        v.overlapCount, v.cachedDecisionApplied, v.routeClass, v.reversal;
      safetyRule, requestNotices, responseNotices, textLeafCount :=
        v.safetyRule, v.requestNotices, v.responseNotices, v.textLeafCount;
    }

    ghost function Data(): Result
      reads this
    {
      Result(
        decision, remoteAllowed, segments, entities, entityCounts, appliedActions, rows, source, scanPerformed,
        durationMs, overlapCount, cachedDecisionApplied, routeClass, reversal, safetyRule, requestNotices,
        responseNotices, textLeafCount)
    }
  }

  /** An outcome is the specified one, errors included; a result is compared by its value. */
  ghost predicate Gives(out: Outcome<PolicyResult>, expected: Outcome<Result>)
    reads if out.Ok? then {out.value} else {}
  {
    expected == if out.Ok? then Ok(out.value.Data()) else Raised(out.error)
  }

  // ---- merging dictionaries ----

  method MergeCountsInto(target: map<string, int>, source: map<string, int>) returns (merged: map<string, int>)
    ensures merged == MergeCounts(target, source)
  {
    merged := target;
    var rest := source.Keys;
    while rest != {}
      invariant rest <= source.Keys && merged.Keys == target.Keys + (source.Keys - rest)
      invariant forall k :: k in merged ==> merged[k] == Get(target, k) + (if k in rest then 0 else Get(source, k))
    {
      var k :| k in rest;
      merged := merged[k := Get(merged, k) + source[k]];
      rest := rest - {k};
    }
  }

  method MergeReversalInto(target: map<string, string>, source: map<string, string>)
    returns (merged: Option<map<string, string>>)
    ensures merged == MergeReversal(target, source)
  {
    var m := target;
    var rest := source.Keys;
    while rest != {}
      invariant rest <= source.Keys && m.Keys == target.Keys + (source.Keys - rest)
      invariant forall k :: k in m ==> m[k] == if k in source && k !in rest then source[k] else target[k]
      invariant forall k :: k in source && k !in rest && k in target ==> target[k] == source[k]
    {
      var k :| k in rest;
      if k in m && m[k] != source[k] {
        assert k in source && k in target && target[k] != source[k];
        return None;
      }
      m := m[k := source[k]];
      rest := rest - {k};
    }
    assert m == target + source;
    merged := Some(m);
  }

  // ---- report rows ----

  /** The four dictionaries report rows are collected in. */
  datatype Tallies = Tallies(
    actions: map<string, Action>, detected: map<string, int>, transformed: map<string, int>,
    values: map<string, set<string>>)

  predicate TallyKeys(t: Tallies, names: set<string>) {
    t.actions.Keys == names && t.detected.Keys == names && t.transformed.Keys == names && t.values.Keys == names
  }

  ghost predicate Tallied(p: PolicySettings, rab: bool, ds: seq<PlanData>, t: Tallies) {
    && TallyKeys(t, TotalCounts(ds).Keys)
    && forall e :: e in t.detected ==> TallyAt(p, rab, ds, t, e)
  }

  ghost predicate TallyAt(p: PolicySettings, rab: bool, ds: seq<PlanData>, t: Tallies, e: string) {
    && e in t.actions && e in t.detected && e in t.transformed && e in t.values
    && t.actions[e] == Effective(p, e, rab)
    && t.detected[e] == SumDetected(ds, e)
    && t.transformed[e] == SumTransformed(ds, e)
    && t.values[e] == AllValues(ds, e)
  }

  lemma {:induction false} UncountedSums(ds: seq<PlanData>, e: string)
    requires e !in TotalCounts(ds)
    ensures SumDetected(ds, e) == 0 && SumTransformed(ds, e) == 0 && AllValues(ds, e) == {}
  {
    if ds != [] {
      UncountedSums(ds[..|ds| - 1], e);
    }
  }

  /** What one leaf adds for one entity. */
  lemma SumsNext(ds: seq<PlanData>, d: PlanData, e: string)
    ensures TotalCounts(ds + [d]).Keys == TotalCounts(ds).Keys + d.entityCounts.Keys
    ensures SumDetected(ds + [d], e) == SumDetected(ds, e) + Get(d.entityCounts, e)
    ensures SumTransformed(ds + [d], e) == SumTransformed(ds, e) +
              (if e in d.entityCounts then Get(d.transformedCounts, e) else 0)
    ensures AllValues(ds + [d], e) == AllValues(ds, e) +
              (if e in d.entityCounts then GetSet(d.transformedValues, e) else {})
  {
    assert (ds + [d])[..|ds|] == ds;
  }

  /** A plan's actions are the effective ones. */
  ghost predicate ActionsAgree(p: PolicySettings, rab: bool, d: PlanData) {
    d.entityActions.Keys == d.entityCounts.Keys && forall e :: e in d.entityActions ==>
      d.entityActions[e] == Effective(p, e, rab)
  }

  /** The leaves an entity is counted over when some of a leaf's entities are still to visit. */
  ghost function Counted(ds: seq<PlanData>, d: PlanData, rest: set<string>, e: string): seq<PlanData> {
    if e in d.entityCounts && e !in rest then ds + [d] else ds
  }

  /** Partway through a leaf: the entities still to visit carry the earlier leaves' totals. */
  ghost predicate PartTallied(
    p: PolicySettings, rab: bool, ds: seq<PlanData>, d: PlanData, rest: set<string>, t: Tallies) {
    && TallyKeys(t, TotalCounts(ds).Keys + (d.entityCounts.Keys - rest))
    && forall e :: e in t.detected ==> TallyAt(p, rab, Counted(ds, d, rest, e), t, e)
  }

  function WithEntity(
    t: Tallies, e: string, action: Action, detected: int, transformed: int, values: set<string>): Tallies {
    Tallies(
      t.actions[e := action],
      t.detected[e := Get(t.detected, e) + detected],
      t.transformed[e := Get(t.transformed, e) + transformed],
      t.values[e := GetSet(t.values, e) + values])
  }

  /** What one leaf's entity adds to the tallies of the leaves before it. */
  ghost function WithLeafEntity(p: PolicySettings, rab: bool, t: Tallies, d: PlanData, e: string): Tallies
    requires e in d.entityCounts
  {
    WithEntity(t, e, Effective(p, e, rab), d.entityCounts[e], Get(d.transformedCounts, e),
      GetSet(d.transformedValues, e))
  }

  lemma NewEntityTallied(p: PolicySettings, rab: bool, ds: seq<PlanData>, d: PlanData, t: Tallies, e: string)
    requires e in d.entityCounts && e !in TotalCounts(ds)
    requires e !in t.actions && e !in t.detected && e !in t.transformed && e !in t.values
    ensures TallyAt(p, rab, ds + [d], WithLeafEntity(p, rab, t, d, e), e)
  {
    SumsNext(ds, d, e);
    UncountedSums(ds, e);
  }

  lemma KnownEntityTallied(p: PolicySettings, rab: bool, ds: seq<PlanData>, d: PlanData, t: Tallies, e: string)
    requires e in d.entityCounts && TallyAt(p, rab, ds, t, e)
    ensures TallyAt(p, rab, ds + [d], WithLeafEntity(p, rab, t, d, e), e)
  {
    SumsNext(ds, d, e);
  }

  lemma EntityTallied(
    p: PolicySettings, rab: bool, ds: seq<PlanData>, d: PlanData, rest: set<string>, t: Tallies, e: string)
    requires PartTallied(p, rab, ds, d, rest, t) && e in rest && rest <= d.entityCounts.Keys
    ensures e in t.actions ==> t.actions[e] == Effective(p, e, rab)
    ensures TallyAt(p, rab, ds + [d], WithLeafEntity(p, rab, t, d, e), e)
  {
    if e in t.detected {
      KnownEntityTallied(p, rab, ds, d, t, e);
    } else {
      NewEntityTallied(p, rab, ds, d, t, e);
    }
  }

  lemma OtherTallied(
    p: PolicySettings, rab: bool, ds: seq<PlanData>, t: Tallies, e: string, a: Action, n: int, m: int, vs: set<string>,
    x: string)
    requires x != e && TallyAt(p, rab, ds, t, x)
    ensures TallyAt(p, rab, ds, WithEntity(t, e, a, n, m, vs), x)
  {
  }

  lemma VisitedNext(known: set<string>, all: set<string>, rest: set<string>, e: string)
    requires e in rest && rest <= all
    ensures known + (all - (rest - {e})) == (known + (all - rest)) + {e}
  {
  }

  lemma KeysNext(
    ds: seq<PlanData>, d: PlanData, rest: set<string>, t: Tallies, e: string, a: Action, n: int, m: int,
    vs: set<string>)
    requires TallyKeys(t, TotalCounts(ds).Keys + (d.entityCounts.Keys - rest)) && e in rest
    requires rest <= d.entityCounts.Keys
    ensures TallyKeys(WithEntity(t, e, a, n, m, vs), TotalCounts(ds).Keys + (d.entityCounts.Keys - (rest - {e})))
  {
    VisitedNext(TotalCounts(ds).Keys, d.entityCounts.Keys, rest, e);
  }

  /** Once an entity's tally is right, only the rest of the leaf's entities remain. */
  lemma OthersTallied(
    p: PolicySettings, rab: bool, ds: seq<PlanData>, d: PlanData, rest: set<string>, t: Tallies, e: string,
    a: Action, n: int, m: int, vs: set<string>)
    requires PartTallied(p, rab, ds, d, rest, t) && e in rest && rest <= d.entityCounts.Keys
    requires TallyAt(p, rab, ds + [d], WithEntity(t, e, a, n, m, vs), e)
    ensures PartTallied(p, rab, ds, d, rest - {e}, WithEntity(t, e, a, n, m, vs))
  {
    var next := WithEntity(t, e, a, n, m, vs);
    KeysNext(ds, d, rest, t, e, a, n, m, vs);
    forall x | x in next.detected ensures TallyAt(p, rab, Counted(ds, d, rest - {e}, x), next, x) {
      if x != e {
        OtherTallied(p, rab, Counted(ds, d, rest, x), t, e, a, n, m, vs, x);
      }
    }
  }

  method AddEntity(
    ghost p: PolicySettings, ghost rab: bool, ghost ds: seq<PlanData>, plan: LeafPlan, ghost rest: set<string>,
    e: string, t: Tallies) returns (next: Tallies)
    requires ActionsAgree(p, rab, plan.Data()) && e in rest && rest <= plan.entityCounts.Keys
    requires PartTallied(p, rab, ds, plan.Data(), rest, t)
    ensures PartTallied(p, rab, ds, plan.Data(), rest - {e}, next)
  {
    EntityTallied(p, rab, ds, plan.Data(), rest, t, e);
    if e !in plan.entityActions {
      assert false;  // every detected entity has an action
    }
    var action := plan.entityActions[e];
    if e in t.actions && t.actions[e] != action {
      assert false;  // one entity has one effective action
    }
    var n, m, vs := plan.entityCounts[e], Get(plan.transformedCounts, e), GetSet(plan.transformedValues, e);
    next := WithEntity(t, e, action, n, m, vs);
    OthersTallied(p, rab, ds, plan.Data(), rest, t, e, action, n, m, vs);
  }

  method AddLeaf(ghost p: PolicySettings, ghost rab: bool, ghost ds: seq<PlanData>, plan: LeafPlan, t: Tallies)
    returns (next: Tallies)
    requires ActionsAgree(p, rab, plan.Data()) && Tallied(p, rab, ds, t)
    ensures Tallied(p, rab, ds + [plan.Data()], next)
  {
    ghost var d := plan.Data();
    next := t;
    var rest := plan.entityCounts.Keys;
    while rest != {}
      invariant rest <= plan.entityCounts.Keys && PartTallied(p, rab, ds, d, rest, next)
    {
      var e :| e in rest;
      next := AddEntity(p, rab, ds, plan, rest, e, next);
      rest := rest - {e};
    }
    PartDone(p, rab, ds, d, next);
  }

  lemma PartDone(p: PolicySettings, rab: bool, ds: seq<PlanData>, d: PlanData, t: Tallies)
    requires PartTallied(p, rab, ds, d, {}, t)
    ensures Tallied(p, rab, ds + [d], t)
  {
    SumsNext(ds, d, "");
    assert TotalCounts(ds).Keys + (d.entityCounts.Keys - {}) == TotalCounts(ds + [d]).Keys;
    forall e | e in t.detected ensures TallyAt(p, rab, ds + [d], t, e) {
      DoneTally(p, rab, ds, d, t, e);
    }
  }

  lemma DoneTally(p: PolicySettings, rab: bool, ds: seq<PlanData>, d: PlanData, t: Tallies, e: string)
    requires TallyAt(p, rab, Counted(ds, d, {}, e), t, e)
    ensures TallyAt(p, rab, ds + [d], t, e)
  {
    if e !in d.entityCounts {
      UntouchedTally(p, rab, ds, d, t, e);
    }
  }

  lemma UntouchedTally(p: PolicySettings, rab: bool, ds: seq<PlanData>, d: PlanData, t: Tallies, e: string)
    requires TallyAt(p, rab, ds, t, e) && e !in d.entityCounts
    ensures TallyAt(p, rab, ds + [d], t, e)
  {
    SumsNext(ds, d, e);
  }

  ghost function Datas(plans: seq<LeafPlan>): (ds: seq<PlanData>)
    reads plans
    ensures |ds| == |plans| && forall i :: 0 <= i < |ds| ==> ds[i] == plans[i].Data()
  {
    seq(|plans|, i requires 0 <= i < |plans| reads plans => plans[i].Data())
  }

  lemma AllValidNext(segments: seq<Segment>, found: seq<seq<Match>>, i: nat)
    requires i < |segments| == |found| && AllValid(segments[..i], found[..i])
    requires ValidSpans(found[i], |segments[i].text|)
    ensures AllValid(segments[..i + 1], found[..i + 1])
  {
    forall k | 0 <= k < i + 1 ensures ValidSpans(found[k], |segments[k].text|) {
      if k < i {
        assert found[..i][k] == found[k] && segments[..i][k] == segments[k];
      }
    }
  }

  /** The failure of the leaves from i on is that of leaf i, or of those after it. */
  lemma FailureNext(segments: seq<Segment>, found: seq<seq<Match>>, i: nat)
    requires i < |segments| == |found|
    ensures ValidSpans(found[i], |segments[i].text|) ==>
              LeafFailure(segments[i..], found[i..]) == LeafFailure(segments[i + 1..], found[i + 1..])
    ensures !ValidSpans(found[i], |segments[i].text|) ==>
              LeafFailure(segments[i..], found[i..]) == SpanFailure(found[i], |segments[i].text|)
  {
    SpanFailures(found[i], |segments[i].text|);
    assert segments[i..][1..] == segments[i + 1..] && found[i..][1..] == found[i + 1..];
  }

  lemma DatasNext(plans: seq<LeafPlan>, plan: LeafPlan)
    ensures Datas(plans + [plan]) == Datas(plans) + [plan.Data()]
  {
  }

  method TallyLeaves(ghost p: PolicySettings, ghost rab: bool, plans: seq<LeafPlan>) returns (t: Tallies)
    requires forall i :: 0 <= i < |plans| ==> ActionsAgree(p, rab, plans[i].Data())
    ensures Tallied(p, rab, Datas(plans), t)
  {
    t := Tallies(map[], map[], map[], map[]);
    ghost var ds := Datas(plans);
    for i := 0 to |plans|
      invariant Tallied(p, rab, ds[..i], t)
    {
      PrefixNext(ds, i);
      t := AddLeaf(p, rab, ds[..i], plans[i], t);
    }
    assert ds[..|plans|] == ds;
  }

  function TallyRow(t: Tallies, e: string): Row
    requires e in t.actions && e in t.detected && e in t.transformed && e in t.values
  {
    Row(e, t.actions[e], t.detected[e], t.transformed[e], |t.values[e]|)
  }

  lemma RowTallied(p: PolicySettings, rab: bool, ds: seq<PlanData>, t: Tallies, e: string)
    requires Tallied(p, rab, ds, t) && e in t.detected
    ensures TallyRow(t, e) == RowFor(p, rab, ds, e)
  {
    assert TallyAt(p, rab, ds, t, e);
  }

  lemma RowsTallied(p: PolicySettings, rab: bool, ds: seq<PlanData>, t: Tallies, names: seq<string>, rows: seq<Row>)
    requires Tallied(p, rab, ds, t) && (forall e :: e in names ==> e in t.detected) && |rows| == |names|
    requires forall k :: 0 <= k < |rows| ==> names[k] in t.detected && rows[k] == TallyRow(t, names[k])
    ensures rows == RowsFor(p, rab, ds, names)
  {
    forall k | 0 <= k < |names| ensures rows[k] == RowsFor(p, rab, ds, names)[k] {
      RowTallied(p, rab, ds, t, names[k]);
    }
  }

  method RowsFrom(t: Tallies, names: seq<string>) returns (rows: seq<Row>)
    requires TallyKeys(t, t.detected.Keys) && forall e :: e in names ==> e in t.detected
    ensures |rows| == |names|
    ensures forall k :: 0 <= k < |rows| ==> names[k] in t.detected && rows[k] == TallyRow(t, names[k])
  {
    rows := [];
    for i := 0 to |names|
      invariant |rows| == i && forall k :: 0 <= k < i ==> rows[k] == TallyRow(t, names[k])
    {
      rows := rows + [TallyRow(t, names[i])];
    }
  }

  /** The rows the pipeline function specifies; neither consistency error can occur. */
  method ReportRowsOf(ghost p: PolicySettings, ghost rab: bool, plans: seq<LeafPlan>) returns (rows: seq<Row>)
    requires forall i :: 0 <= i < |plans| ==> ActionsAgree(p, rab, plans[i].Data())
    ensures rows == ReportRows(p, rab, Datas(plans))
  {
    ghost var ds := Datas(plans);
    var t := TallyLeaves(p, rab, plans);
    assert TallyKeys(t, TotalCounts(ds).Keys);
    var names := ActionPlanner.SortNames(t.detected.Keys);
    rows := RowsFrom(t, names);
    RowsTallied(p, rab, ds, t, names, rows);
  }

  // ---- preparing every leaf ----

  /** What is accumulated while leaves are prepared. */
  datatype Gathered = Gathered(
    entities: set<string>, counts: map<string, int>, routes: seq<string>, rerouted: set<string>, overlaps: nat)

  ghost function GatheredOf(ds: seq<PlanData>): Gathered {
    Gathered(AllEntities(ds), TotalCounts(ds), LeafRoutes(ds), AllRerouted(ds), TotalOverlaps(ds))
  }

  lemma GatheredNext(ds: seq<PlanData>, d: PlanData)
    ensures GatheredOf(ds + [d]) == Gathered(
              AllEntities(ds) + d.entities, MergeCounts(TotalCounts(ds), d.entityCounts),
              LeafRoutes(ds) + (if d.routeClass.Some? && d.routeClass.value != "" then [d.routeClass.value] else []),
              AllRerouted(ds) + d.rerouteEntities, TotalOverlaps(ds) + d.overlapCount)
  {
    assert (ds + [d])[..|ds|] == ds;
  }

  lemma PrefixNext<T>(xs: seq<T>, i: nat)
    requires i < |xs|
    ensures xs[..i + 1] == xs[..i] + [xs[i]]
  {
  }

  lemma AllPrefixes(segments: seq<Segment>, found: seq<seq<Match>>, ds: seq<PlanData>)
    requires |segments| == |found| == |ds|
    ensures ds[..|segments|] == ds && segments[..|segments|] == segments && found[..|segments|] == found
  {
  }

  twostate predicate AllNew(new plans: seq<LeafPlan>) {
    forall k :: 0 <= k < |plans| ==> fresh(plans[k])
  }

  twostate lemma NewNext(new plans: seq<LeafPlan>, new plan: LeafPlan)
    requires AllNew(plans) && fresh(plan)
    ensures AllNew(plans + [plan])
  {
  }

  twostate lemma AllFresh(new plans: seq<LeafPlan>)
    requires AllNew(plans)
    ensures fresh(plans)
  {
  }

  lemma DistinctNext(plans: seq<LeafPlan>, plan: LeafPlan)
    requires Distinct(plans) && plan !in plans
    ensures Distinct(plans + [plan])
  {
  }

  ghost predicate Distinct(plans: seq<LeafPlan>) {
    forall i, j :: 0 <= i < j < |plans| ==> plans[i] != plans[j]
  }

  class Pipeline {
    const v: Service
    const planner: ActionPlanner

    constructor (v: Service)
      ensures this.v == v && Valid()
    {
      this.v := v;
      planner := new ActionPlanner(v.policy, v.ops);
    }

    ghost predicate Valid() { planner.policy == v.policy && planner.ops == v.ops }

    /** One leaf prepared and added to what is gathered. */
    method PrepareLeaf(text: string, ms: seq<Match>, rab: bool, ghost ds: seq<PlanData>, ghost d: PlanData, g: Gathered)
      returns (plan: Outcome<LeafPlan>, next: Gathered)
      requires Valid() && g == GatheredOf(ds) && d == Prepared(v.policy, rab, text, ms)
      ensures plan.Ok? <==> ValidSpans(ms, |text|)
      ensures plan.Raised? ==> SpanFailure(ms, |text|) == Some(plan.error)
      ensures plan.Ok? ==> fresh(plan.value) && plan.value.Data() == d && next == GatheredOf(ds + [d])
    {
      next := g;
      plan := planner.Prepare(text, ms, rab);
      if plan.Ok? {
        next := AddGathered(plan.value, ds, g);
      }
    }

    static method AddGathered(plan: LeafPlan, ghost ds: seq<PlanData>, g: Gathered) returns (next: Gathered)
      requires g == GatheredOf(ds)
      ensures next == GatheredOf(ds + [plan.Data()])
    {
      GatheredNext(ds, plan.Data());
      var counts := MergeCountsInto(g.counts, plan.entityCounts);
      var routes := g.routes;
      if plan.routeClass.Some? && plan.routeClass.value != "" {
        routes := routes + [plan.routeClass.value];
      }
      next := Gathered(
        g.entities + plan.entities, counts, routes, g.rerouted + plan.rerouteEntities, g.overlaps + plan.overlapCount);
    }

    /** The first i leaves are prepared and gathered. */
    ghost predicate Gathering(
      segments: seq<Segment>, found: seq<seq<Match>>, ds: seq<PlanData>, plans: seq<LeafPlan>, g: Gathered, i: nat)
      reads plans
    {
      && i <= |segments| == |found| == |ds|
      && AllValid(segments[..i], found[..i])
      && LeafFailure(segments, found) == LeafFailure(segments[i..], found[i..])
      && Distinct(plans) && Datas(plans) == ds[..i] && g == GatheredOf(ds[..i])
    }

    lemma GatheringNext(
      segments: seq<Segment>, found: seq<seq<Match>>, ds: seq<PlanData>, plans: seq<LeafPlan>, g: Gathered, i: nat,
      plan: LeafPlan, next: Gathered)
      requires Gathering(segments, found, ds, plans, g, i) && i < |segments| && plan !in plans && plan.Data() == ds[i]
      requires ValidSpans(found[i], |segments[i].text|) && next == GatheredOf(ds[..i] + [ds[i]])
      ensures Gathering(segments, found, ds, plans + [plan], next, i + 1)
    {
      PrefixNext(ds, i);
      AllValidNext(segments, found, i);
      FailureNext(segments, found, i);
      DatasNext(plans, plan);
      DistinctNext(plans, plan);
    }

    lemma GatheringDone(
      segments: seq<Segment>, found: seq<seq<Match>>, ds: seq<PlanData>, plans: seq<LeafPlan>, g: Gathered)
      requires Gathering(segments, found, ds, plans, g, |segments|)
      ensures AllValid(segments, found) && Distinct(plans) && Datas(plans) == ds && g == GatheredOf(ds)
    {
      AllPrefixes(segments, found, ds);
    }

    /** The next leaf's plan joins the earlier ones. */
    method PrepareNext(
      segments: seq<Segment>, found: seq<seq<Match>>, rab: bool, ghost ds: seq<PlanData>, i: nat, plans: seq<LeafPlan>,
      g: Gathered)
      returns (r: Outcome<(LeafPlan, Gathered)>)
      requires Valid() && Gathering(segments, found, ds, plans, g, i) && i < |segments|
      requires ds[i] == Prepared(v.policy, rab, segments[i].text, found[i])
      ensures r.Ok? <==> ValidSpans(found[i], |segments[i].text|)
      ensures r.Raised? ==> LeafFailure(segments, found) == Some(r.error)
      ensures r.Ok? ==> fresh(r.value.0) && Gathering(segments, found, ds, plans + [r.value.0], r.value.1, i + 1)
    {
      var plan, next := PrepareLeaf(segments[i].text, found[i], rab, ds[..i], ds[i], g);
      if plan.Raised? {
        FailureNext(segments, found, i);
        return Raised(plan.error);
      }
      GatheringNext(segments, found, ds, plans, g, i, plan.value, next);
      r := Ok((plan.value, next));
    }

    /** One plan per leaf with everything gathered from them, or the failure of the first invalid leaf. */
    method PrepareLeafPlans(segments: seq<Segment>, found: seq<seq<Match>>, rab: bool)
      returns (r: Outcome<(seq<LeafPlan>, Gathered)>)
      requires Valid() && |segments| == |found|
      ensures r.Ok? <==> AllValid(segments, found)
      ensures r.Raised? ==> LeafFailure(segments, found) == Some(r.error)
      ensures r.Ok? ==>
                && fresh(r.value.0) && Distinct(r.value.0)
                && Datas(r.value.0) == Plans(v.policy, rab, segments, found)
                && r.value.1 == GatheredOf(Plans(v.policy, rab, segments, found))
    {
      var plans: seq<LeafPlan> := [];
      var g := Gathered({}, map[], [], {}, 0);
      ghost var ds := Plans(v.policy, rab, segments, found);
      for i := 0 to |segments|
        invariant AllNew(plans) && Gathering(segments, found, ds, plans, g, i)
      {
        var next := PrepareNext(segments, found, rab, ds, i, plans, g);
        if next.Raised? {
          return Raised(next.error);
        }
        NewNext(plans, next.value.0);
        plans, g := plans + [next.value.0], next.value.1;
      }
      GatheringDone(segments, found, ds, plans, g);
      AllFresh(plans);
      r := Ok((plans, g));
    }

    // ---- transforming every leaf ----

    /** Leaves before position i are transformed and merged; the rest are as prepared. */
    ghost predicate PartTransformed(
      now: seq<PlanData>, ds: seq<PlanData>, nonce: string, i: nat, actions: set<Action>, reversal: map<string, string>)
      requires AllFit(ds) && |now| == |ds| && i <= |ds|
    {
      && (forall k :: i <= k < |ds| ==> now[k] == ds[k])
      && TransformAll(v, nonce, ds[..i]) == Some((now[..i], reversal))
      && actions == AllActions(now[..i])
    }

    lemma TransformAllNext(nonce: string, ds: seq<PlanData>, i: nat)
      requires AllFit(ds) && i < |ds| && TransformAll(v, nonce, ds[..i]).Some?
      ensures var front := TransformAll(v, nonce, ds[..i]).value;
              var last := TransformOne(Context(v.policy, v.ops, nonce, i), ds[i]);
              TransformAll(v, nonce, ds[..i + 1]) ==
              if last.None? || MergeReversal(front.1, last.value.reversal).None? then None
              else Some((front.0 + [last.value], MergeReversal(front.1, last.value.reversal).value))
    {
      assert ds[..i + 1][..i] == ds[..i];
    }

    lemma {:induction false} TransformAllStops(nonce: string, ds: seq<PlanData>, i: nat)
      requires AllFit(ds) && i <= |ds| && TransformAll(v, nonce, ds[..i]).None?
      ensures TransformAll(v, nonce, ds).None?
      decreases |ds| - i
    {
      if i == |ds| {
        assert ds[..i] == ds;
      } else {
        assert ds[..i + 1][..i] == ds[..i];
        TransformAllStops(nonce, ds, i + 1);
      }
    }

    /** A leaf that cannot be transformed, or whose reversals conflict with earlier ones, stops everything. */
    lemma LeafStops(
      now: seq<PlanData>, ds: seq<PlanData>, nonce: string, i: nat, actions: set<Action>,
      reversal: map<string, string>)
      requires AllFit(ds) && |now| == |ds| && i < |ds| && PartTransformed(now, ds, nonce, i, actions, reversal)
      requires var last := TransformOne(Context(v.policy, v.ops, nonce, i), ds[i]);
               last.None? || MergeReversal(reversal, last.value.reversal).None?
      ensures TransformAll(v, nonce, ds).None?
    {
      TransformAllNext(nonce, ds, i);
      TransformAllStops(nonce, ds, i + 1);
    }

    lemma ActionsNext(ts: seq<PlanData>, t: PlanData)
      ensures AllActions(ts + [t]) == AllActions(ts) + t.appliedActions
    {
      assert (ts + [t])[..|ts|] == ts;
    }

    /** A transformed leaf whose reversals merge joins the earlier ones. */
    lemma LeafDone(
      now: seq<PlanData>, ds: seq<PlanData>, nonce: string, i: nat, actions: set<Action>,
      reversal: map<string, string>,
      t: PlanData, merged: map<string, string>)
      requires AllFit(ds) && |now| == |ds| && i < |ds| && PartTransformed(now, ds, nonce, i, actions, reversal)
      requires TransformOne(Context(v.policy, v.ops, nonce, i), ds[i]) == Some(t)
      requires MergeReversal(reversal, t.reversal) == Some(merged)
      ensures PartTransformed(now[i := t], ds, nonce, i + 1, actions + t.appliedActions, merged)
    {
      TransformAllNext(nonce, ds, i);
      ActionsNext(now[..i], t);
      assert now[i := t][..i + 1] == now[..i] + [t];
    }

    lemma NothingTransformed(ds: seq<PlanData>, nonce: string)
      requires AllFit(ds)
      ensures PartTransformed(ds, ds, nonce, 0, {}, map[])
    {
      assert ds[..0] == [];
    }

    lemma AllTransformed(
      now: seq<PlanData>, ds: seq<PlanData>, nonce: string, actions: set<Action>, reversal: map<string, string>)
      requires AllFit(ds) && |now| == |ds| && PartTransformed(now, ds, nonce, |ds|, actions, reversal)
      ensures TransformAll(v, nonce, ds) == Some((now, reversal)) && actions == AllActions(now)
    {
      assert ds[..|ds|] == ds && now[..|ds|] == now;
    }

    /** Untransformed plans, ready to be rewritten. */
    ghost predicate Ready(ds: seq<PlanData>) {
      && AllFit(ds)
      && forall i :: 0 <= i < |ds| ==>
           !ds[i].blocked && ds[i].transformedCounts == map[] && ds[i].transformedValues == map[]
             && ds[i].reversal == map[]
    }

    /** Transform one plan; false exactly when one of its placeholders would stand for two texts. */
    method TransformPlan(plans: seq<LeafPlan>, ghost ds: seq<PlanData>, nonce: string, i: nat) returns (ok: bool)
      requires Valid() && Ready(ds) && |plans| == |ds| && i < |ds| && Distinct(plans) && plans[i].Data() == ds[i]
      modifies plans[i]
      ensures var t := TransformOne(Context(v.policy, v.ops, nonce, i), ds[i]);
              && (ok <==> t.Some?)
              && (ok ==> Datas(plans) == old(Datas(plans))[i := t.value])
    {
      assert PlanFits(ds[i]);
      var done := planner.Transform(plans[i], nonce, i);
      ok := done.Ok?;
    }

    method TransformLeaf(
      plans: seq<LeafPlan>, ghost ds: seq<PlanData>, nonce: string, i: nat, actions: set<Action>,
      reversal: map<string, string>)
      returns (ok: bool, nextActions: set<Action>, nextReversal: map<string, string>)
      requires Valid() && Ready(ds) && |plans| == |ds| && i < |ds| && Distinct(plans)
      requires PartTransformed(Datas(plans), ds, nonce, i, actions, reversal)
      modifies plans[i]
      ensures ok ==> PartTransformed(Datas(plans), ds, nonce, i + 1, nextActions, nextReversal)
      ensures !ok ==> TransformAll(v, nonce, ds).None?
    {
      ghost var now := Datas(plans);
      nextActions, nextReversal := actions, reversal;
      ok := TransformPlan(plans, ds, nonce, i);
      if !ok {
        LeafStops(now, ds, nonce, i, actions, reversal);
        return;
      }
      var merged := MergeReversalInto(reversal, plans[i].reversal);
      ghost var t := Datas(plans)[i];
      if merged.None? {
        LeafStops(now, ds, nonce, i, actions, reversal);
        return false, actions, reversal;
      }
      LeafDone(now, ds, nonce, i, actions, reversal, t, merged.value);
      nextActions, nextReversal := actions + plans[i].appliedActions, merged.value;
    }

    /** The replacement texts, filed under the segment ids of the leaves that changed. */
    static method Replace(segments: seq<Segment>, plans: seq<LeafPlan>) returns (transformed: seq<Segment>)
      requires |segments| == |plans| && NoDup(Ids(segments))
      ensures transformed == NewSegments(segments, Datas(plans))
    {
      var replacements: map<string, string> := map[];
      for i := 0 to |segments|
        invariant forall k :: 0 <= k < i ==> (segments[k].id in replacements <==> plans[k].text != segments[k].text)
        invariant forall k :: 0 <= k < i && segments[k].id in replacements ==>
                    replacements[segments[k].id] == plans[k].text
        invariant forall k :: i <= k < |segments| ==> segments[k].id !in replacements
      {
        forall k | 0 <= k < |segments| && k != i ensures segments[k].id != segments[i].id {
          assert Ids(segments)[k] != Ids(segments)[i];
        }
        if plans[i].text != segments[i].text {
          replacements := replacements[segments[i].id := plans[i].text];
        }
      }
      transformed := [];
      for i := 0 to |segments|
        invariant |transformed| == i
        invariant forall k :: 0 <= k < i ==> transformed[k] == Segment(segments[k].id, plans[k].text)
      {
        var text := if segments[i].id in replacements then replacements[segments[i].id] else segments[i].text;
        transformed := transformed + [Segment(segments[i].id, text)];
      }
    }

    /** Every leaf's new text, the actions applied and the merged reversal map; false exactly on a conflict. */
    method TransformPlans(segments: seq<Segment>, plans: seq<LeafPlan>, ghost ds: seq<PlanData>, nonce: string)
      returns (ok: bool, transformed: seq<Segment>, actions: set<Action>, reversal: map<string, string>)
      requires Valid() && Ready(ds) && Datas(plans) == ds && Distinct(plans) && |segments| == |plans|
      requires NoDup(Ids(segments))
      modifies plans
      ensures ok <==> TransformAll(v, nonce, ds).Some?
      ensures ok ==> TransformAll(v, nonce, ds) == Some((Datas(plans), reversal))
      ensures ok ==> actions == AllActions(Datas(plans)) && transformed == NewSegments(segments, Datas(plans))
    {
      ok, transformed, actions, reversal := true, [], {}, map[];
      NothingTransformed(ds, nonce);
      for i := 0 to |plans|
        invariant PartTransformed(Datas(plans), ds, nonce, i, actions, reversal)
      {
        ok, actions, reversal := TransformLeaf(plans, ds, nonce, i, actions, reversal);
        if !ok {
          return;
        }
      }
      AllTransformed(Datas(plans), ds, nonce, actions, reversal);
      transformed := Replace(segments, plans);
    }

    // ---- the whole request ----

    static method AnyPlanBlocked(plans: seq<LeafPlan>) returns (any: bool)
      ensures any <==> AnyBlocked(Datas(plans))
    {
      for i := 0 to |plans|
        invariant forall k :: 0 <= k < i ==> !plans[k].blocked
      {
        if plans[i].blocked {
          assert Datas(plans)[i].blocked;
          return true;
        }
      }
      any := false;
    }

    /** The totals over all leaves, with the given actions. */
    method TotalUp(r: SegmentRequest, plans: seq<LeafPlan>, ghost ds: seq<PlanData>, g: Gathered, actions: set<Action>)
      returns (t: Totals)
      requires Datas(plans) == ds && AllAgree(v.policy, r.kind == Mcp, ds) && g == GatheredOf(ds)
      ensures t == TotalsOf(v.policy, r.kind == Mcp, ds).(actions := actions)
    {
      AgreeAt(v.policy, r.kind == Mcp, plans, ds);
      var names := ActionPlanner.SortNames(g.entities);
      var rows := ReportRowsOf(v.policy, r.kind == Mcp, plans);
      t := Totals(names, g.counts, rows, g.overlaps, actions);
    }

    lemma BlockedIgnoresActions(r: SegmentRequest, t: Totals, actions: set<Action>)
      ensures BlockedResult(r, t.(actions := actions)) == BlockedResult(r, t)
    {
    }

    method BlockText(r: SegmentRequest, plans: seq<LeafPlan>, ghost ds: seq<PlanData>, g: Gathered)
      returns (result: PolicyResult)
      requires Valid() && Datas(plans) == ds && AllAgree(v.policy, r.kind == Mcp, ds) && g == GatheredOf(ds)
      ensures fresh(result) && result.Data() == BlockedResult(r, TotalsOf(v.policy, r.kind == Mcp, ds))
    {
      var t := TotalUp(r, plans, ds, g, {});
      BlockedIgnoresActions(r, TotalsOf(v.policy, r.kind == Mcp, ds), {});
      result := new PolicyResult(BlockedResult(r, t));
    }

    method SucceedText(
      r: SegmentRequest, plans: seq<LeafPlan>, ghost ds: seq<PlanData>, g: Gathered, segments: seq<Segment>,
      actions: set<Action>, reversal: map<string, string>, route: Option<string>)
      returns (result: PolicyResult)
      requires Valid() && AllAgree(v.policy, r.kind == Mcp, Datas(plans)) && g == GatheredOf(Datas(plans))
      requires |plans| == |r.segments|
      requires actions == AllActions(Datas(plans)) && segments == NewSegments(r.segments, Datas(plans))
      ensures fresh(result) && result.Data() == Success(v, r, Datas(plans), reversal, route)
    {
      var t := TotalUp(r, plans, Datas(plans), g, actions);
      result := new PolicyResult(SuccessResult(v, r, t, segments, reversal, route));
    }

    lemma {:induction false} TransformKeeps(nonce: string, rab: bool, ds: seq<PlanData>)
      requires AllFit(ds) && AllAgree(v.policy, rab, ds) && TransformAll(v, nonce, ds).Some?
      ensures |TransformAll(v, nonce, ds).value.0| == |ds|
      ensures AllAgree(v.policy, rab, TransformAll(v, nonce, ds).value.0)
      ensures GatheredOf(TransformAll(v, nonce, ds).value.0) == GatheredOf(ds)
    {
      var ts := TransformAll(v, nonce, ds).value.0;
      TransformAllLength(v, nonce, ds);
      forall i | 0 <= i < |ds| ensures SameDetections(ds[i], ts[i]) && ActionsAgree(v.policy, rab, ts[i]) {
        TransformAllEach(v, nonce, ds, i);
        assert ActionsAgree(v.policy, rab, ds[i]);
      }
      SameTotals(ds, ts);
    }

    /** Rewrite every leaf of a request that is not blocked. */
    method RewriteAll(
      r: SegmentRequest, plans: seq<LeafPlan>, ghost ds: seq<PlanData>, g: Gathered, nonce: string,
      route: Option<string>)
      returns (out: Outcome<PolicyResult>)
      requires Valid() && Datas(plans) == ds && Distinct(plans) && |ds| == |r.segments| && NoDup(Ids(r.segments))
      requires Ready(ds) && AllAgree(v.policy, r.kind == Mcp, ds) && g == GatheredOf(ds)
      modifies plans
      ensures out.Ok? <==> TransformAll(v, nonce, ds).Some? && !Collides(r.segments, TransformAll(v, nonce, ds).value.1)
      ensures out.Raised? ==>
                out.error == if TransformAll(v, nonce, ds).None? then ReversalConflict else PlaceholderCollision
      ensures out.Ok? ==>
                var both := TransformAll(v, nonce, ds).value;
                && |both.0| == |r.segments| && fresh(out.value)
                && out.value.Data() == Success(v, r, both.0, both.1, route)
    {
      var ok, segments, actions, reversal := TransformPlans(r.segments, plans, ds, nonce);
      if !ok {
        return Raised(ReversalConflict);
      }
      if Collides(r.segments, reversal) {
        return Raised(PlaceholderCollision);
      }
      TransformKeeps(nonce, r.kind == Mcp, ds);
      var result := SucceedText(r, plans, ds, g, segments, actions, reversal, route);
      out := Ok(result);
    }

    /** The decision, and the rewriting of a request that is not blocked. */
    method DecideText(
      r: SegmentRequest, plans: seq<LeafPlan>, ghost ds: seq<PlanData>, g: Gathered, nonce: string,
      faceRoute: Option<string>)
      returns (out: Outcome<PolicyResult>)
      requires Valid() && Datas(plans) == ds && Distinct(plans) && |ds| == |r.segments| && NoDup(Ids(r.segments))
      requires Untouched(ds) && AllAgree(v.policy, r.kind == Mcp, ds) && g == GatheredOf(ds)
      modifies plans
      ensures Gives(out, Decide(v, r, ds, nonce, faceRoute)) && (out.Ok? ==> fresh(out.value))
    {
      DecideCases(v, r, ds, nonce, faceRoute);
      var blocked := AnyPlanBlocked(plans);
      if blocked || FaceRouteConflicts(v.policy, faceRoute, g.rerouted) {
        var result := BlockText(r, plans, ds, g);
        return Ok(result);
      }
      var route := if faceRoute.Some? then faceRoute else ResolveRouteClass(v.policy, g.rerouted, g.routes);
      out := RewriteAll(r, plans, ds, g, nonce, route);
    }

    lemma AnalyzeTextCases(r: SegmentRequest, found: seq<seq<Match>>, nonce: string, faceRoute: Option<string>)
      requires |found| == |r.segments|
      ensures !AllValid(r.segments, found) ==>
                AnalyzeText(v, r, found, nonce, faceRoute) ==
                (LeafFailures(r.segments, found); Raised(LeafFailure(r.segments, found).value))
      ensures AllValid(r.segments, found) ==>
                var ds := Plans(v.policy, r.kind == Mcp, r.segments, found);
                && AllFit(ds) && Untouched(ds) && AllAgree(v.policy, r.kind == Mcp, ds)
                && AnalyzeText(v, r, found, nonce, faceRoute) == Decide(v, r, ds, nonce, faceRoute)
    {
      if AllValid(r.segments, found) {
        PreparedFits(v.policy, r.kind == Mcp, r.segments, found);
        PlansAgree(v.policy, r.kind == Mcp, r.segments, found);
      }
    }

    method AnalyzeLeaves(r: SegmentRequest, found: seq<seq<Match>>, nonce: string, faceRoute: Option<string>)
      returns (out: Outcome<PolicyResult>)
      requires Valid() && |found| == |r.segments| && NoDup(Ids(r.segments))
      ensures Gives(out, AnalyzeText(v, r, found, nonce, faceRoute)) && (out.Ok? ==> fresh(out.value))
    {
      AnalyzeTextCases(r, found, nonce, faceRoute);
      var prepared := PrepareLeafPlans(r.segments, found, r.kind == Mcp);
      if prepared.Raised? {
        return Raised(prepared.error);
      }
      out := DecideText(r, prepared.value.0, Plans(v.policy, r.kind == Mcp, r.segments, found), prepared.value.1, nonce,
        faceRoute);
    }

    /** Add aggregate face evidence to a result in place. */
    method ApplyVisualResult(result: PolicyResult, r: SegmentRequest, faceRoute: Option<string>)
      modifies result
      ensures result.Data() == WithVisual(v.policy, old(result.Data()), r, faceRoute)
    {
      if r.visual.None? || FaceCount(r.visual.value) == 0 {
        return;
      }
      AddFaces(result, FaceCount(r.visual.value), faceRoute);
    }

    method AddFaces(result: PolicyResult, count: nat, faceRoute: Option<string>)
      modifies result
      ensures result.Data() == WithFaces(v.policy, old(result.Data()), count, faceRoute)
    {
      var action := if result.decision == Blocked then Block else v.policy.faceAction;
      AddFaceEvidence(result, action, count);
      RouteFaces(result, action, faceRoute);
    }

    method AddFaceEvidence(result: PolicyResult, action: Action, count: nat)
      modifies result
      ensures result.Data() == FaceEvidence(old(result.Data()), action, count)
    {
      var counts := result.entityCounts["FACE" := count];
      var names := ActionPlanner.SortNames(counts.Keys);
      var rows := Sort(result.rows + [FaceRow(action, count)], RowKey);
      if result.decision == PassThrough && result.entities == [] {
        result.responseNotices := [];
      }
      SetEvidence(result, counts, names, rows, result.appliedActions + {action});
    }

    method SetEvidence(
      result: PolicyResult, counts: map<string, int>, names: seq<string>, rows: seq<Row>, actions: set<Action>)
      modifies result
      ensures result.Data() ==
                old(result.Data()).(entityCounts := counts, entities := names, rows := rows, appliedActions := actions)
    {
      result.entityCounts, result.entities, result.rows, result.appliedActions := counts, names, rows, actions;
    }

    method RouteFaces(result: PolicyResult, action: Action, faceRoute: Option<string>)
      modifies result
      ensures result.Data() == FaceRouting(v.policy, old(result.Data()), action, faceRoute)
    {
      if action == Reroute {
        result.decision, result.remoteAllowed, result.routeClass := Rerouted, false, faceRoute;
        result.responseNotices := [v.policy.notice.rerouted];
      } else if action == TextOnly {
        if result.decision == PassThrough {
          result.decision := ApplyActions;
        }
        result.responseNotices := result.responseNotices + ["Faces were detected; images must be withheld."];
      }
    }

    /** Run preflight, text analysis and visual evidence over one request. */
    method Analyze(r: SegmentRequest, found: seq<seq<Match>>, nonce: string) returns (out: Outcome<PolicyResult>)
      requires Valid() && |found| == |r.segments| && NoDup(Ids(r.segments))
      ensures Gives(out, AnalyzeSegments(v, r, found, nonce)) && (out.Ok? ==> fresh(out.value))
    {
      var faceRoute := FaceRoute(v.policy, r);
      out := AnalyzeBeforeVisual(r, found, nonce, faceRoute);
      if out.Ok? {
        ApplyVisualResult(out.value, r, faceRoute);
      }
    }

    method AnalyzeBeforeVisual(r: SegmentRequest, found: seq<seq<Match>>, nonce: string, faceRoute: Option<string>)
      returns (out: Outcome<PolicyResult>)
      requires Valid() && |found| == |r.segments| && NoDup(Ids(r.segments)) && faceRoute == FaceRoute(v.policy, r)
      ensures Gives(out, BeforeVisual(v, r, found, nonce)) && (out.Ok? ==> fresh(out.value))
    {
      var early := Preflight(v, r);
      if early.Raised? {
        return Raised(early.error);
      }
      var result: PolicyResult;
      if early.value.Some? {
        result := new PolicyResult(early.value.value);
      } else if r.visual.Some? && !FacesPass(v.policy, r) {
        result := new PolicyResult(EmptyResult(Blocked, None, {Block}, |r.segments|));
      } else if r.visual.Some? && !r.textPiiEnabled {
        result := new PolicyResult(EmptyResult(PassThrough, Some(r.segments), {}, |r.segments|));
      } else {
        out := AnalyzeLeaves(r, found, nonce, faceRoute);
        return;
      }
      out := Ok(result);
    }
  }

  // ---- plans as prepare leaves them ----

  ghost predicate AllAgree(p: PolicySettings, rab: bool, ds: seq<PlanData>) {
    forall i :: 0 <= i < |ds| ==> ActionsAgree(p, rab, ds[i])
  }

  lemma AgreeAt(p: PolicySettings, rab: bool, plans: seq<LeafPlan>, ds: seq<PlanData>)
    requires Datas(plans) == ds && AllAgree(p, rab, ds)
    ensures forall i :: 0 <= i < |plans| ==> ActionsAgree(p, rab, plans[i].Data())
  {
    forall i | 0 <= i < |plans| ensures ActionsAgree(p, rab, plans[i].Data()) {
      assert ds[i] == plans[i].Data();
    }
  }

  /** Nothing is rewritten yet. */
  ghost predicate Untouched(ds: seq<PlanData>) {
    && AllFit(ds)
    && forall i :: 0 <= i < |ds| ==>
      ds[i].transformedCounts == map[] && ds[i].transformedValues == map[] && ds[i].reversal == map[]
  }

  lemma PlansAgree(p: PolicySettings, rab: bool, segments: seq<Segment>, found: seq<seq<Match>>)
    requires |segments| == |found| && AllFit(Plans(p, rab, segments, found))
    ensures AllAgree(p, rab, Plans(p, rab, segments, found)) && Untouched(Plans(p, rab, segments, found))
  {
    var ds := Plans(p, rab, segments, found);
    forall i | 0 <= i < |ds| ensures ActionsAgree(p, rab, ds[i]) {
      CountsMeaning(p, rab, AsMatches(LogicalOf(found[i])));
    }
  }
}
