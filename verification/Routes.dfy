/** Where a rerouted request goes, stated over the policy's entries and the owners of regions. */
module Routes {
  import opened PolicyConfig
  import opened Matches
  import opened Rewrite
  import opened Planner
  import opened Contracts
  import opened Policy
  import opened LeafFacts
  import opened Aggregate
  import opened Verdict
  import opened Requests
  import Response

  // ---- the target of a set of entity types ----

  /** The first entry from i on that names one of them decides. */
  ghost predicate RoutesFrom(p: PolicySettings, es: set<string>, i: nat, target: Option<string>) {
    if target.Some? then exists k :: i <= k && EntryFrom(p, es, i, k, target.value)
    else forall j :: i <= j < |p.entityPolicies| ==> p.entityPolicies[j].entityType !in es
  }

  ghost predicate EntryFrom(p: PolicySettings, es: set<string>, i: nat, k: int, target: string) {
    && i <= k < |p.entityPolicies| && p.entityPolicies[k].entityType in es
    && (forall j :: i <= j < k ==> p.entityPolicies[j].entityType !in es)
    && target == if p.entityPolicies[k].routeClass.Some? then p.entityPolicies[k].routeClass.value else p.defaultTarget
  }

  /** Entity types whose entries, where they have any, reroute. */
  ghost predicate AllReroute(p: PolicySettings, es: set<string>) {
    forall i :: 0 <= i < |p.entityPolicies| && p.entityPolicies[i].entityType in es ==>
      p.entityPolicies[i].action == Reroute
  }

  lemma {:induction false} ConfiguredFrom(p: PolicySettings, es: set<string>, i: nat)
    requires ValidPolicy(p) && AllReroute(p, es) && i <= |p.entityPolicies|
    ensures RoutesFrom(p, es, i, ConfiguredRoute(p, p.entityPolicies[i..], es))
    decreases |p.entityPolicies| - i
  {
    var rest := p.entityPolicies[i..];
    if i < |p.entityPolicies| {
      assert rest[0] == p.entityPolicies[i] && rest[1..] == p.entityPolicies[i + 1..];
      if rest[0].entityType in es {
        assert EntryFrom(p, es, i, i, ConfiguredRoute(p, rest, es).value);
      } else {
        ConfiguredFrom(p, es, i + 1);
        LaterEntry(p, es, i, ConfiguredRoute(p, rest, es));
      }
    }
  }

  lemma LaterEntry(p: PolicySettings, es: set<string>, i: nat, target: Option<string>)
    requires i < |p.entityPolicies| && p.entityPolicies[i].entityType !in es && RoutesFrom(p, es, i + 1, target)
    ensures RoutesFrom(p, es, i, target)
  {
    if target.Some? {
      var k :| i + 1 <= k && EntryFrom(p, es, i + 1, k, target.value);
      assert EntryFrom(p, es, i, k, target.value);
    }
  }

  /** The route of a non-empty set of rerouted entity types is its target. */
  lemma RouteIsTarget(p: PolicySettings, es: set<string>)
    requires ValidPolicy(p) && AllReroute(p, es) && es != {}
    ensures RouteOfSet(p, es).Some? && RoutesTo(p, es, RouteOfSet(p, es).value)
  {
    ConfiguredFrom(p, es, 0);
    assert p.entityPolicies[0..] == p.entityPolicies;
    var configured := ConfiguredRoute(p, p.entityPolicies, es);
    if configured.Some? {
      var k :| 0 <= k && EntryFrom(p, es, 0, k, configured.value);
      assert EntryRoutes(p, es, k, configured.value);
    }
  }

  /** There is only one target. */
  lemma TargetUnique(p: PolicySettings, es: set<string>, a: string, b: string)
    requires RoutesTo(p, es, a) && RoutesTo(p, es, b)
    ensures a == b
  {
    if i :| EntryRoutes(p, es, i, a) {
      if j :| EntryRoutes(p, es, j, b) {
        assert i == j;
      }
    }
  }

  lemma EffectiveReroutes(p: PolicySettings, rab: bool, es: set<string>)
    requires ValidPolicy(p) && forall e :: e in es ==> Effective(p, e, rab) == Reroute
    ensures AllReroute(p, es)
  {
    forall i | 0 <= i < |p.entityPolicies| && p.entityPolicies[i].entityType in es
      ensures p.entityPolicies[i].action == Reroute
    {
      var e := p.entityPolicies[i].entityType;
      ConfiguredIsSaid(p, e, p.entityPolicies[i].action);
      assert Effective(p, e, rab) == Reroute;
    }
  }

  // ---- which entity types are rerouted ----

  /** Some effective region of a text belongs to this entity type. */
  ghost predicate HasRegion(p: PolicySettings, rab: bool, ms: seq<Match>, e: string) {
    exists k :: 0 <= k < |EffectiveOf(p, rab, ms)| && EffectiveOf(p, rab, ms)[k].entity == e
  }

  /** Some effective region belongs to this entity type, and the type resolves to reroute. */
  ghost predicate RegionReroutes(p: PolicySettings, rab: bool, found: seq<seq<Match>>, e: string) {
    Resolves(p, rab, e, Reroute) && exists i :: 0 <= i < |found| && HasRegion(p, rab, found[i], e)
  }

  /** These are exactly the rerouted entity types. */
  ghost predicate ReroutedTypes(p: PolicySettings, rab: bool, found: seq<seq<Match>>, es: set<string>) {
    forall e :: e in es <==> RegionReroutes(p, rab, found, e)
  }

  lemma LeafRerouted(p: PolicySettings, rab: bool, text: string, ms: seq<Match>, e: string)
    requires ValidPolicy(p)
    ensures e in Prepared(p, rab, text, ms).rerouteEntities <==>
              Resolves(p, rab, e, Reroute) && HasRegion(p, rab, ms, e)
  {
    var rs := EffectiveOf(p, rab, ms);
    EffectiveIsResolved(p, rab, e, Reroute);
    if e in ReroutedEntities(p, rab, rs) {
      var k :| 0 <= k < |rs| && Effective(p, rs[k].entity, rab) == Reroute && rs[k].entity == e;
    }
    if k :| 0 <= k < |rs| && rs[k].entity == e {
      assert Effective(p, e, rab) == Reroute ==> rs[k].entity in ReroutedEntities(p, rab, rs);
    }
  }

  lemma PlanReroutes(p: PolicySettings, rab: bool, segments: seq<Segment>, found: seq<seq<Match>>, e: string)
    requires ValidPolicy(p) && |segments| == |found|
    ensures e in AllRerouted(Plans(p, rab, segments, found)) <==> RegionReroutes(p, rab, found, e)
  {
    var ds := Plans(p, rab, segments, found);
    ReroutedInLeaf(ds, e);
    forall i | 0 <= i < |ds|
      ensures e in ds[i].rerouteEntities <==> Resolves(p, rab, e, Reroute) && HasRegion(p, rab, found[i], e)
    {
      LeafRerouted(p, rab, segments[i].text, found[i], e);
    }
  }

  lemma PlansReroute(p: PolicySettings, rab: bool, segments: seq<Segment>, found: seq<seq<Match>>)
    requires ValidPolicy(p) && |segments| == |found|
    ensures ReroutedTypes(p, rab, found, AllRerouted(Plans(p, rab, segments, found)))
    ensures AllReroute(p, AllRerouted(Plans(p, rab, segments, found)))
  {
    var es := AllRerouted(Plans(p, rab, segments, found));
    forall e
      ensures e in es <==> RegionReroutes(p, rab, found, e)
      ensures e in es ==> Effective(p, e, rab) == Reroute
    {
      PlanReroutes(p, rab, segments, found, e);
      EffectiveIsResolved(p, rab, e, Reroute);
    }
    EffectiveReroutes(p, rab, es);
  }

  // ---- faces ----

  predicate FacesReroute(p: PolicySettings, r: SegmentRequest) {
    r.visual.Some? && FaceCount(r.visual.value) > 0 && p.faceAction == Reroute
  }

  /** Faces were found and the policy reroutes them here. */
  predicate FacesGo(p: PolicySettings, r: SegmentRequest, target: string) {
    FacesReroute(p, r) && target == if p.faceRouteClass.Some? then p.faceRouteClass.value else p.defaultTarget
  }

  lemma FaceRouteIs(p: PolicySettings, r: SegmentRequest)
    requires ValidPolicy(p)
    ensures FaceRoute(p, r).Some? <==> FacesReroute(p, r)
    ensures FaceRoute(p, r).Some? ==> FacesGo(p, r, FaceRoute(p, r).value)
  {
  }

  /** This entity type is rerouted and, taken alone, goes elsewhere than the faces. */
  ghost predicate Elsewhere(
    p: PolicySettings, r: SegmentRequest, found: seq<seq<Match>>, e: string, here: string, there: string) {
    FacesGo(p, r, here) && RegionReroutes(p, r.kind == Mcp, found, e) && RoutesTo(p, {e}, there) && there != here
  }

  ghost predicate GoesElsewhere(p: PolicySettings, r: SegmentRequest, found: seq<seq<Match>>) {
    exists e, here, there :: Elsewhere(p, r, found, e, here, there)
  }

  lemma AloneGoes(p: PolicySettings, es: set<string>, e: string, target: string)
    requires ValidPolicy(p) && AllReroute(p, es) && e in es
    ensures RoutesTo(p, {e}, target) <==> ResolveRouteClass(p, {e}, [p.defaultTarget]) == Some(target)
  {
    assert AllReroute(p, {e});
    RouteIsTarget(p, {e});
    if RoutesTo(p, {e}, target) {
      TargetUnique(p, {e}, target, RouteOfSet(p, {e}).value);
    }
  }

  lemma ConflictOver(p: PolicySettings, r: SegmentRequest, found: seq<seq<Match>>, es: set<string>, here: string)
    requires ValidPolicy(p) && ReroutedTypes(p, r.kind == Mcp, found, es) && AllReroute(p, es) && FacesGo(p, r, here)
    ensures FaceRouteConflicts(p, Some(here), es) <==> GoesElsewhere(p, r, found)
  {
    if FaceRouteConflicts(p, Some(here), es) {
      ConflictGoes(p, r, found, es, here);
    }
    if e, h, there :| Elsewhere(p, r, found, e, h, there) {
      AloneGoes(p, es, e, there);
    }
  }

  lemma SomewhereElse(p: PolicySettings, es: set<string>, e: string, here: string) returns (there: string)
    requires ValidPolicy(p) && AllReroute(p, es) && e in es
    requires ResolveRouteClass(p, {e}, [p.defaultTarget]) != Some(here)
    ensures RoutesTo(p, {e}, there) && there != here
  {
    there := ResolveRouteClass(p, {e}, [p.defaultTarget]).value;
    AloneGoes(p, es, e, there);
  }

  lemma ConflictGoes(p: PolicySettings, r: SegmentRequest, found: seq<seq<Match>>, es: set<string>, here: string)
    requires ValidPolicy(p) && ReroutedTypes(p, r.kind == Mcp, found, es) && AllReroute(p, es) && FacesGo(p, r, here)
    requires FaceRouteConflicts(p, Some(here), es)
    ensures GoesElsewhere(p, r, found)
  {
    var e :| e in es && ResolveRouteClass(p, {e}, [p.defaultTarget]) != Some(here);
    var there := SomewhereElse(p, es, e, here);
    assert Elsewhere(p, r, found, e, here, there);
  }

  lemma ConflictIsElsewhere(p: PolicySettings, r: SegmentRequest, found: seq<seq<Match>>)
    requires ValidPolicy(p) && |found| == |r.segments|
    ensures FaceRouteConflicts(p, FaceRoute(p, r), AllRerouted(Plans(p, r.kind == Mcp, r.segments, found))) <==>
              GoesElsewhere(p, r, found)
  {
    PlansReroute(p, r.kind == Mcp, r.segments, found);
    FaceRouteIs(p, r);
    if FacesReroute(p, r) {
      ConflictOver(
        p, r, found, AllRerouted(Plans(p, r.kind == Mcp, r.segments, found)), FaceRoute(p, r).value);
    }
  }

  // ---- the route of a response ----

  /** What a text answer that is not blocked says about its route, given the one chosen for it. */
  predicate RoutedBy(v: Service, r: SegmentRequest, w: Result, chosen: Option<string>) {
    && w.segments.Some? && (w.decision == Rerouted <==> chosen.Some?)
    && w.routeClass ==
       if chosen.Some? then chosen else if r.kind == Mcp then None else Some(v.classify(w.segments.value))
  }

  lemma DecideRoute(v: Service, r: SegmentRequest, ds: seq<PlanData>, nonce: string, faceRoute: Option<string>)
    requires AllFit(ds) && |ds| == |r.segments| && Decide(v, r, ds, nonce, faceRoute).Ok?
    ensures var w := Decide(v, r, ds, nonce, faceRoute).value;
            if w.decision == Blocked then w.routeClass.None?
            else RoutedBy(v, r, w, ChosenRoute(v.policy, ds, faceRoute))
  {
    TransformAllLength(v, nonce, ds);
    DecideCases(v, r, ds, nonce, faceRoute);
  }

  lemma TextRoute(v: Service, r: SegmentRequest, found: seq<seq<Match>>, nonce: string, faceRoute: Option<string>)
    requires ValidPolicy(v.policy) && |found| == |r.segments| && AnalyzeText(v, r, found, nonce, faceRoute).Ok?
    ensures var es := AllRerouted(Plans(v.policy, r.kind == Mcp, r.segments, found));
            var w := AnalyzeText(v, r, found, nonce, faceRoute).value;
            if w.decision == Blocked then w.routeClass.None?
            else RoutedBy(v, r, w, if faceRoute.Some? then faceRoute else RouteOfSet(v.policy, es))
  {
    var ds := Plans(v.policy, r.kind == Mcp, r.segments, found);
    PlansSound(v.policy, r.kind == Mcp, r.segments, found);
    RouteIsOfSet(v.policy, r.kind == Mcp, ds, r.segments);
    DecideRoute(v, r, ds, nonce, faceRoute);
  }

  /** All rerouted entity types together go here. */
  ghost predicate TextGoes(p: PolicySettings, rab: bool, found: seq<seq<Match>>, target: string) {
    exists es :: ReroutedTypes(p, rab, found, es) && RoutesTo(p, es, target)
  }

  /** What faces do to decision and route. */
  lemma FacesRoute(p: PolicySettings, w: Result, r: SegmentRequest)
    requires ValidPolicy(p)
    ensures var x := WithVisual(p, w, r, FaceRoute(p, r));
            && x.segments == w.segments
            && (x.decision == Blocked <==> w.decision == Blocked)
            && (FaceRoute(p, r).Some? && w.decision != Blocked ==>
                  x.decision == Rerouted && x.routeClass == FaceRoute(p, r))
            && (FaceRoute(p, r).None? || w.decision == Blocked ==>
                  x.routeClass == w.routeClass && (x.decision == Rerouted <==> w.decision == Rerouted))
  {
    if r.visual.Some? && FaceCount(r.visual.value) > 0 {
      Response.WithFacesFaced(p, w, FaceCount(r.visual.value), FaceRoute(p, r));
    }
  }

  /** Where an answer goes, over the owners of regions, the faces and the policy's entries. */
  ghost predicate Routed(v: Service, r: SegmentRequest, found: seq<seq<Match>>, w: Result) {
    var p, rab := v.policy, r.kind == Mcp;
    if w.decision == Blocked then w.routeClass.None?
    else if FacesReroute(p, r) then
      w.decision == Rerouted && w.routeClass.Some? && FacesGo(p, r, w.routeClass.value)
    else if exists e :: RegionReroutes(p, rab, found, e) then
      w.decision == Rerouted && w.routeClass.Some? && TextGoes(p, rab, found, w.routeClass.value)
    else
      && w.decision != Rerouted && w.segments.Some?
      && w.routeClass == if r.kind == Mcp then None else Some(v.classify(w.segments.value))
  }

  lemma RoutedText(v: Service, r: SegmentRequest, found: seq<seq<Match>>, w: Result, es: set<string>)
    requires ValidPolicy(v.policy) && AllReroute(v.policy, es) && ReroutedTypes(v.policy, r.kind == Mcp, found, es)
    requires !FacesReroute(v.policy, r) && w.decision != Blocked && RoutedBy(v, r, w, RouteOfSet(v.policy, es))
    ensures Routed(v, r, found, w)
  {
    if es != {} {
      RouteIsTarget(v.policy, es);
      var e :| e in es;
      assert RegionReroutes(v.policy, r.kind == Mcp, found, e);
    }
  }

  /**
   * The route of an answer: none for a block; the faces' own target; else the target of the first policy
   * entry that names a rerouted type; else, but for MCP, the class of the text as it is forwarded.
   */
  lemma ResponseRoute(v: Service, r: SegmentRequest, found: seq<seq<Match>>, nonce: string)
    requires ValidPolicy(v.policy) && |found| == |r.segments| && TextAnalyzed(v, r)
    requires AnalyzeSegments(v, r, found, nonce).Ok?
    ensures Routed(v, r, found, AnalyzeSegments(v, r, found, nonce).value)
  {
    var p := v.policy;
    AnalyzedText(v, r, found, nonce);
    TextRoute(v, r, found, nonce, FaceRoute(p, r));
    FacesRoute(p, AnalyzeText(v, r, found, nonce, FaceRoute(p, r)).value, r);
    FaceRouteIs(p, r);
    if !FacesReroute(p, r) && AnalyzeSegments(v, r, found, nonce).value.decision != Blocked {
      PlansReroute(p, r.kind == Mcp, r.segments, found);
      RoutedText(
        v, r, found, AnalyzeSegments(v, r, found, nonce).value,
        AllRerouted(Plans(p, r.kind == Mcp, r.segments, found)));
    }
  }
}
