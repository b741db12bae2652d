/** The whole-request decision is a join over all matches of all leaves. */
module Verdict {
  import opened PolicyConfig
  import opened Matches
  import opened Prepare
  import opened Rewrite
  import opened Planner
  import opened Contracts
  import opened Policy
  import opened LeafFacts
  import opened Aggregate

  lemma PlansSound(p: PolicySettings, rab: bool, segments: seq<Segment>, found: seq<seq<Match>>)
    requires |segments| == |found| && AllValid(segments, found)
    ensures Sound(p, rab, Plans(p, rab, segments, found), segments)
    ensures AllFit(Plans(p, rab, segments, found))
  {
    PreparedFits(p, rab, segments, found);
    forall i | 0 <= i < |segments| ensures SoundLeaf(p, rab, Plans(p, rab, segments, found)[i], |segments[i].text|) {
      PreparedSound(p, rab, segments[i].text, found[i]);
    }
  }

  /** Leaf by leaf, transforming all leaves transforms each. */
  lemma {:induction false} TransformAllEach(v: Service, nonce: string, ds: seq<PlanData>, i: nat)
    requires AllFit(ds) && TransformAll(v, nonce, ds).Some? && i < |ds|
    ensures |TransformAll(v, nonce, ds).value.0| == |ds|
    ensures TransformOne(Context(v.policy, v.ops, nonce, i), ds[i]) == Some(TransformAll(v, nonce, ds).value.0[i])
  {
    TransformAllLength(v, nonce, ds);
    TransformAllLength(v, nonce, ds[..|ds| - 1]);
    if i < |ds| - 1 {
      TransformAllEach(v, nonce, ds[..|ds| - 1], i);
    }
  }

  /** Transforming changes none of what the aggregation over detections reads. */
  ghost predicate SameDetections(d: PlanData, t: PlanData) {
    && t.entities == d.entities && t.entityCounts == d.entityCounts && t.rerouteEntities == d.rerouteEntities
    && t.routeClass == d.routeClass && t.overlapCount == d.overlapCount && t.blocked == d.blocked
  }

  lemma {:induction false} SameTotals(ds: seq<PlanData>, ts: seq<PlanData>)
    requires |ds| == |ts| && forall i {:trigger ds[i]} :: 0 <= i < |ds| ==> SameDetections(ds[i], ts[i])
    ensures TotalCounts(ds) == TotalCounts(ts) && AllEntities(ds) == AllEntities(ts)
    ensures AllRerouted(ds) == AllRerouted(ts)
    ensures LeafRoutes(ds) == LeafRoutes(ts) && TotalOverlaps(ds) == TotalOverlaps(ts)
  {
    if ds != [] {
      var n := |ds| - 1;
      assert SameDetections(ds[n], ts[n]);
      SameTotals(ds[..n], ts[..n]);
    }
  }

  lemma TransformedLeaves(v: Service, nonce: string, rab: bool, segments: seq<Segment>, found: seq<seq<Match>>)
    requires |segments| == |found| && AllValid(segments, found)
    requires var ds := Plans(v.policy, rab, segments, found);
             AllFit(ds) && !AnyBlocked(ds) && TransformAll(v, nonce, ds).Some?
    ensures var ds := Plans(v.policy, rab, segments, found); var ts := TransformAll(v, nonce, ds).value.0;
            && Sound(v.policy, rab, ts, segments)
            && AllEntities(ts) == AllEntities(ds) && AllRerouted(ts) == AllRerouted(ds)
              && TotalCounts(ts) == TotalCounts(ds)
  {
    var ds := Plans(v.policy, rab, segments, found);
    var ts := TransformAll(v, nonce, ds).value.0;
    TransformAllLength(v, nonce, ds);
    forall i | 0 <= i < |ds|
      ensures SoundLeaf(v.policy, rab, ts[i], |segments[i].text|) && SameDetections(ds[i], ts[i])
    {
      TransformAllEach(v, nonce, ds, i);
      TransformedSound(Context(v.policy, v.ops, nonce, i), segments[i].text, found[i], rab);
    }
    SameTotals(ds, ts);
  }

  // ---- levels over the whole request ----

  ghost predicate SomeDetected(p: PolicySettings, rab: bool, found: seq<seq<Match>>, level: int) {
    exists i :: 0 <= i < |found| && SomeMatch(p, rab, found[i], level)
  }

  /** Leaves that name the entities found in them reach a level exactly where some match does. */
  lemma LevelOfLeaves(p: PolicySettings, rab: bool, ds: seq<PlanData>, found: seq<seq<Match>>, level: int)
    requires |ds| == |found| && forall i :: 0 <= i < |ds| ==> ds[i].entities == EntitiesOf(found[i])
    ensures SomeDetected(p, rab, found, level) <==> SomeEntity(p, rab, AllEntities(ds), level)
  {
    if i :| 0 <= i < |found| && SomeMatch(p, rab, found[i], level) {
      SomeEntityIffMatch(p, rab, found[i], level);
      var e :| e in EntitiesOf(found[i]) && Strictness(Effective(p, e, rab)) >= level;
      assert e in ds[i].entities;
      EntityInLeaf(ds, e);
    }
    if e :| e in AllEntities(ds) && Strictness(Effective(p, e, rab)) >= level {
      EntityInLeaf(ds, e);
      var i :| 0 <= i < |ds| && e in ds[i].entities;
      assert SomeEntity(p, rab, EntitiesOf(found[i]), level);
      SomeEntityIffMatch(p, rab, found[i], level);
    }
  }

  lemma LevelOfEntities(p: PolicySettings, rab: bool, segments: seq<Segment>, found: seq<seq<Match>>, level: int)
    requires |segments| == |found| && AllValid(segments, found)
    ensures SomeDetected(p, rab, found, level) <==>
              SomeEntity(p, rab, AllEntities(Plans(p, rab, segments, found)), level)
  {
    var ds := Plans(p, rab, segments, found);
    forall i | 0 <= i < |ds| ensures ds[i].entities == EntitiesOf(found[i]) {
      PreparedCounts(p, rab, segments[i].text, found[i]);
    }
    LevelOfLeaves(p, rab, ds, found, level);
  }

  lemma BlockedIffLevel(p: PolicySettings, rab: bool, ds: seq<PlanData>, segments: seq<Segment>)
    requires Sound(p, rab, ds, segments)
    ensures AnyBlocked(ds) <==> SomeEntity(p, rab, AllEntities(ds), 9)
  {
    if i :| 0 <= i < |ds| && ds[i].blocked {
      var e :| e in ds[i].entities && Strictness(Effective(p, e, rab)) >= 9;
      EntityInLeaf(ds, e);
    }
    if e :| e in AllEntities(ds) && Strictness(Effective(p, e, rab)) >= 9 {
      EntityInLeaf(ds, e);
      var i :| 0 <= i < |ds| && e in ds[i].entities;
      assert SoundLeaf(p, rab, ds[i], |segments[i].text|);
      assert SomeEntity(p, rab, ds[i].entities, 9);
    }
  }

  lemma LeafReroutes(p: PolicySettings, rab: bool, ds: seq<PlanData>, segments: seq<Segment>, i: nat, e: string)
    requires Sound(p, rab, ds, segments) && i < |ds| && e in ds[i].rerouteEntities
    ensures e in AllEntities(ds) && Effective(p, e, rab) == Reroute
  {
    assert SoundLeaf(p, rab, ds[i], |segments[i].text|);
    EntityInLeaf(ds, e);
  }

  lemma LeafMustReroute(p: PolicySettings, rab: bool, ds: seq<PlanData>, segments: seq<Segment>, i: nat, e: string)
    requires Sound(p, rab, ds, segments) && i < |ds| && !ds[i].blocked && e in ds[i].entities
    requires Strictness(Effective(p, e, rab)) >= 8
    ensures AllRerouted(ds) != {}
  {
    assert SoundLeaf(p, rab, ds[i], |segments[i].text|);
    assert SomeEntity(p, rab, ds[i].entities, 8);
    var e' :| e' in ds[i].rerouteEntities;
    ReroutedInLeaf(ds, e');
  }

  lemma ReroutedHasLevel(p: PolicySettings, rab: bool, ds: seq<PlanData>, segments: seq<Segment>)
    requires Sound(p, rab, ds, segments) && AllRerouted(ds) != {}
    ensures SomeEntity(p, rab, AllEntities(ds), 8)
  {
    var e :| e in AllRerouted(ds);
    ReroutedInLeaf(ds, e);
    var i :| 0 <= i < |ds| && e in ds[i].rerouteEntities;
    LeafReroutes(p, rab, ds, segments, i, e);
    assert Strictness(Effective(p, e, rab)) >= 8;
  }

  lemma ReroutedIffLevel(p: PolicySettings, rab: bool, ds: seq<PlanData>, segments: seq<Segment>)
    requires Sound(p, rab, ds, segments) && !AnyBlocked(ds)
    ensures AllRerouted(ds) != {} <==> SomeEntity(p, rab, AllEntities(ds), 8)
  {
    if AllRerouted(ds) != {} {
      ReroutedHasLevel(p, rab, ds, segments);
    }
    if e :| e in AllEntities(ds) && Strictness(Effective(p, e, rab)) >= 8 {
      EntityInLeaf(ds, e);
      var i :| 0 <= i < |ds| && e in ds[i].entities;
      LeafMustReroute(p, rab, ds, segments, i, e);
    }
  }

  // ---- beyond pass ----

  ghost predicate NonPass(t: PlanData) {
    exists a :: a in t.appliedActions && a != Pass
  }

  /** One leaf: beyond pass applied, edited, and a non-pass entity are the same thing. */
  ghost predicate LeafAgrees(p: PolicySettings, rab: bool, d: PlanData, t: PlanData) {
    && (NonPass(t) <==> t.transformedCounts != map[])
    && (NonPass(t) <==> SomeEntity(p, rab, d.entities, 2))
  }

  lemma ActionsFrom(c: Context, rab: bool, base: set<Action>, text: string, t: PlanData, rs: seq<Match>)
    requires InText(text, rs) && LedgerOf(c, base, text, rs).Some?
    requires t.appliedActions == LedgerOf(c, base, text, rs).value.applied
    requires base <= {Pass} && forall e :: EditsOf(c.policy, t, rs, e)
    requires !HasAction(c.policy, rab, rs, Block) && ReroutedEntities(c.policy, rab, rs) == {}
    ensures NonPass(t) <==> t.transformedCounts != map[]
  {
    var p := c.policy;
    if a :| a in t.appliedActions && a != Pass {
      LedgerActions(c, base, text, rs, a);
      var m :| m in rs && Edited(p, m) && Configured(p, m.entity) == a;
      var i :| 0 <= i < |rs| && rs[i] == m;
      assert EditsOf(p, t, rs, m.entity) && rs[i].entity == m.entity && Edited(p, rs[i]);
    }
    if e :| e in t.transformedCounts {
      assert EditsOf(p, t, rs, e);
      var i :| 0 <= i < |rs| && rs[i].entity == e && Edited(p, rs[i]);
      assert rs[i].entity !in ReroutedEntities(p, rab, rs) && Effective(p, rs[i].entity, rab) != Block;
      LedgerActions(c, base, text, rs, Configured(p, e));
    }
  }

  lemma NoTerminal(p: PolicySettings, rab: bool, rs: seq<Match>)
    requires !HasAction(p, rab, rs, Block) && ReroutedEntities(p, rab, rs) == {}
    ensures Terminal(p, rab, rs) <= {Pass}
  {
    forall i | 0 <= i < |rs| ensures Effective(p, rs[i].entity, rab) != Reroute {
      assert rs[i].entity !in ReroutedEntities(p, rab, rs);
    }
  }

  lemma LeafApplied(c: Context, text: string, ms: seq<Match>, rab: bool)
    requires ValidPolicy(c.policy) && ValidSpans(ms, |text|)
    requires var d := Prepared(c.policy, rab, text, ms);
             PlanFits(d) && TransformOne(c, d).Some? && !d.blocked && d.rerouteEntities == {}
    ensures var d := Prepared(c.policy, rab, text, ms); LeafAgrees(c.policy, rab, d, TransformOne(c, d).value)
  {
    var d := Prepared(c.policy, rab, text, ms);
    var t := TransformOne(c, d).value;
    EditedIffAction(c, text, ms, rab);
    TransformedEdits(c, text, ms, rab);
    NoTerminal(c.policy, rab, d.effectiveMatches);
    ActionsFrom(c, rab, d.appliedActions, text, t, d.effectiveMatches);
  }

  lemma AppliedLeaf(p: PolicySettings, rab: bool, ds: seq<PlanData>, ts: seq<PlanData>)
    requires |ds| == |ts| && forall i {:trigger ts[i]} :: 0 <= i < |ds| ==> LeafAgrees(p, rab, ds[i], ts[i])
    requires AllActions(ts) - {Pass} != {}
    ensures SomeEntity(p, rab, AllEntities(ds), 2) && exists e :: EditedIn(ts, e)
  {
    var a :| a in AllActions(ts) && a != Pass;
    ActionInLeaf(ts, a);
    var i :| 0 <= i < |ts| && a in ts[i].appliedActions;
    assert NonPass(ts[i]) && LeafAgrees(p, rab, ds[i], ts[i]);
    LeafLevel(p, rab, ds, i);
    var e :| e in ts[i].transformedCounts;
    assert EditedIn(ts, e);
  }

  lemma AppliedFrom(p: PolicySettings, rab: bool, ds: seq<PlanData>, ts: seq<PlanData>)
    requires |ds| == |ts| && forall i {:trigger ts[i]} :: 0 <= i < |ds| ==> LeafAgrees(p, rab, ds[i], ts[i])
    ensures AllActions(ts) - {Pass} != {} <==> SomeEntity(p, rab, AllEntities(ds), 2)
    ensures AllActions(ts) - {Pass} != {} <==> exists e :: EditedIn(ts, e)
  {
    if AllActions(ts) - {Pass} != {} {
      AppliedLeaf(p, rab, ds, ts);
    }
    if e :| EditedIn(ts, e) {
      var i :| 0 <= i < |ts| && e in ts[i].transformedCounts;
      LeafNonPass(ts, i);
    }
    if e :| e in AllEntities(ds) && Strictness(Effective(p, e, rab)) >= 2 {
      EntityInLeaf(ds, e);
      var i :| 0 <= i < |ds| && e in ds[i].entities;
      assert SomeEntity(p, rab, ds[i].entities, 2) && LeafAgrees(p, rab, ds[i], ts[i]);
      LeafNonPass(ts, i);
    }
  }

  lemma LeafNonPass(ts: seq<PlanData>, i: nat)
    requires i < |ts| && NonPass(ts[i])
    ensures AllActions(ts) - {Pass} != {}
  {
    var a :| a in ts[i].appliedActions && a != Pass;
    ActionInLeaf(ts, a);
    assert a in AllActions(ts) - {Pass};
  }

  lemma LeafLevel(p: PolicySettings, rab: bool, ds: seq<PlanData>, i: nat)
    requires i < |ds| && SomeEntity(p, rab, ds[i].entities, 2)
    ensures SomeEntity(p, rab, AllEntities(ds), 2)
  {
    var e :| e in ds[i].entities && Strictness(Effective(p, e, rab)) >= 2;
    EntityInLeaf(ds, e);
  }

  /** Without terminal actions, something beyond pass is applied exactly when some match is not pass. */
  lemma AppliedIffLevel(v: Service, nonce: string, rab: bool, segments: seq<Segment>, found: seq<seq<Match>>)
    requires ValidPolicy(v.policy) && |segments| == |found| && AllValid(segments, found)
    requires var ds := Plans(v.policy, rab, segments, found);
             AllFit(ds) && !AnyBlocked(ds) && AllRerouted(ds) == {} && TransformAll(v, nonce, ds).Some?
    ensures var ds := Plans(v.policy, rab, segments, found); var ts := TransformAll(v, nonce, ds).value.0;
            && (AllActions(ts) - {Pass} != {} <==> SomeEntity(v.policy, rab, AllEntities(ds), 2))
            && (AllActions(ts) - {Pass} != {} <==> exists e :: EditedIn(ts, e))
  {
    var ds := Plans(v.policy, rab, segments, found);
    var ts := TransformAll(v, nonce, ds).value.0;
    TransformAllLength(v, nonce, ds);
    forall i | 0 <= i < |ds| ensures LeafAgrees(v.policy, rab, ds[i], ts[i]) {
      TransformAllEach(v, nonce, ds, i);
      forall e ensures e !in ds[i].rerouteEntities { ReroutedInLeaf(ds, e); }
      assert ds[i].rerouteEntities == {};
      LeafApplied(Context(v.policy, v.ops, nonce, i), segments[i].text, found[i], rab);
    }
    AppliedFrom(v.policy, rab, ds, ts);
  }

  /** The decision of transformed leaves, from their route and actions. */
  lemma DecisionCases(v: Service, r: SegmentRequest, ds: seq<PlanData>, nonce: string)
    requires |ds| == |r.segments| && AllFit(ds) && Decide(v, r, ds, nonce, None).Ok?
    ensures Decide(v, r, ds, nonce, None).value.decision ==
            if AnyBlocked(ds) then Blocked
            else if ResolveRouteClass(v.policy, AllRerouted(ds), LeafRoutes(ds)).Some? then Rerouted
            else TextDecision(None, AllActions(TransformAll(v, nonce, ds).value.0))
    ensures !AnyBlocked(ds) ==> TransformAll(v, nonce, ds).Some?
  {
    TransformAllLength(v, nonce, ds);
  }

  lemma RouteIffRerouted(p: PolicySettings, rab: bool, ds: seq<PlanData>, segments: seq<Segment>)
    requires ValidPolicy(p) && Sound(p, rab, ds, segments)
    ensures ResolveRouteClass(p, AllRerouted(ds), LeafRoutes(ds)).Some? <==> AllRerouted(ds) != {}
  {
    LeafRoutesFacts(p, rab, ds, segments);
  }

  /** The decision over planned leaves, as levels of their entities. */
  lemma DecideLevels(v: Service, r: SegmentRequest, ds: seq<PlanData>, nonce: string)
    requires ValidPolicy(v.policy) && |ds| == |r.segments| && AllFit(ds)
    requires Sound(v.policy, r.kind == Mcp, ds, r.segments) && Decide(v, r, ds, nonce, None).Ok?
    ensures var p, rab, decision := v.policy, r.kind == Mcp, Decide(v, r, ds, nonce, None).value.decision;
            && (decision == Blocked <==> SomeEntity(p, rab, AllEntities(ds), 9))
            && (decision == Rerouted <==>
              !SomeEntity(p, rab, AllEntities(ds), 9) && SomeEntity(p, rab, AllEntities(ds), 8))
            && (decision in {ApplyActions, PassThrough} ==>
                  && !AnyBlocked(ds) && AllRerouted(ds) == {} && TransformAll(v, nonce, ds).Some?
                  && (decision == ApplyActions <==> AllActions(TransformAll(v, nonce, ds).value.0) - {Pass} != {}))
  {
    BlockedIffLevel(v.policy, r.kind == Mcp, ds, r.segments);
    DecisionCases(v, r, ds, nonce);
    if !AnyBlocked(ds) {
      ReroutedIffLevel(v.policy, r.kind == Mcp, ds, r.segments);
      RouteIffRerouted(v.policy, r.kind == Mcp, ds, r.segments);
    }
  }

  lemma DecisionByLevel(v: Service, r: SegmentRequest, found: seq<seq<Match>>, nonce: string)
    requires ValidPolicy(v.policy) && |found| == |r.segments|
    requires AnalyzeText(v, r, found, nonce, None).Ok?
    ensures var p, rab := v.policy, r.kind == Mcp;
            AnalyzeText(v, r, found, nonce, None).value.decision ==
            if SomeDetected(p, rab, found, 9) then Blocked
            else if SomeDetected(p, rab, found, 8) then Rerouted
            else if SomeDetected(p, rab, found, 2) then ApplyActions
            else PassThrough
  {
    var p, rab := v.policy, r.kind == Mcp;
    var ds := Plans(p, rab, r.segments, found);
    PlansSound(p, rab, r.segments, found);
    DecideLevels(v, r, ds, nonce);
    LevelOfEntities(p, rab, r.segments, found, 9);
    LevelOfEntities(p, rab, r.segments, found, 8);
    LevelOfEntities(p, rab, r.segments, found, 2);
    if AnalyzeText(v, r, found, nonce, None).value.decision in {ApplyActions, PassThrough} {
      AppliedIffLevel(v, nonce, rab, r.segments, found);
    }
  }

  // ---- the join, over actions instead of levels ----

  /** Some match of the request is of this entity type. */
  ghost predicate Detected(found: seq<seq<Match>>, e: string) {
    exists i, m :: 0 <= i < |found| && m in found[i] && m.entity == e
  }

  ghost predicate SomethingDetected(found: seq<seq<Match>>) { exists e :: Detected(found, e) }

  /** Some match of the request resolves to this action. */
  ghost predicate Finds(p: PolicySettings, rab: bool, found: seq<seq<Match>>, a: Action) {
    exists e :: Detected(found, e) && Resolves(p, rab, e, a)
  }

  lemma FoundAtLevel(p: PolicySettings, rab: bool, found: seq<seq<Match>>, a: Action, level: int)
    requires ValidPolicy(p) && Finds(p, rab, found, a) && Strictness(a) >= level
    ensures SomeDetected(p, rab, found, level)
  {
    var e :| Detected(found, e) && Resolves(p, rab, e, a);
    EffectiveIsResolved(p, rab, e, a);
    var i, m :| 0 <= i < |found| && m in found[i] && m.entity == e;
    var j :| 0 <= j < |found[i]| && found[i][j] == m;
    assert SomeMatch(p, rab, found[i], level);
  }

  lemma LevelIsFound(p: PolicySettings, rab: bool, found: seq<seq<Match>>, level: int) returns (a: Action)
    requires ValidPolicy(p) && SomeDetected(p, rab, found, level)
    ensures a != TextOnly && Finds(p, rab, found, a) && Strictness(a) >= level
  {
    var i :| 0 <= i < |found| && SomeMatch(p, rab, found[i], level);
    var j :| 0 <= j < |found[i]| && Strictness(Effective(p, found[i][j].entity, rab)) >= level;
    a := Effective(p, found[i][j].entity, rab);
    EffectiveIsResolved(p, rab, found[i][j].entity, a);
    assert found[i][j] in found[i];
  }

  lemma BlockLevel(p: PolicySettings, rab: bool, found: seq<seq<Match>>)
    requires ValidPolicy(p)
    ensures SomeDetected(p, rab, found, 9) <==> Finds(p, rab, found, Block)
  {
    if SomeDetected(p, rab, found, 9) {
      var a := LevelIsFound(p, rab, found, 9);
    } else if Finds(p, rab, found, Block) {
      FoundAtLevel(p, rab, found, Block, 9);
    }
  }

  lemma RerouteLevel(p: PolicySettings, rab: bool, found: seq<seq<Match>>)
    requires ValidPolicy(p)
    ensures SomeDetected(p, rab, found, 8) <==> Finds(p, rab, found, Block) || Finds(p, rab, found, Reroute)
  {
    if SomeDetected(p, rab, found, 8) {
      var a := LevelIsFound(p, rab, found, 8);
    } else if Finds(p, rab, found, Block) {
      FoundAtLevel(p, rab, found, Block, 8);
    } else if Finds(p, rab, found, Reroute) {
      FoundAtLevel(p, rab, found, Reroute, 8);
    }
  }

  /** Some match of the request resolves to more than pass. */
  ghost predicate FindsMore(p: PolicySettings, rab: bool, found: seq<seq<Match>>) {
    exists a :: a != Pass && Finds(p, rab, found, a)
  }

  lemma ActLevel(p: PolicySettings, rab: bool, found: seq<seq<Match>>)
    requires ValidPolicy(p)
    ensures SomeDetected(p, rab, found, 2) <==> FindsMore(p, rab, found)
  {
    if SomeDetected(p, rab, found, 2) {
      var a := LevelIsFound(p, rab, found, 2);
    } else if FindsMore(p, rab, found) {
      var a :| a != Pass && Finds(p, rab, found, a);
      NonPassFound(p, rab, found, a);
    }
  }

  /** The levels of the join are the actions they stand for. */
  lemma LevelsAreActions(p: PolicySettings, rab: bool, found: seq<seq<Match>>)
    requires ValidPolicy(p)
    ensures SomeDetected(p, rab, found, 9) <==> Finds(p, rab, found, Block)
    ensures SomeDetected(p, rab, found, 8) <==> Finds(p, rab, found, Block) || Finds(p, rab, found, Reroute)
    ensures SomeDetected(p, rab, found, 2) <==> FindsMore(p, rab, found)
  {
    BlockLevel(p, rab, found);
    RerouteLevel(p, rab, found);
    ActLevel(p, rab, found);
  }

  lemma NonPassFound(p: PolicySettings, rab: bool, found: seq<seq<Match>>, a: Action)
    requires ValidPolicy(p) && a != Pass && Finds(p, rab, found, a)
    ensures SomeDetected(p, rab, found, 2)
  {
    var e :| Detected(found, e) && Resolves(p, rab, e, a);
    EffectiveIsResolved(p, rab, e, a);
    FoundAtLevel(p, rab, found, a, 2);
  }

  /**
   * Without face evidence the decision is the join of all matches of all leaves: block, else reroute,
   * else actions, else pass. For MCP a reroute resolves to block.
   */
  lemma DecisionIsJoin(v: Service, r: SegmentRequest, found: seq<seq<Match>>, nonce: string)
    requires ValidPolicy(v.policy) && |found| == |r.segments|
    requires AnalyzeText(v, r, found, nonce, None).Ok?
    ensures var p, rab := v.policy, r.kind == Mcp;
            AnalyzeText(v, r, found, nonce, None).value.decision ==
            if Finds(p, rab, found, Block) then Blocked
            else if Finds(p, rab, found, Reroute) then Rerouted
            else if FindsMore(p, rab, found) then ApplyActions
            else PassThrough
  {
    DecisionByLevel(v, r, found, nonce);
    LevelsAreActions(v.policy, r.kind == Mcp, found);
  }

  // ---- the route does not depend on segment order ----

  lemma {:induction false} ConfiguredRouteNone(
    p: PolicySettings, entries: seq<EntityPolicy>, es: set<string>, e: string)
    requires ConfiguredRoute(p, entries, es).None? && e in es && Lookup(entries, e).Some?
    ensures Lookup(entries, e).value.action != Reroute
  {
    if entries[0].entityType != e {
      ConfiguredRouteNone(p, entries[1..], es, e);
    }
  }

  /** The route of some rerouted entities, as a function of their set alone. */
  function RouteOfSet(p: PolicySettings, es: set<string>): Option<string> {
    if es == {} then None
    else
      var configured := ConfiguredRoute(p, p.entityPolicies, es);
      if configured.Some? then configured else Some(p.defaultTarget)
  }

  lemma RouteIsOfSet(p: PolicySettings, rab: bool, ds: seq<PlanData>, segments: seq<Segment>)
    requires ValidPolicy(p) && Sound(p, rab, ds, segments)
    ensures ResolveRouteClass(p, AllRerouted(ds), LeafRoutes(ds)) == RouteOfSet(p, AllRerouted(ds))
  {
    LeafRoutesFacts(p, rab, ds, segments);
    var es := AllRerouted(ds);
    if LeafRoutes(ds) != [] && ConfiguredRoute(p, p.entityPolicies, es).None? {
      var e :| e in es && LeafRoutes(ds)[0] == RouteFor(p, e);
      ReroutedInLeaf(ds, e);
      var i :| 0 <= i < |ds| && e in ds[i].rerouteEntities;
      assert SoundLeaf(p, rab, ds[i], |segments[i].text|);
      if Lookup(p.entityPolicies, e).Some? {
        ConfiguredRouteNone(p, p.entityPolicies, es, e);
      }
    }
  }

  ghost predicate HasLeaf(segments: seq<Segment>, found: seq<seq<Match>>, x: Segment, ms: seq<Match>)
    requires |segments| == |found|
  {
    exists j :: 0 <= j < |segments| && segments[j] == x && found[j] == ms
  }

  ghost predicate LeavesAmong(s1: seq<Segment>, f1: seq<seq<Match>>, s2: seq<Segment>, f2: seq<seq<Match>>)
    requires |s1| == |f1| && |s2| == |f2|
  {
    forall i {:trigger HasLeaf(s2, f2, s1[i], f1[i])} :: 0 <= i < |s1| ==> HasLeaf(s2, f2, s1[i], f1[i])
  }

  /** Reordering segments, with their findings, never changes the chosen reroute class. */
  lemma RouteIgnoresSegmentOrder(
    p: PolicySettings, rab: bool, s1: seq<Segment>, f1: seq<seq<Match>>, s2: seq<Segment>, f2: seq<seq<Match>>)
    requires ValidPolicy(p) && |s1| == |f1| && |s2| == |f2| && AllValid(s1, f1) && AllValid(s2, f2)
    requires LeavesAmong(s1, f1, s2, f2) && LeavesAmong(s2, f2, s1, f1)
    ensures var d1, d2 := Plans(p, rab, s1, f1), Plans(p, rab, s2, f2);
            ResolveRouteClass(p, AllRerouted(d1), LeafRoutes(d1)) ==
              ResolveRouteClass(p, AllRerouted(d2), LeafRoutes(d2))
  {
    var d1, d2 := Plans(p, rab, s1, f1), Plans(p, rab, s2, f2);
    PlansSound(p, rab, s1, f1);
    PlansSound(p, rab, s2, f2);
    PlansAmong(p, rab, s1, f1, s2, f2);
    PlansAmong(p, rab, s2, f2, s1, f1);
    ReroutedSame(d1, d2);
    RouteIsOfSet(p, rab, d1, s1);
    RouteIsOfSet(p, rab, d2, s2);
  }

  lemma ReroutedSame(d1: seq<PlanData>, d2: seq<PlanData>)
    requires (forall d :: d in d1 ==> d in d2) && (forall d :: d in d2 ==> d in d1)
    ensures AllRerouted(d1) == AllRerouted(d2)
  {
    ReroutedAmong(d1, d2);
    ReroutedAmong(d2, d1);
  }

  lemma PlansAmong(
    p: PolicySettings, rab: bool, s1: seq<Segment>, f1: seq<seq<Match>>, s2: seq<Segment>, f2: seq<seq<Match>>)
    requires |s1| == |f1| && |s2| == |f2| && LeavesAmong(s1, f1, s2, f2)
    ensures forall d :: d in Plans(p, rab, s1, f1) ==> d in Plans(p, rab, s2, f2)
  {
    var d1, d2 := Plans(p, rab, s1, f1), Plans(p, rab, s2, f2);
    forall d | d in d1 ensures d in d2 {
      var i :| 0 <= i < |d1| && d1[i] == d;
      assert HasLeaf(s2, f2, s1[i], f1[i]);
      var j :| 0 <= j < |s2| && s2[j] == s1[i] && f2[j] == f1[i];
      assert d2[j] == d;
    }
  }

  lemma ReroutedAmong(d1: seq<PlanData>, d2: seq<PlanData>)
    requires forall d :: d in d1 ==> d in d2
    ensures AllRerouted(d1) <= AllRerouted(d2)
  {
    forall e | e in AllRerouted(d1) ensures e in AllRerouted(d2) {
      ReroutedInLeaf(d1, e);
      ReroutedInLeaf(d2, e);
      var i :| 0 <= i < |d1| && e in d1[i].rerouteEntities;
      assert d1[i] in d2;
      var j :| 0 <= j < |d2| && d2[j] == d1[i];
      assert e in d2[j].rerouteEntities;
    }
  }
}
