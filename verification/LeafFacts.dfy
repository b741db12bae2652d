/** What one prepared or transformed leaf guarantees to the aggregation over leaves. */
module LeafFacts {
  import opened PolicyConfig
  import opened Matches
  import opened Regions
  import opened Prepare
  import opened Rewrite
  import opened Planner
  import opened Policy

  // ---- detections and regions mention exactly the entities of the raw matches ----

  lemma {:induction false} AsMatchesCount(ls: seq<Logical>, e: string)
    ensures CountOf(AsMatches(ls), MEntity, e) == CountOf(ls, LEntity, e)
  {
    if ls != [] {
      AsMatchesCount(ls[..|ls| - 1], e);
      assert AsMatches(ls)[..|ls| - 1] == AsMatches(ls[..|ls| - 1]);
    }
  }

  lemma EntityIffCounted(ms: seq<Match>, e: string)
    ensures e in EntitiesOf(ms) <==> CountOf(ms, MEntity, e) > 0
  {
    CountAbsent(ms, MEntity, e);
    if e in EntitiesOf(ms) {
      var i :| 0 <= i < |ms| && ms[i].entity == e;
      assert MEntity(ms[i]) == e;
    }
  }

  /** The detected entities are those of the raw matches; each is counted between once and once per character. */
  lemma DetectedFacts(ms: seq<Match>, e: string, length: int)
    requires ValidSpans(ms, length) && 0 <= length
    ensures var logical := AsMatches(LogicalOf(ms));
            && (e in EntitiesOf(logical) <==> e in EntitiesOf(ms))
            && CountOf(logical, MEntity, e) <= length
  {
    var logical := AsMatches(LogicalOf(ms));
    AsMatchesCount(LogicalOf(ms), e);
    EntityIffCounted(logical, e);
    CountsWithinText(ms, e, length);
    DetectedCount(ms, e, length);
    if e in EntitiesOf(ms) {
      var i :| 0 <= i < |ms| && ms[i].entity == e;
      var l := RawHoused(ms, ms[i], length);
      assert |LogicalFor(ms, e)| > 0;
    }
  }

  ghost predicate SomeEntity(p: PolicySettings, rab: bool, es: set<string>, level: int) {
    exists e :: e in es && Strictness(Effective(p, e, rab)) >= level
  }

  ghost predicate ResolvesTo(p: PolicySettings, rab: bool, es: set<string>, a: Action) {
    exists e :: e in es && Effective(p, e, rab) == a
  }

  /** Strictness levels nine and eight are block and reroute. */
  lemma TopLevels(p: PolicySettings, rab: bool, es: set<string>)
    ensures ResolvesTo(p, rab, es, Block) <==> SomeEntity(p, rab, es, 9)
    ensures !SomeEntity(p, rab, es, 9) ==> (ResolvesTo(p, rab, es, Reroute) <==> SomeEntity(p, rab, es, 8))
  {
    if e :| e in es && Effective(p, e, rab) == Block {
      assert Strictness(Effective(p, e, rab)) >= 9;
    }
    if e :| e in es && Effective(p, e, rab) == Reroute {
      assert Strictness(Effective(p, e, rab)) >= 8;
    }
  }

  lemma SomeEntityIffMatch(p: PolicySettings, rab: bool, ms: seq<Match>, level: int)
    ensures SomeEntity(p, rab, EntitiesOf(ms), level) <==> SomeMatch(p, rab, ms, level)
  {
    if i :| 0 <= i < |ms| && Strictness(Effective(p, ms[i].entity, rab)) >= level {
      assert ms[i].entity in EntitiesOf(ms);
    }
    if e :| e in EntitiesOf(ms) && Strictness(Effective(p, e, rab)) >= level {
      var i :| 0 <= i < |ms| && ms[i].entity == e;
      assert Strictness(Effective(p, ms[i].entity, rab)) >= level;
    }
  }

  // ---- the facts ----

  /** Counts of one leaf. */
  ghost predicate CountFacts(d: PlanData, length: int) {
    && d.entities == d.entityCounts.Keys == d.entityActions.Keys
    && (forall e :: e in d.entityCounts ==> 1 <= d.entityCounts[e] <= length)
    && d.overlapCount <= length
  }

  /** Terminal actions of one leaf, as a join over its detected entities. */
  ghost predicate JoinFacts(p: PolicySettings, rab: bool, d: PlanData) {
    && (d.blocked <==> SomeEntity(p, rab, d.entities, 9))
    && (d.rerouteEntities != {} ==> SomeEntity(p, rab, d.entities, 8))
    && (!d.blocked && SomeEntity(p, rab, d.entities, 8) ==> d.rerouteEntities != {})
    && (forall e :: e in d.rerouteEntities ==> e in d.entities && Effective(p, e, rab) == Reroute)
    && (d.routeClass.Some? <==> d.rerouteEntities != {})
    && (d.routeClass.Some? ==> exists e :: e in d.rerouteEntities && d.routeClass.value == RouteFor(p, e))
  }

  /** What transforming adds. */
  ghost predicate EditFacts(p: PolicySettings, d: PlanData) {
    && (forall e :: e in d.transformedCounts ==>
      e in d.entityCounts && 1 <= d.transformedCounts[e] <= d.entityCounts[e] && Configured(p, e) !in {Pass, Block})
    && d.transformedValues.Keys == d.transformedCounts.Keys
    && (forall e :: e in d.transformedCounts ==> |d.transformedValues[e]| <= d.transformedCounts[e])
    && (forall a :: a in d.appliedActions && a !in {Pass, Block, Reroute} ==>
      exists e :: e in d.transformedCounts && Configured(p, e) == a)
    && (forall e :: e in d.transformedCounts && Configured(p, e) != Reroute ==> Configured(p, e) in d.appliedActions)
  }

  lemma PreparedCounts(p: PolicySettings, rab: bool, text: string, ms: seq<Match>)
    requires ValidSpans(ms, |text|)
    ensures CountFacts(Prepared(p, rab, text, ms), |text|)
    ensures Prepared(p, rab, text, ms).entities == EntitiesOf(ms)
  {
    var d, logical := Prepared(p, rab, text, ms), AsMatches(LogicalOf(ms));
    CountsMeaning(p, rab, logical);
    forall e ensures e in EntitiesOf(logical) <==> e in EntitiesOf(ms) {
      DetectedFacts(ms, e, |text|);
    }
    forall e | e in d.entityCounts ensures 1 <= d.entityCounts[e] <= |text| {
      DetectedFacts(ms, e, |text|);
      EntityIffCounted(logical, e);
    }
    CountsWithinText(ms, "", |text|);
  }

  lemma HasActionLevel(p: PolicySettings, rab: bool, rs: seq<Match>)
    ensures HasAction(p, rab, rs, Block) <==> SomeMatch(p, rab, rs, 9)
    ensures ReroutedEntities(p, rab, rs) != {} ==> SomeMatch(p, rab, rs, 8)
    ensures !HasAction(p, rab, rs, Block) && SomeMatch(p, rab, rs, 8) ==> ReroutedEntities(p, rab, rs) != {}
  {
    if i :| 0 <= i < |rs| && Effective(p, rs[i].entity, rab) == Block {
      assert Strictness(Effective(p, rs[i].entity, rab)) >= 9;
    }
    if e :| e in ReroutedEntities(p, rab, rs) {
      var i :| 0 <= i < |rs| && rs[i].entity == e && Effective(p, e, rab) == Reroute;
      assert Strictness(Effective(p, rs[i].entity, rab)) >= 8;
    }
    if i :| 0 <= i < |rs| && Strictness(Effective(p, rs[i].entity, rab)) >= 8 {
      assert !HasAction(p, rab, rs, Block) ==> rs[i].entity in ReroutedEntities(p, rab, rs);
    }
  }

  lemma {:induction false} FirstRouteFacts(p: PolicySettings, rab: bool, rs: seq<Match>)
    ensures FirstRoute(p, rab, rs).Some? <==> ReroutedEntities(p, rab, rs) != {}
    ensures FirstRoute(p, rab, rs).Some? ==>
              exists e :: e in ReroutedEntities(p, rab, rs) && FirstRoute(p, rab, rs).value == RouteFor(p, e)
  {
    if rs != [] {
      var n := |rs| - 1;
      FirstRouteFacts(p, rab, rs[..n]);
      ReroutedNext(p, rab, rs[..n], rs[n]);
      assert rs == rs[..n] + [rs[n]];
    }
  }

  lemma RegionEntities(p: PolicySettings, rab: bool, ms: seq<Match>, length: int)
    requires ValidSpans(ms, length)
    ensures forall k :: 0 <= k < |EffectiveOf(p, rab, ms)| ==> EffectiveOf(p, rab, ms)[k].entity in EntitiesOf(ms)
  {
    forall k | 0 <= k < |EffectiveOf(p, rab, ms)| ensures EffectiveOf(p, rab, ms)[k].entity in EntitiesOf(ms) {
      var j := LevelDown(p, rab, ms, k, length);
      assert ms[j].entity in EntitiesOf(ms);
    }
  }

  lemma LevelsAgree(p: PolicySettings, rab: bool, ms: seq<Match>, level: int, length: int)
    requires ValidSpans(ms, length)
    ensures SomeMatch(p, rab, EffectiveOf(p, rab, ms), level) <==> SomeEntity(p, rab, EntitiesOf(ms), level)
  {
    RegionsJoinMatches(p, rab, ms, level, length);
    SomeEntityIffMatch(p, rab, ms, level);
  }

  /** The facts follow for any regions whose actions agree in level with the leaf's entities. */
  lemma JoinFrom(p: PolicySettings, rab: bool, d: PlanData, rs: seq<Match>)
    requires d.blocked <==> HasAction(p, rab, rs, Block)
    requires d.rerouteEntities == ReroutedEntities(p, rab, rs) && d.routeClass == FirstRoute(p, rab, rs)
    requires SomeMatch(p, rab, rs, 9) <==> SomeEntity(p, rab, d.entities, 9)
    requires SomeMatch(p, rab, rs, 8) <==> SomeEntity(p, rab, d.entities, 8)
    requires forall k :: 0 <= k < |rs| ==> rs[k].entity in d.entities
    ensures JoinFacts(p, rab, d)
  {
    HasActionLevel(p, rab, rs);
    FirstRouteFacts(p, rab, rs);
    forall e | e in ReroutedEntities(p, rab, rs) ensures e in d.entities && Effective(p, e, rab) == Reroute {
      var i :| 0 <= i < |rs| && rs[i].entity == e && Effective(p, e, rab) == Reroute;
    }
  }

  lemma PreparedJoin(p: PolicySettings, rab: bool, text: string, ms: seq<Match>)
    requires ValidSpans(ms, |text|)
    ensures JoinFacts(p, rab, Prepared(p, rab, text, ms))
  {
    PreparedCounts(p, rab, text, ms);
    RegionEntities(p, rab, ms, |text|);
    LevelsAgree(p, rab, ms, 9, |text|);
    LevelsAgree(p, rab, ms, 8, |text|);
    JoinFrom(p, rab, Prepared(p, rab, text, ms), EffectiveOf(p, rab, ms));
  }

  // ---- transformed leaves ----

  lemma {:induction false} EditedAtMost(p: PolicySettings, rs: seq<Match>, e: string)
    ensures CountOf(EditedRegions(p, rs), MEntity, e) <= CountOf(rs, MEntity, e)
    ensures CountOf(EditedRegions(p, rs), MEntity, e) > 0 ==> Configured(p, e) !in {Pass, Block}
  {
    if rs != [] {
      EditedAtMost(p, rs[1..], e);
      CountSplit([rs[0]], rs[1..], MEntity, e);
      CountSplit([rs[0]], EditedRegions(p, rs[1..]), MEntity, e);
      CountSnoc([], rs[0], MEntity, e);
      assert [] + [rs[0]] == [rs[0]];
      assert rs == [rs[0]] + rs[1..];
    }
  }

  lemma EditCounts(c: Context, text: string, ms: seq<Match>, rab: bool, e: string)
    requires ValidSpans(ms, |text|)
    requires var d := Prepared(c.policy, rab, text, ms); PlanFits(d) && TransformOne(c, d).Some?
    ensures var d := TransformOne(c, Prepared(c.policy, rab, text, ms)).value;
            EditsOf(c.policy, d, d.effectiveMatches, e)
  {
    var p, d := c.policy, Prepared(c.policy, rab, text, ms);
    var rs, logical := d.effectiveMatches, AsMatches(LogicalOf(ms));
    LedgerCounts(c, d.appliedActions, text, rs, e);
    EditedAtMost(p, rs, e);
    EffectiveAtMostDetected(p, rab, ms, e);
    AsMatchesCount(LogicalOf(ms), e);
    CountsMeaning(p, rab, logical);
    EntityIffCounted(logical, e);
    EditedCount(p, rs, e);
  }

  lemma EditedCount(p: PolicySettings, rs: seq<Match>, e: string)
    ensures CountOf(EditedRegions(p, rs), MEntity, e) > 0 <==>
            exists i :: 0 <= i < |rs| && rs[i].entity == e && Edited(p, rs[i])
  {
    var es := EditedRegions(p, rs);
    CountAbsent(es, MEntity, e);
    if i :| 0 <= i < |es| && MEntity(es[i]) == e {
      assert es[i] in rs;
      var j :| 0 <= j < |rs| && rs[j] == es[i];
      assert rs[j].entity == e && Edited(p, rs[j]);
    }
    if i :| 0 <= i < |rs| && rs[i].entity == e && Edited(p, rs[i]) {
      assert rs[i] in es;
      var j :| 0 <= j < |es| && es[j] == rs[i];
      assert MEntity(es[j]) == e;
    }
  }

  /** Editing facts of one leaf, for its regions. */
  ghost predicate EditsOf(p: PolicySettings, d: PlanData, rs: seq<Match>, e: string) {
    && (e in d.transformedCounts ==>
      e in d.entityCounts && 1 <= d.transformedCounts[e] <= d.entityCounts[e] && Configured(p, e) !in {Pass, Block})
    && (e in d.transformedValues <==> e in d.transformedCounts)
    && (e in d.transformedCounts ==> |d.transformedValues[e]| <= d.transformedCounts[e])
    && (e in d.transformedCounts <==> exists i :: 0 <= i < |rs| && rs[i].entity == e && Edited(p, rs[i]))
  }

  lemma EditsFrom(c: Context, base: set<Action>, text: string, d: PlanData, rs: seq<Match>)
    requires InText(text, rs) && LedgerOf(c, base, text, rs).Some?
    requires d.appliedActions == LedgerOf(c, base, text, rs).value.applied
    requires base <= {Pass, Block, Reroute}
    requires forall e :: EditsOf(c.policy, d, rs, e)
    ensures EditFacts(c.policy, d)
  {
    var p := c.policy;
    forall a | a in d.appliedActions && a !in {Pass, Block, Reroute}
      ensures exists e :: e in d.transformedCounts && Configured(p, e) == a
    {
      LedgerActions(c, base, text, rs, a);
      var m :| m in rs && Edited(p, m) && Configured(p, m.entity) == a;
      var i :| 0 <= i < |rs| && rs[i] == m;
      assert EditsOf(p, d, rs, m.entity) && rs[i].entity == m.entity && Edited(p, rs[i]);
    }
    forall e ensures e in d.transformedCounts && Configured(p, e) != Reroute ==> Configured(p, e) in d.appliedActions {
      assert EditsOf(p, d, rs, e);
      LedgerActions(c, base, text, rs, Configured(p, e));
    }
    forall e
      ensures e in d.transformedCounts ==>
                && e in d.entityCounts && 1 <= d.transformedCounts[e] <= d.entityCounts[e]
                && Configured(p, e) !in {Pass, Block}
      ensures e in d.transformedCounts ==>
                e in d.transformedValues && |d.transformedValues[e]| <= d.transformedCounts[e]
      ensures e in d.transformedValues ==> e in d.transformedCounts
    {
      assert EditsOf(p, d, rs, e);
    }
  }

  lemma TransformedEdits(c: Context, text: string, ms: seq<Match>, rab: bool)
    requires ValidSpans(ms, |text|)
    requires var d := Prepared(c.policy, rab, text, ms); PlanFits(d) && TransformOne(c, d).Some?
    ensures var d := Prepared(c.policy, rab, text, ms);
            forall e :: EditsOf(c.policy, TransformOne(c, d).value, d.effectiveMatches, e)
  {
    var d := Prepared(c.policy, rab, text, ms);
    forall e ensures EditsOf(c.policy, TransformOne(c, d).value, d.effectiveMatches, e) {
      EditCounts(c, text, ms, rab, e);
    }
  }

  lemma TransformedFacts(c: Context, text: string, ms: seq<Match>, rab: bool)
    requires ValidSpans(ms, |text|)
    requires var d := Prepared(c.policy, rab, text, ms); PlanFits(d) && TransformOne(c, d).Some?
    ensures EditFacts(c.policy, TransformOne(c, Prepared(c.policy, rab, text, ms)).value)
  {
    var d := Prepared(c.policy, rab, text, ms);
    TransformedEdits(c, text, ms, rab);
    TransformedFrom(c, d);
    EditsFrom(c, d.appliedActions, text, TransformOne(c, d).value, d.effectiveMatches);
  }

  lemma TransformedFrom(c: Context, d: PlanData)
    requires PlanFits(d) && TransformOne(c, d).Some?
    ensures InText(d.text, d.effectiveMatches) && LedgerOf(c, d.appliedActions, d.text, d.effectiveMatches).Some?
    ensures TransformOne(c, d).value.appliedActions ==
              LedgerOf(c, d.appliedActions, d.text, d.effectiveMatches).value.applied
  {
  }

  lemma EditedFrom(p: PolicySettings, rab: bool, d: PlanData, rs: seq<Match>)
    requires ValidPolicy(p) && forall e :: EditsOf(p, d, rs, e)
    requires !HasAction(p, rab, rs, Block) && ReroutedEntities(p, rab, rs) == {}
    ensures d.transformedCounts != map[] <==> SomeMatch(p, rab, rs, 2)
  {
    if i :| 0 <= i < |rs| && Strictness(Effective(p, rs[i].entity, rab)) >= 2 {
      assert Effective(p, rs[i].entity, rab) != Block && rs[i].entity !in ReroutedEntities(p, rab, rs);
      assert EditsOf(p, d, rs, rs[i].entity) && Edited(p, rs[i]);
    }
    if e :| e in d.transformedCounts {
      assert EditsOf(p, d, rs, e);
      var i :| 0 <= i < |rs| && rs[i].entity == e && Edited(p, rs[i]);
      ConfiguredNotTextOnly(p, e);
      assert rs[i].entity !in ReroutedEntities(p, rab, rs);
      assert Strictness(Effective(p, rs[i].entity, rab)) >= 2;
    }
  }

  lemma ConfiguredNotTextOnly(p: PolicySettings, e: string)
    requires ValidPolicy(p)
    ensures Configured(p, e) != TextOnly
  {
    var entry := Lookup(p.entityPolicies, e);
    if entry.Some? {
      var i :| 0 <= i < |p.entityPolicies| && p.entityPolicies[i] == entry.value;
    }
  }

  /** A leaf without terminal actions is edited exactly when some entity's action is not pass. */
  lemma EditedIffAction(c: Context, text: string, ms: seq<Match>, rab: bool)
    requires ValidPolicy(c.policy) && ValidSpans(ms, |text|)
    requires var d := Prepared(c.policy, rab, text, ms);
             PlanFits(d) && TransformOne(c, d).Some? && !d.blocked && d.rerouteEntities == {}
    ensures var d := TransformOne(c, Prepared(c.policy, rab, text, ms)).value;
            d.transformedCounts != map[] <==> SomeEntity(c.policy, rab, d.entities, 2)
  {
    var d0 := Prepared(c.policy, rab, text, ms);
    var d := TransformOne(c, d0).value;
    PreparedCounts(c.policy, rab, text, ms);
    LevelsAgree(c.policy, rab, ms, 2, |text|);
    TransformedEdits(c, text, ms, rab);
    EditedFrom(c.policy, rab, d, d0.effectiveMatches);
  }

  // ---- everything the aggregation uses about a leaf ----

  /** A prepared leaf, or a transformed leaf that does not block. */
  ghost predicate SoundLeaf(p: PolicySettings, rab: bool, d: PlanData, length: int) {
    && CountFacts(d, length)
    && JoinFacts(p, rab, d)
    && EditFacts(p, d)
    && (d.transformedCounts != map[] ==> !d.blocked)
  }

  lemma PreparedSound(p: PolicySettings, rab: bool, text: string, ms: seq<Match>)
    requires ValidSpans(ms, |text|)
    ensures SoundLeaf(p, rab, Prepared(p, rab, text, ms), |text|)
  {
    PreparedCounts(p, rab, text, ms);
    PreparedJoin(p, rab, text, ms);
    PreparedUnedited(p, rab, text, ms);
  }

  lemma TerminalFew(p: PolicySettings, rab: bool, rs: seq<Match>)
    ensures Terminal(p, rab, rs) <= {Pass, Block, Reroute}
  {
  }

  lemma PreparedUnedited(p: PolicySettings, rab: bool, text: string, ms: seq<Match>)
    ensures EditFacts(p, Prepared(p, rab, text, ms)) && Prepared(p, rab, text, ms).transformedCounts == map[]
  {
    TerminalFew(p, rab, EffectiveOf(p, rab, ms));
    UneditedFacts(p, Prepared(p, rab, text, ms));
  }

  /** A plan without edits applies terminal actions only. */
  lemma UneditedFacts(p: PolicySettings, d: PlanData)
    requires d.transformedCounts == map[] && d.transformedValues == map[] && d.appliedActions <= {Pass, Block, Reroute}
    ensures EditFacts(p, d)
  {
  }

  lemma TransformedSound(c: Context, text: string, ms: seq<Match>, rab: bool)
    requires ValidSpans(ms, |text|)
    requires var d := Prepared(c.policy, rab, text, ms); PlanFits(d) && TransformOne(c, d).Some? && !d.blocked
    ensures SoundLeaf(c.policy, rab, TransformOne(c, Prepared(c.policy, rab, text, ms)).value, |text|)
  {
    PreparedSound(c.policy, rab, text, ms);
    TransformedFacts(c, text, ms, rab);
  }

  /** The facts of a leaf at one entity. */
  lemma AtEntity(p: PolicySettings, rab: bool, d: PlanData, length: int, e: string)
    requires SoundLeaf(p, rab, d, length) && 0 <= length
    ensures e in d.entities <==> e in d.entityCounts
    ensures if e in d.entities then 1 <= Get(d.entityCounts, e) <= length else Get(d.entityCounts, e) == 0
    ensures e in d.transformedCounts <==> Get(d.transformedCounts, e) > 0
    ensures e in d.transformedCounts ==> e in d.entityCounts && Effective(p, e, rab) !in {Pass, Block}
    ensures 0 <= |GetSet(d.transformedValues, e)| <= Get(d.transformedCounts, e) <= Get(d.entityCounts, e)
  {
    assert Effective(p, e, rab) == Block ==> Strictness(Effective(p, e, rab)) >= 9;
  }
}
