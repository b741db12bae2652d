/** What an analysed request gets back beside its decision: its rewritten segments and its notices. */
module Results {
  import opened PolicyConfig
  import opened Matches
  import opened Prepare
  import opened Rewrite
  import opened Planner
  import opened Contracts
  import opened Policy
  import opened LeafFacts
  import opened Aggregate
  import opened Verdict
  import opened Requests
  import opened Routes
  import opened Figures
  import Response

  // ---- the forwarded segments ----

  /** Segment i is forwarded under its id, with every region of its text replaced by what its action makes of it. */
  ghost predicate SegmentRewritten(
    v: Service, r: SegmentRequest, found: seq<seq<Match>>, nonce: string, segments: seq<Segment>, i: nat)
    requires |found| == |r.segments|
  {
    && i < |segments| == |r.segments| && segments[i].id == r.segments[i].id
    && var regions := EffectiveOf(v.policy, r.kind == Mcp, found[i]);
       Fits(r.segments[i].text, 0, regions)
       && Rewritten(Context(v.policy, v.ops, nonce, i), r.segments[i].text, 0, regions, segments[i].text)
  }

  lemma LeafRewritten(c: Context, rab: bool, text: string, ms: seq<Match>)
    requires var d := Prepared(c.policy, rab, text, ms); PlanFits(d) && TransformOne(c, d).Some?
    ensures var t := TransformOne(c, Prepared(c.policy, rab, text, ms)).value;
            Rewritten(c, text, 0, EffectiveOf(c.policy, rab, ms), t.text)
  {
    SpliceRewrites(c, text, 0, EffectiveOf(c.policy, rab, ms));
  }

  lemma LeavesRewritten(v: Service, r: SegmentRequest, found: seq<seq<Match>>, nonce: string)
    requires |found| == |r.segments| && AllFit(Plans(v.policy, r.kind == Mcp, r.segments, found))
    requires TransformAll(v, nonce, Plans(v.policy, r.kind == Mcp, r.segments, found)).Some?
    ensures var ts := TransformAll(v, nonce, Plans(v.policy, r.kind == Mcp, r.segments, found)).value.0;
            |ts| == |r.segments|
            && forall i :: 0 <= i < |ts| ==> SegmentRewritten(v, r, found, nonce, NewSegments(r.segments, ts), i)
  {
    var ds := Plans(v.policy, r.kind == Mcp, r.segments, found);
    TransformAllLength(v, nonce, ds);
    var ts := TransformAll(v, nonce, ds).value.0;
    forall i | 0 <= i < |ts| ensures SegmentRewritten(v, r, found, nonce, NewSegments(r.segments, ts), i) {
      TransformAllEach(v, nonce, ds, i);
      assert PlanFits(ds[i]);
      LeafRewritten(Context(v.policy, v.ops, nonce, i), r.kind == Mcp, r.segments[i].text, found[i]);
    }
  }

  lemma DecideSegments(v: Service, r: SegmentRequest, ds: seq<PlanData>, nonce: string, faceRoute: Option<string>)
    requires AllFit(ds) && |ds| == |r.segments| && Decide(v, r, ds, nonce, faceRoute).Ok?
    requires Decide(v, r, ds, nonce, faceRoute).value.decision != Blocked
    ensures TransformAll(v, nonce, ds).Some? && |TransformAll(v, nonce, ds).value.0| == |ds|
    ensures Decide(v, r, ds, nonce, faceRoute).value.segments ==
              Some(NewSegments(r.segments, TransformAll(v, nonce, ds).value.0))
  {
    TransformAllLength(v, nonce, ds);
    DecideCases(v, r, ds, nonce, faceRoute);
  }

  lemma TextSegments(
    v: Service, r: SegmentRequest, found: seq<seq<Match>>, nonce: string, faceRoute: Option<string>)
    requires |found| == |r.segments| && AnalyzeText(v, r, found, nonce, faceRoute).Ok?
    requires AnalyzeText(v, r, found, nonce, faceRoute).value.decision != Blocked
    ensures AnalyzeText(v, r, found, nonce, faceRoute).value.segments.Some?
    ensures var segments := AnalyzeText(v, r, found, nonce, faceRoute).value.segments.value;
            |segments| == |r.segments| && forall i :: 0 <= i < |segments| ==>
              SegmentRewritten(v, r, found, nonce, segments, i)
  {
    PreparedFits(v.policy, r.kind == Mcp, r.segments, found);
    DecideSegments(v, r, Plans(v.policy, r.kind == Mcp, r.segments, found), nonce, faceRoute);
    LeavesRewritten(v, r, found, nonce);
  }

  /**
   * An analysed request that is not blocked gets back its own segments, in order and under their ids: each
   * is its text with the gaps between its regions unchanged, and each region replaced as its action asks.
   */
  lemma ResponseSegments(v: Service, r: SegmentRequest, found: seq<seq<Match>>, nonce: string)
    requires ValidPolicy(v.policy) && |found| == |r.segments| && TextAnalyzed(v, r)
    requires AnalyzeSegments(v, r, found, nonce).Ok?
    requires AnalyzeSegments(v, r, found, nonce).value.decision != Blocked
    ensures AnalyzeSegments(v, r, found, nonce).value.segments.Some?
    ensures var segments := AnalyzeSegments(v, r, found, nonce).value.segments.value;
            |segments| == |r.segments| && forall i :: 0 <= i < |segments| ==>
              SegmentRewritten(v, r, found, nonce, segments, i)
  {
    AnalyzedText(v, r, found, nonce);
    FacesRoute(v.policy, AnalyzeText(v, r, found, nonce, FaceRoute(v.policy, r)).value, r);
    TextSegments(v, r, found, nonce, FaceRoute(v.policy, r));
  }

  // ---- notices ----

  /** Something was detected, and all of it passes. */
  ghost predicate OnlyPasses(p: PolicySettings, rab: bool, found: seq<seq<Match>>) {
    SomethingDetected(found) && forall e :: Detected(found, e) ==> Resolves(p, rab, e, Pass)
  }

  /** What the requester is told about the text of a request that is not blocked. */
  ghost function TextNotices(p: PolicySettings, found: seq<seq<Match>>): seq<string> {
    if Finds(p, false, found, Reroute) then [p.notice.rerouted]
    else if OnlyPasses(p, false, found) then ["Sensitive data was detected and passed through by policy."]
    else if SomethingDetected(found) then [p.notice.masked]
    else if p.notice.showWhenNoPii then ["No sensitive data was detected by the configured policy."]
    else []
  }

  /** What the requester is told about an analysed request. */
  ghost function Notices(p: PolicySettings, r: SegmentRequest, found: seq<seq<Match>>, blocked: bool): seq<string> {
    if blocked then []
    else if FacesReroute(p, r) then [p.notice.rerouted]
    else if r.visual.Some? && FaceCount(r.visual.value) > 0 then
      (if SomethingDetected(found) then TextNotices(p, found) else [])
      + ["Faces were detected; images must be withheld."]
    else TextNotices(p, found)
  }

  lemma FoundAlone(p: PolicySettings, rab: bool, found: seq<seq<Match>>)
    requires ValidPolicy(p)
    ensures OnlyPasses(p, rab, found) <==>
              SomethingDetected(found) && !FindsMore(p, rab, found)
  {
    forall e ensures Resolves(p, rab, e, Effective(p, e, rab)) {
      EffectiveIsResolved(p, rab, e, Effective(p, e, rab));
    }
    if SomethingDetected(found) && !FindsMore(p, rab, found) {
      forall e | Detected(found, e) ensures Resolves(p, rab, e, Pass) {
        assert Finds(p, rab, found, Effective(p, e, rab));
      }
    }
    if OnlyPasses(p, rab, found) {
      if a :| a != Pass && Finds(p, rab, found, a) {
        var e :| Detected(found, e) && Resolves(p, rab, e, a);
        EffectiveIsResolved(p, rab, e, a);
        EffectiveIsResolved(p, rab, e, Pass);
      }
    }
  }

  lemma RegionPasses(p: PolicySettings, rab: bool, ms: seq<Match>, k: nat, length: int)
    requires ValidPolicy(p) && ValidSpans(ms, length) && !SomeMatch(p, rab, ms, 2) && k < |EffectiveOf(p, rab, ms)|
    ensures Effective(p, EffectiveOf(p, rab, ms)[k].entity, rab) == Pass
  {
    var j := LevelDown(p, rab, ms, k, length);
    assert Strictness(Effective(p, ms[j].entity, rab)) < 2;
    EffectiveIsResolved(p, rab, ms[j].entity, Pass);
  }

  lemma SomeRegion(p: PolicySettings, rab: bool, ms: seq<Match>, m: Match, length: int)
    requires ValidSpans(ms, length) && m in ms
    ensures EffectiveOf(p, rab, ms) != []
  {
    var i :| 0 <= i < |ms| && ms[i] == m;
    var k := LevelUp(p, rab, ms, i, length);
  }

  lemma SomeRegionPasses(p: PolicySettings, rab: bool, ms: seq<Match>, m: Match, length: int)
    requires ValidPolicy(p) && ValidSpans(ms, length) && m in ms && !SomeMatch(p, rab, ms, 2)
    ensures HasAction(p, rab, EffectiveOf(p, rab, ms), Pass)
  {
    SomeRegion(p, rab, ms, m, length);
    RegionPasses(p, rab, ms, 0, length);
  }

  /** A leaf with a match in it, all of whose matches pass, applies pass. */
  lemma LeafPasses(c: Context, rab: bool, text: string, ms: seq<Match>, m: Match)
    requires ValidPolicy(c.policy) && ValidSpans(ms, |text|) && m in ms && !SomeMatch(c.policy, rab, ms, 2)
    requires var d := Prepared(c.policy, rab, text, ms); PlanFits(d) && TransformOne(c, d).Some?
    ensures Pass in TransformOne(c, Prepared(c.policy, rab, text, ms)).value.appliedActions
  {
    var d := Prepared(c.policy, rab, text, ms);
    SomeRegionPasses(c.policy, rab, ms, m, |text|);
    LedgerActions(c, d.appliedActions, d.text, d.effectiveMatches, Pass);
  }

  lemma SomeLeafPasses(v: Service, rab: bool, segments: seq<Segment>, found: seq<seq<Match>>, nonce: string)
    requires ValidPolicy(v.policy) && |segments| == |found| && AllValid(segments, found) && SomethingDetected(found)
    requires !SomeDetected(v.policy, rab, found, 2) && AllFit(Plans(v.policy, rab, segments, found))
    requires TransformAll(v, nonce, Plans(v.policy, rab, segments, found)).Some?
    ensures Pass in AllActions(TransformAll(v, nonce, Plans(v.policy, rab, segments, found)).value.0)
  {
    var ds := Plans(v.policy, rab, segments, found);
    var e :| Detected(found, e);
    var i, m :| 0 <= i < |found| && m in found[i] && m.entity == e;
    TransformAllEach(v, nonce, ds, i);
    assert !SomeMatch(v.policy, rab, found[i], 2) && PlanFits(ds[i]);
    LeafPasses(Context(v.policy, v.ops, nonce, i), rab, segments[i].text, found[i], m);
    ActionInLeaf(TransformAll(v, nonce, ds).value.0, Pass);
  }

  /** What the notices of a text answer are chosen by. */
  lemma DecideNotices(v: Service, r: SegmentRequest, ds: seq<PlanData>, nonce: string)
    requires AllFit(ds) && |ds| == |r.segments| && Decide(v, r, ds, nonce, None).Ok?
    ensures var w := Decide(v, r, ds, nonce, None).value;
            && (w.decision == Blocked ==> w.responseNotices == [])
            && (w.decision != Blocked ==>
                  && TransformAll(v, nonce, ds).Some? && |TransformAll(v, nonce, ds).value.0| == |ds|
                  && var ts := TransformAll(v, nonce, ds).value.0;
                  && w.entities == TotalsOf(v.policy, r.kind == Mcp, ts).entities
                  && w.appliedActions == AllActions(ts)
                  && w.responseNotices == if r.kind == Mcp then []
                                          else Policy.ResponseNotices(v.policy, w.decision, w.entities != [],
                                               AllActions(ts)))
  {
    TransformAllLength(v, nonce, ds);
    DecideCases(v, r, ds, nonce, None);
  }

  lemma PassApplied(v: Service, r: SegmentRequest, found: seq<seq<Match>>, nonce: string)
    requires ValidPolicy(v.policy) && |found| == |r.segments| && AnalyzeText(v, r, found, nonce, None).Ok?
    requires AnalyzeText(v, r, found, nonce, None).value.decision == PassThrough && SomethingDetected(found)
    ensures Pass in AnalyzeText(v, r, found, nonce, None).value.appliedActions
  {
    var rab := r.kind == Mcp;
    PreparedFits(v.policy, rab, r.segments, found);
    DecideNotices(v, r, Plans(v.policy, rab, r.segments, found), nonce);
    NothingMore(v, r, found, nonce);
    SomeLeafPasses(v, rab, r.segments, found, nonce);
  }

  lemma NothingMore(v: Service, r: SegmentRequest, found: seq<seq<Match>>, nonce: string)
    requires ValidPolicy(v.policy) && |found| == |r.segments| && AnalyzeText(v, r, found, nonce, None).Ok?
    requires AnalyzeText(v, r, found, nonce, None).value.decision == PassThrough
    ensures !SomeDetected(v.policy, r.kind == Mcp, found, 2)
  {
    DecisionByLevel(v, r, found, nonce);
  }

  lemma DecideActions(v: Service, r: SegmentRequest, ds: seq<PlanData>, nonce: string)
    requires AllFit(ds) && |ds| == |r.segments| && Decide(v, r, ds, nonce, None).Ok?
    ensures var w := Decide(v, r, ds, nonce, None).value;
            && (w.decision == PassThrough ==> w.appliedActions <= {Pass})
            && (w.decision == ApplyActions ==> w.appliedActions - {Pass} != {})
  {
    TransformAllLength(v, nonce, ds);
    DecideCases(v, r, ds, nonce, None);
  }

  lemma SomeoneListed(entities: seq<string>, found: seq<seq<Match>>)
    requires forall e :: e in entities <==> Detected(found, e)
    ensures entities != [] <==> SomethingDetected(found)
  {
    if entities != [] {
      assert entities[0] in entities;
    }
  }

  /** What a text answer that is not blocked shows, beside what was found in the text. */
  ghost predicate Shows(p: PolicySettings, found: seq<seq<Match>>, decision: Decision, actions: set<Action>) {
    && !Finds(p, false, found, Block)
    && decision == (if Finds(p, false, found, Reroute) then Rerouted
                    else if FindsMore(p, false, found) then ApplyActions else PassThrough)
    && (decision == PassThrough && SomethingDetected(found) ==> actions == {Pass})
    && (decision == ApplyActions ==> actions != {Pass})
  }

  lemma NoticesAgree(p: PolicySettings, found: seq<seq<Match>>, decision: Decision, actions: set<Action>)
    requires ValidPolicy(p) && Shows(p, found, decision, actions)
    ensures Policy.ResponseNotices(p, decision, SomethingDetected(found), actions) == TextNotices(p, found)
    ensures !SomethingDetected(found) ==> decision == PassThrough
  {
    FoundAlone(p, false, found);
    if FindsMore(p, false, found) {
      var a :| a != Pass && Finds(p, false, found, a);
      assert SomethingDetected(found);
    }
  }

  lemma AnswerShows(v: Service, r: SegmentRequest, found: seq<seq<Match>>, nonce: string)
    requires ValidPolicy(v.policy) && |found| == |r.segments| && r.kind != Mcp
    requires AnalyzeText(v, r, found, nonce, None).Ok?
    requires AnalyzeText(v, r, found, nonce, None).value.decision != Blocked
    ensures var w := AnalyzeText(v, r, found, nonce, None).value;
            Shows(v.policy, found, w.decision, w.appliedActions)
  {
    DecisionIsJoin(v, r, found, nonce);
    AnswerActions(v, r, found, nonce);
  }

  lemma AnswerEntities(v: Service, r: SegmentRequest, found: seq<seq<Match>>, nonce: string)
    requires ValidPolicy(v.policy) && |found| == |r.segments| && AnalyzeText(v, r, found, nonce, None).Ok?
    ensures AnalyzeText(v, r, found, nonce, None).value.entities != [] <==> SomethingDetected(found)
  {
    TextReports(v, r, found, nonce, None);
    SomeoneListed(AnalyzeText(v, r, found, nonce, None).value.entities, found);
  }

  /** The notices of a text answer say what was found in the text. */
  lemma TextAnswer(v: Service, r: SegmentRequest, found: seq<seq<Match>>, nonce: string)
    requires ValidPolicy(v.policy) && |found| == |r.segments| && r.kind != Mcp
    requires AnalyzeText(v, r, found, nonce, None).Ok?
    ensures var w := AnalyzeText(v, r, found, nonce, None).value;
            && w.responseNotices == (if w.decision == Blocked then [] else TextNotices(v.policy, found))
            && (w.entities != [] <==> SomethingDetected(found))
            && (w.decision != Blocked && w.entities == [] ==> w.decision == PassThrough)
  {
    var w := AnalyzeText(v, r, found, nonce, None).value;
    AnswerEntities(v, r, found, nonce);
    AnswerNotices(v, r, found, nonce);
    if w.decision != Blocked {
      AnswerShows(v, r, found, nonce);
      NoticesAgree(v.policy, found, w.decision, w.appliedActions);
    }
  }

  lemma AnswerNotices(v: Service, r: SegmentRequest, found: seq<seq<Match>>, nonce: string)
    requires ValidPolicy(v.policy) && |found| == |r.segments| && r.kind != Mcp
    requires AnalyzeText(v, r, found, nonce, None).Ok?
    ensures var w := AnalyzeText(v, r, found, nonce, None).value;
            w.responseNotices == if w.decision == Blocked then []
                                 else Policy.ResponseNotices(v.policy, w.decision, w.entities != [], w.appliedActions)
  {
    PreparedFits(v.policy, false, r.segments, found);
    DecideNotices(v, r, Plans(v.policy, false, r.segments, found), nonce);
  }

  lemma AnswerActs(v: Service, r: SegmentRequest, found: seq<seq<Match>>, nonce: string)
    requires |found| == |r.segments| && AnalyzeText(v, r, found, nonce, None).Ok?
    ensures var w := AnalyzeText(v, r, found, nonce, None).value;
            && (w.decision == PassThrough ==> w.appliedActions <= {Pass})
            && (w.decision == ApplyActions ==> w.appliedActions - {Pass} != {})
  {
    PreparedFits(v.policy, r.kind == Mcp, r.segments, found);
    DecideActions(v, r, Plans(v.policy, r.kind == Mcp, r.segments, found), nonce);
  }

  lemma OnlyPass(actions: set<Action>)
    ensures actions <= {Pass} && Pass in actions ==> actions == {Pass}
    ensures actions - {Pass} != {} ==> actions != {Pass}
  {
  }

  lemma AnswerActions(v: Service, r: SegmentRequest, found: seq<seq<Match>>, nonce: string)
    requires ValidPolicy(v.policy) && |found| == |r.segments| && AnalyzeText(v, r, found, nonce, None).Ok?
    ensures var w := AnalyzeText(v, r, found, nonce, None).value;
            && (w.decision == PassThrough && SomethingDetected(found) ==> w.appliedActions == {Pass})
            && (w.decision == ApplyActions ==> w.appliedActions != {Pass})
  {
    var w := AnalyzeText(v, r, found, nonce, None).value;
    AnswerActs(v, r, found, nonce);
    OnlyPass(w.appliedActions);
    if w.decision == PassThrough && SomethingDetected(found) {
      PassApplied(v, r, found, nonce);
    }
  }

  lemma BlockedNotices(v: Service, r: SegmentRequest, found: seq<seq<Match>>, nonce: string, faceRoute: Option<string>)
    requires |found| == |r.segments| && AnalyzeText(v, r, found, nonce, faceRoute).Ok?
    requires AnalyzeText(v, r, found, nonce, faceRoute).value.decision == Blocked
    ensures AnalyzeText(v, r, found, nonce, faceRoute).value.responseNotices == []
  {
    var ds := Plans(v.policy, r.kind == Mcp, r.segments, found);
    PreparedFits(v.policy, r.kind == Mcp, r.segments, found);
    TransformAllLength(v, nonce, ds);
    DecideCases(v, r, ds, nonce, faceRoute);
  }

  /** What faces do to the notices of an answer. */
  lemma FacesNotices(p: PolicySettings, w: Result, r: SegmentRequest, faceRoute: Option<string>)
    requires r.visual.Some? && FaceCount(r.visual.value) > 0
    ensures WithVisual(p, w, r, faceRoute).responseNotices ==
            if w.decision == Blocked then w.responseNotices
            else if p.faceAction == Reroute then [p.notice.rerouted]
            else
              (if w.decision == PassThrough && w.entities == [] then [] else w.responseNotices)
              + (if p.faceAction == TextOnly then ["Faces were detected; images must be withheld."] else [])
  {
    var e := FaceEvidence(w, FaceActionFor(p, w), FaceCount(r.visual.value));
    EvidenceNotices(w, FaceActionFor(p, w), FaceCount(r.visual.value));
    RoutingNotices(p, e, FaceActionFor(p, w), faceRoute);
  }

  lemma EvidenceNotices(w: Result, action: Action, count: nat)
    ensures FaceEvidence(w, action, count).responseNotices ==
            if w.decision == PassThrough && w.entities == [] then [] else w.responseNotices
    ensures FaceEvidence(w, action, count).decision == w.decision
  {
  }

  lemma RoutingNotices(p: PolicySettings, w: Result, action: Action, faceRoute: Option<string>)
    ensures FaceRouting(p, w, action, faceRoute).responseNotices ==
            if action == Reroute then [p.notice.rerouted]
            else w.responseNotices +
                 (if action == TextOnly then ["Faces were detected; images must be withheld."] else [])
  {
  }

  /**
   * An analysed request that blocks says nothing; otherwise the notices say whether it is rerouted, whether
   * what was detected was passed or masked, or that nothing was, and that faces must be withheld.
   */
  lemma ResponseNotices(v: Service, r: SegmentRequest, found: seq<seq<Match>>, nonce: string)
    requires ValidPolicy(v.policy) && |found| == |r.segments| && TextAnalyzed(v, r) && r.kind != Mcp
    requires AnalyzeSegments(v, r, found, nonce).Ok?
    ensures var w := AnalyzeSegments(v, r, found, nonce).value;
            w.responseNotices == Notices(v.policy, r, found, w.decision == Blocked)
  {
    var p, faceRoute := v.policy, FaceRoute(v.policy, r);
    var text := AnalyzeText(v, r, found, nonce, faceRoute).value;
    AnalyzedText(v, r, found, nonce);
    FacesRoute(p, text, r);
    FaceRouteIs(p, r);
    if text.decision == Blocked {
      BlockedNotices(v, r, found, nonce, faceRoute);
    } else if faceRoute.None? {
      TextAnswer(v, r, found, nonce);
    }
    if r.visual.Some? && FaceCount(r.visual.value) > 0 {
      FacesNotices(p, text, r, faceRoute);
    }
  }

  // ---- applied actions ----

  /** Some effective region of the request resolves to this action. */
  ghost predicate RegionResolves(p: PolicySettings, rab: bool, found: seq<seq<Match>>, a: Action) {
    exists i, k ::
      0 <= i < |found| && 0 <= k < |EffectiveOf(p, rab, found[i])|
      && Resolves(p, rab, EffectiveOf(p, rab, found[i])[k].entity, a)
  }

  lemma TerminalIs(p: PolicySettings, rab: bool, rs: seq<Match>, a: Action)
    ensures a in Terminal(p, rab, rs) <==> a in {Pass, Block, Reroute} && HasAction(p, rab, rs, a)
  {
  }

  lemma RegionsApply(c: Context, rab: bool, base: set<Action>, text: string, rs: seq<Match>, a: Action)
    requires ValidPolicy(c.policy) && InText(text, rs) && LedgerOf(c, base, text, rs).Some?
    requires base == Terminal(c.policy, rab, rs) && !HasAction(c.policy, rab, rs, Block)
    ensures a in LedgerOf(c, base, text, rs).value.applied <==> HasAction(c.policy, rab, rs, a)
  {
    LedgerActions(c, base, text, rs, a);
    TerminalIs(c.policy, rab, rs, a);
    if a != Reroute {
      EditedResolves(c.policy, rab, rs, a);
    }
  }

  /** A rewritten leaf applies exactly the actions its regions resolve to. */
  lemma LeafApplies(c: Context, rab: bool, text: string, ms: seq<Match>, a: Action)
    requires ValidPolicy(c.policy)
    requires var d := Prepared(c.policy, rab, text, ms); PlanFits(d) && TransformOne(c, d).Some? && !d.blocked
    ensures a in TransformOne(c, Prepared(c.policy, rab, text, ms)).value.appliedActions <==>
              HasAction(c.policy, rab, EffectiveOf(c.policy, rab, ms), a)
  {
    TransformedFrom(c, Prepared(c.policy, rab, text, ms));
    var rs := EffectiveOf(c.policy, rab, ms);
    RegionsApply(c, rab, Terminal(c.policy, rab, rs), text, rs, a);
  }

  lemma EditedResolves(p: PolicySettings, rab: bool, rs: seq<Match>, a: Action)
    requires ValidPolicy(p) && !HasAction(p, rab, rs, Block) && a != Reroute
    ensures (exists m :: m in rs && Edited(p, m) && Configured(p, m.entity) == a) <==>
              a != Pass && HasAction(p, rab, rs, a)
  {
    if m :| m in rs && Edited(p, m) && Configured(p, m.entity) == a {
      var k :| 0 <= k < |rs| && rs[k] == m;
      assert Effective(p, rs[k].entity, rab) == a;
    }
    if k :| 0 <= k < |rs| && a != Pass && Effective(p, rs[k].entity, rab) == a {
      assert rs[k] in rs && Edited(p, rs[k]) && Configured(p, rs[k].entity) == a;
    }
  }

  lemma HasActionResolves(p: PolicySettings, rab: bool, rs: seq<Match>, a: Action)
    requires ValidPolicy(p)
    ensures HasAction(p, rab, rs, a) <==> exists k :: 0 <= k < |rs| && Resolves(p, rab, rs[k].entity, a)
  {
    forall k | 0 <= k < |rs| ensures Resolves(p, rab, rs[k].entity, a) <==> Effective(p, rs[k].entity, rab) == a {
      EffectiveIsResolved(p, rab, rs[k].entity, a);
    }
  }

  lemma RegionHasAction(p: PolicySettings, rab: bool, found: seq<seq<Match>>, a: Action)
    requires ValidPolicy(p)
    ensures RegionResolves(p, rab, found, a) <==>
              exists i :: 0 <= i < |found| && HasAction(p, rab, EffectiveOf(p, rab, found[i]), a)
  {
    forall i | 0 <= i < |found|
      ensures HasAction(p, rab, EffectiveOf(p, rab, found[i]), a) <==>
                exists k :: 0 <= k < |EffectiveOf(p, rab, found[i])|
                  && Resolves(p, rab, EffectiveOf(p, rab, found[i])[k].entity, a)
    {
      HasActionResolves(p, rab, EffectiveOf(p, rab, found[i]), a);
    }
  }

  lemma LeavesApply(v: Service, rab: bool, segments: seq<Segment>, found: seq<seq<Match>>, nonce: string, a: Action)
    requires ValidPolicy(v.policy) && |segments| == |found| && AllFit(Plans(v.policy, rab, segments, found))
    requires !AnyBlocked(Plans(v.policy, rab, segments, found))
    requires TransformAll(v, nonce, Plans(v.policy, rab, segments, found)).Some?
    ensures a in AllActions(TransformAll(v, nonce, Plans(v.policy, rab, segments, found)).value.0) <==>
              RegionResolves(v.policy, rab, found, a)
  {
    var ds := Plans(v.policy, rab, segments, found);
    TransformAllLength(v, nonce, ds);
    var ts := TransformAll(v, nonce, ds).value.0;
    forall i | 0 <= i < |ts|
      ensures a in ts[i].appliedActions <==> HasAction(v.policy, rab, EffectiveOf(v.policy, rab, found[i]), a)
    {
      TransformAllEach(v, nonce, ds, i);
      assert PlanFits(ds[i]) && !ds[i].blocked;
      LeafApplies(Context(v.policy, v.ops, nonce, i), rab, segments[i].text, found[i], a);
    }
    ActionInLeaf(ts, a);
    RegionHasAction(v.policy, rab, found, a);
  }

  lemma DecideApplied(v: Service, r: SegmentRequest, ds: seq<PlanData>, nonce: string, faceRoute: Option<string>)
    requires AllFit(ds) && |ds| == |r.segments| && Decide(v, r, ds, nonce, faceRoute).Ok?
    ensures var w := Decide(v, r, ds, nonce, faceRoute).value;
            if w.decision == Blocked then w.appliedActions == {Block}
            else
              !AnyBlocked(ds) && TransformAll(v, nonce, ds).Some?
              && w.appliedActions == AllActions(TransformAll(v, nonce, ds).value.0)
  {
    TransformAllLength(v, nonce, ds);
    DecideCases(v, r, ds, nonce, faceRoute);
  }

  lemma TextDecided(
    v: Service, r: SegmentRequest, found: seq<seq<Match>>, nonce: string, faceRoute: Option<string>)
    requires |found| == |r.segments| && AnalyzeText(v, r, found, nonce, faceRoute).Ok?
    ensures AllFit(Plans(v.policy, r.kind == Mcp, r.segments, found))
    ensures AnalyzeText(v, r, found, nonce, faceRoute) ==
              Decide(v, r, Plans(v.policy, r.kind == Mcp, r.segments, found), nonce, faceRoute)
  {
    PreparedFits(v.policy, r.kind == Mcp, r.segments, found);
  }

  lemma TextApplied(
    v: Service, r: SegmentRequest, found: seq<seq<Match>>, nonce: string, faceRoute: Option<string>, a: Action)
    requires ValidPolicy(v.policy) && |found| == |r.segments| && AnalyzeText(v, r, found, nonce, faceRoute).Ok?
    ensures var w := AnalyzeText(v, r, found, nonce, faceRoute).value;
            a in w.appliedActions <==>
              if w.decision == Blocked then a == Block else RegionResolves(v.policy, r.kind == Mcp, found, a)
  {
    TextDecided(v, r, found, nonce, faceRoute);
    PlansApplied(v, r, found, nonce, faceRoute, a);
  }

  lemma PlansApplied(
    v: Service, r: SegmentRequest, found: seq<seq<Match>>, nonce: string, faceRoute: Option<string>, a: Action)
    requires ValidPolicy(v.policy) && |found| == |r.segments|
    requires AllFit(Plans(v.policy, r.kind == Mcp, r.segments, found))
    requires Decide(v, r, Plans(v.policy, r.kind == Mcp, r.segments, found), nonce, faceRoute).Ok?
    ensures var w := Decide(v, r, Plans(v.policy, r.kind == Mcp, r.segments, found), nonce, faceRoute).value;
            a in w.appliedActions <==>
              if w.decision == Blocked then a == Block else RegionResolves(v.policy, r.kind == Mcp, found, a)
  {
    AppliedOver(v, r, found, Plans(v.policy, r.kind == Mcp, r.segments, found), nonce, faceRoute, a);
  }

  lemma AppliedOver(
    v: Service, r: SegmentRequest, found: seq<seq<Match>>, ds: seq<PlanData>, nonce: string, faceRoute: Option<string>,
    a: Action)
    requires ValidPolicy(v.policy) && |found| == |r.segments| && ds == Plans(v.policy, r.kind == Mcp, r.segments, found)
    requires AllFit(ds) && Decide(v, r, ds, nonce, faceRoute).Ok?
    ensures var w := Decide(v, r, ds, nonce, faceRoute).value;
            a in w.appliedActions <==>
              if w.decision == Blocked then a == Block else RegionResolves(v.policy, r.kind == Mcp, found, a)
  {
    DecideApplied(v, r, ds, nonce, faceRoute);
    if Decide(v, r, ds, nonce, faceRoute).value.decision != Blocked {
      LeavesApply(v, r.kind == Mcp, r.segments, found, nonce, a);
    }
  }

  lemma FacesApply(p: PolicySettings, w: Result, r: SegmentRequest, faceRoute: Option<string>, a: Action)
    ensures a in WithVisual(p, w, r, faceRoute).appliedActions <==>
              || a in w.appliedActions
              || (r.visual.Some? && FaceCount(r.visual.value) > 0
                  && a == if w.decision == Blocked then Block else p.faceAction)
  {
    if r.visual.Some? && FaceCount(r.visual.value) > 0 {
      Response.WithFacesFaced(p, w, FaceCount(r.visual.value), faceRoute);
    }
  }

  /**
   * An analysed request that is not blocked applies exactly the actions its effective regions resolve to and,
   * where faces were found, the face action; a blocked one applies block alone.
   */
  lemma ResponseActions(v: Service, r: SegmentRequest, found: seq<seq<Match>>, nonce: string, a: Action)
    requires ValidPolicy(v.policy) && |found| == |r.segments| && TextAnalyzed(v, r)
    requires AnalyzeSegments(v, r, found, nonce).Ok?
    ensures var w := AnalyzeSegments(v, r, found, nonce).value;
            a in w.appliedActions <==>
              if w.decision == Blocked then a == Block
              else
                || RegionResolves(v.policy, r.kind == Mcp, found, a)
                || (r.visual.Some? && FaceCount(r.visual.value) > 0 && a == v.policy.faceAction)
  {
    var text := AnalyzeText(v, r, found, nonce, FaceRoute(v.policy, r)).value;
    AnalyzedText(v, r, found, nonce);
    FacesRoute(v.policy, text, r);
    FacesApply(v.policy, text, r, FaceRoute(v.policy, r), a);
    TextApplied(v, r, found, nonce, FaceRoute(v.policy, r), a);
  }
}
