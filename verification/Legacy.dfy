/** The request-shaped adapter response: its stricter validators accept every result as well. */
module Legacy {
  import opened Ordering
  import opened PolicyConfig
  import opened Matches
  import opened Restore
  import opened Planner
  import opened Contracts
  import opened Policy
  import opened Response
  import opened Session

  predicate NoTextMcp(r: SegmentRequest) { r.kind == Mcp && r.segments == [] }

  /** Unscanned success is an unchanged pass of an MCP call without text; MCP carries no model routing. */
  predicate ValidTextCaller(w: Result, r: SegmentRequest) {
    && (w.source == CurrentRequest && !w.scanPerformed && w.decision != Blocked ==>
          && NoTextMcp(r) && w.decision == PassThrough && w.remoteAllowed
          && w.entities == [] && w.entityCounts == map[] && w.appliedActions == {} && w.routeClass.None?
          && w.textLeafCount == 0 && !w.cachedDecisionApplied
          && w.requestNotices == [] && w.responseNotices == [] && w.safetyRule.None?)
    && (w.segments.Some? && r.kind == Mcp ==>
          w.decision != Rerouted && w.routeClass.None? && w.requestNotices == [] && w.responseNotices == [])
    && "FACE" !in w.entityCounts
  }

  function RowActions(rows: seq<Row>): set<Action> {
    set i | 0 <= i < |rows| :: rows[i].action
  }

  /** What was not scanned for text applies its visual action alone. */
  predicate ValidUnscannedVisual(w: Result) {
    !w.scanPerformed ==>
      && (forall e :: e in w.entityCounts ==> e == "FACE") && w.reversal == map[]
      && w.appliedActions == if w.decision == Blocked then {Block} else RowActions(w.rows)
  }

  /** Visual evidence, effective actions and forwarding state agree. */
  predicate ValidVisualDecision(w: Result, r: SegmentRequest, faces: Faces) {
    && (if "FACE" in w.entityCounts then w.entityCounts["FACE"] else 0) == FaceCount(faces)
    && (faces.scanStatus == ScanFailed ==> w.decision == Blocked)
    && (forall i :: 0 <= i < |w.rows| && w.rows[i].entity == "FACE" ==>
          w.rows[i].action in w.appliedActions && (w.decision == Blocked ==> w.rows[i].action == Block))
    && (TextOnly in w.appliedActions ==> RowNamed(w.rows, "FACE"))
    && (if w.decision == Blocked then w.segments.None? && w.routeClass.None? && w.reversal == map[]
        else w.segments.Some? && r.kind != Mcp && !r.attachmentsPresent)
    && (w.remoteAllowed <==> w.decision !in {Blocked, Rerouted})
    && (w.decision == Rerouted ==> w.routeClass.Some? && w.routeClass.value != "")
  }

  predicate HasVisualTextOnly(rows: seq<Row>) {
    exists i :: 0 <= i < |rows| && rows[i].entity == "FACE" && rows[i].action == TextOnly
  }

  /** Report rows never contradict the decision. */
  predicate ValidDecisionRows(w: Result) {
    && (w.decision == PassThrough ==> forall i :: 0 <= i < |w.rows| ==> w.rows[i].action == Pass)
    && (w.decision == ApplyActions ==>
          && !HasRow(w.rows, Block) && !HasRow(w.rows, Reroute)
          && (SomeTransformed(w.rows) || HasVisualTextOnly(w.rows)))
    && (w.decision == Rerouted ==>
          && !HasRow(w.rows, Block)
          && (HasRow(w.rows, Reroute) || (w.source == CurrentRequest && w.scanPerformed && w.cachedDecisionApplied)))
    && (w.decision == Blocked ==> !SomeTransformed(w.rows) && (w.rows == [] || HasRow(w.rows, Block)))
    && (w.source == CurrentRequest && !w.scanPerformed && w.decision == PassThrough ==>
      w.rows == [] && w.reversal == map[])
  }

  /** Everything the request-shaped adapter response is checked against. */
  predicate ValidAdapterResponse(w: Result, r: SegmentRequest) {
    && ValidMetadata(w) && ValidReport(w.rows) && ValidCounts(w) && ValidReversal(w.reversal)
    && |w.appliedActions| <= 16 && |w.requestNotices| <= 16 && |w.responseNotices| <= 16
    && (if r.visual.None? then ValidTextCaller(w, r)
        else w.source == CurrentRequest && !w.cachedDecisionApplied && ValidUnscannedVisual(w)
             && ValidVisualDecision(w, r, r.visual.value))
    && ValidDecisionRows(w)
  }

  // ---- what the segment response does not already say ----

  lemma TextOnlyIsFace(w: Result)
    requires ValidReport(w.rows) && HasRow(w.rows, TextOnly)
    ensures HasVisualTextOnly(w.rows)
  {
    var i :| 0 <= i < |w.rows| && w.rows[i].action == TextOnly;
    assert ValidRow(w.rows[i]);
  }

  lemma PassRowsAreText(rows: seq<Row>)
    requires ValidReport(rows) && forall i :: 0 <= i < |rows| ==> rows[i].action == Pass
    ensures !RowNamed(rows, "FACE")
  {
    forall i | 0 <= i < |rows| ensures rows[i].entity != "FACE" {
      assert ValidRow(rows[i]);
    }
  }

  lemma OnlyFaceRows(rows: seq<Row>, counts: map<string, int>)
    requires RowsMatch(rows, counts) && forall e :: e in counts ==> e == "FACE"
    ensures rows == [] || RowNamed(rows, "FACE")
  {
    if rows != [] {
      assert rows[0].entity in counts;
    }
  }

  /** A pass that was not scanned has no rows: only FACE could have one, and FACE never passes. */
  lemma UnscannedPassHasNoRows(w: Result, r: SegmentRequest)
    requires ValidResponse(w, r) && w.source == CurrentRequest && !w.scanPerformed && w.decision == PassThrough
    ensures w.rows == []
  {
    PassRowsAreText(w.rows);
    OnlyFaceRows(w.rows, w.entityCounts);
  }

  lemma DecisionRows(w: Result, r: SegmentRequest)
    requires ValidResponse(w, r)
    ensures ValidDecisionRows(w)
  {
    if HasRow(w.rows, TextOnly) {
      TextOnlyIsFace(w);
    }
    if w.source == CurrentRequest && !w.scanPerformed && w.decision == PassThrough {
      UnscannedPassHasNoRows(w, r);
    }
  }

  lemma NoNamesNoCounts(counts: map<string, int>, entities: seq<string>)
    requires SameNames(counts, entities) && entities == []
    ensures counts == map[]
  {
  }

  lemma TextCaller(w: Result, r: SegmentRequest)
    requires ValidResponse(w, r) && r.visual.None?
    ensures ValidTextCaller(w, r)
  {
    if w.entities == [] {
      NoNamesNoCounts(w.entityCounts, w.entities);
    }
  }

  /** The segment response's validators and the actions of unscanned visual results imply all the others. */
  lemma AdapterFromSegments(w: Result, r: SegmentRequest)
    requires ValidResponse(w, r) && ValidRequest(r) && (r.visual.Some? ==> ValidUnscannedVisual(w))
    ensures ValidAdapterResponse(w, r)
  {
    DecisionRows(w, r);
    if r.visual.None? {
      TextCaller(w, r);
    }
  }

  // ---- unscanned visual results ----

  /** Blocked outright, or untouched where faces allow it. */
  predicate Bare(p: PolicySettings, b: Result, r: SegmentRequest)
    requires r.visual.Some?
  {
    && !b.scanPerformed && b.rows == [] && b.entityCounts == map[] && b.reversal == map[]
    && (if b.decision == Blocked then b.appliedActions == {Block}
        else b.decision == PassThrough && b.appliedActions == {} && FacesPass(p, r))
  }

  lemma PreflightBare(v: Service, r: SegmentRequest)
    requires ValidRequest(r) && r.visual.Some? && Preflight(v, r).Ok? && Preflight(v, r).value.Some?
    ensures Bare(v.policy, Preflight(v, r).value.value, r)
  {
  }

  /** What analysis returns for a visual request before its faces: scanned, blocked, or untouched. */
  lemma UnscannedBefore(v: Service, r: SegmentRequest, found: seq<seq<Match>>, nonce: string)
    requires ValidRequest(r) && r.visual.Some? && |found| == |r.segments| && BeforeVisual(v, r, found, nonce).Ok?
    ensures BeforeVisual(v, r, found, nonce).value.scanPerformed
              || Bare(v.policy, BeforeVisual(v, r, found, nonce).value, r)
  {
    if Preflight(v, r).value.Some? {
      PreflightBare(v, r);
    } else if FacesPass(v.policy, r) && r.textPiiEnabled {
      TextIsScanned(v, r, found, nonce, FaceRoute(v.policy, r));
    }
  }

  lemma DecisionsAreScanned(v: Service, r: SegmentRequest, ds: seq<PlanData>, nonce: string, faceRoute: Option<string>)
    requires AllFit(ds) && |ds| == |r.segments| && Decide(v, r, ds, nonce, faceRoute).Ok?
    ensures Decide(v, r, ds, nonce, faceRoute).value.scanPerformed
  {
    TransformAllLength(v, nonce, ds);
    DecideCases(v, r, ds, nonce, faceRoute);
  }

  lemma TextIsScanned(v: Service, r: SegmentRequest, found: seq<seq<Match>>, nonce: string, faceRoute: Option<string>)
    requires |found| == |r.segments| && AnalyzeText(v, r, found, nonce, faceRoute).Ok?
    ensures AnalyzeText(v, r, found, nonce, faceRoute).value.scanPerformed
  {
    PreparedFits(v.policy, r.kind == Mcp, r.segments, found);
    DecisionsAreScanned(v, r, Plans(v.policy, r.kind == Mcp, r.segments, found), nonce, faceRoute);
  }

  lemma OneRowActions(row: Row)
    ensures RowActions(Sort([row], RowKey)) == {row.action}
  {
    SortIdentity([row], RowKey);
    assert RowActions([row]) == {row.action} by { assert [row][0] == row; }
  }

  /** Face evidence on a bare result is its one row, its one count and its one action. */
  lemma BareEvidence(p: PolicySettings, b: Result, r: SegmentRequest, count: nat)
    requires r.visual.Some? && Bare(p, b, r)
    ensures var w := FaceEvidence(b, FaceActionFor(p, b), count);
            && !w.scanPerformed && w.reversal == map[] && (forall e :: e in w.entityCounts ==> e == "FACE")
            && w.appliedActions == {FaceActionFor(p, b)} && RowActions(w.rows) == {FaceActionFor(p, b)}
              && w.decision == b.decision
  {
    var row := FaceRow(FaceActionFor(p, b), count);
    var w := FaceEvidence(b, FaceActionFor(p, b), count);
    assert w.rows == Sort([row], RowKey) by { assert b.rows + [row] == [row]; }
    OneRowActions(row);
  }

  lemma RoutedUnscanned(p: PolicySettings, w: Result, action: Action, faceRoute: Option<string>)
    requires w.reversal == map[] && (forall e :: e in w.entityCounts ==> e == "FACE")
    requires w.decision in {Blocked, PassThrough}
    requires w.appliedActions == {action} && RowActions(w.rows) == {action}
    requires w.decision == Blocked <==> action == Block
    ensures ValidUnscannedVisual(FaceRouting(p, w, action, faceRoute))
  {
  }

  lemma FacesUnscanned(p: PolicySettings, b: Result, r: SegmentRequest, count: nat)
    requires ValidPolicy(p) && r.visual.Some? && Bare(p, b, r) && count == FaceCount(r.visual.value) > 0
    ensures ValidUnscannedVisual(WithFaces(p, b, count, FaceRoute(p, r)))
  {
    BareEvidence(p, b, r, count);
    RoutedUnscanned(p, FaceEvidence(b, FaceActionFor(p, b), count), FaceActionFor(p, b), FaceRoute(p, r));
  }

  lemma UnscannedVisual(v: Service, r: SegmentRequest, found: seq<seq<Match>>, nonce: string, elapsedMs: nat)
    requires ValidPolicy(v.policy) && ValidRequest(r) && r.visual.Some? && |found| == |r.segments|
    requires AnalyzeSegments(v, r, found, nonce).Ok?
    ensures ValidUnscannedVisual(Timed(AnalyzeSegments(v, r, found, nonce).value, elapsedMs))
  {
    var b := BeforeVisual(v, r, found, nonce).value;
    UnscannedBefore(v, r, found, nonce);
    if !b.scanPerformed {
      if FaceCount(r.visual.value) > 0 {
        FacesUnscanned(v.policy, b, r, FaceCount(r.visual.value));
      }
    } else {
      WithFacesFaced(v.policy, b, FaceCount(r.visual.value), FaceRoute(v.policy, r));
    }
  }

  /** Every result of the pipeline passes the validators of the request-shaped response too. */
  lemma PipelineAdapterValid(v: Service, r: SegmentRequest, found: seq<seq<Match>>, nonce: string, elapsedMs: nat)
    requires ValidService(v) && ValidRequest(r) && |found| == |r.segments| && Reportable(r, found) && Hex16(nonce)
    requires AnalyzeSegments(v, r, found, nonce).Ok?
    ensures ValidAdapterResponse(Timed(AnalyzeSegments(v, r, found, nonce).value, elapsedMs), r)
  {
    PipelineResponseValid(v, r, found, nonce, elapsedMs);
    if r.visual.Some? {
      UnscannedVisual(v, r, found, nonce, elapsedMs);
    }
    AdapterFromSegments(Timed(AnalyzeSegments(v, r, found, nonce).value, elapsedMs), r);
  }

  /** So does every response of a session, fresh, cached or merged. */
  lemma SessionAdapterValid(v: Service, q: Ask, stored: Option<SessionDecision>, names: set<string>)
    requires ValidService(v) && ValidAsk(q, names) && Safe(stored, names) && Catalogue(names)
    requires Handle(v, q, stored).Ok?
    ensures ValidAdapterResponse(Handle(v, q, stored).value.0, q.request)
  {
    StepIsGood(v, q, stored, names);
    if q.request.visual.Some? {
      ScopedHandle(v, q, stored);
      UnscannedVisual(v, q.request, q.found, q.nonce, q.elapsedMs);
    }
    AdapterFromSegments(Handle(v, q, stored).value.0, q.request);
  }
}
