/** Which requests are answered or refused before any text is analysed, stated over the request itself. */
module Requests {
  import opened PolicyConfig
  import opened Matches
  import opened Planner
  import opened Contracts
  import opened Policy

  // ---- limits ----

  lemma {:induction false} CharactersFromFront(segments: seq<Segment>)
    requires segments != []
    ensures CharacterCount(segments) == |segments[0].text| + CharacterCount(segments[1..])
  {
    var n := |segments| - 1;
    if n == 0 {
      assert segments[..0] == [] && segments[1..] == [];
    } else {
      CharactersFromFront(segments[..n]);
      assert segments[..n][1..] == segments[1..][..n - 1];
    }
  }

  lemma {:induction false} JoinedSplit(a: seq<Segment>, b: seq<Segment>)
    requires a != [] && b != []
    ensures Joined(a + b) == Joined(a) + "\n" + Joined(b)
  {
    if |a| == 1 {
      assert (a + b)[1..] == b;
    } else {
      assert (a + b)[1..] == a[1..] + b;
      JoinedSplit(a[1..], b);
    }
  }

  /** The joined text is the texts of all segments with one line break between each two. */
  lemma {:induction false} CharactersJoined(segments: seq<Segment>)
    ensures |Joined(segments)| == CharacterCount(segments) + (if segments == [] then 0 else |segments| - 1)
    ensures |segments| == 1 ==> Joined(segments) == segments[0].text
  {
    if |segments| == 1 {
      CharactersFromFront(segments);
    } else if |segments| > 1 {
      CharactersFromFront(segments);
      CharactersJoined(segments[1..]);
    }
  }

  /** No more segments and characters than the service accepts. */
  predicate WithinLimits(v: Service, r: SegmentRequest) {
    |r.segments| <= v.maxLeaves && CharacterCount(r.segments) <= v.maxCharacters
  }

  /** Text to analyse, within the limits, without attachments and free of what safety rules reject. */
  predicate Analyzable(v: Service, r: SegmentRequest) {
    WithinLimits(v, r) && r.segments != [] && !r.attachmentsPresent && v.safety(r.segments).None?
  }

  lemma AnalyzableGoesOn(v: Service, r: SegmentRequest)
    ensures Analyzable(v, r) <==> Preflight(v, r) == Ok(None)
  {
    assert CharacterCount([]) == 0;
  }

  // ---- errors ----

  lemma TextErrors(
    v: Service, r: SegmentRequest, found: seq<seq<Match>>, nonce: string, faceRoute: Option<string>)
    requires |found| == |r.segments| && AnalyzeText(v, r, found, nonce, faceRoute).Raised?
    ensures AnalyzeText(v, r, found, nonce, faceRoute).error in
              {InvalidSpan, InvalidScore, ReversalConflict, PlaceholderCollision}
  {
    if AllValid(r.segments, found) {
      PreparedFits(v.policy, r.kind == Mcp, r.segments, found);
      DecideErrors(v, r, Plans(v.policy, r.kind == Mcp, r.segments, found), nonce, faceRoute);
    } else {
      LeafFailures(r.segments, found);
    }
  }

  lemma DecideErrors(v: Service, r: SegmentRequest, ds: seq<PlanData>, nonce: string, faceRoute: Option<string>)
    requires AllFit(ds) && |ds| == |r.segments|
    ensures Decide(v, r, ds, nonce, faceRoute).Raised? ==>
              Decide(v, r, ds, nonce, faceRoute).error in {ReversalConflict, PlaceholderCollision}
    ensures Blocks(v.policy, ds, faceRoute) ==> Decide(v, r, ds, nonce, faceRoute).Ok?
  {
    TransformAllLength(v, nonce, ds);
    DecideCases(v, r, ds, nonce, faceRoute);
  }

  lemma LaterErrors(v: Service, r: SegmentRequest, found: seq<seq<Match>>, nonce: string)
    requires |found| == |r.segments| && Preflight(v, r).Ok? && AnalyzeSegments(v, r, found, nonce).Raised?
    ensures AnalyzeSegments(v, r, found, nonce).error in
              {InvalidSpan, InvalidScore, ReversalConflict, PlaceholderCollision}
    ensures Preflight(v, r) == Ok(None)
  {
    TextErrors(v, r, found, nonce, FaceRoute(v.policy, r));
  }

  lemma PreflightRefusals(v: Service, r: SegmentRequest)
    ensures Preflight(v, r) == Raised(TooManySegments) <==> |r.segments| > v.maxLeaves
    ensures Preflight(v, r) == Raised(TooManyCharacters) <==>
              |r.segments| <= v.maxLeaves && CharacterCount(r.segments) > v.maxCharacters
    ensures Preflight(v, r) == Raised(InvalidRequest) <==>
              r.segments == [] && !r.attachmentsPresent && r.kind != Mcp
    ensures Preflight(v, r).Raised? ==> Preflight(v, r).error in {TooManySegments, TooManyCharacters, InvalidRequest}
  {
    assert CharacterCount([]) == 0;
  }

  /** A request is refused over its size, or as empty, exactly when it is too big or has nothing to look at. */
  lemma BoundsExactly(v: Service, r: SegmentRequest, found: seq<seq<Match>>, nonce: string)
    requires |found| == |r.segments|
    ensures AnalyzeSegments(v, r, found, nonce) == Raised(TooManySegments) <==> |r.segments| > v.maxLeaves
    ensures AnalyzeSegments(v, r, found, nonce) == Raised(TooManyCharacters) <==>
              |r.segments| <= v.maxLeaves && CharacterCount(r.segments) > v.maxCharacters
    ensures AnalyzeSegments(v, r, found, nonce) == Raised(InvalidRequest) <==>
              r.segments == [] && !r.attachmentsPresent && r.kind != Mcp
  {
    PreflightRefusals(v, r);
    if Preflight(v, r).Ok? && AnalyzeSegments(v, r, found, nonce).Raised? {
      LaterErrors(v, r, found, nonce);
    }
  }

  // ---- answers that need no detector ----

  /** Blocked without a scan: nothing forwarded, nothing reported but faces, and these notices. */
  predicate BlockedUnscanned(w: Result, rule: Option<string>, notices: seq<string>) {
    && w.decision == Blocked && !w.remoteAllowed && w.segments.None? && w.appliedActions == {Block}
    && w.routeClass.None? && w.reversal == map[] && !w.scanPerformed && w.overlapCount == 0
    && w.safetyRule == rule && w.requestNotices == [] && w.responseNotices == notices
    && forall e :: e in w.entityCounts ==> e == "FACE"
  }

  lemma BlockEvidence(w: Result, count: nat, rule: Option<string>, notices: seq<string>)
    requires BlockedUnscanned(w, rule, notices)
    ensures BlockedUnscanned(FaceEvidence(w, Block, count), rule, notices)
  {
  }

  lemma FacesKeepBlock(p: PolicySettings, w: Result, r: SegmentRequest, faceRoute: Option<string>, rule: Option<string>,
                       notices: seq<string>)
    requires BlockedUnscanned(w, rule, notices)
    ensures BlockedUnscanned(WithVisual(p, w, r, faceRoute), rule, notices)
  {
    if r.visual.Some? && FaceCount(r.visual.value) > 0 {
      BlockEvidence(w, FaceCount(r.visual.value), rule, notices);
    }
  }

  /** Within the limits, attachments block the request, with or without text beside them. */
  lemma AttachmentsBlock(v: Service, r: SegmentRequest, found: seq<seq<Match>>, nonce: string)
    requires |found| == |r.segments| && WithinLimits(v, r) && r.attachmentsPresent
    ensures AnalyzeSegments(v, r, found, nonce).Ok?
    ensures BlockedUnscanned(
              AnalyzeSegments(v, r, found, nonce).value, None,
              if r.kind == Mcp then [] else ["Attachments are blocked by the configured policy."])
  {
    var notices := if r.kind == Mcp then [] else ["Attachments are blocked by the configured policy."];
    var early := EmptyResult(Blocked, None, {Block}, |r.segments|).(responseNotices := notices);
    assert Preflight(v, r) == Ok(Some(early));
    FacesKeepBlock(v.policy, early, r, FaceRoute(v.policy, r), None, notices);
  }

  /** Otherwise text that a safety rule rejects blocks the request, under that rule's name. */
  lemma SafetyBlocks(v: Service, r: SegmentRequest, found: seq<seq<Match>>, nonce: string)
    requires |found| == |r.segments| && WithinLimits(v, r) && !r.attachmentsPresent && r.segments != []
    requires v.safety(r.segments).Some?
    ensures AnalyzeSegments(v, r, found, nonce).Ok?
    ensures var (name, message) := v.safety(r.segments).value;
            BlockedUnscanned(
              AnalyzeSegments(v, r, found, nonce).value, Some(name), if r.kind == Mcp then [] else [message])
  {
    var (name, message) := v.safety(r.segments).value;
    var notices := if r.kind == Mcp then [] else [message];
    var early :=
      EmptyResult(Blocked, None, {Block}, |r.segments|).(safetyRule := Some(name), responseNotices := notices);
    assert Preflight(v, r) == Ok(Some(early));
    FacesKeepBlock(v.policy, early, r, FaceRoute(v.policy, r), Some(name), notices);
  }

  /** An MCP request with nothing in it passes with nothing said about it. */
  lemma EmptyMcpPasses(v: Service, r: SegmentRequest, nonce: string)
    requires r.kind == Mcp && r.segments == [] && !r.attachmentsPresent && r.visual.None?
    ensures AnalyzeSegments(v, r, [], nonce).Ok?
    ensures var w := AnalyzeSegments(v, r, [], nonce).value;
            && w.decision == PassThrough && w.remoteAllowed && w.segments == Some([]) && w.entities == []
            && w.entityCounts == map[] && w.rows == [] && w.appliedActions == {} && w.reversal == map[]
            && w.routeClass.None? && w.responseNotices == [] && !w.scanPerformed && w.textLeafCount == 0
  {
  }

  /** A failed scan for faces, or faces that the policy blocks, block the request without its text being analysed. */
  lemma FacesBlockUnscanned(v: Service, r: SegmentRequest, found: seq<seq<Match>>, nonce: string)
    requires |found| == |r.segments| && Analyzable(v, r) && r.visual.Some?
    requires r.visual.value.scanStatus == ScanFailed || (FaceCount(r.visual.value) > 0 && v.policy.faceAction == Block)
    ensures AnalyzeSegments(v, r, found, nonce).Ok?
    ensures BlockedUnscanned(AnalyzeSegments(v, r, found, nonce).value, None, [])
  {
    var early := EmptyResult(Blocked, None, {Block}, |r.segments|);
    AnalyzableGoesOn(v, r);
    assert BeforeVisual(v, r, found, nonce) == Ok(early);
    FacesKeepBlock(v.policy, early, r, FaceRoute(v.policy, r), None, []);
  }

  /** Let through without a scan: the segments as they came, nothing reported but faces. */
  predicate PassedUnscanned(w: Result, segments: seq<Segment>) {
    && w.decision != Blocked && w.segments == Some(segments) && w.reversal == map[] && !w.scanPerformed
    && w.overlapCount == 0 && forall e :: e in w.entityCounts ==> e == "FACE"
  }

  lemma FacesKeepText(
    p: PolicySettings, w: Result, r: SegmentRequest, faceRoute: Option<string>, segments: seq<Segment>)
    requires PassedUnscanned(w, segments)
    ensures PassedUnscanned(WithVisual(p, w, r, faceRoute), segments)
  {
    if r.visual.Some? && FaceCount(r.visual.value) > 0 {
      EvidenceKeepsText(w, p.faceAction, FaceCount(r.visual.value), segments);
      RoutingKeepsText(p, FaceEvidence(w, p.faceAction, FaceCount(r.visual.value)), p.faceAction, faceRoute, segments);
    }
  }

  lemma EvidenceKeepsText(w: Result, action: Action, count: nat, segments: seq<Segment>)
    requires PassedUnscanned(w, segments)
    ensures PassedUnscanned(FaceEvidence(w, action, count), segments)
  {
  }

  lemma RoutingKeepsText(
    p: PolicySettings, w: Result, action: Action, faceRoute: Option<string>, segments: seq<Segment>)
    requires PassedUnscanned(w, segments)
    ensures PassedUnscanned(FaceRouting(p, w, action, faceRoute), segments)
  {
  }

  /** Where only faces are asked about, the text goes through unread and unchanged. */
  lemma TextUnread(v: Service, r: SegmentRequest, found: seq<seq<Match>>, nonce: string)
    requires |found| == |r.segments| && Analyzable(v, r) && r.visual.Some? && !r.textPiiEnabled
    requires r.visual.value.scanStatus != ScanFailed
    requires FaceCount(r.visual.value) > 0 ==> v.policy.faceAction != Block
    ensures AnalyzeSegments(v, r, found, nonce).Ok?
    ensures PassedUnscanned(AnalyzeSegments(v, r, found, nonce).value, r.segments)
  {
    var early := EmptyResult(PassThrough, Some(r.segments), {}, |r.segments|);
    AnalyzableGoesOn(v, r);
    assert BeforeVisual(v, r, found, nonce) == Ok(early);
    FacesKeepText(v.policy, early, r, FaceRoute(v.policy, r), r.segments);
  }

  // ---- invalid detector output ----

  /** Text is analysed: the request gets past its own conditions and past its faces. */
  predicate TextAnalyzed(v: Service, r: SegmentRequest) {
    && Analyzable(v, r)
    && (r.visual.Some? ==>
          && r.textPiiEnabled && r.visual.value.scanStatus != ScanFailed
          && (FaceCount(r.visual.value) > 0 ==> v.policy.faceAction != Block))
  }

  lemma AnalyzedText(v: Service, r: SegmentRequest, found: seq<seq<Match>>, nonce: string)
    requires |found| == |r.segments| && TextAnalyzed(v, r)
    ensures BeforeVisual(v, r, found, nonce) == AnalyzeText(v, r, found, nonce, FaceRoute(v.policy, r))
    ensures AnalyzeSegments(v, r, found, nonce).Ok? <==> AnalyzeText(v, r, found, nonce, FaceRoute(v.policy, r)).Ok?
    ensures AnalyzeSegments(v, r, found, nonce).Raised? ==>
              AnalyzeSegments(v, r, found, nonce) == AnalyzeText(v, r, found, nonce, FaceRoute(v.policy, r))
  {
    AnalyzableGoesOn(v, r);
  }

  predicate BadMatch(m: Match, text: string) { BadSpan(m, |text|) || BadScore(m) }

  /** Match j of leaf i is the first bad one, in the order of leaves and then of matches. */
  ghost predicate FirstBad(segments: seq<Segment>, found: seq<seq<Match>>, i: nat, j: nat)
    requires |segments| == |found|
  {
    && i < |found| && j < |found[i]| && BadMatch(found[i][j], segments[i].text)
    && (forall k :: 0 <= k < j ==> !BadMatch(found[i][k], segments[i].text))
    && forall l, k :: 0 <= l < i && 0 <= k < |found[l]| ==> !BadMatch(found[l][k], segments[l].text)
  }

  lemma {:induction false} FirstBadDecides(segments: seq<Segment>, found: seq<seq<Match>>, i: nat, j: nat)
    requires |segments| == |found| && FirstBad(segments, found, i, j)
    ensures LeafFailure(segments, found) ==
            Some(if BadSpan(found[i][j], |segments[i].text|) then InvalidSpan else InvalidScore)
  {
    if i == 0 {
      FirstFault(found[0], |segments[0].text|, j);
    } else {
      forall k | 0 <= k < |found[0]| ensures !BadSpan(found[0][k], |segments[0].text|) && !BadScore(found[0][k]) {
        assert !BadMatch(found[0][k], segments[0].text);
      }
      NoFault(found[0], |segments[0].text|);
      forall l, k | 0 <= l < i - 1
        && 0 <= k < |found[1..][l]| ensures !BadMatch(found[1..][l][k], segments[1..][l].text)
      {
        assert !BadMatch(found[l + 1][k], segments[l + 1].text);
      }
      FirstBadDecides(segments[1..], found[1..], i - 1, j);
    }
  }

  lemma InvalidLeaves(v: Service, r: SegmentRequest, found: seq<seq<Match>>, i: nat, j: nat)
    requires |found| == |r.segments| && FirstBad(r.segments, found, i, j)
    ensures !AllValid(r.segments, found)
  {
    LeafFailures(r.segments, found);
    FirstBadDecides(r.segments, found, i, j);
  }

  /** The first bad match of the first leaf that has one decides the error, its span before its score. */
  lemma InvalidMatchRefused(v: Service, r: SegmentRequest, found: seq<seq<Match>>, nonce: string, i: nat, j: nat)
    requires |found| == |r.segments| && TextAnalyzed(v, r) && FirstBad(r.segments, found, i, j)
    ensures AnalyzeSegments(v, r, found, nonce) ==
            Raised(if BadSpan(found[i][j], |r.segments[i].text|) then InvalidSpan else InvalidScore)
  {
    AnalyzedText(v, r, found, nonce);
    InvalidLeaves(v, r, found, i, j);
    FirstBadDecides(r.segments, found, i, j);
  }

  predicate AllGood(segments: seq<Segment>, found: seq<seq<Match>>)
    requires |segments| == |found|
  {
    forall i, j :: 0 <= i < |found| && 0 <= j < |found[i]| ==> !BadMatch(found[i][j], segments[i].text)
  }

  lemma GoodIsValid(segments: seq<Segment>, found: seq<seq<Match>>)
    requires |segments| == |found| && AllGood(segments, found)
    ensures AllValid(segments, found)
  {
    forall i | 0 <= i < |found| ensures ValidSpans(found[i], |segments[i].text|) {
      forall j | 0 <= j < |found[i]| ensures ValidSpan(found[i][j], |segments[i].text|) {
        assert !BadMatch(found[i][j], segments[i].text);
      }
    }
  }

  lemma ValidTextErrors(
    v: Service, r: SegmentRequest, found: seq<seq<Match>>, nonce: string, faceRoute: Option<string>)
    requires |found| == |r.segments| && AllValid(r.segments, found)
    ensures AnalyzeText(v, r, found, nonce, faceRoute) !in {Raised(InvalidSpan), Raised(InvalidScore)}
  {
    PreparedFits(v.policy, r.kind == Mcp, r.segments, found);
    DecideErrors(v, r, Plans(v.policy, r.kind == Mcp, r.segments, found), nonce, faceRoute);
  }

  lemma RaisedFrom(v: Service, r: SegmentRequest, found: seq<seq<Match>>, nonce: string)
    requires |found| == |r.segments| && AnalyzeSegments(v, r, found, nonce).Raised?
    ensures var error := AnalyzeSegments(v, r, found, nonce).error;
            || Preflight(v, r) == Raised(error)
            || AnalyzeText(v, r, found, nonce, FaceRoute(v.policy, r)) == Raised(error)
  {
  }

  /** No other request is refused over its matches. */
  lemma ValidMatchesAccepted(v: Service, r: SegmentRequest, found: seq<seq<Match>>, nonce: string)
    requires |found| == |r.segments| && AllGood(r.segments, found)
    ensures AnalyzeSegments(v, r, found, nonce) !in {Raised(InvalidSpan), Raised(InvalidScore)}
  {
    if AnalyzeSegments(v, r, found, nonce).Raised? {
      RaisedFrom(v, r, found, nonce);
      PreflightRefusals(v, r);
      GoodIsValid(r.segments, found);
      ValidTextErrors(v, r, found, nonce, FaceRoute(v.policy, r));
    }
  }

  // ---- how many texts were looked at ----

  /** Every answer says how many segments its request had. */
  lemma SegmentsCounted(v: Service, r: SegmentRequest, found: seq<seq<Match>>, nonce: string)
    requires |found| == |r.segments| && AnalyzeSegments(v, r, found, nonce).Ok?
    ensures AnalyzeSegments(v, r, found, nonce).value.textLeafCount == |r.segments|
  {
    BeforeVisualCounted(v, r, found, nonce);
    FacesKeepCount(v.policy, BeforeVisual(v, r, found, nonce).value, r, FaceRoute(v.policy, r));
  }

  lemma FacesKeepCount(p: PolicySettings, w: Result, r: SegmentRequest, faceRoute: Option<string>)
    ensures WithVisual(p, w, r, faceRoute).textLeafCount == w.textLeafCount
  {
  }

  lemma BeforeVisualCounted(v: Service, r: SegmentRequest, found: seq<seq<Match>>, nonce: string)
    requires |found| == |r.segments| && BeforeVisual(v, r, found, nonce).Ok?
    ensures BeforeVisual(v, r, found, nonce).value.textLeafCount == |r.segments|
  {
    if Preflight(v, r) == Ok(None) {
      TextCounted(v, r, found, nonce, FaceRoute(v.policy, r));
    } else {
      EarlyCounted(v, r);
    }
  }

  lemma EarlyCounted(v: Service, r: SegmentRequest)
    ensures Preflight(v, r).Ok? && Preflight(v, r).value.Some? ==>
              Preflight(v, r).value.value.textLeafCount == |r.segments|
  {
  }

  lemma TextCounted(v: Service, r: SegmentRequest, found: seq<seq<Match>>, nonce: string, faceRoute: Option<string>)
    requires |found| == |r.segments|
    ensures AnalyzeText(v, r, found, nonce, faceRoute).Ok? ==>
              AnalyzeText(v, r, found, nonce, faceRoute).value.textLeafCount == |r.segments|
  {
    if AllValid(r.segments, found) {
      var ds := Plans(v.policy, r.kind == Mcp, r.segments, found);
      PreparedFits(v.policy, r.kind == Mcp, r.segments, found);
      TransformAllLength(v, nonce, ds);
      DecideCases(v, r, ds, nonce, faceRoute);
    }
  }
}
