/** Sticky session decisions: reading, merging and writing back the stored taint of one session key. */
module Session {
  import opened Ordering
  import opened PolicyConfig
  import opened Matches
  import opened Restore
  import opened Planner
  import opened Contracts
  import opened Policy
  import opened Requests
  import opened Rewrite
  import opened LeafFacts
  import opened Aggregate
  import opened Prepare
  import opened Verdict
  import opened Response

  /** One adapter request with what its detectors find, its placeholder namespace and its duration. */
  datatype Ask = Ask(request: SegmentRequest, found: seq<seq<Match>>, nonce: string, elapsedMs: nat)

  function IsMcp(r: SegmentRequest): bool { r.kind == Mcp }

  // ---- the runtime's pure steps ----

  function FromCache(r: SegmentRequest, s: SessionDecision): Result {
    Result(s.decision, s.remoteAllowed, if s.decision == Blocked then None
      else Some(r.segments), s.entities, s.entityCounts,
           {if s.decision == Blocked then Block else Reroute}, s.rows, CachedDecision, false, None, s.overlapCount,
           true,
           s.routeClass, map[], None, s.requestNotices, s.responseNotices, 0)
  }

  /** The response a stored decision determines without looking at the request's text, if any. */
  function FinalCached(p: PolicySettings, r: SegmentRequest, cached: Option<SessionDecision>): Option<Result> {
    if cached.None? then None
    else if cached.value.decision == Blocked then Some(FromCache(r, cached.value))
    else if r.attachmentsPresent then None
    else if !p.maskOnReroute then Some(FromCache(r, cached.value))
    else None
  }

  function MergeMax(a: map<string, int>, b: map<string, int>): map<string, int> {
    map e | e in a.Keys + b.Keys :: if e in b then Larger(Get(a, e), b[e]) else a[e]
  }

  function Larger(a: int, b: int): int { if a >= b then a else b }

  function Members(xs: seq<string>): set<string> { set e | e in xs }

  /** A stored reroute is merged into every result that does not block. */
  ghost function ApplyCached(w: Result, cached: Option<SessionDecision>): Result {
    if cached.Some? && cached.value.decision == Rerouted && w.decision != Blocked then Merged(w, cached.value) else w
  }

  ghost function Merged(w: Result, s: SessionDecision): Result {
    w.(decision := Rerouted, remoteAllowed := false, routeClass := s.routeClass,
       entities := SortedNames(Members(w.entities) + Members(s.entities)),
       entityCounts := MergeMax(w.entityCounts, s.entityCounts),
       appliedActions := w.appliedActions + {Reroute},
       requestNotices := s.requestNotices, responseNotices := s.responseNotices, cachedDecisionApplied := true)
  }

  /** MCP results carry no model-only routing state. */
  predicate ResultKindOk(w: Result, r: SegmentRequest) {
    IsMcp(r) ==>
      w.decision != Rerouted && w.routeClass.None? && w.requestNotices == [] && w.responseNotices == []
        && !HasRow(w.rows, Reroute)
  }

  /** What is written back for a blocked or rerouted session request. */
  function TaintOf(w: Result, cached: Option<SessionDecision>, r: SegmentRequest): Option<SessionDecision> {
    if !r.sessionScoped || w.decision !in {Blocked, Rerouted} then None
    else
      var keep := w.cachedDecisionApplied && cached.Some?;
      Some(SessionDecision(
        IsMcp(r), w.decision, w.entities, w.entityCounts, if keep then cached.value.rows else w.rows,
        if keep then
          cached.value.overlapCount
          else w.overlapCount, w.routeClass, w.remoteAllowed, w.requestNotices, w.responseNotices))
  }

  // ---- one request ----

  /** The response to a request that read this decision, and what it writes, given what analysis would make of it. */
  ghost function RespondWith(p: PolicySettings, q: Ask, cached: Option<SessionDecision>, current: Outcome<Result>)
    : Outcome<(Result, Option<SessionDecision>)>
  {
    var final := FinalCached(p, q.request, cached);
    if final.Some? then
      (if ResultKindOk(final.value, q.request) then Ok((final.value, None)) else Raised(ResultKindMismatch))
    else if current.Raised? then Raised(current.error)
    else Finished(q.request, ApplyCached(Timed(current.value, q.elapsedMs), cached), cached)
  }

  ghost function Finished(
    r: SegmentRequest, w: Result, cached: Option<SessionDecision>): Outcome<(Result, Option<SessionDecision>)> {
    var taint := TaintOf(w, cached, r);
    if !ResultKindOk(w, r) then Raised(ResultKindMismatch)
    else if taint.Some? && !ValidSession(taint.value) then Raised(InvalidSession)
    else Ok((w, taint))
  }

  /** What a request may read: only a valid decision of its own kind, and only when it is session-scoped. */
  ghost function ReadCached(r: SegmentRequest, stored: Option<SessionDecision>): Outcome<Option<SessionDecision>> {
    if !r.sessionScoped || stored.None? then Ok(None)
    else if !ValidSession(stored.value) then Raised(InvalidSession)
    else if stored.value.mcp != IsMcp(r) then Raised(SessionKindMismatch)
    else Ok(stored)
  }

  /** One request against what is stored, given what analysis would make of it. */
  ghost function HandleWith(v: Service, q: Ask, stored: Option<SessionDecision>, current: Outcome<Result>)
    : Outcome<(Result, Option<SessionDecision>)>
  {
    var limits, cached := LimitFailure(v, q.request.segments), ReadCached(q.request, stored);
    if limits.Some? then Raised(limits.value)
    else if cached.Raised? then Raised(cached.error)
    else RespondWith(v.policy, q, cached.value, current)
  }

  /** The pipeline's analysis of a request. */
  ghost function Analysis(v: Service, q: Ask): Outcome<Result>
    requires |q.found| == |q.request.segments|
  {
    AnalyzeSegments(v, q.request, q.found, q.nonce)
  }

  ghost function Handle(v: Service, q: Ask, stored: Option<SessionDecision>): Outcome<(Result, Option<SessionDecision>)>
    requires |q.found| == |q.request.segments|
  {
    HandleWith(v, q, stored, Analysis(v, q))
  }

  /** What the store holds after a request with this outcome: its write, or what was there. */
  ghost function AfterOutcome(
    h: Outcome<(Result, Option<SessionDecision>)>, stored: Option<SessionDecision>): Option<SessionDecision> {
    if h.Ok? && h.value.1.Some? then h.value.1 else stored
  }

  ghost function After(v: Service, q: Ask, stored: Option<SessionDecision>): Option<SessionDecision>
    requires |q.found| == |q.request.segments|
  {
    AfterOutcome(Handle(v, q, stored), stored)
  }

  // ---- valid requests and stored decisions ----

  ghost predicate ValidAsk(q: Ask, names: set<string>) {
    && ValidRequest(q.request) && |q.found| == |q.request.segments| && Known(names, q.found) && Hex16(q.nonce)
    && (FacePlace(q.request) > 0 ==> |FoundEntities(q.found)| < MAX_ENTITIES)
  }

  /** A stored decision passes its validators and names only catalogue entities. */
  ghost predicate Safe(stored: Option<SessionDecision>, names: set<string>) {
    stored.Some? ==> ValidSession(stored.value) && stored.value.entityCounts.Keys <= names
  }

  // ---- a fresh result of a session request ----

  lemma ReportNeverReroutes(p: PolicySettings, ds: seq<PlanData>)
    ensures !HasRow(ReportRows(p, true, ds), Reroute)
  {
  }

  lemma DecideNeverReroutes(v: Service, r: SegmentRequest, ds: seq<PlanData>, nonce: string)
    requires AllFit(ds) && |ds| == |r.segments| && IsMcp(r) && Decide(v, r, ds, nonce, None).Ok?
    ensures !HasRow(Decide(v, r, ds, nonce, None).value.rows, Reroute)
  {
    if Blocks(v.policy, ds, None) {
      ReportNeverReroutes(v.policy, ds);
    } else {
      TransformAllLength(v, nonce, ds);
      ReportNeverReroutes(v.policy, TransformAll(v, nonce, ds).value.0);
    }
  }

  lemma McpNeverReroutes(v: Service, r: SegmentRequest, found: seq<seq<Match>>, nonce: string)
    requires |found| == |r.segments| && IsMcp(r) && r.visual.None? && AnalyzeSegments(v, r, found, nonce).Ok?
    ensures !HasRow(AnalyzeSegments(v, r, found, nonce).value.rows, Reroute)
  {
    if Preflight(v, r).value.None? {
      PreparedFits(v.policy, true, r.segments, found);
      DecideNeverReroutes(v, r, Plans(v.policy, true, r.segments, found), nonce);
    }
  }

  /** What is known of a fresh result before the cached decision is applied. */
  ghost predicate Current(w: Result, r: SegmentRequest, names: set<string>) {
    && ValidResponse(w, r)
    && w.source == CurrentRequest && !w.cachedDecisionApplied && w.requestNotices == []
    && w.entityCounts.Keys <= names && NoDup(w.entities)
    && (IsMcp(r) ==> !HasRow(w.rows, Reroute))
    && (!IsMcp(r) && w.decision != Blocked ==> w.scanPerformed)
  }

  lemma CurrentFrom(p: PolicySettings, b: Result, r: SegmentRequest, names: set<string>, elapsedMs: nat)
    requires r.visual.None? && Pre(p, b, r, None, names) && ValidResponse(Timed(b, elapsedMs), r)
    requires IsMcp(r) ==> !HasRow(b.rows, Reroute)
    ensures Current(Timed(b, elapsedMs), r, names)
  {
  }

  lemma CurrentResult(v: Service, q: Ask, names: set<string>)
    requires ValidService(v) && ValidAsk(q, names) && q.request.visual.None?
    requires AnalyzeSegments(v, q.request, q.found, q.nonce).Ok?
    ensures Current(Timed(AnalyzeSegments(v, q.request, q.found, q.nonce).value, q.elapsedMs), q.request, names)
  {
    var r := q.request;
    BeforeVisualPre(v, r, q.found, q.nonce, names);
    KnownReportable(r, q.found, names);
    PipelineResponseValid(v, r, q.found, q.nonce, q.elapsedMs);
    if IsMcp(r) {
      McpNeverReroutes(v, r, q.found, q.nonce);
    }
    CurrentFrom(v.policy, BeforeVisual(v, r, q.found, q.nonce).value, r, names, q.elapsedMs);
  }

  // ---- cached responses ----

  lemma NamesFit(counts: map<string, int>, entities: seq<string>, names: set<string>)
    requires Catalogue(names) && counts.Keys <= names && NoDup(entities) && forall e :: e in counts <==> e in entities
    ensures |entities| <= MAX_ENTITIES && |counts| <= MAX_ENTITIES
  {
    SubsetSize(counts.Keys, names);
    assert |counts.Keys| == |counts|;
    SortedNamesUnique(counts.Keys, entities);
    SortFacts(entities, NameKey);
  }

  /** A response served from the store passes every validator. */
  lemma CachedResponseValid(r: SegmentRequest, s: SessionDecision)
    requires ValidSession(s) && ValidRequest(r) && r.sessionScoped && s.mcp == IsMcp(r)
    ensures ValidResponse(FromCache(r, s), r) && ResultKindOk(FromCache(r, s), r)
  {
  }

  // ---- merged responses ----

  /** Two sets of counts over catalogue names without FACE, listed by their entities. */
  ghost predicate Counted(counts: map<string, int>, entities: seq<string>, names: set<string>) {
    && counts.Keys <= names
    && (forall e :: e in counts <==> e in entities)
    && forall e :: e in counts ==> 1 <= counts[e] <= MAX_COUNT
  }

  lemma MergeCounted(a: map<string, int>, xs: seq<string>, b: map<string, int>, ys: seq<string>, names: set<string>)
    requires Counted(a, xs, names) && Counted(b, ys, names)
    ensures Counted(MergeMax(a, b), SortedNames(Members(xs) + Members(ys)), names)
    ensures forall e :: e in a ==> e in MergeMax(a, b) && MergeMax(a, b)[e] >= a[e]
    ensures forall e :: e in b ==> e in MergeMax(a, b) && MergeMax(a, b)[e] >= b[e]
  {
    var merged := SortedNames(Members(xs) + Members(ys));
    forall e ensures e in MergeMax(a, b) <==> e in merged {
      assert e in merged <==> e in Members(xs) + Members(ys);
    }
  }

  lemma RowsStayWithin(rows: seq<Row>, counts: map<string, int>, more: map<string, int>)
    requires RowsWithin(rows, counts) && forall e :: e in counts ==> e in more && more[e] >= counts[e]
    ensures RowsWithin(rows, more)
  {
  }

  lemma CurrentCounted(w: Result, r: SegmentRequest, names: set<string>)
    requires Current(w, r, names)
    ensures Counted(w.entityCounts, w.entities, names) && RowsWithin(w.rows, w.entityCounts)
  {
  }

  lemma MergedCounts(w: Result, r: SegmentRequest, s: SessionDecision, names: set<string>)
    requires Current(w, r, names) && ValidSession(s) && s.entityCounts.Keys <= names && Catalogue(names)
    ensures ValidCounts(Merged(w, s)) && Merged(w, s).entityCounts.Keys <= names && "FACE" !in Merged(w, s).entityCounts
    ensures RowsWithin(s.rows, Merged(w, s).entityCounts)
    ensures forall e :: e in s.entityCounts ==> Merged(w, s).entityCounts[e] >= s.entityCounts[e]
  {
    var m := Merged(w, s);
    CurrentCounted(w, r, names);
    MergeCounted(w.entityCounts, w.entities, s.entityCounts, s.entities, names);
    MergedFits(w, s, m, names);
  }

  lemma MergedFits(w: Result, s: SessionDecision, m: Result, names: set<string>)
    requires Catalogue(names) && Counted(m.entityCounts, m.entities, names) && NoDup(m.entities)
    requires RowsWithin(w.rows, w.entityCounts) && RowsWithin(s.rows, s.entityCounts) && m.rows == w.rows
    requires forall e :: e in w.entityCounts ==> e in m.entityCounts && m.entityCounts[e] >= w.entityCounts[e]
    requires forall e :: e in s.entityCounts ==> e in m.entityCounts && m.entityCounts[e] >= s.entityCounts[e]
    requires m.cachedDecisionApplied && m.decision == Rerouted
    ensures ValidCounts(m) && RowsWithin(s.rows, m.entityCounts)
  {
    RowsStayWithin(w.rows, w.entityCounts, m.entityCounts);
    RowsStayWithin(s.rows, s.entityCounts, m.entityCounts);
    NamesFit(m.entityCounts, m.entities, names);
  }

  lemma MergedForwarding(w: Result, r: SegmentRequest, s: SessionDecision, names: set<string>)
    requires Current(w, r, names) && w.decision != Blocked && !IsMcp(r) && r.visual.None?
    requires ValidSession(s) && s.decision == Rerouted
    ensures var m := Merged(w, s);
            ValidMetadata(m) && ValidForwarding(m) && ValidReport(m.rows) && SegmentFieldsOk(m, r)
  {
  }

  lemma MergedActions(w: Result, r: SegmentRequest, s: SessionDecision, names: set<string>)
    requires Current(w, r, names) && w.decision != Blocked && !IsMcp(r) && r.visual.None?
    requires ValidSession(s) && s.decision == Rerouted
    ensures ValidActions(Merged(w, s))
  {
    NoBlockRow(w);
  }

  lemma MergedVisual(w: Result, r: SegmentRequest, s: SessionDecision, names: set<string>)
    requires Current(w, r, names) && r.visual.None? && "FACE" !in Merged(w, s).entityCounts
    ensures ValidVisual(Merged(w, s), r)
  {
  }

  lemma NoBlockRow(w: Result)
    requires ValidActions(w) && w.decision != Blocked
    ensures !HasRow(w.rows, Block)
  {
  }

  /** A reroute merged into a fresh result passes every validator. */
  lemma MergedResponseValid(w: Result, r: SegmentRequest, s: SessionDecision, names: set<string>)
    requires Current(w, r, names) && w.decision != Blocked && !IsMcp(r) && r.visual.None?
    requires ValidSession(s) && s.decision == Rerouted && s.entityCounts.Keys <= names && Catalogue(names)
    ensures ValidResponse(Merged(w, s), r)
  {
    MergedCounts(w, r, s, names);
    MergedForwarding(w, r, s, names);
    MergedActions(w, r, s, names);
    MergedVisual(w, r, s, names);
    ActionsFew(Merged(w, s).appliedActions);
  }

  // ---- written decisions ----

  lemma FreshRouting(w: Result, r: SegmentRequest, cached: Option<SessionDecision>, names: set<string>)
    requires Current(w, r, names) && r.visual.None? && w.decision in {Blocked, Rerouted} && r.sessionScoped
    ensures ValidRouting(TaintOf(w, cached, r).value)
  {
  }

  lemma FreshCounts(w: Result, r: SegmentRequest, cached: Option<SessionDecision>, names: set<string>)
    requires Current(w, r, names) && r.visual.None? && w.decision in {Blocked, Rerouted} && r.sessionScoped
    ensures ValidSessionCounts(TaintOf(w, cached, r).value)
  {
  }

  lemma FreshRows(w: Result, r: SegmentRequest, cached: Option<SessionDecision>, names: set<string>)
    requires Current(w, r, names) && r.visual.None? && w.decision in {Blocked, Rerouted} && r.sessionScoped
    ensures ValidTerminalRows(TaintOf(w, cached, r).value)
  {
  }

  lemma FreshTaintValid(w: Result, r: SegmentRequest, cached: Option<SessionDecision>, names: set<string>)
    requires Current(w, r, names) && r.visual.None? && w.decision in {Blocked, Rerouted} && r.sessionScoped
    ensures Safe(TaintOf(w, cached, r), names)
  {
    FreshRouting(w, r, cached, names);
    FreshCounts(w, r, cached, names);
    FreshRows(w, r, cached, names);
  }

  lemma MergedTaintValid(w: Result, r: SegmentRequest, s: SessionDecision, names: set<string>)
    requires Current(w, r, names) && w.decision != Blocked && r.sessionScoped && !IsMcp(r) && !s.mcp
    requires ValidSession(s) && s.decision == Rerouted && s.entityCounts.Keys <= names && Catalogue(names)
    ensures Safe(TaintOf(Merged(w, s), Some(s), r), names)
    ensures SameRoute(s, TaintOf(Merged(w, s), Some(s), r).value)
  {
    var m := Merged(w, s);
    MergedCounts(w, r, s, names);
    MergedCountsValid(m, r, s, names);
    MergedRoutingValid(m, r, s);
  }

  /** What a merged result takes from the stored reroute. */
  predicate Follows(m: Result, s: SessionDecision) {
    && m.decision == Rerouted && !m.remoteAllowed && m.cachedDecisionApplied && m.routeClass == s.routeClass
    && m.requestNotices == s.requestNotices && m.responseNotices == s.responseNotices
  }

  lemma MergedRoutingValid(m: Result, r: SegmentRequest, s: SessionDecision)
    requires Follows(m, s) && r.sessionScoped && !IsMcp(r) && ValidSession(s) && s.decision == Rerouted && !s.mcp
    requires forall e :: e in s.entityCounts ==> e in m.entityCounts && m.entityCounts[e] >= s.entityCounts[e]
    ensures var t := TaintOf(m, Some(s), r);
            t.Some? && ValidRouting(t.value) && ValidTerminalRows(t.value) && SameRoute(s, t.value)
  {
  }

  lemma MergedCountsValid(m: Result, r: SegmentRequest, s: SessionDecision, names: set<string>)
    requires Follows(m, s) && r.sessionScoped && ValidSession(s) && s.decision == Rerouted
    requires ValidCounts(m) && m.entityCounts.Keys <= names && "FACE" !in m.entityCounts
    requires RowsWithin(s.rows, m.entityCounts) && NoDup(m.entities)
    ensures var t := TaintOf(m, Some(s), r);
            t.Some? && ValidSessionCounts(t.value) && t.value.entityCounts.Keys <= names
  {
  }

  // ---- one step ----

  function Level(stored: Option<SessionDecision>): int {
    if stored.None? then 0 else if stored.value.decision == Blocked then 2 else 1
  }

  function Strict(d: Decision): int {
    if d == Blocked then 2 else if d == Rerouted then 1 else 0
  }

  /** Taint never weakens; a block stays as it is; a reroute keeps route, rows and notices and only gains counts. */
  predicate Sticky(a: Option<SessionDecision>, b: Option<SessionDecision>) {
    && Level(a) <= Level(b)
    && (Level(a) == 2 ==> b == a)
    && (Level(a) == 1 && Level(b) == 1 ==> SameRoute(a.value, b.value))
  }

  predicate SameRoute(s: SessionDecision, t: SessionDecision) {
    && t.routeClass == s.routeClass && t.rows == s.rows && t.overlapCount == s.overlapCount
    && t.requestNotices == s.requestNotices && t.responseNotices == s.responseNotices
    && forall e :: e in s.entityCounts ==> e in t.entityCounts && t.entityCounts[e] >= s.entityCounts[e]
  }

  /** Everything one step promises. */
  ghost predicate GoodOutcome(
    h: Outcome<(Result, Option<SessionDecision>)>, q: Ask, stored: Option<SessionDecision>, names: set<string>) {
    && (h.Raised? ==> h.error !in {InvalidSession, ResultKindMismatch})
    && (h.Ok? ==> ValidResponse(h.value.0, q.request))
    && (h.Ok? && q.request.sessionScoped ==> Strict(h.value.0.decision) >= Level(stored))
    && Safe(AfterOutcome(h, stored), names)
    && Sticky(stored, AfterOutcome(h, stored))
  }

  ghost predicate GoodStep(v: Service, q: Ask, stored: Option<SessionDecision>, names: set<string>)
    requires |q.found| == |q.request.segments|
  {
    GoodOutcome(Handle(v, q, stored), q, stored, names)
  }

  /** What analysis may come to on a session request: a failure of its own, or a result fit for merging. */
  ghost predicate GoodAnalysis(current: Outcome<Result>, q: Ask, names: set<string>) {
    if current.Raised? then current.error !in {InvalidSession, ResultKindMismatch}
    else Current(Timed(current.value, q.elapsedMs), q.request, names)
  }

  lemma FinishedFresh(r: SegmentRequest, w: Result, names: set<string>)
    requires Current(w, r, names) && r.visual.None?
    ensures Finished(r, w, None) == Ok((w, TaintOf(w, None, r))) && Safe(TaintOf(w, None, r), names)
  {
    if TaintOf(w, None, r).Some? {
      FreshTaintValid(w, r, None, names);
    }
  }

  lemma FinishedBlocked(r: SegmentRequest, w: Result, s: SessionDecision, names: set<string>)
    requires Current(w, r, names) && r.visual.None? && r.sessionScoped && w.decision == Blocked
    ensures Finished(r, w, Some(s)) == Ok((w, TaintOf(w, Some(s), r))) && Safe(TaintOf(w, Some(s), r), names)
    ensures TaintOf(w, Some(s), r).Some? && TaintOf(w, Some(s), r).value.decision == Blocked
  {
    FreshTaintValid(w, r, Some(s), names);
  }

  lemma FinishedMerged(r: SegmentRequest, w: Result, s: SessionDecision, names: set<string>)
    requires Current(w, r, names) && r.visual.None? && r.sessionScoped && w.decision != Blocked && !IsMcp(r) && !s.mcp
    requires ValidSession(s) && s.decision == Rerouted && s.entityCounts.Keys <= names && Catalogue(names)
    ensures var m := Merged(w, s); var t := TaintOf(m, Some(s), r);
            && Finished(r, m, Some(s)) == Ok((m, t)) && ValidResponse(m, r) && Safe(t, names)
            && t.Some? && t.value.decision == Rerouted && SameRoute(s, t.value)
  {
    MergedResponseValid(w, r, s, names);
    MergedTaintValid(w, r, s, names);
  }

  lemma FreshTaintLevel(w: Result, r: SegmentRequest, stored: Option<SessionDecision>)
    requires ReadCached(r, stored) == Ok(None)
    ensures r.sessionScoped ==> stored.None?
    ensures TaintOf(w, None, r).Some? ==> Sticky(stored, TaintOf(w, None, r))
  {
  }

  lemma FreshStep(v: Service, q: Ask, stored: Option<SessionDecision>, names: set<string>, current: Outcome<Result>)
    requires q.request.visual.None? && GoodAnalysis(current, q, names)
    requires Safe(stored, names) && ReadCached(q.request, stored) == Ok(None)
    ensures GoodOutcome(RespondWith(v.policy, q, None, current), q, stored, names)
  {
    StickyItself(stored);
    if current.Ok? {
      var w := Timed(current.value, q.elapsedMs);
      FinishedFresh(q.request, w, names);
      FreshTaintLevel(w, q.request, stored);
    }
  }

  lemma AnalyzeTextErrors(
    v: Service, r: SegmentRequest, found: seq<seq<Match>>, nonce: string, faceRoute: Option<string>)
    requires |found| == |r.segments| && AnalyzeText(v, r, found, nonce, faceRoute).Raised?
    ensures AnalyzeText(v, r, found, nonce, faceRoute).error in {InvalidSpan, InvalidScore, ReversalConflict,
              PlaceholderCollision}
  {
    LeafFailures(r.segments, found);
    if AllValid(r.segments, found) {
      PreparedFits(v.policy, r.kind == Mcp, r.segments, found);
      TransformAllLength(v, nonce, Plans(v.policy, r.kind == Mcp, r.segments, found));
      DecideCases(v, r, Plans(v.policy, r.kind == Mcp, r.segments, found), nonce, faceRoute);
    }
  }

  lemma BeforeVisualErrors(v: Service, r: SegmentRequest, found: seq<seq<Match>>, nonce: string)
    requires |found| == |r.segments| && BeforeVisual(v, r, found, nonce).Raised?
    ensures Preflight(v, r).Raised? || AnalyzeText(v, r, found, nonce, FaceRoute(v.policy, r)).Raised?
    ensures Preflight(v, r).Raised? ==> BeforeVisual(v, r, found, nonce).error == Preflight(v, r).error
    ensures Preflight(v, r).Ok? ==>
              BeforeVisual(v, r, found, nonce) == AnalyzeText(v, r, found, nonce, FaceRoute(v.policy, r))
  {
  }

  lemma PreflightErrors(v: Service, r: SegmentRequest)
    requires Preflight(v, r).Raised?
    ensures Preflight(v, r).error in {InvalidRequest, TooManySegments, TooManyCharacters}
  {
  }

  lemma AnalyzeErrors(v: Service, q: Ask)
    requires |q.found| == |q.request.segments| && AnalyzeSegments(v, q.request, q.found, q.nonce).Raised?
    ensures AnalyzeSegments(v, q.request, q.found, q.nonce).error !in {InvalidSession, ResultKindMismatch}
  {
    BeforeVisualErrors(v, q.request, q.found, q.nonce);
    if Preflight(v, q.request).Raised? {
      PreflightErrors(v, q.request);
    } else {
      AnalyzeTextErrors(v, q.request, q.found, q.nonce, FaceRoute(v.policy, q.request));
    }
  }

  lemma CachedStep(v: Service, q: Ask, s: SessionDecision, names: set<string>, current: Outcome<Result>)
    requires ValidRequest(q.request) && q.request.sessionScoped && GoodAnalysis(current, q, names)
    requires Safe(Some(s), names) && s.mcp == IsMcp(q.request) && Catalogue(names)
    ensures GoodOutcome(RespondWith(v.policy, q, Some(s), current), q, Some(s), names)
  {
    StickyItself(Some(s));
    if FinalCached(v.policy, q.request, Some(s)).Some? {
      CachedResponseValid(q.request, s);
    } else if current.Ok? {
      MergedStep(v.policy, q, s, names, Timed(current.value, q.elapsedMs));
    }
  }

  lemma MergedStep(p: PolicySettings, q: Ask, s: SessionDecision, names: set<string>, w: Result)
    requires ValidRequest(q.request) && q.request.sessionScoped && s.mcp == IsMcp(q.request)
    requires Safe(Some(s), names) && Catalogue(names) && FinalCached(p, q.request, Some(s)).None?
    requires Current(w, q.request, names)
    ensures GoodOutcome(Finished(q.request, ApplyCached(w, Some(s)), Some(s)), q, Some(s), names)
  {
    if w.decision == Blocked {
      FinishedBlocked(q.request, w, s, names);
    } else {
      FinishedMerged(q.request, w, s, names);
    }
  }

  /** A request-scoped request neither reads nor writes the store. */
  lemma ScopedOutcome(v: Service, q: Ask, stored: Option<SessionDecision>, current: Outcome<Result>)
    requires ValidRequest(q.request) && q.request.visual.Some? && LimitFailure(v, q.request.segments).None?
    ensures HandleWith(v, q, stored, current) ==
            if current.Raised? then Raised(current.error) else Ok((Timed(current.value, q.elapsedMs), None))
  {
  }

  lemma ScopedHandle(v: Service, q: Ask, stored: Option<SessionDecision>)
    requires ValidRequest(q.request) && |q.found| == |q.request.segments| && q.request.visual.Some?
    requires LimitFailure(v, q.request.segments).None?
    ensures var current := AnalyzeSegments(v, q.request, q.found, q.nonce);
            Handle(v, q, stored) == if current.Raised? then Raised(current.error)
            else Ok((Timed(current.value, q.elapsedMs), None))
  {
    ScopedOutcome(v, q, stored, Analysis(v, q));
  }

  lemma ScopedStep(v: Service, q: Ask, stored: Option<SessionDecision>, names: set<string>, current: Outcome<Result>)
    requires ValidRequest(q.request) && q.request.visual.Some? && LimitFailure(v, q.request.segments).None?
    requires Safe(stored, names)
    requires current.Ok? ==> ValidResponse(Timed(current.value, q.elapsedMs), q.request)
    requires current.Raised? ==> current.error !in {InvalidSession, ResultKindMismatch}
    ensures GoodOutcome(HandleWith(v, q, stored, current), q, stored, names)
  {
    StickyItself(stored);
    ScopedOutcome(v, q, stored, current);
  }

  /** Whatever good analysis a session request comes to, its step is good. */
  lemma SessionStep(v: Service, q: Ask, stored: Option<SessionDecision>, names: set<string>, current: Outcome<Result>)
    requires ValidRequest(q.request) && q.request.visual.None? && GoodAnalysis(current, q, names)
    requires Safe(stored, names) && Catalogue(names) && LimitFailure(v, q.request.segments).None?
    ensures GoodOutcome(HandleWith(v, q, stored, current), q, stored, names)
  {
    if ReadCached(q.request, stored) == Ok(None) {
      FreshStep(v, q, stored, names, current);
    } else if ReadCached(q.request, stored).Ok? {
      CachedStep(v, q, stored.value, names, current);
    } else {
      StickyItself(stored);
    }
  }

  lemma AnalysisIsGood(v: Service, q: Ask, names: set<string>)
    requires ValidService(v) && ValidAsk(q, names) && q.request.visual.None?
    ensures GoodAnalysis(Analysis(v, q), q, names)
  {
    if Analysis(v, q).Ok? {
      CurrentResult(v, q, names);
    } else {
      AnalyzeErrors(v, q);
    }
  }

  lemma VisualAnalysis(v: Service, q: Ask, names: set<string>)
    requires ValidService(v) && ValidAsk(q, names)
    ensures Analysis(v, q).Ok? ==> ValidResponse(Timed(Analysis(v, q).value, q.elapsedMs), q.request)
    ensures Analysis(v, q).Raised? ==> Analysis(v, q).error !in {InvalidSession, ResultKindMismatch}
  {
    if Analysis(v, q).Ok? {
      KnownReportable(q.request, q.found, names);
      PipelineResponseValid(v, q.request, q.found, q.nonce, q.elapsedMs);
    } else {
      AnalyzeErrors(v, q);
    }
  }

  lemma VisualStep(v: Service, q: Ask, stored: Option<SessionDecision>, names: set<string>)
    requires ValidService(v) && ValidAsk(q, names) && Safe(stored, names)
    requires q.request.visual.Some? && LimitFailure(v, q.request.segments).None?
    ensures GoodStep(v, q, stored, names)
  {
    VisualAnalysis(v, q, names);
    ScopedStep(v, q, stored, names, Analysis(v, q));
  }

  lemma TextStep(v: Service, q: Ask, stored: Option<SessionDecision>, names: set<string>)
    requires ValidService(v) && ValidAsk(q, names) && Safe(stored, names) && Catalogue(names)
    requires q.request.visual.None? && LimitFailure(v, q.request.segments).None?
    ensures GoodStep(v, q, stored, names)
  {
    AnalysisIsGood(v, q, names);
    SessionStep(v, q, stored, names, Analysis(v, q));
  }

  lemma RefusedStep(v: Service, q: Ask, stored: Option<SessionDecision>, names: set<string>, current: Outcome<Result>)
    requires Safe(stored, names) && LimitFailure(v, q.request.segments).Some?
    ensures GoodOutcome(HandleWith(v, q, stored, current), q, stored, names)
  {
    StickyItself(stored);
  }

  /** One request on a key: valid response, valid and sticky stored decision, at least as strict as what it read. */
  lemma StepIsGood(v: Service, q: Ask, stored: Option<SessionDecision>, names: set<string>)
    requires ValidService(v) && ValidAsk(q, names) && Safe(stored, names) && Catalogue(names)
    ensures GoodStep(v, q, stored, names)
  {
    if LimitFailure(v, q.request.segments).Some? {
      RefusedStep(v, q, stored, names, Analysis(v, q));
    } else if q.request.visual.None? {
      TextStep(v, q, stored, names);
    } else {
      VisualStep(v, q, stored, names);
    }
  }

  // ---- runs on one key ----

  ghost predicate ValidAsks(asks: seq<Ask>, names: set<string>) {
    forall i :: 0 <= i < |asks| ==> ValidAsk(asks[i], names)
  }

  /** What is stored before and after request k. */
  ghost predicate Handled(v: Service, asks: seq<Ask>, stored: seq<Option<SessionDecision>>, k: nat) {
    && k < |asks| && k + 1 < |stored| && |asks[k].found| == |asks[k].request.segments|
    && stored[k + 1] == After(v, asks[k], stored[k])
  }

  /** A run of requests on one key, with what is stored before the first and after each. */
  ghost predicate Run(v: Service, asks: seq<Ask>, stored: seq<Option<SessionDecision>>) {
    |stored| == |asks| + 1 && forall k :: 0 <= k < |asks| ==> Handled(v, asks, stored, k)
  }

  lemma HandledIsGood(v: Service, asks: seq<Ask>, stored: seq<Option<SessionDecision>>, k: nat, names: set<string>)
    requires ValidService(v) && Catalogue(names) && ValidAsks(asks, names) && Run(v, asks, stored) && k < |asks|
    requires Safe(stored[k], names)
    ensures Safe(stored[k + 1], names) && Sticky(stored[k], stored[k + 1])
  {
    assert Handled(v, asks, stored, k) && ValidAsk(asks[k], names);
    StepIsGood(v, asks[k], stored[k], names);
  }

  /** After any run the stored decision still passes its validators, so no later read rejects it. */
  lemma {:induction false} RunIsSafe(
    v: Service, asks: seq<Ask>, stored: seq<Option<SessionDecision>>, k: nat, names: set<string>)
    requires ValidService(v) && Catalogue(names) && ValidAsks(asks, names) && Run(v, asks, stored) && k < |stored|
    requires Safe(stored[0], names)
    ensures Safe(stored[k], names)
    ensures k > 0 ==> Sticky(stored[k - 1], stored[k])
  {
    if k > 0 {
      RunIsSafe(v, asks, stored, k - 1, names);
      HandledIsGood(v, asks, stored, k - 1, names);
    }
  }

  lemma StickyTransitive(a: Option<SessionDecision>, b: Option<SessionDecision>, c: Option<SessionDecision>)
    requires Sticky(a, b) && Sticky(b, c)
    ensures Sticky(a, c)
  {
  }

  lemma StickyItself(a: Option<SessionDecision>)
    ensures Sticky(a, a)
  {
  }

  /** Over every run, from any earlier point to any later one, taint only moves none to reroute to block. */
  lemma {:induction false} TaintIsMonotone(
    v: Service, asks: seq<Ask>, stored: seq<Option<SessionDecision>>, i: nat, j: nat, names: set<string>)
    requires ValidService(v) && Catalogue(names) && ValidAsks(asks, names) && Run(v, asks, stored)
    requires Safe(stored[0], names)
    requires i <= j < |stored|
    ensures Sticky(stored[i], stored[j])
    decreases j
  {
    if i == j {
      StickyItself(stored[i]);
    } else {
      TaintIsMonotone(v, asks, stored, i, j - 1, names);
      RunIsSafe(v, asks, stored, j, names);
      StickyTransitive(stored[i], stored[j - 1], stored[j]);
    }
  }

  /** Every response of a run is valid and at least as strict as every taint stored before it. */
  lemma ResponsesRespectTaint(
    v: Service, asks: seq<Ask>, stored: seq<Option<SessionDecision>>, i: nat, k: nat, names: set<string>)
    requires ValidService(v) && Catalogue(names) && ValidAsks(asks, names) && Run(v, asks, stored)
    requires Safe(stored[0], names)
    requires i <= k < |asks| && |asks[k].found| == |asks[k].request.segments| && Handle(v, asks[k], stored[k]).Ok?
    ensures ValidResponse(Handle(v, asks[k], stored[k]).value.0, asks[k].request)
    ensures asks[k].request.sessionScoped ==> Strict(Handle(v, asks[k], stored[k]).value.0.decision) >= Level(stored[i])
  {
    RunIsSafe(v, asks, stored, k, names);
    TaintIsMonotone(v, asks, stored, i, k, names);
    assert ValidAsk(asks[k], names);
    StepIsGood(v, asks[k], stored[k], names);
  }

  // ---- overlapping requests on one key ----

  /** What a request that read some decision writes, if anything. */
  type Writer = (Ask, Option<SessionDecision>) -> Option<SessionDecision>

  ghost function WriterOf(v: Service): Writer {
    (q: Ask, read: Option<SessionDecision>) =>
      if |q.found| == |q.request.segments| && Handle(v, q, read).Ok? then Handle(v, q, read).value.1 else None
  }

  lemma WriterIs(v: Service, q: Ask, read: Option<SessionDecision>)
    requires |q.found| == |q.request.segments|
    ensures var h := HandleWith(v, q, read, Analysis(v, q)); WriterOf(v)(q, read) == if h.Ok? then h.value.1 else None
  {
  }

  /** The store, and what each request in progress has read. */
  datatype World = World(stored: Option<SessionDecision>, reading: map<nat, Option<SessionDecision>>)

  datatype Event = Read(task: nat) | Finish(task: nat, ask: Ask)

  ghost predicate Step(write: Writer, names: set<string>, a: World, e: Event, b: World) {
    match e
    case Read(t) => t !in a.reading && b == World(a.stored, a.reading[t := a.stored])
    case Finish(t, q) =>
      && t in a.reading && ValidAsk(q, names)
      && b.reading == a.reading - {t}
      && b.stored == if write(q, a.reading[t]).Some? then write(q, a.reading[t]) else a.stored
  }

  ghost predicate Stepped(write: Writer, names: set<string>, worlds: seq<World>, events: seq<Event>, i: nat) {
    i < |events| && i + 1 < |worlds| && Step(write, names, worlds[i], events[i], worlds[i + 1])
  }

  ghost predicate Trace(write: Writer, names: set<string>, worlds: seq<World>, events: seq<Event>) {
    && |worlds| == |events| + 1
    && worlds[0].reading == map[]
    && forall i :: 0 <= i < |events| ==> Stepped(write, names, worlds, events, i)
  }

  ghost predicate SafeWorld(w: World, names: set<string>) {
    Safe(w.stored, names) && forall t :: t in w.reading ==> Safe(w.reading[t], names)
  }

  /** Requests that read valid decisions write valid ones. */
  ghost predicate Careful(write: Writer, names: set<string>) {
    forall q, read :: ValidAsk(q, names) && Safe(read, names) ==> Safe(write(q, read), names)
  }

  lemma ServiceIsCareful(v: Service, names: set<string>)
    requires ValidService(v) && Catalogue(names)
    ensures Careful(WriterOf(v), names)
  {
    forall q, read | ValidAsk(q, names) && Safe(read, names) ensures Safe(WriterOf(v)(q, read), names) {
      StepIsGood(v, q, read, names);
    }
  }

  lemma StepKeepsSafe(write: Writer, names: set<string>, worlds: seq<World>, events: seq<Event>, i: nat)
    requires Careful(write, names) && Stepped(write, names, worlds, events, i) && SafeWorld(worlds[i], names)
    ensures SafeWorld(worlds[i + 1], names) && (worlds[i].stored.Some? ==> worlds[i + 1].stored.Some?)
  {
  }

  lemma {:induction false} OverlapIsSafe(
    write: Writer, names: set<string>, worlds: seq<World>, events: seq<Event>, i: nat, j: nat)
    requires Careful(write, names) && Trace(write, names, worlds, events) && Safe(worlds[0].stored, names)
    requires i <= j < |worlds|
    ensures SafeWorld(worlds[j], names)
    ensures worlds[i].stored.Some? ==> worlds[j].stored.Some?
    decreases j
  {
    if j > 0 {
      OverlapIsSafe(write, names, worlds, events, if i < j then i else j - 1, j - 1);
      assert Stepped(write, names, worlds, events, j - 1);
      StepKeepsSafe(write, names, worlds, events, j - 1);
    }
  }

  /** However requests on one key overlap, every stored value is valid and a tainted key stays tainted. */
  lemma OverlapKeepsTaint(v: Service, names: set<string>, worlds: seq<World>, events: seq<Event>, i: nat, j: nat)
    requires ValidService(v) && Catalogue(names) && Trace(WriterOf(v), names, worlds, events)
    requires Safe(worlds[0].stored, names)
    requires i <= j < |worlds|
    ensures Safe(worlds[j].stored, names)
    ensures worlds[i].stored.Some? ==> worlds[j].stored.Some?
  {
    ServiceIsCareful(v, names);
    OverlapIsSafe(WriterOf(v), names, worlds, events, i, j);
  }

  // ---- exactly when an overlapping finish keeps the order ----

  /** What is stored once a request finishes on what it read. */
  ghost function Stored(
    v: Service, q: Ask, stored: Option<SessionDecision>, read: Option<SessionDecision>): Option<SessionDecision> {
    var written := WriterOf(v)(q, read);
    if written.Some? then written else stored
  }

  /** Whatever the service and the request, finishing on this read keeps the order of what is stored. */
  ghost predicate KeepsOrder(names: set<string>, stored: Option<SessionDecision>, read: Option<SessionDecision>) {
    forall v, q :: ValidService(v) && ValidAsk(q, names) ==> Sticky(stored, Stored(v, q, stored, read))
  }

  /** A block was read, or what was read is at least as sticky as what is stored by now. */
  predicate MayFinish(stored: Option<SessionDecision>, read: Option<SessionDecision>) {
    Level(read) == 2 || Sticky(stored, read)
  }

  lemma BlockedOutcome(v: Service, q: Ask, read: Option<SessionDecision>, current: Outcome<Result>)
    requires Level(read) == 2
    ensures var h := HandleWith(v, q, read, current); h.Ok? ==> h.value.1.None?
  {
  }

  lemma BlockedWritesNothing(v: Service, q: Ask, read: Option<SessionDecision>)
    requires |q.found| == |q.request.segments| && Level(read) == 2
    ensures WriterOf(v)(q, read).None?
  {
    WriterIs(v, q, read);
    BlockedOutcome(v, q, read, Analysis(v, q));
  }

  lemma FinishedSticky(
    v: Service, q: Ask, names: set<string>, stored: Option<SessionDecision>, read: Option<SessionDecision>)
    requires ValidService(v) && ValidAsk(q, names) && Catalogue(names) && Safe(read, names) && Sticky(stored, read)
    ensures Sticky(stored, Stored(v, q, stored, read))
  {
    StickyItself(stored);
    StepIsGood(v, q, read, names);
    StickyTransitive(stored, read, After(v, q, read));
  }

  lemma MayFinishSuffices(names: set<string>, stored: Option<SessionDecision>, read: Option<SessionDecision>)
    requires Catalogue(names) && Safe(read, names) && MayFinish(stored, read)
    ensures KeepsOrder(names, stored, read)
  {
    forall v, q | ValidService(v) && ValidAsk(q, names) ensures Sticky(stored, Stored(v, q, stored, read)) {
      if Level(read) == 2 {
        StickyItself(stored);
        BlockedWritesNothing(v, q, read);
      } else {
        FinishedSticky(v, q, names, stored, read);
      }
    }
  }

  // ---- services and requests that break the order ----

  const NONCE := "0123456789abcdef"

  const NOTICES := Notices("rerouted", "masked", false)

  /** Every detection has this action; safety blocks with this notice, if any. */
  function ServiceOf(action: Action, mask: bool, target: string, notice: Option<string>): Service {
    Service(PolicySettings([], action, mask, target, Block, None, NOTICES),
            Operators((leaf, a, m, x) => x, (leaf, m, x) => x, (n, e, x) => "0000000000000000"),
            10, 100, segments => if notice.Some? then Some(("rule", notice.value)) else None, segments => "default")
  }

  const PLAIN := SegmentRequest(Chat, true, [Segment("s", "x")], true, false, None)

  /** A one-letter request with these matches. */
  function Sample(ms: seq<Match>): Ask { Ask(PLAIN, [ms], NONCE, 1) }

  function Letter(e: string): Match { Match(e, 0, 1, 1.0, "spacy") }

  /** Nothing is replaced by a placeholder, and nothing blocks. */
  predicate Lax(p: PolicySettings) {
    p.entityPolicies == [] && p.defaultAction in {Pass, Reroute}
  }

  lemma ServiceIsValid(action: Action, mask: bool, target: string, notice: Option<string>)
    requires action != TextOnly && target != ""
    ensures ValidService(ServiceOf(action, mask, target, notice))
  {
    assert ValidPolicy(ServiceOf(action, mask, target, notice).policy);
    assert Hex16("0000000000000000");
  }

  lemma PlainIsSmall(v: Service)
    requires v.maxLeaves == 10 && v.maxCharacters == 100
    ensures ValidRequest(PLAIN) && LimitFailure(v, PLAIN.segments).None?
  {
    assert PLAIN.segments[..0] == [];
    assert CharacterCount(PLAIN.segments) == 1;
  }

  lemma SampleIsValid(ms: seq<Match>, names: set<string>)
    requires Catalogue(names) && forall j :: 0 <= j < |ms| ==> ms[j].entity in names
    ensures ValidAsk(Sample(ms), names)
  {
    assert Ids(PLAIN.segments) == ["s"];
    assert Hex16(NONCE);
  }

  /** A lax policy has nothing to reverse. */
  lemma {:induction false} LaxLedger(c: Context, base: set<Action>, text: string, regions: seq<Match>)
    requires InText(text, regions) && Lax(c.policy)
    ensures LedgerOf(c, base, text, regions).Some? && LedgerOf(c, base, text, regions).value.reversal == map[]
  {
    if regions != [] {
      LaxLedger(c, base, text, regions[1..]);
    }
  }

  lemma OneLeaf(v: Service, d: PlanData)
    requires PlanFits(d) && Lax(v.policy)
    ensures TransformAll(v, NONCE, [d]).Some? && TransformAll(v, NONCE, [d]).value.1 == map[]
  {
    LaxLedger(Context(v.policy, v.ops, NONCE, 0), d.appliedActions, d.text, d.effectiveMatches);
    assert [d][..0] == [];
    assert TransformAll(v, NONCE, [d][..0]) == Some(([], map[]));
  }

  lemma NothingBlocks(p: PolicySettings, d: PlanData)
    requires Lax(p) && JoinFacts(p, false, d)
    ensures !d.blocked
  {
    forall e ensures Effective(p, e, false) == p.defaultAction {}
  }

  lemma DecideOne(v: Service, d: PlanData)
    requires PlanFits(d) && !d.blocked && Lax(v.policy)
    ensures Decide(v, PLAIN, [d], NONCE, None).Ok?
  {
    OneLeaf(v, d);
    assert !AnyBlocked([d]);
  }

  lemma SampleDecides(v: Service, ms: seq<Match>)
    requires Lax(v.policy) && ValidSpans(ms, 1)
    ensures AnalyzeText(v, PLAIN, [ms], NONCE, None).Ok?
  {
    assert AllValid(PLAIN.segments, [ms]);
    PreparedFits(v.policy, false, PLAIN.segments, [ms]);
    var d := Plans(v.policy, false, PLAIN.segments, [ms])[0];
    assert PlanFits(Plans(v.policy, false, PLAIN.segments, [ms])[0]);
    assert Plans(v.policy, false, PLAIN.segments, [ms]) == [d];
    PreparedJoin(v.policy, false, "x", ms);
    NothingBlocks(v.policy, d);
    DecideOne(v, d);
  }

  /** Without a safety rule the text of a one-letter request is analysed. */
  lemma SampleAnalysis(action: Action, mask: bool, target: string, ms: seq<Match>)
    requires action in {Pass, Reroute} && ValidSpans(ms, 1)
    ensures var v := ServiceOf(action, mask, target, None);
            && LimitFailure(v, PLAIN.segments).None?
            && AnalyzeSegments(v, PLAIN, [ms], NONCE) == AnalyzeText(v, PLAIN, [ms], NONCE, None)
            && AnalyzeSegments(v, PLAIN, [ms], NONCE).Ok?
  {
    var v := ServiceOf(action, mask, target, None);
    PlainIsSmall(v);
    SampleDecides(v, ms);
    assert Preflight(v, PLAIN) == Ok(None);
  }

  /** A policy that reroutes everything resolves some match to reroute and none to block. */
  lemma AllReroute(p: PolicySettings, ms: seq<Match>)
    requires p.entityPolicies == [] && p.defaultAction == Reroute && |ms| > 0
    ensures SomeDetected(p, false, [ms], 8) && !SomeDetected(p, false, [ms], 9)
  {
    forall e ensures Effective(p, e, false) == Reroute {}
    assert Strictness(Effective(p, ms[0].entity, false)) >= 8;
    assert SomeMatch(p, false, [ms][0], 8);
  }

  /** One detection under a rerouting policy is rerouted to its default target. */
  lemma DetectionReroutes(e: string, mask: bool, target: string)
    requires target != ""
    ensures var h := AnalyzeSegments(ServiceOf(Reroute, mask, target, None), PLAIN, [[Letter(e)]], NONCE);
            h.Ok? && h.value.decision == Rerouted && h.value.routeClass == Some(target)
  {
    var v, found := ServiceOf(Reroute, mask, target, None), [[Letter(e)]];
    SampleAnalysis(Reroute, mask, target, found[0]);
    DecisionByLevel(v, PLAIN, found, NONCE);
    AllReroute(v.policy, found[0]);
    TargetOfAll(v, PLAIN, found, NONCE);
  }

  /** Without entity policies a reroute goes to the default target. */
  lemma SuccessRoute(
    v: Service, r: SegmentRequest, ts: seq<PlanData>, reversal: map<string, string>, route: Option<string>)
    requires |ts| == |r.segments| && Success(v, r, ts, reversal, route).decision == Rerouted
    ensures route.Some? && Success(v, r, ts, reversal, route).routeClass == route
  {
  }

  lemma DecidedTarget(v: Service, r: SegmentRequest, ds: seq<PlanData>, nonce: string)
    requires ValidPolicy(v.policy) && v.policy.entityPolicies == [] && AllFit(ds) && |ds| == |r.segments|
    requires Sound(v.policy, r.kind == Mcp, ds, r.segments)
    requires Decide(v, r, ds, nonce, None).Ok? && Decide(v, r, ds, nonce, None).value.decision == Rerouted
    ensures Decide(v, r, ds, nonce, None).value.routeClass == Some(v.policy.defaultTarget)
  {
    RouteIsOfSet(v.policy, r.kind == Mcp, ds, r.segments);
    DecidedRoute(v, r, ds, nonce);
  }

  lemma DecidedRoute(v: Service, r: SegmentRequest, ds: seq<PlanData>, nonce: string)
    requires AllFit(ds) && |ds| == |r.segments|
    requires Decide(v, r, ds, nonce, None).Ok? && Decide(v, r, ds, nonce, None).value.decision == Rerouted
    ensures var route := ResolveRouteClass(v.policy, AllRerouted(ds), LeafRoutes(ds));
            route.Some? && Decide(v, r, ds, nonce, None).value.routeClass == route
  {
    TransformAllLength(v, nonce, ds);
    DecideCases(v, r, ds, nonce, None);
    var both := TransformAll(v, nonce, ds).value;
    SuccessRoute(v, r, both.0, both.1, ChosenRoute(v.policy, ds, None));
  }

  lemma TargetOfAll(v: Service, r: SegmentRequest, found: seq<seq<Match>>, nonce: string)
    requires ValidPolicy(v.policy) && v.policy.entityPolicies == [] && |found| == |r.segments|
    requires var h := AnalyzeText(v, r, found, nonce, None); h.Ok? && h.value.decision == Rerouted
    ensures AnalyzeText(v, r, found, nonce, None).value.routeClass == Some(v.policy.defaultTarget)
  {
    PlansSound(v.policy, r.kind == Mcp, r.segments, found);
    DecidedTarget(v, r, Plans(v.policy, r.kind == Mcp, r.segments, found), nonce);
  }

  lemma WritesTaint(v: Service, q: Ask, names: set<string>)
    requires ValidService(v) && ValidAsk(q, names) && q.request.sessionScoped
    requires LimitFailure(v, q.request.segments).None?
    requires var h := AnalyzeSegments(v, q.request, q.found, q.nonce); h.Ok? && h.value.decision in {Blocked, Rerouted}
    ensures var w, h := WriterOf(v)(q, None), AnalyzeSegments(v, q.request, q.found, q.nonce).value;
            && w.Some? && w.value.decision == h.decision && w.value.routeClass == h.routeClass
            && w.value.responseNotices == h.responseNotices && w.value.rows == h.rows && w.value.mcp == IsMcp(q.request)
  {
    CurrentResult(v, q, names);
    FreshWrite(v, q, Analysis(v, q), names);
    WriterIs(v, q, None);
  }

  /** What a request that read nothing writes. */
  lemma FreshWrite(v: Service, q: Ask, current: Outcome<Result>, names: set<string>)
    requires q.request.visual.None? && LimitFailure(v, q.request.segments).None? && current.Ok?
    requires Current(Timed(current.value, q.elapsedMs), q.request, names)
    ensures HandleWith(v, q, None, current) ==
            Ok((Timed(current.value, q.elapsedMs), TaintOf(Timed(current.value, q.elapsedMs), None, q.request)))
  {
    FinishedFresh(q.request, Timed(current.value, q.elapsedMs), names);
  }

  /** A request that read nothing can write a reroute to any route. */
  lemma WritesReroute(e: string, target: string, names: set<string>)
    requires Catalogue(names) && e in names && target != ""
    ensures ValidService(ServiceOf(Reroute, false, target, None)) && ValidAsk(Sample([Letter(e)]), names)
    ensures var w := WriterOf(ServiceOf(Reroute, false, target, None))(Sample([Letter(e)]), None);
            Level(w) == 1 && w.value.routeClass == Some(target)
  {
    var v, q := ServiceOf(Reroute, false, target, None), Sample([Letter(e)]);
    ServiceIsValid(Reroute, false, target, None);
    SampleIsValid([Letter(e)], names);
    PlainIsSmall(v);
    DetectionReroutes(e, false, target);
    WritesTaint(v, q, names);
  }

  /** A request that read nothing can write a block with any notice. */
  lemma WritesBlock(notice: string, names: set<string>)
    requires Catalogue(names)
    ensures ValidService(ServiceOf(Pass, true, "local", Some(notice))) && ValidAsk(Sample([]), names)
    ensures var w := WriterOf(ServiceOf(Pass, true, "local", Some(notice)))(Sample([]), None);
            Level(w) == 2 && w.value.responseNotices == [notice]
  {
    var v := ServiceOf(Pass, true, "local", Some(notice));
    ServiceIsValid(Pass, true, "local", Some(notice));
    SampleIsValid([], names);
    PlainIsSmall(v);
    assert Preflight(v, PLAIN).value.value.responseNotices == [notice];
    WritesTaint(v, Sample([]), names);
  }

  lemma NothingPasses(v: Service, r: SegmentRequest, nonce: string)
    requires ValidPolicy(v.policy) && |r.segments| == 1 && AnalyzeText(v, r, [[]], nonce, None).Ok?
    ensures AnalyzeText(v, r, [[]], nonce, None).value.decision == PassThrough
  {
    DecisionByLevel(v, r, [[]], nonce);
  }

  lemma NothingFound(action: Action)
    requires action in {Pass, Reroute}
    ensures var w := AnalyzeSegments(ServiceOf(action, true, "local", None), PLAIN, [[]], NONCE);
            w.Ok? && w.value.decision == PassThrough && w.value.entityCounts == map[]
  {
    var v := ServiceOf(action, true, "local", None);
    SampleAnalysis(action, true, "local", []);
    ServiceIsValid(action, true, "local", None);
    NothingPasses(v, PLAIN, NONCE);
    SampleIsValid([], {});
    NothingCounted(v, Sample([]));
  }

  lemma NothingCounted(v: Service, q: Ask)
    requires ValidService(v) && ValidAsk(q, {}) && q.request.visual.None? && Analysis(v, q).Ok?
    ensures Analysis(v, q).value.entityCounts == map[]
  {
    CurrentResult(v, q, {});
  }

  lemma NothingMerged(counts: map<string, int>)
    requires forall e :: e in counts ==> counts[e] >= 1
    ensures MergeMax(map[], counts) == counts
  {
  }

  lemma MergedBack(w: Result, s: SessionDecision)
    requires w.entityCounts == map[] && ValidSession(s)
    ensures Follows(Merged(w, s), s) && Merged(w, s).entityCounts == s.entityCounts
  {
    NothingMerged(s.entityCounts);
  }

  lemma MaskedRead(p: PolicySettings, r: SegmentRequest, s: SessionDecision)
    requires p.maskOnReroute && r.sessionScoped && !IsMcp(r) && ValidSession(s) && s.decision == Rerouted
    ensures ReadCached(r, Some(s)) == Ok(Some(s)) && FinalCached(p, r, Some(s)).None?
  {
  }

  lemma AppliesReroute(w: Result, s: SessionDecision)
    requires s.decision == Rerouted && w.decision != Blocked
    ensures ApplyCached(w, Some(s)) == Merged(w, s)
  {
  }

  /** A masking request that read a reroute is finished with that reroute applied. */
  lemma MaskedHandle(v: Service, q: Ask, s: SessionDecision, current: Outcome<Result>)
    requires LimitFailure(v, q.request.segments).None? && current.Ok?
    requires ReadCached(q.request, Some(s)) == Ok(Some(s)) && FinalCached(v.policy, q.request, Some(s)).None?
    ensures HandleWith(v, q, Some(s), current) ==
            Finished(q.request, ApplyCached(Timed(current.value, q.elapsedMs), Some(s)), Some(s))
  {
  }

  lemma RouteBack(m: Result, s: SessionDecision, r: SegmentRequest)
    requires Follows(m, s) && m.entityCounts == s.entityCounts && r.sessionScoped
    ensures var t := TaintOf(m, Some(s), r); t.Some? && SameRoute(t.value, s)
  {
  }

  /** A masking request that finds nothing but read a reroute writes that reroute back. */
  lemma HandsBack(v: Service, q: Ask, s: SessionDecision, names: set<string>, current: Outcome<Result>)
    requires q.request.visual.None? && Catalogue(names) && LimitFailure(v, q.request.segments).None?
    requires q.request.sessionScoped && !IsMcp(q.request) && !q.request.attachmentsPresent && v.policy.maskOnReroute
    requires Safe(Some(s), names) && s.decision == Rerouted && current.Ok?
    requires Current(Timed(current.value, q.elapsedMs), q.request, names)
    requires current.value.decision != Blocked && current.value.entityCounts == map[]
    ensures var h := HandleWith(v, q, Some(s), current);
            h.Ok? && Level(h.value.1) == 1 && SameRoute(h.value.1.value, s)
  {
    var w := Timed(current.value, q.elapsedMs);
    MaskedRead(v.policy, q.request, s);
    MaskedHandle(v, q, s, current);
    AppliesReroute(w, s);
    FinishedMerged(q.request, w, s, names);
    MergedBack(w, s);
    RouteBack(Merged(w, s), s, q.request);
  }

  lemma WritesBack(s: SessionDecision, names: set<string>)
    requires Catalogue(names) && Safe(Some(s), names) && s.decision == Rerouted
    ensures ValidService(ServiceOf(Pass, true, "local", None)) && ValidAsk(Sample([]), names)
    ensures var t := WriterOf(ServiceOf(Pass, true, "local", None))(Sample([]), Some(s));
            Level(t) == 1 && SameRoute(t.value, s)
  {
    var v, q := ServiceOf(Pass, true, "local", None), Sample([]);
    ServiceIsValid(Pass, true, "local", None);
    SampleIsValid([], names);
    PlainIsSmall(v);
    NothingFound(Pass);
    CurrentResult(v, q, names);
    HandsBack(v, q, s, names, Analysis(v, q));
    WriterIs(v, q, Some(s));
  }

  lemma SameRouteBack(stored: Option<SessionDecision>, w: Option<SessionDecision>, read: SessionDecision)
    requires Level(w) == 1 && read.decision == Rerouted && SameRoute(w.value, read) && Sticky(stored, w)
    ensures Sticky(stored, Some(read))
  {
  }

  lemma BreaksAfterReroute(names: set<string>, stored: Option<SessionDecision>, read: SessionDecision)
    requires Catalogue(names) && Safe(Some(read), names) && read.decision == Rerouted && !Sticky(stored, Some(read))
    ensures !KeepsOrder(names, stored, Some(read))
  {
    var v, q := ServiceOf(Pass, true, "local", None), Sample([]);
    WritesBack(read, names);
    if Sticky(stored, Stored(v, q, stored, Some(read))) {
      SameRouteBack(stored, WriterOf(v)(q, Some(read)), read);
    }
  }

  lemma BreaksBlock(names: set<string>, s: SessionDecision)
    requires Catalogue(names) && s.decision == Blocked
    ensures !KeepsOrder(names, Some(s), None)
  {
    var notice := if s.responseNotices == ["a"] then "b" else "a";
    var v, q := ServiceOf(Pass, true, "local", Some(notice)), Sample([]);
    WritesBlock(notice, names);
    assert !Sticky(Some(s), Stored(v, q, Some(s), None));
  }

  lemma BreaksReroute(names: set<string>, s: SessionDecision)
    requires Catalogue(names) && Safe(Some(s), names) && s.decision == Rerouted
    ensures !KeepsOrder(names, Some(s), None)
  {
    var e := RerouteNames(s);
    var target := if s.routeClass == Some("a") then "b" else "a";
    var v, q := ServiceOf(Reroute, false, target, None), Sample([Letter(e)]);
    WritesReroute(e, target, names);
    assert !Sticky(Some(s), Stored(v, q, Some(s), None));
  }

  /** Some finish breaks the order when a block was not read and what was read is less sticky than what is stored. */
  lemma MayFinishNeeded(names: set<string>, stored: Option<SessionDecision>, read: Option<SessionDecision>)
    requires Catalogue(names) && Safe(stored, names) && Safe(read, names) && !MayFinish(stored, read)
    ensures !KeepsOrder(names, stored, read)
  {
    if read.Some? {
      BreaksAfterReroute(names, stored, read.value);
    } else if Level(stored) == 2 {
      BreaksBlock(names, stored.value);
    } else {
      BreaksReroute(names, stored.value);
    }
  }

  /** A stored reroute names an entity. */
  lemma RerouteNames(s: SessionDecision) returns (e: string)
    requires ValidSession(s) && s.decision == Rerouted
    ensures e in s.entityCounts
  {
    var i :| 0 <= i < |s.rows| && s.rows[i].action == Reroute;
    e := s.rows[i].entity;
  }

  /**
   * A request that finishes on a stored decision other than the one it read keeps the order for every
   * service and request exactly when it read a block, or a decision at least as sticky as the stored one.
   */
  lemma FinishKeepsOrder(names: set<string>, stored: Option<SessionDecision>, read: Option<SessionDecision>)
    requires Catalogue(names) && Safe(stored, names) && Safe(read, names)
    ensures KeepsOrder(names, stored, read) <==> MayFinish(stored, read)
  {
    if MayFinish(stored, read) {
      MayFinishSuffices(names, stored, read);
    } else {
      MayFinishNeeded(names, stored, read);
    }
  }

  ghost predicate Guarded(worlds: seq<World>, events: seq<Event>) {
    forall i :: 0 <= i < |events| && i < |worlds| && events[i].Finish? && events[i].task in worlds[i].reading ==>
      MayFinish(worlds[i].stored, worlds[i].reading[events[i].task])
  }

  /** Finishing under the guard keeps the order, whatever is asked. */
  ghost predicate Orderly(write: Writer, names: set<string>) {
    forall q, stored, read ::
      ValidAsk(q, names) && Safe(read, names) && MayFinish(stored, read) && write(q, read).Some?
      ==> Sticky(stored, write(q, read))
  }

  lemma ServiceIsOrderly(v: Service, names: set<string>)
    requires ValidService(v) && Catalogue(names)
    ensures Orderly(WriterOf(v), names)
  {
    forall q, stored, read | ValidAsk(q, names) && Safe(read, names) && MayFinish(stored, read)
      && WriterOf(v)(q, read).Some?
      ensures Sticky(stored, WriterOf(v)(q, read))
    {
      MayFinishSuffices(names, stored, read);
      assert Stored(v, q, stored, read) == WriterOf(v)(q, read);
    }
  }

  lemma GuardedStep(write: Writer, names: set<string>, a: World, e: Event, b: World)
    requires Orderly(write, names) && Step(write, names, a, e, b) && SafeWorld(a, names)
    requires e.Finish? ==> MayFinish(a.stored, a.reading[e.task])
    ensures Sticky(a.stored, b.stored)
  {
    StickyItself(a.stored);
  }

  lemma GuardAt(worlds: seq<World>, events: seq<Event>, i: nat)
    requires Guarded(worlds, events) && i < |events| && i < |worlds|
    ensures events[i].Finish? && events[i].task in worlds[i].reading ==>
              MayFinish(worlds[i].stored, worlds[i].reading[events[i].task])
  {
  }

  lemma GuardedLast(write: Writer, names: set<string>, worlds: seq<World>, events: seq<Event>, j: nat)
    requires Orderly(write, names) && Careful(write, names) && Trace(write, names, worlds, events)
    requires Safe(worlds[0].stored, names) && Guarded(worlds, events) && 0 < j < |worlds|
    ensures Sticky(worlds[j - 1].stored, worlds[j].stored)
  {
    var i: nat := j - 1;
    OverlapIsSafe(write, names, worlds, events, 0, i);
    assert Stepped(write, names, worlds, events, i);
    GuardAt(worlds, events, i);
    GuardedStep(write, names, worlds[i], events[i], worlds[j]);
  }

  lemma {:induction false} GuardedRun(
    write: Writer, names: set<string>, worlds: seq<World>, events: seq<Event>, i: nat, j: nat)
    requires Orderly(write, names) && Careful(write, names) && Trace(write, names, worlds, events)
    requires Safe(worlds[0].stored, names) && Guarded(worlds, events) && i <= j < |worlds|
    ensures Sticky(worlds[i].stored, worlds[j].stored)
    decreases j
  {
    if i == j {
      StickyItself(worlds[i].stored);
    } else {
      GuardedRun(write, names, worlds, events, i, j - 1);
      GuardedLast(write, names, worlds, events, j);
      StickyTransitive(worlds[i].stored, worlds[j - 1].stored, worlds[j].stored);
    }
  }

  /** Overlapping requests that all finish under the guard keep the order over the whole run. */
  lemma GuardedRunIsSticky(v: Service, names: set<string>, worlds: seq<World>, events: seq<Event>, i: nat, j: nat)
    requires ValidService(v) && Catalogue(names) && Trace(WriterOf(v), names, worlds, events)
    requires Safe(worlds[0].stored, names) && Guarded(worlds, events) && i <= j < |worlds|
    ensures Sticky(worlds[i].stored, worlds[j].stored)
  {
    ServiceIsCareful(v, names);
    ServiceIsOrderly(v, names);
    GuardedRun(WriterOf(v), names, worlds, events, i, j);
  }

  // ---- without the guard the last writer wins ----

  const ATTACHED := Ask(SegmentRequest(Chat, true, [], true, true, None), [], NONCE, 1)

  lemma AttachedIsValid(v: Service, names: set<string>)
    requires Catalogue(names)
    ensures ValidAsk(ATTACHED, names) && LimitFailure(v, ATTACHED.request.segments).None?
  {
    assert CharacterCount([]) == 0;
    assert Hex16(NONCE);
  }

  lemma AttachedBlocks(v: Service, names: set<string>)
    requires ValidService(v) && Catalogue(names)
    ensures ValidAsk(ATTACHED, names) && Level(WriterOf(v)(ATTACHED, None)) == 2
  {
    AttachedIsValid(v, names);
    AttachmentsBlock(v, ATTACHED.request, [], NONCE);
    WritesTaint(v, ATTACHED, names);
  }

  /** Two requests that read before either writes, and both write. */
  lemma Overlap(write: Writer, names: set<string>, a: Ask, b: Ask) returns (worlds: seq<World>, events: seq<Event>)
    requires ValidAsk(a, names) && ValidAsk(b, names) && write(a, None).Some? && write(b, None).Some?
    ensures Trace(write, names, worlds, events) && |events| == 4 && worlds[0].stored == None
    ensures worlds[3].stored == write(a, None) && worlds[4].stored == write(b, None)
  {
    var one: map<nat, Option<SessionDecision>> := map[0 := None];
    var two: map<nat, Option<SessionDecision>> := map[0 := None, 1 := None];
    var left: map<nat, Option<SessionDecision>> := map[1 := None];
    var nobody: map<nat, Option<SessionDecision>> := map[];
    assert two - {0} == left && left - {1} == nobody && one[1 := None] == two;
    worlds := [World(None, nobody), World(None, one), World(None, two), World(write(a, None), left),
      World(write(b, None), nobody)];
    events := [Read(0), Read(1), Finish(0, a), Finish(1, b)];
    forall i | 0 <= i < 4 ensures Stepped(write, names, worlds, events, i) {
      if i == 0 {
      } else if i == 1 {
      } else if i == 2 {
      } else {
        assert i == 3;
      }
    }
  }

  /** Two overlapping requests on an untainted key: the block one of them stores is overwritten by a reroute. */
  lemma LastWriterWins() returns (worlds: seq<World>, events: seq<Event>)
    ensures Trace(WriterOf(ServiceOf(Reroute, false, "local", None)), {"A"}, worlds, events)
    ensures |events| == 4 && worlds[0].stored == None
    ensures Level(worlds[3].stored) == 2 && Level(worlds[4].stored) == 1
  {
    var v := ServiceOf(Reroute, false, "local", None);
    assert TextEntity("A");
    WritesReroute("A", "local", {"A"});
    AttachedBlocks(v, {"A"});
    worlds, events := Overlap(WriterOf(v), {"A"}, ATTACHED, Sample([Letter("A")]));
  }
}
