/** Requests, results, and the validators every response and stored session decision must pass. */
module Contracts {
  import opened Ordering
  import opened PolicyConfig
  import opened Restore

  datatype RequestKind = Chat | Responses | Mcp

  datatype Segment = Segment(id: string, text: string)

  datatype ScanStatus = Complete | NotScanned | ScanFailed

  datatype Faces = Faces(scanStatus: ScanStatus, count: Option<nat>)

  datatype SegmentRequest = SegmentRequest(
    kind: RequestKind, sessionScoped: bool, segments: seq<Segment>, textPiiEnabled: bool,
    attachmentsPresent: bool, visual: Option<Faces>)

  const MAX_COUNT := 10_000_000
  const MAX_ENTITIES := 64

  function FaceCount(faces: Faces): nat {
    if faces.count.Some? then faces.count.value else 0
  }

  /** What the request schema checks. */
  predicate ValidRequest(r: SegmentRequest) {
    && NoDup(Ids(r.segments))
    && (r.visual.Some? ==>
          && r.kind != Mcp && !r.sessionScoped && !r.attachmentsPresent
          && (r.visual.value.scanStatus == Complete <==> r.visual.value.count.Some?)
          && FaceCount(r.visual.value) <= MAX_COUNT)
    && (!r.textPiiEnabled ==> r.visual.Some?)
  }

  function Ids(segments: seq<Segment>): (r: seq<string>)
    ensures |r| == |segments| && forall i :: 0 <= i < |r| ==> r[i] == segments[i].id
  {
    seq(|segments|, i requires 0 <= i < |segments| => segments[i].id)
  }

  datatype Decision = PassThrough | Blocked | ApplyActions | Rerouted

  datatype Source = CurrentRequest | CachedDecision

  datatype Row = Row(entity: string, action: Action, detected: int, transformed: int, unique: int)

  /** What one request comes to. */
  datatype Result = Result(
    decision: Decision,
    remoteAllowed: bool,
    segments: Option<seq<Segment>>,
    entities: seq<string>,
    entityCounts: map<string, int>,
    appliedActions: set<Action>,
    rows: seq<Row>,
    source: Source,
    scanPerformed: bool,
    durationMs: Option<int>,
    overlapCount: int,
    cachedDecisionApplied: bool,
    routeClass: Option<string>,
    reversal: map<string, string>,
    safetyRule: Option<string>,
    requestNotices: seq<string>,
    responseNotices: seq<string>,
    textLeafCount: nat)

  // ---- report rows ----

  predicate ValidRow(row: Row) {
    && (row.entity == "FACE" ==> row.action in {Block, TextOnly, Reroute} && row.transformed == 0)
    && (row.entity != "FACE" ==> row.action != TextOnly)
    && 1 <= row.detected <= MAX_COUNT
    && 0 <= row.unique <= row.transformed <= row.detected
    && (row.action in {Pass, Block} ==> row.transformed == 0)
  }

  function RowNames(rows: seq<Row>): (r: seq<string>)
    ensures |r| == |rows| && forall i :: 0 <= i < |r| ==> r[i] == rows[i].entity
  {
    seq(|rows|, i requires 0 <= i < |rows| => rows[i].entity)
  }

  /** One valid row per entity, sorted by entity. */
  predicate ValidReport(rows: seq<Row>) {
    && |rows| <= MAX_ENTITIES
    && (forall i :: 0 <= i < |rows| ==> ValidRow(rows[i]))
    && NoDup(RowNames(rows))
    && Sorted(RowNames(rows), NameKey)
  }

  predicate HasRow(rows: seq<Row>, a: Action) {
    exists i :: 0 <= i < |rows| && rows[i].action == a
  }

  predicate SomeTransformed(rows: seq<Row>) {
    exists i :: 0 <= i < |rows| && rows[i].transformed > 0
  }

  /** The rows' detected counts are exactly the entity counts. */
  predicate RowsMatch(rows: seq<Row>, counts: map<string, int>) {
    && (forall i :: 0 <= i < |rows| ==> rows[i].entity in counts && counts[rows[i].entity] == rows[i].detected)
    && (forall e :: e in counts ==> RowNamed(rows, e))
  }

  predicate SameNames(counts: map<string, int>, entities: seq<string>) {
    (forall e :: e in counts ==> e in entities) && (forall e :: e in entities ==> e in counts)
  }

  predicate RowNamed(rows: seq<Row>, e: string) {
    exists i :: 0 <= i < |rows| && rows[i].entity == e
  }

  predicate RowsWithin(rows: seq<Row>, counts: map<string, int>) {
    forall i :: 0 <= i < |rows| ==> rows[i].entity in counts && rows[i].detected <= counts[rows[i].entity]
  }

  // ---- responses ----

  predicate ValidMetadata(v: Result) {
    && (v.scanPerformed <==> v.durationMs.Some?)
    && (v.durationMs.Some? ==> 0 <= v.durationMs.value <= 600_000)
    && 0 <= v.overlapCount <= MAX_COUNT
    && (v.scanPerformed ==> v.source == CurrentRequest)
    && (v.source == CachedDecision ==> v.cachedDecisionApplied)
    && (!v.scanPerformed && v.source == CurrentRequest ==> v.overlapCount == 0)
  }

  predicate ValidForwarding(v: Result) {
    && (v.decision == Blocked <==> v.segments.None?)
    && (v.remoteAllowed <==> v.decision !in {Blocked, Rerouted})
    && (v.decision == Blocked ==> v.routeClass.None?)
    && (v.decision == Rerouted ==> v.routeClass.Some? && v.routeClass.value != "")
    && (v.segments.Some? ==> NoDup(Ids(v.segments.value)))
    && |v.requestNotices| <= 16 && |v.responseNotices| <= 16
  }

  predicate ValidCounts(v: Result) {
    && SameNames(v.entityCounts, v.entities)
    && |v.entities| <= MAX_ENTITIES && |v.entityCounts| <= MAX_ENTITIES
    && (forall e :: e in v.entityCounts ==> 0 < v.entityCounts[e] <= MAX_COUNT)
    && (if v.cachedDecisionApplied then v.decision in {Blocked, Rerouted} && RowsWithin(v.rows, v.entityCounts)
        else RowsMatch(v.rows, v.entityCounts))
  }

  predicate ValidActions(v: Result) {
    && (v.decision == PassThrough ==> forall i :: 0 <= i < |v.rows| ==> v.rows[i].action == Pass)
    && (v.decision == ApplyActions ==>
          && !HasRow(v.rows, Block) && !HasRow(v.rows, Reroute)
          && (SomeTransformed(v.rows) || HasRow(v.rows, TextOnly)))
    && (v.decision == Rerouted ==>
          && !HasRow(v.rows, Block)
          && (HasRow(v.rows, Reroute) || (v.source == CurrentRequest && v.scanPerformed && v.cachedDecisionApplied)))
    && (v.decision == Blocked ==>
          && v.reversal == map[] && !SomeTransformed(v.rows)
          && (v.rows == [] || HasRow(v.rows, Block)))
    && (!v.scanPerformed ==> v.reversal == map[])
  }

  predicate ValidVisual(v: Result, r: SegmentRequest) {
    && (if r.visual.None? then "FACE" !in v.entityCounts
        else
          var faces := r.visual.value;
          && v.source == CurrentRequest && !v.cachedDecisionApplied
          && (if "FACE" in v.entityCounts then v.entityCounts["FACE"] else 0) == FaceCount(faces)
          && (faces.scanStatus == ScanFailed ==> v.decision == Blocked)
          && (!v.scanPerformed ==> forall e :: e in v.entityCounts ==> e == "FACE")
          && (forall i :: 0 <= i < |v.rows| && v.rows[i].entity == "FACE" ==>
                v.rows[i].action in v.appliedActions && (v.decision == Blocked ==> v.rows[i].action == Block)))
    && (TextOnly in v.appliedActions ==> RowNamed(v.rows, "FACE"))
  }

  /** What ties a result to the request it answers: the same segment ids, and scans only where they belong. */
  predicate SegmentFieldsOk(v: Result, r: SegmentRequest) {
    && (v.decision != Blocked ==>
          && v.segments.Some? && Ids(v.segments.value) == Ids(r.segments)
          && (!v.scanPerformed && v.source == CurrentRequest && r.visual.None? ==>
                && r.kind == Mcp && r.segments == [] && v.decision == PassThrough && v.entities == []
                && v.appliedActions == {} && v.routeClass.None? && v.requestNotices == [] && v.responseNotices == []
                && v.safetyRule.None? && v.reversal == map[] && !v.cachedDecisionApplied && v.textLeafCount == 0))
    && (r.visual.Some? ==>
          && (v.scanPerformed ==> r.textPiiEnabled)
          && (r.textPiiEnabled && !v.scanPerformed ==> v.decision == Blocked)
          && (!r.textPiiEnabled && v.segments.Some? ==> v.segments.value == r.segments))
    && (r.kind == Mcp ==>
          v.decision != Rerouted && v.routeClass.None? && v.requestNotices == [] && v.responseNotices == [])
  }

  /** Reversal keys follow the placeholder grammar; values are real pieces of bounded text. */
  predicate ValidReversal(reversal: map<string, string>) {
    forall ph :: ph in reversal ==> InGrammar(ph) && |ph| <= 256 && 1 <= |reversal[ph]| <= MAX_TEXT
  }

  const MAX_TEXT := 4_000_000

  /** Everything the trusted adapter's response is checked against. */
  predicate ValidResponse(v: Result, r: SegmentRequest) {
    && ValidMetadata(v)
    && ValidForwarding(v)
    && ValidReport(v.rows)
    && ValidCounts(v)
    && ValidActions(v)
    && ValidVisual(v, r)
    && SegmentFieldsOk(v, r)
    && ValidReversal(v.reversal)
    && |v.appliedActions| <= 16
  }

  // ---- stored session decisions ----

  datatype SessionDecision = SessionDecision(
    mcp: bool, decision: Decision, entities: seq<string>, entityCounts: map<string, int>, rows: seq<Row>,
    overlapCount: int, routeClass: Option<string>, remoteAllowed: bool, requestNotices: seq<string>,
    responseNotices: seq<string>)

  predicate ValidRouting(s: SessionDecision) {
    && s.decision in {Blocked, Rerouted}
    && s.requestNotices == []
    && |s.responseNotices| <= 16
    && !s.remoteAllowed
    && (s.decision == Blocked ==> s.routeClass.None?)
    && (s.decision == Rerouted ==> s.routeClass.Some?)
    && (s.routeClass != Some(""))
    && (s.mcp ==> s.decision == Blocked && s.responseNotices == [] && !HasRow(s.rows, Reroute))
  }

  predicate ValidSessionCounts(s: SessionDecision) {
    && "FACE" !in s.entityCounts
    && NoDup(s.entities) && SameNames(s.entityCounts, s.entities)
    && |s.entities| <= MAX_ENTITIES && |s.entityCounts| <= MAX_ENTITIES
    && (forall e :: e in s.entityCounts ==> 1 <= s.entityCounts[e] <= MAX_COUNT)
    && 0 <= s.overlapCount <= MAX_COUNT
    && ValidReport(s.rows) && RowsWithin(s.rows, s.entityCounts)
  }

  predicate ValidTerminalRows(s: SessionDecision) {
    if s.decision == Blocked then !SomeTransformed(s.rows) && (s.rows == [] || HasRow(s.rows, Block))
    else !HasRow(s.rows, Block) && HasRow(s.rows, Reroute)
  }

  predicate ValidSession(s: SessionDecision) {
    ValidRouting(s) && ValidSessionCounts(s) && ValidTerminalRows(s)
  }
}
