/** The whole-request pipeline as a function: preflight, planning, decision, report rows, visual evidence. */
module Policy {
  import opened Ordering
  import opened PolicyConfig
  import opened Matches
  import opened Rewrite
  import opened Planner
  import opened Contracts

  /** The service's dependencies; safety rules and the classifier are oracles over segment texts. */
  datatype Service = Service(
    policy: PolicySettings, ops: Operators, maxLeaves: nat, maxCharacters: nat,
    safety: seq<Segment> -> Option<(string, string)>, classify: seq<Segment> -> string)

  // ---- aggregation over leaves ----

  function Get(m: map<string, int>, k: string): int { if k in m then m[k] else 0 }

  function GetSet(m: map<string, set<string>>, k: string): set<string> { if k in m then m[k] else {} }

  function MergeCounts(t: map<string, int>, s: map<string, int>): map<string, int> {
    map k | k in t.Keys + s.Keys :: Get(t, k) + Get(s, k)
  }

  ghost function TotalCounts(ds: seq<PlanData>): map<string, int> {
    if ds == [] then map[] else MergeCounts(TotalCounts(ds[..|ds| - 1]), ds[|ds| - 1].entityCounts)
  }

  ghost function AllEntities(ds: seq<PlanData>): set<string> {
    if ds == [] then {} else AllEntities(ds[..|ds| - 1]) + ds[|ds| - 1].entities
  }

  ghost function AllRerouted(ds: seq<PlanData>): set<string> {
    if ds == [] then {} else AllRerouted(ds[..|ds| - 1]) + ds[|ds| - 1].rerouteEntities
  }

  ghost function AllActions(ds: seq<PlanData>): set<Action> {
    if ds == [] then {} else AllActions(ds[..|ds| - 1]) + ds[|ds| - 1].appliedActions
  }

  ghost function TotalOverlaps(ds: seq<PlanData>): nat {
    if ds == [] then 0 else TotalOverlaps(ds[..|ds| - 1]) + ds[|ds| - 1].overlapCount
  }

  /** The route of each leaf that has one, in leaf order. */
  ghost function LeafRoutes(ds: seq<PlanData>): seq<string> {
    if ds == [] then []
    else
      var r := ds[|ds| - 1].routeClass;
      LeafRoutes(ds[..|ds| - 1]) + (if r.Some? && r.value != "" then [r.value] else [])
  }

  ghost function SumDetected(ds: seq<PlanData>, e: string): int {
    if ds == [] then 0 else SumDetected(ds[..|ds| - 1], e) + Get(ds[|ds| - 1].entityCounts, e)
  }

  ghost function SumTransformed(ds: seq<PlanData>, e: string): int {
    if ds == [] then 0
    else
      var d := ds[|ds| - 1];
      SumTransformed(ds[..|ds| - 1], e) + (if e in d.entityCounts then Get(d.transformedCounts, e) else 0)
  }

  ghost function AllValues(ds: seq<PlanData>, e: string): set<string> {
    if ds == [] then {}
    else
      var d := ds[|ds| - 1];
      AllValues(ds[..|ds| - 1], e) + (if e in d.entityCounts then GetSet(d.transformedValues, e) else {})
  }

  ghost function RowFor(p: PolicySettings, rab: bool, ds: seq<PlanData>, e: string): Row {
    Row(e, Effective(p, e, rab), SumDetected(ds, e), SumTransformed(ds, e), |AllValues(ds, e)|)
  }

  ghost function RowsFor(p: PolicySettings, rab: bool, ds: seq<PlanData>, names: seq<string>): (r: seq<Row>)
    ensures |r| == |names| && forall i :: 0 <= i < |names| ==> r[i] == RowFor(p, rab, ds, names[i])
  {
    seq(|names|, i requires 0 <= i < |names| => RowFor(p, rab, ds, names[i]))
  }

  /** One row per detected entity, in name order. */
  ghost function ReportRows(p: PolicySettings, rab: bool, ds: seq<PlanData>): seq<Row> {
    RowsFor(p, rab, ds, SortedNames(TotalCounts(ds).Keys))
  }

  // ---- preparing and transforming all leaves ----

  ghost function Plans(p: PolicySettings, rab: bool, segments: seq<Segment>, found: seq<seq<Match>>): (r: seq<PlanData>)
    requires |segments| == |found|
    ensures |r| == |segments| && forall i :: 0 <= i < |r| ==> r[i] == Prepared(p, rab, segments[i].text, found[i])
  {
    seq(|segments|, i requires 0 <= i < |segments| => Prepared(p, rab, segments[i].text, found[i]))
  }

  ghost predicate AllValid(segments: seq<Segment>, found: seq<seq<Match>>)
    requires |segments| == |found|
  {
    forall i :: 0 <= i < |segments| ==> ValidSpans(found[i], |segments[i].text|)
  }

  /** What is wrong with the first leaf whose matches are not valid. */
  function LeafFailure(segments: seq<Segment>, found: seq<seq<Match>>): Option<Failure>
    requires |segments| == |found|
  {
    if segments == [] then None
    else
      var first := SpanFailure(found[0], |segments[0].text|);
      if first.Some? then first else LeafFailure(segments[1..], found[1..])
  }

  lemma {:induction false} LeafFailures(segments: seq<Segment>, found: seq<seq<Match>>)
    requires |segments| == |found|
    ensures LeafFailure(segments, found).None? <==> AllValid(segments, found)
    ensures LeafFailure(segments, found) in {None, Some(InvalidSpan), Some(InvalidScore)}
  {
    if segments != [] {
      SpanFailures(found[0], |segments[0].text|);
      LeafFailures(segments[1..], found[1..]);
      forall i | 0 < i < |segments| ensures segments[i] == segments[1..][i - 1] && found[i] == found[1..][i - 1] {}
    }
  }

  ghost predicate PlanFits(d: PlanData) { Fits(d.text, 0, d.effectiveMatches) }

  ghost predicate AllFit(ds: seq<PlanData>) { forall i :: 0 <= i < |ds| ==> PlanFits(ds[i]) }

  /** One leaf rewritten, or None on a placeholder conflict. */
  ghost function TransformOne(c: Context, d: PlanData): Option<PlanData>
    requires PlanFits(d)
  {
    var book := LedgerOf(c, d.appliedActions, d.text, d.effectiveMatches);
    if book.None? then None else Some(Transformed(d, Splice(c, d.text, 0, d.effectiveMatches), book.value))
  }

  function MergeReversal(t: map<string, string>, s: map<string, string>): Option<map<string, string>> {
    if exists k :: k in s && k in t && t[k] != s[k] then None else Some(t + s)
  }

  /** All leaves rewritten with their merged reversal map, or None on any conflict. */
  ghost function TransformAll(
    v: Service, nonce: string, ds: seq<PlanData>): Option<(seq<PlanData>, map<string, string>)>
    requires AllFit(ds)
  {
    if ds == [] then Some(([], map[]))
    else
      var n := |ds| - 1;
      var front := TransformAll(v, nonce, ds[..n]);
      var last := TransformOne(Context(v.policy, v.ops, nonce, n), ds[n]);
      if front.None? || last.None? then None
      else
        var merged := MergeReversal(front.value.1, last.value.reversal);
        if merged.None? then None else Some((front.value.0 + [last.value], merged.value))
  }

  ghost function NewSegments(segments: seq<Segment>, ts: seq<PlanData>): (r: seq<Segment>)
    requires |segments| == |ts|
    ensures |r| == |segments| && forall i :: 0 <= i < |r| ==> r[i] == Segment(segments[i].id, ts[i].text)
  {
    seq(|segments|, i requires 0 <= i < |segments| => Segment(segments[i].id, ts[i].text))
  }

  /** `"\n".join` of the segment texts. */
  function Joined(segments: seq<Segment>): string {
    if segments == [] then []
    else if |segments| == 1 then segments[0].text
    else segments[0].text + "\n" + Joined(segments[1..])
  }

  predicate OccursIn(text: string, part: string) {
    exists i :: 0 <= i <= |text| && part <= text[i..]
  }

  // ---- routing ----

  /** The first configured reroute entry among some entities. */
  function ConfiguredRoute(p: PolicySettings, entries: seq<EntityPolicy>, es: set<string>): Option<string> {
    if entries == [] then None
    else if entries[0].entityType in es && entries[0].action == Reroute then
      Some(if entries[0].routeClass.Some? && entries[0].routeClass.value != "" then entries[0].routeClass.value
        else p.defaultTarget)
    else ConfiguredRoute(p, entries[1..], es)
  }

  function ResolveRouteClass(p: PolicySettings, es: set<string>, detected: seq<string>): Option<string> {
    if detected == [] then None
    else
      var configured := ConfiguredRoute(p, p.entityPolicies, es);
      if configured.Some? then configured else Some(detected[0])
  }

  predicate FaceRouteConflicts(p: PolicySettings, faceRoute: Option<string>, es: set<string>) {
    faceRoute.Some? && exists e :: e in es && ResolveRouteClass(p, {e}, [p.defaultTarget]) != faceRoute
  }

  function ResponseNotices(
    p: PolicySettings, decision: Decision, hasEntities: bool, actions: set<Action>): seq<string> {
    if decision == Rerouted then [p.notice.rerouted]
    else if hasEntities && actions == {Pass} then ["Sensitive data was detected and passed through by policy."]
    else if hasEntities then [p.notice.masked]
    else if p.notice.showWhenNoPii then ["No sensitive data was detected by the configured policy."]
    else []
  }

  // ---- the decision of one request ----

  function EmptyResult(decision: Decision, segments: Option<seq<Segment>>, actions: set<Action>, leaves: nat): Result {
    Result(
      decision, decision == PassThrough, segments, [], map[], actions, [], CurrentRequest, false, None, 0, false, None,
      map[], None, [], [], leaves)
  }

  function CharacterCount(segments: seq<Segment>): nat {
    if segments == [] then 0 else CharacterCount(segments[..|segments| - 1]) + |segments[|segments| - 1].text|
  }

  function BoundsFailure(v: Service, segments: seq<Segment>): Option<Failure> {
    if segments == [] then Some(InvalidRequest) else LimitFailure(v, segments)
  }

  /** The measured limits every request meets before the session store or the analyzer is used. */
  function LimitFailure(v: Service, segments: seq<Segment>): Option<Failure> {
    if |segments| > v.maxLeaves then Some(TooManySegments)
    else if CharacterCount(segments) > v.maxCharacters then Some(TooManyCharacters)
    else None
  }

  /** An early result or refusal that needs no detector; Ok(None) when the request goes on to analysis. */
  function Preflight(v: Service, r: SegmentRequest): Outcome<Option<Result>> {
    if r.kind == Mcp && r.segments == [] && !r.attachmentsPresent then
      Ok(Some(EmptyResult(PassThrough, Some([]), {}, 0)))
    else
      var bounds := if r.segments != [] || !r.attachmentsPresent then BoundsFailure(v, r.segments) else None;
      if bounds.Some? then Raised(bounds.value)
      else if r.attachmentsPresent then
        Ok(Some(EmptyResult(Blocked, None, {Block}, |r.segments|).(
          responseNotices := if r.kind == Mcp then [] else ["Attachments are blocked by the configured policy."])))
      else
        var safety := v.safety(r.segments);
        if safety.None? then Ok(None)
        else Ok(Some(EmptyResult(Blocked, None, {Block}, |r.segments|).(
          safetyRule := Some(safety.value.0), responseNotices := if r.kind == Mcp then [] else [safety.value.1])))
  }

  function FaceRoute(p: PolicySettings, r: SegmentRequest): Option<string> {
    if r.visual.Some? && FaceCount(r.visual.value) > 0 && p.faceAction == Reroute then
      Some(if p.faceRouteClass.Some? && p.faceRouteClass.value != "" then p.faceRouteClass.value else p.defaultTarget)
    else None
  }

  ghost predicate AnyBlocked(ds: seq<PlanData>) { exists i :: 0 <= i < |ds| && ds[i].blocked }

  /** Analyse text once preflight has let it through. */
  ghost function AnalyzeText(
    v: Service, r: SegmentRequest, found: seq<seq<Match>>, nonce: string, faceRoute: Option<string>): Outcome<Result>
    requires |found| == |r.segments|
  {
    var p, rab := v.policy, r.kind == Mcp;
    if !AllValid(r.segments, found) then
      LeafFailures(r.segments, found);
      Raised(LeafFailure(r.segments, found).value)
    else
      PreparedFits(p, rab, r.segments, found);
      Decide(v, r, Plans(p, rab, r.segments, found), nonce, faceRoute)
  }

  /** What all leaves of a request add up to. */
  datatype Totals = Totals(
    entities: seq<string>, counts: map<string, int>, rows: seq<Row>, overlaps: nat, actions: set<Action>)

  ghost function TotalsOf(p: PolicySettings, rab: bool, ds: seq<PlanData>): Totals {
    Totals(SortedNames(AllEntities(ds)), TotalCounts(ds), ReportRows(p, rab, ds), TotalOverlaps(ds), AllActions(ds))
  }

  function BlockedResult(r: SegmentRequest, t: Totals): Result {
    Result(
      Blocked, false, None, t.entities, t.counts, {Block}, t.rows, CurrentRequest, true, None, t.overlaps, false, None,
      map[], None, [], [], |r.segments|)
  }

  ghost predicate Blocks(p: PolicySettings, ds: seq<PlanData>, faceRoute: Option<string>) {
    AnyBlocked(ds) || FaceRouteConflicts(p, faceRoute, AllRerouted(ds))
  }

  ghost function ChosenRoute(p: PolicySettings, ds: seq<PlanData>, faceRoute: Option<string>): Option<string> {
    if faceRoute.Some? then faceRoute else ResolveRouteClass(p, AllRerouted(ds), LeafRoutes(ds))
  }

  predicate Collides(segments: seq<Segment>, reversal: map<string, string>) {
    exists ph :: ph in reversal && OccursIn(Joined(segments), ph)
  }

  ghost function Decide(
    v: Service, r: SegmentRequest, ds: seq<PlanData>, nonce: string, faceRoute: Option<string>): Outcome<Result>
    requires AllFit(ds) && |ds| == |r.segments|
  {
    if Blocks(v.policy, ds, faceRoute) then Ok(BlockedResult(r, TotalsOf(v.policy, r.kind == Mcp, ds)))
    else
      var rewritten := TransformAll(v, nonce, ds);
      if rewritten.None? then Raised(ReversalConflict)
      else if Collides(r.segments, rewritten.value.1) then Raised(PlaceholderCollision)
      else
        TransformAllLength(v, nonce, ds);
        Ok(Success(v, r, rewritten.value.0, rewritten.value.1, ChosenRoute(v.policy, ds, faceRoute)))
  }

  ghost function Success(
    v: Service, r: SegmentRequest, ts: seq<PlanData>, reversal: map<string, string>, route: Option<string>): Result
    requires |ts| == |r.segments|
  {
    SuccessResult(v, r, TotalsOf(v.policy, r.kind == Mcp, ts), NewSegments(r.segments, ts), reversal, route)
  }

  function TextDecision(route: Option<string>, actions: set<Action>): Decision {
    if route.Some? then Rerouted else if actions - {Pass} != {} then ApplyActions else PassThrough
  }

  function SuccessResult(
    v: Service, r: SegmentRequest, t: Totals, segments: seq<Segment>, reversal: map<string, string>,
    route: Option<string>): Result {
    var decision := TextDecision(route, t.actions);
    var chosen := if route.None? && r.kind != Mcp then Some(v.classify(segments)) else route;
    var notices := if r.kind == Mcp then [] else ResponseNotices(v.policy, decision, t.entities != [], t.actions);
    Result(
      decision, decision != Rerouted, Some(segments), t.entities, t.counts, t.actions, t.rows, CurrentRequest, true,
      None,
      t.overlaps, false, chosen, reversal, None, [], notices, |r.segments|)
  }

  lemma {:induction false} TransformAllLength(v: Service, nonce: string, ds: seq<PlanData>)
    requires AllFit(ds)
    ensures TransformAll(v, nonce, ds).Some? ==> |TransformAll(v, nonce, ds).value.0| == |ds|
  {
    if ds != [] {
      TransformAllLength(v, nonce, ds[..|ds| - 1]);
    }
  }

  /** The outcomes of a decision: blocked, successful, or refused over a placeholder. */
  lemma DecideCases(v: Service, r: SegmentRequest, ds: seq<PlanData>, nonce: string, faceRoute: Option<string>)
    requires AllFit(ds) && |ds| == |r.segments|
    ensures Blocks(v.policy, ds, faceRoute) ==>
              Decide(v, r, ds, nonce, faceRoute) == Ok(BlockedResult(r, TotalsOf(v.policy, r.kind == Mcp, ds)))
    ensures !Blocks(v.policy, ds, faceRoute) && TransformAll(v, nonce, ds).Some?
              && |TransformAll(v, nonce, ds).value.0| == |ds|
            && !Collides(r.segments, TransformAll(v, nonce, ds).value.1) ==>
              var both := TransformAll(v, nonce, ds).value;
              Decide(v, r, ds, nonce, faceRoute) ==
                Ok(Success(v, r, both.0, both.1, ChosenRoute(v.policy, ds, faceRoute)))
    ensures !Blocks(v.policy, ds, faceRoute)
              && (TransformAll(v, nonce, ds).None? || Collides(r.segments, TransformAll(v, nonce, ds).value.1)) ==>
              Decide(v, r, ds, nonce, faceRoute) in {Raised(ReversalConflict), Raised(PlaceholderCollision)}
  {
  }

  /** Prepared regions are disjoint, ordered and inside their text. */
  lemma PreparedFits(p: PolicySettings, rab: bool, segments: seq<Segment>, found: seq<seq<Match>>)
    requires |segments| == |found| && AllValid(segments, found)
    ensures AllFit(Plans(p, rab, segments, found))
  {
    forall i | 0 <= i < |segments| ensures PlanFits(Plans(p, rab, segments, found)[i]) {
      EffectiveFits(p, rab, segments[i].text, found[i]);
    }
  }

  // ---- visual evidence ----

  function FaceRow(action: Action, count: nat): Row { Row("FACE", action, count, 0, 0) }

  function RowKey(row: Row): Key { NameKey(row.entity) }

  /** Block where the request blocks anyway, else the configured face action. */
  function FaceActionFor(p: PolicySettings, v: Result): Action {
    if v.decision == Blocked then Block else p.faceAction
  }

  /** The counts, rows and actions of a result with its face evidence. */
  ghost function FaceEvidence(v: Result, action: Action, count: nat): Result {
    var counts := v.entityCounts["FACE" := count];
    v.(entityCounts := counts, entities := SortedNames(counts.Keys),
       rows := Sort(v.rows + [FaceRow(action, count)], RowKey), appliedActions := v.appliedActions + {action},
       responseNotices := if v.decision == PassThrough && v.entities == [] then [] else v.responseNotices)
  }

  function FaceRouting(p: PolicySettings, v: Result, action: Action, faceRoute: Option<string>): Result {
    if action == Reroute then
      v.(decision := Rerouted, remoteAllowed := false, routeClass := faceRoute, responseNotices := [p.notice.rerouted])
    else if action == TextOnly then
      v.(decision := if v.decision == PassThrough then ApplyActions else v.decision,
         responseNotices := v.responseNotices + ["Faces were detected; images must be withheld."])
    else v
  }

  /** A result with its face evidence: one more row and count, and the routing the face action asks for. */
  ghost function WithFaces(p: PolicySettings, v: Result, count: nat, faceRoute: Option<string>): Result {
    FaceRouting(p, FaceEvidence(v, FaceActionFor(p, v), count), FaceActionFor(p, v), faceRoute)
  }

  ghost function WithVisual(p: PolicySettings, v: Result, r: SegmentRequest, faceRoute: Option<string>): Result {
    if r.visual.None? || FaceCount(r.visual.value) == 0 then v
    else WithFaces(p, v, FaceCount(r.visual.value), faceRoute)
  }

  /** The whole request: preflight, faces, text, then visual evidence. */
  ghost function AnalyzeSegments(v: Service, r: SegmentRequest, found: seq<seq<Match>>, nonce: string): Outcome<Result>
    requires |found| == |r.segments|
  {
    var text := BeforeVisual(v, r, found, nonce);
    if text.Raised? then text else Ok(WithVisual(v.policy, text.value, r, FaceRoute(v.policy, r)))
  }

  /** What analysis returns before visual evidence is added. */
  ghost function BeforeVisual(v: Service, r: SegmentRequest, found: seq<seq<Match>>, nonce: string): Outcome<Result>
    requires |found| == |r.segments|
  {
    var early := Preflight(v, r);
    if early.Raised? then Raised(early.error)
    else if early.value.Some? then Ok(early.value.value)
    else if r.visual.Some? && !FacesPass(v.policy, r) then Ok(EmptyResult(Blocked, None, {Block}, |r.segments|))
    else if r.visual.Some? && !r.textPiiEnabled then Ok(EmptyResult(PassThrough, Some(r.segments), {}, |r.segments|))
    else AnalyzeText(v, r, found, nonce, FaceRoute(v.policy, r))
  }

  predicate FacesPass(p: PolicySettings, r: SegmentRequest)
    requires r.visual.Some?
  {
    !(r.visual.value.scanStatus == ScanFailed || (FaceCount(r.visual.value) > 0 && p.faceAction == Block))
  }

  /** The runtime stamps a scanned result with its bounded duration. */
  function Timed(v: Result, elapsedMs: nat): Result {
    if v.scanPerformed then v.(durationMs := Some(if elapsedMs < 600_000 then elapsedMs else 600_000)) else v
  }
}
