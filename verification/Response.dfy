/** Every result the policy pipeline produces passes every response validator. */
module Response {
  import opened Ordering
  import opened PolicyConfig
  import opened Matches
  import Prepare
  import opened Rewrite
  import opened Restore
  import opened Planner
  import opened Contracts
  import opened Policy
  import opened LeafFacts
  import opened Aggregate
  import opened Verdict

  /** Validated settings: a valid policy, the character ceiling, and digests of sixteen hex digits. */
  ghost predicate ValidService(v: Service) {
    && ValidPolicy(v.policy)
    && v.maxCharacters <= MAX_TEXT
    && forall n, e, x :: Hex16(v.ops.digest(n, e, x))
  }

  /** A name detectors may use: within the field pattern, and not FACE, which only visual findings use. */
  ghost predicate TextEntity(e: string) { e != "FACE" && EntityName(e) && |e| <= 64 }

  /** At most 64 text entity types. */
  ghost predicate Catalogue(names: set<string>) {
    |names| <= MAX_ENTITIES && forall e :: e in names ==> TextEntity(e)
  }

  /** Detectors emit entities of a catalogue. */
  ghost predicate Known(names: set<string>, found: seq<seq<Match>>) {
    && Catalogue(names)
    && forall i, j :: 0 <= i < |found| && 0 <= j < |found[i]| ==> found[i][j].entity in names
  }

  /** The entity types of a request's matches. */
  ghost function FoundEntities(found: seq<seq<Match>>): set<string> {
    set i, j | 0 <= i < |found| && 0 <= j < |found[i]| :: found[i][j].entity
  }

  /** Faces take one of the places a report has. */
  function FacePlace(r: SegmentRequest): nat {
    if r.visual.Some? && FaceCount(r.visual.value) > 0 then 1 else 0
  }

  /** A request's matches name text entities, and with FACE they are at most 64 types. */
  ghost predicate Reportable(r: SegmentRequest, found: seq<seq<Match>>) {
    && (forall e :: e in FoundEntities(found) ==> TextEntity(e))
    && |FoundEntities(found)| + FacePlace(r) <= MAX_ENTITIES
  }

  // ---- a result before visual evidence is added ----

  ghost predicate PreMeta(v: Result) {
    && v.source == CurrentRequest && !v.cachedDecisionApplied && v.durationMs.None?
    && 0 <= v.overlapCount <= MAX_COUNT && v.requestNotices == [] && |v.responseNotices| <= 1
    && TextOnly !in v.appliedActions && ValidReversal(v.reversal)
    && (!v.scanPerformed ==> v.overlapCount == 0 && v.reversal == map[] && v.rows == [] && v.entityCounts == map[])
  }

  ghost predicate PreCounts(v: Result, names: set<string>) {
    && "FACE" !in v.entityCounts && v.entityCounts.Keys <= names
    && v.entities == SortedNames(v.entityCounts.Keys)
    && RowNames(v.rows) == v.entities
    && (forall e :: e in v.entityCounts ==> 1 <= v.entityCounts[e] <= MAX_COUNT)
    && RowsMatch(v.rows, v.entityCounts)
    && forall i :: 0 <= i < |v.rows| ==> ValidRow(v.rows[i])
  }

  ghost predicate PreForward(v: Result, r: SegmentRequest) {
    && (v.decision == Blocked <==> v.segments.None?)
    && (v.remoteAllowed <==> v.decision !in {Blocked, Rerouted})
    && (v.decision == Blocked ==> v.routeClass.None?)
    && (v.decision == Rerouted ==> v.routeClass.Some? && v.routeClass.value != "")
    && (v.segments.Some? ==> Ids(v.segments.value) == Ids(r.segments))
    && (r.kind == Mcp ==> v.decision != Rerouted && v.routeClass.None? && v.responseNotices == [])
  }

  ghost predicate PreActions(v: Result, faceRoute: Option<string>) {
    && (v.decision == PassThrough ==> forall i :: 0 <= i < |v.rows| ==> v.rows[i].action == Pass)
    && (v.decision == ApplyActions ==> !HasRow(v.rows, Block) && !HasRow(v.rows, Reroute) && SomeTransformed(v.rows))
    && (v.decision == Rerouted ==> !HasRow(v.rows, Block) && (HasRow(v.rows, Reroute) || faceRoute.Some?))
    && (v.decision == Blocked ==>
          v.reversal == map[] && !SomeTransformed(v.rows) && (v.rows == [] || HasRow(v.rows, Block) || faceRoute.Some?))
  }

  ghost predicate PreVisual(p: PolicySettings, v: Result, r: SegmentRequest) {
    if r.visual.Some? then
      && (v.scanPerformed ==> r.textPiiEnabled)
      && (r.textPiiEnabled && !v.scanPerformed ==> v.decision == Blocked)
      && (!r.textPiiEnabled && v.segments.Some? ==> v.segments.value == r.segments)
      && (v.decision != Blocked ==>
            r.visual.value.scanStatus != ScanFailed && (FaceCount(r.visual.value) > 0 ==> p.faceAction != Block))
    else
      !v.scanPerformed && v.decision != Blocked ==>
        && r.kind == Mcp && r.segments == [] && v.decision == PassThrough && v.appliedActions == {}
        && v.routeClass.None? && v.responseNotices == [] && v.safetyRule.None? && v.textLeafCount == 0
  }

  ghost predicate Pre(p: PolicySettings, v: Result, r: SegmentRequest, faceRoute: Option<string>, names: set<string>) {
    PreMeta(v) && PreCounts(v, names) && PreForward(v, r) && PreActions(v, faceRoute) && PreVisual(p, v, r)
  }

  // ---- results without a text scan ----

  lemma NoNames()
    ensures SortedNames({}) == []
  {
  }

  lemma EmptyPre(p: PolicySettings, v: Result, r: SegmentRequest, faceRoute: Option<string>, names: set<string>)
    requires v.decision in {Blocked, PassThrough} && !v.scanPerformed && PreMeta(v) && PreForward(v, r)
    requires PreVisual(p, v, r)
    requires v.entities == [] && v.entityCounts == map[]
    ensures Pre(p, v, r, faceRoute, names)
  {
    NoNames();
    assert v.entityCounts.Keys == {};
    assert RowNames(v.rows) == [];
  }

  // ---- scanned results ----

  lemma EntitiesKnown(p: PolicySettings, rab: bool, segments: seq<Segment>, found: seq<seq<Match>>, names: set<string>)
    requires |segments| == |found| && AllValid(segments, found) && Known(names, found)
    ensures AllEntities(Plans(p, rab, segments, found)) <= names
  {
    var ds := Plans(p, rab, segments, found);
    forall i | 0 <= i < |ds| ensures ds[i].entities == EntitiesOf(found[i]) {
      PreparedCounts(p, rab, segments[i].text, found[i]);
    }
    LeavesKnown(ds, found, names);
  }

  lemma LeavesKnown(ds: seq<PlanData>, found: seq<seq<Match>>, names: set<string>)
    requires |ds| == |found| && Known(names, found)
    requires forall i :: 0 <= i < |ds| ==> ds[i].entities == EntitiesOf(found[i])
    ensures AllEntities(ds) <= names
  {
    forall e | e in AllEntities(ds) ensures e in names {
      EntityInLeaf(ds, e);
      var i :| 0 <= i < |ds| && e in ds[i].entities;
      EntityKnown(names, found, i, e);
    }
  }

  lemma EntityKnown(names: set<string>, found: seq<seq<Match>>, i: nat, e: string)
    requires Known(names, found) && i < |found| && e in EntitiesOf(found[i])
    ensures e in names
  {
    var j :| 0 <= j < |found[i]| && found[i][j].entity == e;
  }

  lemma SubsetSize(a: set<string>, b: set<string>)
    requires a <= b
    ensures |a| <= |b|
  {
    assert b == a + (b - a);
  }

  /** Counts and rows of some totals, and what their rows say. */
  ghost predicate TotalsPre(t: Totals, names: set<string>) {
    && "FACE" !in t.counts && t.counts.Keys <= names
    && t.entities == SortedNames(t.counts.Keys)
    && RowNames(t.rows) == t.entities
    && (forall e :: e in t.counts ==> 1 <= t.counts[e] <= MAX_COUNT)
    && RowsMatch(t.rows, t.counts)
    && (forall i :: 0 <= i < |t.rows| ==> ValidRow(t.rows[i]))
    && t.overlaps <= MAX_TEXT
  }

  lemma TotalsSound(p: PolicySettings, rab: bool, ds: seq<PlanData>, segments: seq<Segment>, names: set<string>)
    requires ValidPolicy(p) && Sound(p, rab, ds, segments) && CharacterCount(segments) <= MAX_TEXT
    requires AllEntities(ds) <= names && Catalogue(names)
    ensures TotalsPre(TotalsOf(p, rab, ds), names)
  {
    RowNamesSorted(p, rab, ds, segments);
    RowsMatchTotals(p, rab, ds, segments);
    SubsetSize(AllEntities(ds), names);
    RowsValid(p, rab, ds, segments);
    OverlapsBounded(p, rab, ds, segments);
    forall e | e in TotalCounts(ds) ensures 1 <= TotalCounts(ds)[e] <= MAX_COUNT {
      TotalsAgree(p, rab, ds, segments, e);
    }
  }

  lemma PreparedUntransformed(p: PolicySettings, rab: bool, segments: seq<Segment>, found: seq<seq<Match>>)
    requires |segments| == |found| && AllValid(segments, found)
    ensures !SomeTransformed(ReportRows(p, rab, Plans(p, rab, segments, found)))
  {
    var ds := Plans(p, rab, segments, found);
    PlansSound(p, rab, segments, found);
    TransformedRow(p, rab, ds, segments);
    forall e ensures !EditedIn(ds, e) {}
  }

  lemma LevelRow(p: PolicySettings, rab: bool, ds: seq<PlanData>, segments: seq<Segment>)
    requires Sound(p, rab, ds, segments)
    ensures HasRow(ReportRows(p, rab, ds), Block) <==> SomeEntity(p, rab, AllEntities(ds), 9)
    ensures !SomeEntity(p, rab, AllEntities(ds), 9) ==>
              (HasRow(ReportRows(p, rab, ds), Reroute) <==> SomeEntity(p, rab, AllEntities(ds), 8))
  {
    RowIffEntity(p, rab, ds, segments, Block);
    RowIffEntity(p, rab, ds, segments, Reroute);
    TopLevels(p, rab, AllEntities(ds));
  }

  lemma CountsPre(v: Result, t: Totals, names: set<string>)
    requires TotalsPre(t, names) && v.entityCounts == t.counts && v.entities == t.entities && v.rows == t.rows
    ensures PreCounts(v, names)
  {
  }

  lemma BlockedRest(p: PolicySettings, r: SegmentRequest, t: Totals, faceRoute: Option<string>)
    requires t.overlaps <= MAX_TEXT && !SomeTransformed(t.rows) && (HasRow(t.rows, Block) || faceRoute.Some?)
    requires r.visual.Some? ==> r.textPiiEnabled
    ensures var b := BlockedResult(r, t);
            PreMeta(b) && PreForward(b, r) && PreActions(b, faceRoute) && PreVisual(p, b, r)
  {
  }

  lemma BlockedPre(p: PolicySettings, r: SegmentRequest, t: Totals, faceRoute: Option<string>, names: set<string>)
    requires TotalsPre(t, names) && !SomeTransformed(t.rows) && (HasRow(t.rows, Block) || faceRoute.Some?)
    requires r.visual.Some? ==> r.textPiiEnabled
    ensures Pre(p, BlockedResult(r, t), r, faceRoute, names)
  {
    CountsPre(BlockedResult(r, t), t, names);
    BlockedRest(p, r, t, faceRoute);
  }

  // ---- reversal entries ----

  lemma PlaceholderValid(prefix: string, e: string, nonce: string, digest: string)
    requires prefix in {REV, ENCRYPTED} && EntityName(e) && |e| <= 64 && Hex16(nonce) && Hex16(digest)
    ensures InGrammar(Placeholder(prefix, e, nonce, digest)) && |Placeholder(prefix, e, nonce, digest)| <= 256
  {
    PlaceholderInGrammar(prefix, e, nonce, digest);
  }

  lemma EditValid(c: Context, m: Match, original: string)
    requires Hex16(c.nonce) && (forall n, e, x :: Hex16(c.ops.digest(n, e, x))) && EntityName(m.entity)
    requires |m.entity| <= 64
    requires EditOf(c, m, original).Reversible?
    ensures InGrammar(EditOf(c, m, original).placeholder) && |EditOf(c, m, original).placeholder| <= 256
  {
    PlaceholderValid(REV, m.entity, c.nonce, c.ops.digest(c.nonce, m.entity, original));
    PlaceholderValid(ENCRYPTED, m.entity, c.nonce,
      c.ops.digest(c.nonce, m.entity, c.ops.anonymize(c.leaf, Encrypt, m, original)));
  }

  lemma LeafReversalValid(c: Context, base: set<Action>, text: string, regions: seq<Match>)
    requires Fits(text, 0, regions) && |text| <= MAX_TEXT && LedgerOf(c, base, text, regions).Some?
    requires Hex16(c.nonce) && forall n, e, x :: Hex16(c.ops.digest(n, e, x))
    requires forall k :: 0 <= k < |regions| ==> EntityName(regions[k].entity) && |regions[k].entity| <= 64
    ensures ValidReversal(LedgerOf(c, base, text, regions).value.reversal)
  {
    var rev := LedgerOf(c, base, text, regions).value.reversal;
    forall ph | ph in rev ensures InGrammar(ph) && |ph| <= 256 && 1 <= |rev[ph]| <= MAX_TEXT {
      var k := LedgerSource(c, base, text, regions, ph);
      LedgerHolds(c, base, text, regions, k);
      EditValid(c, regions[k], Original(text, regions[k]));
    }
  }

  lemma {:induction false} ReversalValid(v: Service, nonce: string, ds: seq<PlanData>)
    requires AllFit(ds) && TransformAll(v, nonce, ds).Some? && Hex16(nonce)
    requires forall n, e, x :: Hex16(v.ops.digest(n, e, x))
    requires forall i :: 0 <= i < |ds| ==> |ds[i].text| <= MAX_TEXT
    requires forall i, k :: 0 <= i < |ds| && 0 <= k < |ds[i].effectiveMatches| ==>
               EntityName(ds[i].effectiveMatches[k].entity) && |ds[i].effectiveMatches[k].entity| <= 64
    ensures ValidReversal(TransformAll(v, nonce, ds).value.1)
  {
    if ds != [] {
      var n := |ds| - 1;
      ReversalValid(v, nonce, ds[..n]);
      LeafReversalValid(Context(v.policy, v.ops, nonce, n), ds[n].appliedActions, ds[n].text, ds[n].effectiveMatches);
    }
  }

  lemma {:induction false} TextWithin(segments: seq<Segment>, i: nat)
    requires i < |segments|
    ensures |segments[i].text| <= CharacterCount(segments)
  {
    if i < |segments| - 1 {
      TextWithin(segments[..|segments| - 1], i);
    }
  }

  lemma PlansReversal(
    v: Service, nonce: string, rab: bool, segments: seq<Segment>, found: seq<seq<Match>>, names: set<string>)
    requires ValidService(v) && |segments| == |found| && AllValid(segments, found) && Known(names, found)
    requires Hex16(nonce)
    requires CharacterCount(segments) <= MAX_TEXT
    requires AllFit(Plans(v.policy, rab, segments, found))
    requires TransformAll(v, nonce, Plans(v.policy, rab, segments, found)).Some?
    ensures ValidReversal(TransformAll(v, nonce, Plans(v.policy, rab, segments, found)).value.1)
  {
    var ds := Plans(v.policy, rab, segments, found);
    forall i | 0 <= i < |ds| ensures |ds[i].text| <= MAX_TEXT {
      TextWithin(segments, i);
    }
    forall i, k | 0 <= i < |ds| && 0 <= k < |ds[i].effectiveMatches|
      ensures EntityName(ds[i].effectiveMatches[k].entity) && |ds[i].effectiveMatches[k].entity| <= 64
    {
      var j := Prepare.LevelDown(v.policy, rab, found[i], k, |segments[i].text|);
      assert found[i][j].entity in names;
    }
    ReversalValid(v, nonce, ds);
  }

  lemma NewSegmentIds(segments: seq<Segment>, ts: seq<PlanData>)
    requires |segments| == |ts|
    ensures Ids(NewSegments(segments, ts)) == Ids(segments)
  {
  }

  lemma RouteOfSetNonEmpty(p: PolicySettings, es: set<string>)
    requires ValidPolicy(p) && RouteOfSet(p, es).Some?
    ensures RouteOfSet(p, es).value != ""
  {
    ConfiguredRouteNonEmpty(p, p.entityPolicies, es);
  }

  lemma {:induction false} ConfiguredRouteNonEmpty(p: PolicySettings, entries: seq<EntityPolicy>, es: set<string>)
    requires ValidPolicy(p)
    ensures ConfiguredRoute(p, entries, es) != Some("")
  {
    if entries != [] {
      ConfiguredRouteNonEmpty(p, entries[1..], es);
    }
  }

  /** What the rows of transformed leaves say about the route and the applied actions. */
  ghost predicate RowsAgree(t: Totals, route: Option<string>, faceRoute: Option<string>) {
    && !HasRow(t.rows, Block)
    && (route.Some? ==> faceRoute.Some? || HasRow(t.rows, Reroute))
    && (route.None? ==> !HasRow(t.rows, Reroute) && (t.actions - {Pass} != {} <==> SomeTransformed(t.rows)))
    && (route.None? && t.actions <= {Pass} ==> forall i :: 0 <= i < |t.rows| ==> t.rows[i].action == Pass)
  }

  lemma SuccessRows(
    v: Service, rab: bool, ts: seq<PlanData>, segments: seq<Segment>, route: Option<string>, faceRoute: Option<string>)
    requires ValidPolicy(v.policy) && Sound(v.policy, rab, ts, segments)
    requires var p, es, beyond := v.policy, AllEntities(ts), AllActions(ts) - {Pass} != {};
             && !SomeEntity(p, rab, es, 9)
             && (route.Some? ==> faceRoute.Some? || SomeEntity(p, rab, es, 8))
             && (route.None? ==>
                   !SomeEntity(p, rab, es, 8) && (beyond <==> SomeEntity(p, rab, es, 2))
                     && (beyond <==> exists e :: EditedIn(ts, e)))
    ensures RowsAgree(TotalsOf(v.policy, rab, ts), route, faceRoute)
  {
    var p := v.policy;
    LevelRow(p, rab, ts, segments);
    TransformedRow(p, rab, ts, segments);
    if route.None? && AllActions(ts) <= {Pass} {
      assert AllActions(ts) - {Pass} == {};
      forall i | 0 <= i < |ReportRows(p, rab, ts)| ensures ReportRows(p, rab, ts)[i].action == Pass {
        PassRow(p, rab, ts, segments, i);
      }
    }
  }

  lemma SuccessMeta(
    v: Service, r: SegmentRequest, t: Totals, segments: seq<Segment>, reversal: map<string, string>,
    route: Option<string>)
    requires t.overlaps <= MAX_TEXT && TextOnly !in t.actions && ValidReversal(reversal)
    ensures PreMeta(SuccessResult(v, r, t, segments, reversal, route))
  {
  }

  lemma SuccessForward(
    v: Service, r: SegmentRequest, t: Totals, segments: seq<Segment>, reversal: map<string, string>,
    route: Option<string>)
    requires Ids(segments) == Ids(r.segments) && route != Some("") && (r.kind == Mcp ==> route.None?)
    ensures PreForward(SuccessResult(v, r, t, segments, reversal, route), r)
  {
  }

  lemma SuccessActions(v: Service, r: SegmentRequest, t: Totals, segments: seq<Segment>, reversal: map<string, string>,
                       route: Option<string>, faceRoute: Option<string>)
    requires RowsAgree(t, route, faceRoute)
    ensures PreActions(SuccessResult(v, r, t, segments, reversal, route), faceRoute)
  {
    assert t.actions - {Pass} == {} ==> t.actions <= {Pass};
  }

  /** A face policy that neither blocks nor meets a failed scan, on a request that scans text. */
  ghost predicate FacesAllow(p: PolicySettings, r: SegmentRequest) {
    r.visual.Some? ==>
      r.textPiiEnabled && r.visual.value.scanStatus != ScanFailed
        && (FaceCount(r.visual.value) > 0 ==> p.faceAction != Block)
  }

  lemma SuccessPre(v: Service, r: SegmentRequest, t: Totals, segments: seq<Segment>, reversal: map<string, string>,
                   route: Option<string>, faceRoute: Option<string>, names: set<string>)
    requires TotalsPre(t, names) && RowsAgree(t, route, faceRoute) && TextOnly !in t.actions && ValidReversal(reversal)
    requires Ids(segments) == Ids(r.segments) && route != Some("") && (r.kind == Mcp ==> route.None?)
    requires FacesAllow(v.policy, r)
    ensures Pre(v.policy, SuccessResult(v, r, t, segments, reversal, route), r, faceRoute, names)
  {
    var s := SuccessResult(v, r, t, segments, reversal, route);
    CountsPre(s, t, names);
    SuccessMeta(v, r, t, segments, reversal, route);
    SuccessForward(v, r, t, segments, reversal, route);
    SuccessActions(v, r, t, segments, reversal, route, faceRoute);
    assert PreVisual(v.policy, s, r);
  }

  lemma PassRow(p: PolicySettings, rab: bool, ts: seq<PlanData>, segments: seq<Segment>, i: nat)
    requires ValidPolicy(p) && Sound(p, rab, ts, segments) && !SomeEntity(p, rab, AllEntities(ts), 2)
    requires i < |ReportRows(p, rab, ts)|
    ensures ReportRows(p, rab, ts)[i].action == Pass
  {
    RowAt(p, rab, ts, segments, i);
    LenientPasses(p, rab, AllEntities(ts), ReportRows(p, rab, ts)[i].entity);
  }

  lemma LenientPasses(p: PolicySettings, rab: bool, es: set<string>, e: string)
    requires ValidPolicy(p) && !SomeEntity(p, rab, es, 2) && e in es
    ensures Effective(p, e, rab) == Pass
  {
    ConfiguredNotTextOnly(p, e);
    assert Strictness(Effective(p, e, rab)) < 2;
  }

  lemma AppliedKnown(p: PolicySettings, rab: bool, ts: seq<PlanData>, segments: seq<Segment>)
    requires ValidPolicy(p) && Sound(p, rab, ts, segments)
    ensures TextOnly !in AllActions(ts)
  {
    ActionInLeaf(ts, TextOnly);
    forall i | 0 <= i < |ts| ensures TextOnly !in ts[i].appliedActions {
      assert SoundLeaf(p, rab, ts[i], |segments[i].text|);
      NeverTextOnly(p, ts[i]);
    }
  }

  lemma NeverTextOnly(p: PolicySettings, t: PlanData)
    requires ValidPolicy(p) && EditFacts(p, t)
    ensures TextOnly !in t.appliedActions
  {
    forall e ensures Configured(p, e) != TextOnly {
      ConfiguredNotTextOnly(p, e);
    }
  }

  /** The route chosen over planned leaves fits their levels. */
  lemma RouteLevels(v: Service, rab: bool, ds: seq<PlanData>, segments: seq<Segment>, faceRoute: Option<string>)
    requires ValidPolicy(v.policy) && Sound(v.policy, rab, ds, segments) && !AnyBlocked(ds) && faceRoute != Some("")
    ensures var route := if faceRoute.Some? then faceRoute
            else ResolveRouteClass(v.policy, AllRerouted(ds), LeafRoutes(ds));
            && route != Some("")
            && (route.Some? ==> faceRoute.Some? || SomeEntity(v.policy, rab, AllEntities(ds), 8))
            && (route.None? ==> !SomeEntity(v.policy, rab, AllEntities(ds), 8) && AllRerouted(ds) == {})
            && !SomeEntity(v.policy, rab, AllEntities(ds), 9)
            && (rab && faceRoute.None? ==> route.None?)
  {
    var p := v.policy;
    BlockedIffLevel(p, rab, ds, segments);
    ReroutedIffLevel(p, rab, ds, segments);
    RouteIsOfSet(p, rab, ds, segments);
    if RouteOfSet(p, AllRerouted(ds)).Some? {
      RouteOfSetNonEmpty(p, AllRerouted(ds));
    }
    if rab {
      NothingReroutesMcp(p, ds, segments);
    }
  }

  lemma NothingReroutesMcp(p: PolicySettings, ds: seq<PlanData>, segments: seq<Segment>)
    requires Sound(p, true, ds, segments)
    ensures AllRerouted(ds) == {}
  {
    forall e ensures e !in AllRerouted(ds) {
      ReroutedInLeaf(ds, e);
      forall i | 0 <= i < |ds| ensures e !in ds[i].rerouteEntities {
        assert SoundLeaf(p, true, ds[i], |segments[i].text|);
      }
    }
  }

  /** Transformed leaves bring totals, rows and reversal entries that fit the chosen route. */
  lemma SuccessParts(
    v: Service, r: SegmentRequest, found: seq<seq<Match>>, nonce: string, route: Option<string>,
    faceRoute: Option<string>, names: set<string>)
    requires ValidService(v) && |found| == |r.segments| && AllValid(r.segments, found) && Known(names, found)
    requires Hex16(nonce)
    requires CharacterCount(r.segments) <= MAX_TEXT && faceRoute != Some("")
    requires var ds := Plans(v.policy, r.kind == Mcp, r.segments, found);
             && AllFit(ds) && !AnyBlocked(ds) && TransformAll(v, nonce, ds).Some?
             && route == if faceRoute.Some? then faceRoute
             else ResolveRouteClass(v.policy, AllRerouted(ds), LeafRoutes(ds))
    ensures var rab := r.kind == Mcp;
            var (ts, reversal) := TransformAll(v, nonce, Plans(v.policy, rab, r.segments, found)).value;
            && TotalsPre(TotalsOf(v.policy, rab, ts), names)
            && RowsAgree(TotalsOf(v.policy, rab, ts), route, faceRoute)
            && TextOnly !in AllActions(ts) && ValidReversal(reversal)
            && route != Some("") && (rab && faceRoute.None? ==> route.None?)
  {
    var p, rab := v.policy, r.kind == Mcp;
    var ds := Plans(p, rab, r.segments, found);
    var ts := TransformAll(v, nonce, ds).value.0;
    PlansSound(p, rab, r.segments, found);
    TransformedLeaves(v, nonce, rab, r.segments, found);
    EntitiesKnown(p, rab, r.segments, found, names);
    TotalsSound(p, rab, ts, r.segments, names);
    AppliedKnown(p, rab, ts, r.segments);
    PlansReversal(v, nonce, rab, r.segments, found, names);
    RouteLevels(v, rab, ds, r.segments, faceRoute);
    if route.None? {
      AppliedIffLevel(v, nonce, rab, r.segments, found);
    }
    SuccessRows(v, rab, ts, r.segments, route, faceRoute);
  }

  lemma BlockedLeaves(
    p: PolicySettings, r: SegmentRequest, ds: seq<PlanData>, faceRoute: Option<string>, names: set<string>)
    requires ValidPolicy(p) && Sound(p, r.kind == Mcp, ds, r.segments) && CharacterCount(r.segments) <= MAX_TEXT
    requires AllEntities(ds) <= names && Catalogue(names) && FacesAllow(p, r) && (AnyBlocked(ds) || faceRoute.Some?)
    requires !SomeTransformed(ReportRows(p, r.kind == Mcp, ds))
    ensures Pre(p, BlockedResult(r, TotalsOf(p, r.kind == Mcp, ds)), r, faceRoute, names)
  {
    TotalsSound(p, r.kind == Mcp, ds, r.segments, names);
    BlockedIffLevel(p, r.kind == Mcp, ds, r.segments);
    LevelRow(p, r.kind == Mcp, ds, r.segments);
    BlockedPre(p, r, TotalsOf(p, r.kind == Mcp, ds), faceRoute, names);
  }

  lemma BlockedCase(
    v: Service, r: SegmentRequest, found: seq<seq<Match>>, faceRoute: Option<string>, names: set<string>)
    requires ValidService(v) && |found| == |r.segments| && AllValid(r.segments, found) && Known(names, found)
    requires FacesAllow(v.policy, r)
    requires CharacterCount(r.segments) <= MAX_TEXT
    requires AnyBlocked(Plans(v.policy, r.kind == Mcp, r.segments, found)) || faceRoute.Some?
    ensures var t := TotalsOf(v.policy, r.kind == Mcp, Plans(v.policy, r.kind == Mcp, r.segments, found));
            Pre(v.policy, BlockedResult(r, t), r, faceRoute, names)
  {
    var p, rab := v.policy, r.kind == Mcp;
    PlansSound(p, rab, r.segments, found);
    EntitiesKnown(p, rab, r.segments, found, names);
    PreparedUntransformed(p, rab, r.segments, found);
    BlockedLeaves(p, r, Plans(p, rab, r.segments, found), faceRoute, names);
  }

  lemma SuccessCase(
    v: Service, r: SegmentRequest, found: seq<seq<Match>>, nonce: string, faceRoute: Option<string>,
    names: set<string>)
    requires ValidService(v) && |found| == |r.segments| && AllValid(r.segments, found) && Known(names, found)
    requires Hex16(nonce)
    requires CharacterCount(r.segments) <= MAX_TEXT && faceRoute != Some("") && (r.kind == Mcp ==> faceRoute.None?)
    requires FacesAllow(v.policy, r)
    requires var ds := Plans(v.policy, r.kind == Mcp, r.segments, found);
             AllFit(ds) && !AnyBlocked(ds) && TransformAll(v, nonce, ds).Some?
    ensures var ds := Plans(v.policy, r.kind == Mcp, r.segments, found);
            var (ts, reversal) := TransformAll(v, nonce, ds).value;
            && |ts| == |r.segments|
            && Pre(v.policy, Success(v, r, ts, reversal, ChosenRoute(v.policy, ds, faceRoute)), r, faceRoute, names)
  {
    var p, rab := v.policy, r.kind == Mcp;
    var ds := Plans(p, rab, r.segments, found);
    var (ts, reversal) := TransformAll(v, nonce, ds).value;
    var route := ChosenRoute(p, ds, faceRoute);
    TransformAllLength(v, nonce, ds);
    SuccessParts(v, r, found, nonce, route, faceRoute, names);
    NewSegmentIds(r.segments, ts);
    SuccessPre(v, r, TotalsOf(p, rab, ts), NewSegments(r.segments, ts), reversal, route, faceRoute, names);
  }

  lemma DecidePre(
    v: Service, r: SegmentRequest, found: seq<seq<Match>>, nonce: string, faceRoute: Option<string>,
    names: set<string>)
    requires ValidService(v) && |found| == |r.segments| && Known(names, found) && Hex16(nonce)
    requires FacesAllow(v.policy, r)
    requires CharacterCount(r.segments) <= MAX_TEXT && faceRoute != Some("") && (r.kind == Mcp ==> faceRoute.None?)
    requires AllValid(r.segments, found) && AllFit(Plans(v.policy, r.kind == Mcp, r.segments, found))
    requires Decide(v, r, Plans(v.policy, r.kind == Mcp, r.segments, found), nonce, faceRoute).Ok?
    ensures Pre(v.policy, Decide(v, r, Plans(v.policy, r.kind == Mcp, r.segments, found), nonce, faceRoute).value, r,
              faceRoute, names)
  {
    var ds := Plans(v.policy, r.kind == Mcp, r.segments, found);
    TransformAllLength(v, nonce, ds);
    DecideCases(v, r, ds, nonce, faceRoute);
    if Blocks(v.policy, ds, faceRoute) {
      BlockedCase(v, r, found, faceRoute, names);
    } else {
      SuccessCase(v, r, found, nonce, faceRoute, names);
    }
  }

  lemma AnalyzeTextPre(
    v: Service, r: SegmentRequest, found: seq<seq<Match>>, nonce: string, faceRoute: Option<string>,
    names: set<string>)
    requires ValidService(v) && |found| == |r.segments| && Known(names, found) && Hex16(nonce)
    requires FacesAllow(v.policy, r)
    requires CharacterCount(r.segments) <= MAX_TEXT && faceRoute != Some("") && (r.kind == Mcp ==> faceRoute.None?)
    requires AnalyzeText(v, r, found, nonce, faceRoute).Ok?
    ensures Pre(v.policy, AnalyzeText(v, r, found, nonce, faceRoute).value, r, faceRoute, names)
  {
    PreparedFits(v.policy, r.kind == Mcp, r.segments, found);
    DecidePre(v, r, found, nonce, faceRoute, names);
  }

  /** A block before any analysis, with at most one notice. */
  predicate EarlyBlock(w: Result, r: SegmentRequest) {
    && w == EmptyResult(Blocked, None, {Block}, |r.segments|).(safetyRule := w.safetyRule, responseNotices :=
      w.responseNotices)
    && |w.responseNotices| <= 1 && (r.kind == Mcp ==> w.responseNotices == [])
  }

  lemma PreflightShape(v: Service, r: SegmentRequest)
    requires Preflight(v, r).Ok? && Preflight(v, r).value.Some?
    ensures var early := Preflight(v, r).value.value;
            || EarlyBlock(early, r)
            || (early == EmptyResult(PassThrough, Some([]), {}, 0) && r.kind == Mcp && r.segments == [])
  {
  }

  lemma EarlyBlockPre(p: PolicySettings, w: Result, r: SegmentRequest, faceRoute: Option<string>, names: set<string>)
    requires EarlyBlock(w, r)
    ensures Pre(p, w, r, faceRoute, names)
  {
    EmptyPre(p, w, r, faceRoute, names);
  }

  lemma PreflightPre(v: Service, r: SegmentRequest, faceRoute: Option<string>, names: set<string>)
    requires ValidRequest(r) && Preflight(v, r).Ok? && Preflight(v, r).value.Some?
    ensures Pre(v.policy, Preflight(v, r).value.value, r, faceRoute, names)
  {
    var early := Preflight(v, r).value.value;
    PreflightShape(v, r);
    if EarlyBlock(early, r) {
      EarlyBlockPre(v.policy, early, r, faceRoute, names);
    } else {
      NothingToScan(v.policy, r, faceRoute, names);
    }
  }

  lemma NothingToScan(p: PolicySettings, r: SegmentRequest, faceRoute: Option<string>, names: set<string>)
    requires ValidRequest(r) && r.kind == Mcp && r.segments == []
    ensures Pre(p, EmptyResult(PassThrough, Some([]), {}, 0), r, faceRoute, names)
  {
    EmptyPre(p, EmptyResult(PassThrough, Some([]), {}, 0), r, faceRoute, names);
  }

  lemma PreflightBounds(v: Service, r: SegmentRequest)
    requires Preflight(v, r) == Ok(None) && v.maxCharacters <= MAX_TEXT
    ensures CharacterCount(r.segments) <= MAX_TEXT
  {
  }

  lemma FaceEarlyPre(v: Service, r: SegmentRequest, faceRoute: Option<string>, names: set<string>)
    requires ValidRequest(r) && r.visual.Some?
    ensures Pre(v.policy, EmptyResult(Blocked, None, {Block}, |r.segments|), r, faceRoute, names)
    ensures !r.textPiiEnabled && FacesPass(v.policy, r) ==>
              Pre(v.policy, EmptyResult(PassThrough, Some(r.segments), {}, |r.segments|), r, faceRoute, names)
  {
    EmptyPre(v.policy, EmptyResult(Blocked, None, {Block}, |r.segments|), r, faceRoute, names);
    if !r.textPiiEnabled && FacesPass(v.policy, r) {
      EmptyPre(v.policy, EmptyResult(PassThrough, Some(r.segments), {}, |r.segments|), r, faceRoute, names);
    }
  }

  lemma BeforeVisualText(v: Service, r: SegmentRequest, found: seq<seq<Match>>, nonce: string)
    requires |found| == |r.segments| && Preflight(v, r) == Ok(None)
    requires r.visual.Some? ==> FacesPass(v.policy, r) && r.textPiiEnabled
    ensures BeforeVisual(v, r, found, nonce) == AnalyzeText(v, r, found, nonce, FaceRoute(v.policy, r))
    ensures FacesAllow(v.policy, r)
  {
  }

  lemma BeforeVisualPre(v: Service, r: SegmentRequest, found: seq<seq<Match>>, nonce: string, names: set<string>)
    requires ValidService(v) && ValidRequest(r) && |found| == |r.segments| && Known(names, found) && Hex16(nonce)
    requires BeforeVisual(v, r, found, nonce).Ok?
    ensures Pre(v.policy, BeforeVisual(v, r, found, nonce).value, r, FaceRoute(v.policy, r), names)
  {
    var early, faceRoute := Preflight(v, r), FaceRoute(v.policy, r);
    if early.value.Some? {
      PreflightPre(v, r, faceRoute, names);
    } else {
      PreflightBounds(v, r);
      if r.visual.Some? && (!FacesPass(v.policy, r) || !r.textPiiEnabled) {
        FaceEarlyPre(v, r, faceRoute, names);
      } else {
        BeforeVisualText(v, r, found, nonce);
        AnalyzeTextPre(v, r, found, nonce, faceRoute, names);
      }
    }
  }

  // ---- visual evidence ----

  lemma NoFaceRow(v: Result, names: set<string>)
    requires PreCounts(v, names)
    ensures NoDup(RowNames(v.rows)) && forall i :: 0 <= i < |v.rows| ==> v.rows[i].entity != "FACE"
  {
    forall i | 0 <= i < |v.rows| ensures v.rows[i].entity != "FACE" {
      assert v.rows[i].entity in v.entityCounts;
    }
  }

  lemma FaceIsNew(rows: seq<Row>, action: Action, count: nat)
    requires NoDup(RowNames(rows)) && forall i :: 0 <= i < |rows| ==> rows[i].entity != "FACE"
    ensures NoDup(rows + [FaceRow(action, count)])
  {
    var more := rows + [FaceRow(action, count)];
    forall i, j | 0 <= i < j < |more| ensures more[i] != more[j] {
      if j < |rows| { assert RowNames(rows)[i] != RowNames(rows)[j]; }
    }
  }

  lemma FaceSorted(v: Result, sorted: seq<Row>, action: Action, count: nat, names: set<string>)
    requires PreCounts(v, names) && sorted == Sort(v.rows + [FaceRow(action, count)], RowKey)
    ensures forall row :: row in sorted <==> row in v.rows || row == FaceRow(action, count)
    ensures NoDup(RowNames(sorted)) && Sorted(RowNames(sorted), NameKey) && |sorted| == |v.rows| + 1
  {
    var rows := v.rows + [FaceRow(action, count)];
    NoFaceRow(v, names);
    FaceIsNew(v.rows, action, count);
    FaceListed(v.rows, sorted, action, count);
    RowNamesOrdered(sorted);
    DistinctRows(v, rows, sorted, action, count);
  }

  lemma FaceListed(rows: seq<Row>, sorted: seq<Row>, action: Action, count: nat)
    requires NoDup(rows + [FaceRow(action, count)]) && sorted == Sort(rows + [FaceRow(action, count)], RowKey)
    ensures forall row :: row in sorted <==> row in rows + [FaceRow(action, count)]
    ensures NoDup(sorted) && Sorted(sorted, RowKey) && |sorted| == |rows| + 1
  {
    SortFacts(rows + [FaceRow(action, count)], RowKey);
    SortMembers(rows + [FaceRow(action, count)], RowKey);
  }

  lemma RowNamesOrdered(rows: seq<Row>)
    requires Sorted(rows, RowKey)
    ensures Sorted(RowNames(rows), NameKey)
  {
    forall i, j | 0 <= i < j < |rows| ensures Leq(NameKey(RowNames(rows)[i]), NameKey(RowNames(rows)[j])) {
      assert Leq(RowKey(rows[i]), RowKey(rows[j]));
    }
  }

  lemma DistinctRows(v: Result, rows: seq<Row>, sorted: seq<Row>, action: Action, count: nat)
    requires rows == v.rows + [FaceRow(action, count)] && NoDup(sorted) && forall row :: row in sorted <==> row in rows
    requires NoDup(RowNames(v.rows)) && forall i :: 0 <= i < |v.rows| ==> v.rows[i].entity != "FACE"
    ensures NoDup(RowNames(sorted))
  {
    forall i, j | 0 <= i < j < |sorted| ensures RowNames(sorted)[i] != RowNames(sorted)[j] {
      assert sorted[i] in rows && sorted[j] in rows && sorted[i] != sorted[j];
      if sorted[i].entity == sorted[j].entity { SameEntitySameRow(v, action, count, sorted[i], sorted[j]); }
    }
  }

  lemma SameEntitySameRow(v: Result, action: Action, count: nat, a: Row, b: Row)
    requires NoDup(RowNames(v.rows)) && forall i :: 0 <= i < |v.rows| ==> v.rows[i].entity != "FACE"
    requires a in v.rows + [FaceRow(action, count)] && b in v.rows + [FaceRow(action, count)] && a.entity == b.entity
    ensures a == b
  {
    if a in v.rows && b in v.rows {
      var i :| 0 <= i < |v.rows| && v.rows[i] == a;
      var j :| 0 <= j < |v.rows| && v.rows[j] == b;
      assert RowNames(v.rows)[i] == RowNames(v.rows)[j];
    }
  }

  /** Rows with the face row added, whatever their order. */
  ghost predicate FaceRows(rows: seq<Row>, all: seq<Row>, action: Action, count: nat) {
    && (forall row :: row in all <==> row in rows || row == FaceRow(action, count))
    && NoDup(RowNames(all)) && Sorted(RowNames(all), NameKey) && |all| == |rows| + 1
  }

  lemma MemberRows(rows: seq<Row>, all: seq<Row>, action: Action, count: nat)
    requires FaceRows(rows, all, action, count)
    ensures forall a :: HasRow(all, a) <==> HasRow(rows, a) || a == action
    ensures SomeTransformed(all) <==> SomeTransformed(rows)
    ensures (forall i :: 0 <= i < |rows| ==> ValidRow(rows[i])) && action in {Block, TextOnly, Reroute}
              && 1 <= count <= MAX_COUNT ==>
              forall i :: 0 <= i < |all| ==> ValidRow(all[i])
  {
    assert FaceRow(action, count) in all;
    forall a ensures HasRow(all, a) <==> HasRow(rows, a) || a == action {
      HasMember(all, a);
      HasMember(rows, a);
    }
    TransformedMember(all);
    TransformedMember(rows);
    forall i | 0 <= i < |all| ensures all[i] in rows || all[i] == FaceRow(action, count) {
      assert all[i] in all;
    }
  }

  lemma HasMember(rows: seq<Row>, a: Action)
    ensures HasRow(rows, a) <==> exists row :: row in rows && row.action == a
  {
    if i :| 0 <= i < |rows| && rows[i].action == a { assert rows[i] in rows; }
    if row :| row in rows && row.action == a { var i :| 0 <= i < |rows| && rows[i] == row; }
  }

  lemma TransformedMember(rows: seq<Row>)
    ensures SomeTransformed(rows) <==> exists row :: row in rows && row.transformed > 0
  {
    if i :| 0 <= i < |rows| && rows[i].transformed > 0 { assert rows[i] in rows; }
    if row :| row in rows && row.transformed > 0 { var i :| 0 <= i < |rows| && rows[i] == row; }
  }

  lemma FaceMatches(rows: seq<Row>, counts: map<string, int>, all: seq<Row>, action: Action, count: nat)
    requires FaceRows(rows, all, action, count) && RowsMatch(rows, counts) && "FACE" !in counts
    ensures RowsMatch(all, counts["FACE" := count])
  {
    forall i | 0 <= i < |all|
      ensures all[i].entity in counts["FACE" := count] && counts["FACE" := count][all[i].entity] == all[i].detected
    {
      assert all[i] in all;
      if all[i] in rows { var j :| 0 <= j < |rows| && rows[j] == all[i]; }
    }
    forall e | e in counts["FACE" := count] ensures RowNamed(all, e) {
      if e == "FACE" {
        assert FaceRow(action, count) in all;
      } else {
        var j :| 0 <= j < |rows| && rows[j].entity == e;
        assert rows[j] in all;
      }
    }
  }

  lemma ActionsFew(s: set<Action>)
    ensures |s| <= 10
  {
    var all := {Pass, Block, Reroute, Mask, Replace, Redact, Hash, Encrypt, ReversibleReplace, TextOnly};
    forall a | a in s ensures a in all {
      assert a.Pass? || a.Block? || a.Reroute? || a.Mask? || a.Replace? || a.Redact? || a.Hash? || a.Encrypt?
        || a.ReversibleReplace? || a.TextOnly?;
    }
    assert all == s + (all - s);
    assert |s + (all - s)| == |s| + |all - s|;
  }

  lemma NamesBounded(counts: map<string, int>, names: set<string>)
    requires counts.Keys <= names && |names| <= MAX_ENTITIES
    ensures |counts| <= MAX_ENTITIES && |SortedNames(counts.Keys)| <= MAX_ENTITIES
  {
    SubsetSize(counts.Keys, names);
    assert |counts.Keys| == |counts|;
  }

  // ---- the response ----

  lemma PlainCounts(v: Result, names: set<string>)
    requires PreMeta(v) && PreCounts(v, names) && |names| <= MAX_ENTITIES
    ensures ValidReport(v.rows) && ValidCounts(v) && "FACE" !in v.entityCounts
  {
    NamesBounded(v.entityCounts, names);
  }

  lemma PlainVisual(p: PolicySettings, v: Result, r: SegmentRequest, faceRoute: Option<string>)
    requires PreMeta(v) && PreForward(v, r) && PreActions(v, faceRoute) && PreVisual(p, v, r)
    requires "FACE" !in v.entityCounts && faceRoute.None?
    requires RowsMatch(v.rows, v.entityCounts) && v.entities == SortedNames(v.entityCounts.Keys)
    requires r.visual.None? || FaceCount(r.visual.value) == 0
    ensures ValidActions(v) && ValidVisual(v, r) && SegmentFieldsOk(v, r)
  {
    if !v.scanPerformed {
      NoNames();
      assert v.entityCounts.Keys == {};
    }
  }

  lemma PlainForwarding(v: Result, r: SegmentRequest)
    requires PreMeta(v) && PreForward(v, r) && NoDup(Ids(r.segments))
    ensures ValidForwarding(v)
  {
  }

  lemma WithoutFaces(p: PolicySettings, v: Result, r: SegmentRequest, names: set<string>)
    requires Pre(p, v, r, None, names) && |names| <= MAX_ENTITIES && ValidRequest(r)
    requires r.visual.None? || FaceCount(r.visual.value) == 0
    ensures ValidForwarding(v) && ValidReport(v.rows) && ValidCounts(v) && ValidActions(v) && ValidVisual(v, r)
    ensures SegmentFieldsOk(v, r)
  {
    PlainCounts(v, names);
    PlainVisual(p, v, r, None);
    PlainForwarding(v, r);
  }

  /** A face action that can take effect: block on a blocked request, else the policy's, with its route. */
  ghost predicate FaceFits(p: PolicySettings, v: Result, r: SegmentRequest, count: nat, faceRoute: Option<string>) {
    && r.visual.Some? && FaceCount(r.visual.value) == count && 1 <= count <= MAX_COUNT
    && p.faceAction in {Block, TextOnly, Reroute}
    && (v.decision != Blocked ==> p.faceAction != Block)
    && (p.faceAction == Reroute <==> faceRoute.Some?) && faceRoute != Some("")
    && r.kind != Mcp
  }

  /** Everything but counts and rows that face evidence and its routing leave in a result. */
  ghost predicate Faced(v: Result, w: Result, action: Action, faceRoute: Option<string>) {
    && SameBasics(v, w) && w.segments == v.segments && w.requestNotices == v.requestNotices
    && |w.responseNotices| <= |v.responseNotices| + 1
    && w.appliedActions == v.appliedActions + {action}
    && w.decision == (if action == Reroute then Rerouted
                      else if action == TextOnly && v.decision == PassThrough then ApplyActions else v.decision)
    && w.remoteAllowed == (action != Reroute && v.remoteAllowed)
    && w.routeClass == if action == Reroute then faceRoute else v.routeClass
  }

  lemma EvidenceFaced(v: Result, action: Action, count: nat)
    ensures var e := FaceEvidence(v, action, count);
            && SameBasics(v, e) && e.segments == v.segments && e.requestNotices == v.requestNotices
            && |e.responseNotices| <= |v.responseNotices| && e.appliedActions == v.appliedActions + {action}
            && e.decision == v.decision && e.remoteAllowed == v.remoteAllowed && e.routeClass == v.routeClass
  {
  }

  lemma RoutingFaced(p: PolicySettings, v: Result, e: Result, action: Action, faceRoute: Option<string>)
    requires SameBasics(v, e) && e.segments == v.segments && e.requestNotices == v.requestNotices
    requires |e.responseNotices| <= |v.responseNotices| && e.appliedActions == v.appliedActions + {action}
    requires e.decision == v.decision && e.remoteAllowed == v.remoteAllowed && e.routeClass == v.routeClass
    ensures Faced(v, FaceRouting(p, e, action, faceRoute), action, faceRoute)
  {
    if action == Reroute {
    } else if action == TextOnly {
    }
  }

  lemma WithFacesFaced(p: PolicySettings, v: Result, count: nat, faceRoute: Option<string>)
    ensures Faced(v, WithFaces(p, v, count, faceRoute), FaceActionFor(p, v), faceRoute)
  {
    var action := FaceActionFor(p, v);
    EvidenceFaced(v, action, count);
    RoutingFaced(p, v, FaceEvidence(v, action, count), action, faceRoute);
  }

  lemma FaceReport(v: Result, all: seq<Row>, action: Action, count: nat, names: set<string>)
    requires PreCounts(v, names) && |names| < MAX_ENTITIES
    requires all == Sort(v.rows + [FaceRow(action, count)], RowKey) && action in {Block, TextOnly, Reroute}
    requires 1 <= count <= MAX_COUNT
    ensures FaceRows(v.rows, all, action, count) && ValidReport(all)
    ensures RowsMatch(all, v.entityCounts["FACE" := count]) && "FACE" !in v.entityCounts
  {
    FaceSorted(v, all, action, count, names);
    MemberRows(v.rows, all, action, count);
    FaceMatches(v.rows, v.entityCounts, all, action, count);
    RowsBounded(v, names);
  }

  lemma FaceTotals(v: Result, w: Result, count: nat, names: set<string>)
    requires PreCounts(v, names) && |names| < MAX_ENTITIES && 1 <= count <= MAX_COUNT
    requires w.entityCounts == v.entityCounts["FACE" := count] && w.entities == SortedNames(w.entityCounts.Keys)
    requires RowsMatch(w.rows, w.entityCounts) && !w.cachedDecisionApplied
    ensures ValidCounts(w)
  {
    FacePlaced(v.entityCounts, count, names);
    SortedSame(w.entityCounts);
    FaceCountsBounded(v.entityCounts, count, w.entityCounts);
  }

  lemma FacePlaced(counts: map<string, int>, count: nat, names: set<string>)
    requires counts.Keys <= names && |names| < MAX_ENTITIES
    ensures var more := counts["FACE" := count]; |more| <= MAX_ENTITIES && |SortedNames(more.Keys)| <= MAX_ENTITIES
  {
    NamesBounded(counts["FACE" := count], names + {"FACE"});
  }

  lemma FaceCountsBounded(counts: map<string, int>, count: nat, more: map<string, int>)
    requires 1 <= count <= MAX_COUNT && forall e :: e in counts ==> 1 <= counts[e] <= MAX_COUNT
    requires more == counts["FACE" := count]
    ensures forall e :: e in more ==> 1 <= more[e] <= MAX_COUNT
  {
  }

  lemma SortedSame(counts: map<string, int>)
    ensures SameNames(counts, SortedNames(counts.Keys))
  {
  }

  lemma FaceCounts(
    p: PolicySettings, v: Result, r: SegmentRequest, count: nat, faceRoute: Option<string>, names: set<string>)
    requires PreMeta(v) && PreCounts(v, names) && FaceFits(p, v, r, count, faceRoute) && |names| < MAX_ENTITIES
    ensures var w := WithFaces(p, v, count, faceRoute);
            && FaceRows(v.rows, w.rows, FaceActionFor(p, v), count) && ValidReport(w.rows) && ValidCounts(w)
            && w.entityCounts == v.entityCounts["FACE" := count]
  {
    var w := WithFaces(p, v, count, faceRoute);
    FaceReport(v, w.rows, FaceActionFor(p, v), count, names);
    FaceTotals(v, w, count, names);
  }

  lemma RowsBounded(v: Result, names: set<string>)
    requires PreCounts(v, names) && |names| < MAX_ENTITIES
    ensures |v.rows| + 1 <= MAX_ENTITIES
  {
    SubsetSize(v.entityCounts.Keys, names);
    assert |v.rows| == |RowNames(v.rows)| == |v.entityCounts.Keys|;
  }

  lemma FaceActions(p: PolicySettings, v: Result, w: Result, r: SegmentRequest, count: nat, faceRoute: Option<string>)
    requires PreMeta(v) && PreForward(v, r) && PreActions(v, faceRoute) && FaceFits(p, v, r, count, faceRoute)
    requires Faced(v, w, FaceActionFor(p, v), faceRoute) && FaceRows(v.rows, w.rows, FaceActionFor(p, v), count)
    ensures ValidActions(w)
  {
    MemberRows(v.rows, w.rows, FaceActionFor(p, v), count);
    PassRowsOnly(v.rows, v.decision == PassThrough);
  }

  lemma PassRowsOnly(rows: seq<Row>, passing: bool)
    requires passing ==> forall i :: 0 <= i < |rows| ==> rows[i].action == Pass
    ensures passing ==> forall a :: HasRow(rows, a) ==> a == Pass
  {
    if passing {
      forall a | HasRow(rows, a) ensures a == Pass {
        var i :| 0 <= i < |rows| && rows[i].action == a;
      }
    }
  }

  lemma FaceForwarding(
    p: PolicySettings, v: Result, w: Result, r: SegmentRequest, count: nat, faceRoute: Option<string>)
    requires PreMeta(v) && PreForward(v, r) && FaceFits(p, v, r, count, faceRoute) && NoDup(Ids(r.segments))
    requires Faced(v, w, FaceActionFor(p, v), faceRoute)
    ensures ValidForwarding(w)
  {
  }

  lemma OneFaceRow(v: Result, all: seq<Row>, action: Action, count: nat, names: set<string>)
    requires PreCounts(v, names) && FaceRows(v.rows, all, action, count)
    ensures RowNamed(all, "FACE")
    ensures forall i :: 0 <= i < |all| && all[i].entity == "FACE" ==> all[i] == FaceRow(action, count)
  {
    NoFaceRow(v, names);
    assert FaceRow(action, count) in all;
    forall i | 0 <= i < |all| && all[i].entity == "FACE" ensures all[i] == FaceRow(action, count) {
      assert all[i] in all;
    }
  }

  lemma FaceVisual(
    p: PolicySettings, v: Result, w: Result, r: SegmentRequest, count: nat, faceRoute: Option<string>,
    names: set<string>)
    requires PreMeta(v) && PreCounts(v, names) && PreForward(v, r) && PreVisual(p, v, r)
    requires FaceFits(p, v, r, count, faceRoute)
    requires Faced(v, w, FaceActionFor(p, v), faceRoute) && FaceRows(v.rows, w.rows, FaceActionFor(p, v), count)
    requires w.entityCounts == v.entityCounts["FACE" := count]
    ensures ValidVisual(w, r)
  {
    OneFaceRow(v, w.rows, FaceActionFor(p, v), count, names);
  }

  lemma FaceFields(p: PolicySettings, v: Result, w: Result, r: SegmentRequest, count: nat, faceRoute: Option<string>)
    requires PreMeta(v) && PreForward(v, r) && PreVisual(p, v, r) && FaceFits(p, v, r, count, faceRoute)
    requires Faced(v, w, FaceActionFor(p, v), faceRoute)
    ensures SegmentFieldsOk(w, r)
  {
  }

  lemma TimedValid(w: Result, r: SegmentRequest, elapsedMs: nat)
    requires ValidForwarding(w) && ValidReport(w.rows) && ValidCounts(w) && ValidActions(w) && ValidVisual(w, r)
    requires SegmentFieldsOk(w, r)
    requires w.source == CurrentRequest && !w.cachedDecisionApplied && w.durationMs.None?
    requires 0 <= w.overlapCount <= MAX_COUNT
    requires !w.scanPerformed ==> w.overlapCount == 0
    requires ValidReversal(w.reversal)
    ensures ValidResponse(Timed(w, elapsedMs), r)
  {
    ActionsFew(w.appliedActions);
  }

  lemma FacesFit(p: PolicySettings, b: Result, r: SegmentRequest)
    requires ValidPolicy(p) && ValidRequest(r) && PreVisual(p, b, r) && r.visual.Some? && FaceCount(r.visual.value) > 0
    ensures FaceFits(p, b, r, FaceCount(r.visual.value), FaceRoute(p, r))
  {
  }

  lemma FacesValid(
    p: PolicySettings, b: Result, r: SegmentRequest, count: nat, faceRoute: Option<string>, names: set<string>,
    elapsedMs: nat)
    requires Pre(p, b, r, faceRoute, names) && FaceFits(p, b, r, count, faceRoute) && |names| < MAX_ENTITIES
    requires NoDup(Ids(r.segments))
    ensures ValidResponse(Timed(WithFaces(p, b, count, faceRoute), elapsedMs), r)
  {
    var w := WithFaces(p, b, count, faceRoute);
    WithFacesFaced(p, b, count, faceRoute);
    FaceCounts(p, b, r, count, faceRoute, names);
    FaceActions(p, b, w, r, count, faceRoute);
    FaceForwarding(p, b, w, r, count, faceRoute);
    FaceVisual(p, b, w, r, count, faceRoute, names);
    FaceFields(p, b, w, r, count, faceRoute);
    TimedValid(w, r, elapsedMs);
  }

  ghost predicate SameBasics(b: Result, w: Result) {
    && w.source == b.source && w.cachedDecisionApplied == b.cachedDecisionApplied && w.durationMs == b.durationMs
    && w.overlapCount == b.overlapCount && w.scanPerformed == b.scanPerformed && w.reversal == b.reversal
  }

  lemma FoundKnown(found: seq<seq<Match>>)
    requires (forall e :: e in FoundEntities(found) ==> TextEntity(e)) && |FoundEntities(found)| <= MAX_ENTITIES
    ensures Known(FoundEntities(found), found)
  {
  }

  /** Matches of a catalogue fit any request without faces. */
  lemma KnownReportable(r: SegmentRequest, found: seq<seq<Match>>, names: set<string>)
    requires Known(names, found) && (FacePlace(r) > 0 ==> |FoundEntities(found)| < MAX_ENTITIES)
    ensures Reportable(r, found)
  {
    SubsetSize(FoundEntities(found), names);
  }

  /** What analysis returns before visual evidence is valid once that evidence is added. */
  lemma FinishedValid(p: PolicySettings, b: Result, r: SegmentRequest, names: set<string>, elapsedMs: nat)
    requires ValidPolicy(p) && ValidRequest(r) && Pre(p, b, r, FaceRoute(p, r), names)
    requires |names| + FacePlace(r) <= MAX_ENTITIES
    ensures ValidResponse(Timed(WithVisual(p, b, r, FaceRoute(p, r)), elapsedMs), r)
  {
    if FacePlace(r) == 0 {
      WithoutFaces(p, b, r, names);
      TimedValid(b, r, elapsedMs);
    } else {
      FacesFit(p, b, r);
      FacesValid(p, b, r, FaceCount(r.visual.value), FaceRoute(p, r), names, elapsedMs);
    }
  }

  lemma ReportablePre(v: Service, r: SegmentRequest, found: seq<seq<Match>>, nonce: string)
    requires ValidService(v) && ValidRequest(r) && |found| == |r.segments| && Reportable(r, found) && Hex16(nonce)
    requires BeforeVisual(v, r, found, nonce).Ok?
    ensures Pre(v.policy, BeforeVisual(v, r, found, nonce).value, r, FaceRoute(v.policy, r), FoundEntities(found))
  {
    FoundKnown(found);
    BeforeVisualPre(v, r, found, nonce, FoundEntities(found));
  }

  /**
   * Whatever the detectors find and however the request is built, a result the pipeline returns
   * passes every validator of the response and every correspondence check before serialisation.
   */
  lemma PipelineResponseValid(v: Service, r: SegmentRequest, found: seq<seq<Match>>, nonce: string, elapsedMs: nat)
    requires ValidService(v) && ValidRequest(r) && |found| == |r.segments| && Reportable(r, found) && Hex16(nonce)
    requires AnalyzeSegments(v, r, found, nonce).Ok?
    ensures ValidResponse(Timed(AnalyzeSegments(v, r, found, nonce).value, elapsedMs), r)
  {
    ReportablePre(v, r, found, nonce);
    FinishedValid(v.policy, BeforeVisual(v, r, found, nonce).value, r, FoundEntities(found), elapsedMs);
  }
}
