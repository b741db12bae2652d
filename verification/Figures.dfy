/** The figures of a report, counted over detector matches: components, mixed regions, edited regions, covered texts. */
module Figures {
  import opened Ordering
  import opened Spans
  import opened PolicyConfig
  import opened Matches
  import opened Regions
  import opened Prepare
  import opened Owners
  import opened Rewrite
  import opened Planner
  import opened Contracts
  import opened Policy
  import opened LeafFacts
  import opened Aggregate
  import opened Verdict

  // ---- sums over leaves ----

  /** The sum of one number per leaf. */
  function Total(ns: seq<nat>): nat { if ns == [] then 0 else Total(ns[..|ns| - 1]) + ns[|ns| - 1] }

  ghost function TransformedIn(d: PlanData, e: string): int {
    if e in d.entityCounts then Get(d.transformedCounts, e) else 0
  }

  lemma {:induction false} SumTransformedIs(ds: seq<PlanData>, e: string, ns: seq<nat>)
    requires |ns| == |ds| && forall i :: 0 <= i < |ds| ==> TransformedIn(ds[i], e) == ns[i]
    ensures SumTransformed(ds, e) == Total(ns)
  {
    if ds != [] {
      SumTransformedIs(ds[..|ds| - 1], e, ns[..|ns| - 1]);
    }
  }

  lemma {:induction false} SumDetectedIs(ds: seq<PlanData>, e: string, ns: seq<nat>)
    requires |ns| == |ds| && forall i :: 0 <= i < |ds| ==> Get(ds[i].entityCounts, e) == ns[i]
    ensures SumDetected(ds, e) == Total(ns)
  {
    if ds != [] {
      SumDetectedIs(ds[..|ds| - 1], e, ns[..|ns| - 1]);
    }
  }

  lemma {:induction false} OverlapsAre(ds: seq<PlanData>, ns: seq<nat>)
    requires |ns| == |ds| && forall i :: 0 <= i < |ds| ==> ds[i].overlapCount == ns[i]
    ensures TotalOverlaps(ds) == Total(ns)
  {
    if ds != [] {
      OverlapsAre(ds[..|ds| - 1], ns[..|ns| - 1]);
    }
  }

  // ---- one leaf ----

  /** The policy edits this entity type: neither pass nor block, and reroute only where rerouted text is masked. */
  ghost predicate EditsType(p: PolicySettings, e: string) {
    exists a :: Says(p, e, a) && a !in {Pass, Block} && (a == Reroute ==> p.maskOnReroute)
  }

  lemma EditsTypeIsEdited(p: PolicySettings, m: Match)
    requires ValidPolicy(p)
    ensures EditsType(p, m.entity) <==> Edited(p, m)
  {
    forall a ensures Says(p, m.entity, a) <==> Configured(p, m.entity) == a {
      ConfiguredIsSaid(p, m.entity, a);
    }
    assert Says(p, m.entity, Configured(p, m.entity));
  }

  /** Region k of a leaf's regions belongs to this entity type and is edited. */
  ghost predicate EditedRegion(p: PolicySettings, rs: seq<Match>, e: string, k: nat) {
    k < |rs| && rs[k].entity == e && EditsType(p, e)
  }

  /** The positions of an entity's edited regions. */
  ghost function EditedSpots(p: PolicySettings, rs: seq<Match>, e: string): set<nat> {
    set k: nat | k < |rs| && EditedRegion(p, rs, e, k)
  }

  lemma {:induction false} EditedSnoc(p: PolicySettings, rs: seq<Match>, m: Match)
    ensures EditedRegions(p, rs + [m]) == EditedRegions(p, rs) + (if Edited(p, m) then [m] else [])
  {
    if rs == [] {
      assert [] + [m] == [m] && [m][1..] == [];
    } else {
      EditedSnoc(p, rs[1..], m);
      assert (rs + [m])[1..] == rs[1..] + [m];
    }
  }

  lemma LastEdited(p: PolicySettings, rs: seq<Match>, m: Match, e: string)
    ensures |EditedSpots(p, rs + [m], e)| == |EditedSpots(p, rs, e)| +
              (if m.entity == e && EditsType(p, e) then 1 else 0)
  {
    var all, front, n := EditedSpots(p, rs + [m], e), EditedSpots(p, rs, e), |rs|;
    forall k: nat ensures k in all <==> k in front || (k == n && m.entity == e && EditsType(p, e)) {}
    assert all == front + (if m.entity == e && EditsType(p, e) then {n} else {});
    assert n !in front;
  }

  lemma {:induction false} EditedCounted(p: PolicySettings, rs: seq<Match>, e: string)
    requires ValidPolicy(p)
    ensures CountOf(EditedRegions(p, rs), MEntity, e) == |EditedSpots(p, rs, e)|
  {
    if rs == [] {
      assert EditedSpots(p, rs, e) == {};
    } else {
      var n: nat := |rs| - 1;
      EditedCounted(p, rs[..n], e);
      EditedSnoc(p, rs[..n], rs[n]);
      EditsTypeIsEdited(p, rs[n]);
      LastEdited(p, rs[..n], rs[n], e);
      assert rs == rs[..n] + [rs[n]];
      if Edited(p, rs[n]) {
        CountSnoc(EditedRegions(p, rs[..n]), rs[n], MEntity, e);
      } else {
        assert EditedRegions(p, rs[..n]) + [] == EditedRegions(p, rs[..n]);
      }
    }
  }

  ghost function RegionsAt(p: PolicySettings, rab: bool, found: seq<seq<Match>>, i: nat): seq<Match> {
    if i < |found| then EffectiveOf(p, rab, found[i]) else []
  }

  /** How often one rewritten leaf transformed an entity. */
  lemma LeafTransformed(c: Context, text: string, ms: seq<Match>, rab: bool, e: string)
    requires ValidPolicy(c.policy) && ValidSpans(ms, |text|)
    requires var d := Prepared(c.policy, rab, text, ms); PlanFits(d) && TransformOne(c, d).Some?
    ensures var rs, t := EffectiveOf(c.policy, rab, ms), TransformOne(c, Prepared(c.policy, rab, text, ms)).value;
            && Get(t.transformedCounts, e) == |EditedSpots(c.policy, rs, e)|
            && (e in t.transformedCounts ==> e in t.entityCounts)
  {
    var d := Prepared(c.policy, rab, text, ms);
    LedgerCounts(c, d.appliedActions, text, d.effectiveMatches, e);
    EditedCounted(c.policy, d.effectiveMatches, e);
    EditCounts(c, text, ms, rab, e);
  }

  // ---- transformed counts over all leaves ----

  /** The leaves of a request as planned, and as rewritten. */
  ghost predicate LeavesRewritten(
    v: Service, nonce: string, rab: bool, segments: seq<Segment>, found: seq<seq<Match>>, ts: seq<PlanData>)
  {
    && ValidPolicy(v.policy) && |segments| == |found| && AllValid(segments, found)
    && AllFit(Plans(v.policy, rab, segments, found))
    && TransformAll(v, nonce, Plans(v.policy, rab, segments, found)).Some?
    && ts == TransformAll(v, nonce, Plans(v.policy, rab, segments, found)).value.0
    && |ts| == |segments|
  }

  lemma LeafOf(
    v: Service, nonce: string, rab: bool, segments: seq<Segment>, found: seq<seq<Match>>, ts: seq<PlanData>, i: nat)
    requires LeavesRewritten(v, nonce, rab, segments, found, ts) && i < |ts|
    ensures var c, d := Context(v.policy, v.ops, nonce, i), Prepared(v.policy, rab, segments[i].text, found[i]);
            PlanFits(d) && ValidSpans(found[i], |segments[i].text|) && TransformOne(c, d) == Some(ts[i])
  {
    TransformAllEach(v, nonce, Plans(v.policy, rab, segments, found), i);
  }

  /** The number of an entity's edited regions in each leaf. */
  ghost function EditedCounts(p: PolicySettings, rab: bool, found: seq<seq<Match>>, e: string): (ns: seq<nat>)
    ensures |ns| == |found|
    ensures forall i :: 0 <= i < |ns| ==> ns[i] == |EditedSpots(p, EffectiveOf(p, rab, found[i]), e)|
  {
    seq(|found|, i requires 0 <= i < |found| => |EditedSpots(p, EffectiveOf(p, rab, found[i]), e)|)
  }

  lemma LeafEdits(
    v: Service, nonce: string, rab: bool, segments: seq<Segment>, found: seq<seq<Match>>, ts: seq<PlanData>, i: nat,
    e: string)
    requires LeavesRewritten(v, nonce, rab, segments, found, ts) && i < |ts|
    ensures TransformedIn(ts[i], e) == |EditedSpots(v.policy, EffectiveOf(v.policy, rab, found[i]), e)|
  {
    LeafOf(v, nonce, rab, segments, found, ts, i);
    LeafTransformed(Context(v.policy, v.ops, nonce, i), segments[i].text, found[i], rab, e);
  }

  lemma TransformedFigure(
    v: Service, nonce: string, rab: bool, segments: seq<Segment>, found: seq<seq<Match>>, ts: seq<PlanData>, e: string)
    requires LeavesRewritten(v, nonce, rab, segments, found, ts)
    ensures SumTransformed(ts, e) == Total(EditedCounts(v.policy, rab, found, e))
  {
    forall i | 0 <= i < |ts| ensures TransformedIn(ts[i], e) == EditedCounts(v.policy, rab, found, e)[i] {
      LeafEdits(v, nonce, rab, segments, found, ts, i, e);
    }
    SumTransformedIs(ts, e, EditedCounts(v.policy, rab, found, e));
  }

  // ---- the texts that edited regions cover ----

  ghost predicate EditedText(
    p: PolicySettings, rab: bool, segments: seq<Segment>, found: seq<seq<Match>>, e: string, i: nat, k: nat, x: string)
    requires |segments| == |found|
  {
    && i < |segments| && EditedRegion(p, RegionsAt(p, rab, found, i), e, k)
    && var m := RegionsAt(p, rab, found, i)[k];
       0 <= m.start <= m.end <= |segments[i].text| && x == segments[i].text[m.start..m.end]
  }

  lemma {:induction false} ValueInLeaf(ds: seq<PlanData>, e: string, x: string)
    ensures x in AllValues(ds, e) <==>
              exists i :: 0 <= i < |ds| && e in ds[i].entityCounts && x in GetSet(ds[i].transformedValues, e)
  {
    if ds != [] {
      var n := |ds| - 1;
      ValueInLeaf(ds[..n], e, x);
      if x in AllValues(ds[..n], e) {
        var i :| 0 <= i < n && e in ds[..n][i].entityCounts && x in GetSet(ds[..n][i].transformedValues, e);
        assert e in ds[i].entityCounts && x in GetSet(ds[i].transformedValues, e);
      }
      if i :| 0 <= i < |ds| && e in ds[i].entityCounts && x in GetSet(ds[i].transformedValues, e) {
        if i < n { assert ds[..n][i] == ds[i]; }
      }
    }
  }

  lemma LeafValue(c: Context, text: string, ms: seq<Match>, rab: bool, e: string, x: string)
    requires ValidPolicy(c.policy) && ValidSpans(ms, |text|)
    requires var d := Prepared(c.policy, rab, text, ms); PlanFits(d) && TransformOne(c, d).Some?
    ensures var rs, t := EffectiveOf(c.policy, rab, ms), TransformOne(c, Prepared(c.policy, rab, text, ms)).value;
            && (x in GetSet(t.transformedValues, e) <==>
                  exists k: nat :: EditedRegion(c.policy, rs, e, k) && Original(text, rs[k]) == x)
            && (x in GetSet(t.transformedValues, e) ==> e in t.entityCounts)
  {
    var d, rs := Prepared(c.policy, rab, text, ms), EffectiveOf(c.policy, rab, ms);
    LedgerValues(c, d.appliedActions, text, rs, e, x);
    EditCounts(c, text, ms, rab, e);
    if k :| 0 <= k < |rs| && CoversText(c.policy, text, rs, k, e, x) {
      EditsTypeIsEdited(c.policy, rs[k]);
      assert EditedRegion(c.policy, rs, e, k);
    }
    if k: nat :| EditedRegion(c.policy, rs, e, k) && Original(text, rs[k]) == x {
      EditsTypeIsEdited(c.policy, rs[k]);
      assert CoversText(c.policy, text, rs, k, e, x);
    }
  }

  /** Over all leaves the recorded values of an entity are the texts its edited regions cover. */
  lemma ValuesAreTexts(
    v: Service, nonce: string, rab: bool, segments: seq<Segment>, found: seq<seq<Match>>, ts: seq<PlanData>, e: string,
    x: string)
    requires LeavesRewritten(v, nonce, rab, segments, found, ts)
    ensures x in AllValues(ts, e) <==> exists i: nat, k: nat :: EditedText(v.policy, rab, segments, found, e, i, k, x)
  {
    ValueInLeaf(ts, e, x);
    if i :| 0 <= i < |ts| && e in ts[i].entityCounts && x in GetSet(ts[i].transformedValues, e) {
      LeafOf(v, nonce, rab, segments, found, ts, i);
      LeafValue(Context(v.policy, v.ops, nonce, i), segments[i].text, found[i], rab, e, x);
      var rs := EffectiveOf(v.policy, rab, found[i]);
      var k: nat :| EditedRegion(v.policy, rs, e, k) && Original(segments[i].text, rs[k]) == x;
      assert EditedText(v.policy, rab, segments, found, e, i, k, x);
    }
    if i: nat, k: nat :| EditedText(v.policy, rab, segments, found, e, i, k, x) {
      LeafOf(v, nonce, rab, segments, found, ts, i);
      LeafValue(Context(v.policy, v.ops, nonce, i), segments[i].text, found[i], rab, e, x);
      assert EditedRegion(v.policy, EffectiveOf(v.policy, rab, found[i]), e, k);
    }
  }

  // ---- detected counts and overlaps over all leaves ----

  /** For each leaf, the overlap components of one entity's own matches. */
  ghost predicate EntityComponents(found: seq<seq<Match>>, e: string, parts: seq<seq<Iv>>) {
    |parts| == |found| && forall i :: 0 <= i < |found| ==> Components(SpansOf(found[i], e), parts[i])
  }

  /** The number of components in each leaf. */
  ghost function Sizes(parts: seq<seq<Iv>>): (ns: seq<nat>)
    ensures |ns| == |parts| && forall i :: 0 <= i < |ns| ==> ns[i] == |parts[i]|
  {
    seq(|parts|, i requires 0 <= i < |parts| => |parts[i]|)
  }

  lemma LeafDetected(p: PolicySettings, rab: bool, text: string, ms: seq<Match>, e: string, R: seq<Iv>)
    requires ValidSpans(ms, |text|) && Components(SpansOf(ms, e), R)
    ensures Get(Prepared(p, rab, text, ms).entityCounts, e) == |R|
  {
    var logical := AsMatches(LogicalOf(ms));
    CountsMeaning(p, rab, logical);
    AsMatchesCount(LogicalOf(ms), e);
    CountIsComponents(ms, e, R, |text|);
    EntityIffCounted(logical, e);
  }

  /** Every plan of the leaves, rewritten or not, counts detections and overlaps like the prepared one. */
  ghost predicate Counts(
    p: PolicySettings, rab: bool, segments: seq<Segment>, found: seq<seq<Match>>, ds: seq<PlanData>)
  {
    && |segments| == |found| == |ds| && AllValid(segments, found)
    && forall i {:trigger ds[i]} :: 0 <= i < |ds| ==>
         SameDetections(Prepared(p, rab, segments[i].text, found[i]), ds[i])
  }

  lemma LeafComponents(
    p: PolicySettings, rab: bool, segments: seq<Segment>, found: seq<seq<Match>>, ds: seq<PlanData>, i: nat, e: string,
    R: seq<Iv>)
    requires Counts(p, rab, segments, found, ds) && i < |ds| && Components(SpansOf(found[i], e), R)
    ensures Get(ds[i].entityCounts, e) == |R|
  {
    assert SameDetections(Prepared(p, rab, segments[i].text, found[i]), ds[i]);
    LeafDetected(p, rab, segments[i].text, found[i], e, R);
  }

  lemma DetectedFigure(
    p: PolicySettings, rab: bool, segments: seq<Segment>, found: seq<seq<Match>>, ds: seq<PlanData>, e: string,
    parts: seq<seq<Iv>>)
    requires Counts(p, rab, segments, found, ds) && EntityComponents(found, e, parts)
    ensures SumDetected(ds, e) == Total(Sizes(parts))
  {
    forall i | 0 <= i < |ds| ensures Get(ds[i].entityCounts, e) == Sizes(parts)[i] {
      LeafComponents(p, rab, segments, found, ds, i, e, parts[i]);
    }
    SumDetectedIs(ds, e, Sizes(parts));
  }

  /** The regions of one leaf that matches of two entity types lie in. */
  ghost function MixedSpots(ms: seq<Match>): set<nat> {
    set k: nat | k < |RegionsOf(ms)| && Mixed(ms, RegionsOf(ms)[k])
  }

  /** The number of such regions in each leaf. */
  ghost function MixedCounts(found: seq<seq<Match>>): (ns: seq<nat>)
    ensures |ns| == |found| && forall i :: 0 <= i < |ns| ==> ns[i] == |MixedSpots(found[i])|
  {
    seq(|found|, i requires 0 <= i < |found| => |MixedSpots(found[i])|)
  }

  lemma LeafMixed(
    p: PolicySettings, rab: bool, segments: seq<Segment>, found: seq<seq<Match>>, ds: seq<PlanData>, i: nat)
    requires Counts(p, rab, segments, found, ds) && i < |ds|
    ensures ds[i].overlapCount == |MixedSpots(found[i])|
  {
    assert SameDetections(Prepared(p, rab, segments[i].text, found[i]), ds[i]);
    OverlapsCounted(found[i], |segments[i].text|);
  }

  lemma OverlapFigure(
    p: PolicySettings, rab: bool, segments: seq<Segment>, found: seq<seq<Match>>, ds: seq<PlanData>)
    requires Counts(p, rab, segments, found, ds)
    ensures TotalOverlaps(ds) == Total(MixedCounts(found))
  {
    forall i | 0 <= i < |ds| ensures ds[i].overlapCount == MixedCounts(found)[i] {
      LeafMixed(p, rab, segments, found, ds, i);
    }
    OverlapsAre(ds, MixedCounts(found));
  }

  // ---- the figures of a report ----

  /** What each figure of a report row counts. */
  ghost predicate RowCounts(
    p: PolicySettings, rab: bool, segments: seq<Segment>, found: seq<seq<Match>>, row: Row, rewritten: bool)
    requires |segments| == |found|
  {
    && Resolves(p, rab, row.entity, row.action)
    && (forall parts :: EntityComponents(found, row.entity, parts) ==> row.detected == Total(Sizes(parts)))
    && row.transformed == (if rewritten then Total(EditedCounts(p, rab, found, row.entity)) else 0)
    && UniqueTexts(p, rab, segments, found, row, rewritten)
  }

  /** The distinct figure is the number of different texts that the entity's edited regions cover. */
  ghost predicate UniqueTexts(
    p: PolicySettings, rab: bool, segments: seq<Segment>, found: seq<seq<Match>>, row: Row, rewritten: bool)
    requires |segments| == |found|
  {
    row.unique == if rewritten then |EditedTexts(p, rab, segments, found, row.entity)| else 0
  }

  /** The texts of an entity's edited regions, over all leaves. */
  ghost function EditedTexts(
    p: PolicySettings, rab: bool, segments: seq<Segment>, found: seq<seq<Match>>, e: string): set<string>
    requires |segments| == |found|
  {
    set i: nat, k: nat | i < |found| && k < |RegionsAt(p, rab, found, i)|
                         && EditedRegion(p, RegionsAt(p, rab, found, i), e, k) :: TextAt(segments[i].text,
                         RegionsAt(p, rab, found, i)[k])
  }

  function TextAt(text: string, m: Match): string {
    if 0 <= m.start <= m.end <= |text| then text[m.start..m.end] else ""
  }

  /** Every entity has overlap components in every leaf. */
  lemma ComponentsExist(segments: seq<Segment>, found: seq<seq<Match>>, e: string) returns (parts: seq<seq<Iv>>)
    requires |segments| == |found| && AllValid(segments, found)
    ensures EntityComponents(found, e, parts)
  {
    parts := seq(|found|, i requires 0 <= i < |found| => LogicalIvs(LogicalFor(found[i], e)));
    forall i | 0 <= i < |found| ensures Components(SpansOf(found[i], e), parts[i]) {
      LogicalForFacts(found[i], e, |segments[i].text|);
      SpansOfSorted(found[i], e);
    }
  }

  lemma PlansCount(p: PolicySettings, rab: bool, segments: seq<Segment>, found: seq<seq<Match>>)
    requires |segments| == |found| && AllValid(segments, found)
    ensures Counts(p, rab, segments, found, Plans(p, rab, segments, found))
  {
  }

  lemma RewrittenCount(
    v: Service, nonce: string, rab: bool, segments: seq<Segment>, found: seq<seq<Match>>, ts: seq<PlanData>)
    requires LeavesRewritten(v, nonce, rab, segments, found, ts)
    ensures Counts(v.policy, rab, segments, found, ts)
  {
    forall i | 0 <= i < |ts| ensures SameDetections(Prepared(v.policy, rab, segments[i].text, found[i]), ts[i]) {
      LeafOf(v, nonce, rab, segments, found, ts, i);
    }
  }

  lemma DetectedFigures(
    p: PolicySettings, rab: bool, segments: seq<Segment>, found: seq<seq<Match>>, ds: seq<PlanData>, e: string)
    requires Counts(p, rab, segments, found, ds)
    ensures forall parts :: EntityComponents(found, e, parts) ==> SumDetected(ds, e) == Total(Sizes(parts))
  {
    forall parts | EntityComponents(found, e, parts) ensures SumDetected(ds, e) == Total(Sizes(parts)) {
      DetectedFigure(p, rab, segments, found, ds, e, parts);
    }
  }

  lemma EditedTextIs(
    p: PolicySettings, rab: bool, segments: seq<Segment>, found: seq<seq<Match>>, e: string, i: nat, k: nat, x: string)
    requires |segments| == |found| && AllValid(segments, found)
    requires i < |found| && EditedRegion(p, RegionsAt(p, rab, found, i), e, k)
    ensures EditedText(p, rab, segments, found, e, i, k, x) <==>
              TextAt(segments[i].text, RegionsAt(p, rab, found, i)[k]) == x
  {
    EffectiveFits(p, rab, segments[i].text, found[i]);
  }

  lemma EditedTextsAre(
    p: PolicySettings, rab: bool, segments: seq<Segment>, found: seq<seq<Match>>, e: string, x: string)
    requires |segments| == |found| && AllValid(segments, found)
    ensures x in EditedTexts(p, rab, segments, found, e) <==>
              exists i: nat, k: nat :: EditedText(p, rab, segments, found, e, i, k, x)
  {
    if x in EditedTexts(p, rab, segments, found, e) {
      var i: nat, k: nat :|
        i < |found| && k < |RegionsAt(p, rab, found, i)| && EditedRegion(p, RegionsAt(p, rab, found, i), e, k)
        && TextAt(segments[i].text, RegionsAt(p, rab, found, i)[k]) == x;
      EditedTextIs(p, rab, segments, found, e, i, k, x);
    }
    if i: nat, k: nat :| EditedText(p, rab, segments, found, e, i, k, x) {
      EditedTextIs(p, rab, segments, found, e, i, k, x);
    }
  }

  lemma UniqueFigure(
    v: Service, nonce: string, rab: bool, segments: seq<Segment>, found: seq<seq<Match>>, ts: seq<PlanData>, e: string)
    requires LeavesRewritten(v, nonce, rab, segments, found, ts)
    ensures AllValues(ts, e) == EditedTexts(v.policy, rab, segments, found, e)
  {
    forall x ensures x in AllValues(ts, e) <==> x in EditedTexts(v.policy, rab, segments, found, e) {
      ValuesAreTexts(v, nonce, rab, segments, found, ts, e, x);
      EditedTextsAre(v.policy, rab, segments, found, e, x);
    }
  }

  /** Each figure of a rewritten request's row counts what it says, over all leaves. */
  lemma RewrittenRow(
    v: Service, nonce: string, rab: bool, segments: seq<Segment>, found: seq<seq<Match>>, ts: seq<PlanData>, e: string)
    requires LeavesRewritten(v, nonce, rab, segments, found, ts)
    ensures RowCounts(v.policy, rab, segments, found, RowFor(v.policy, rab, ts, e), true)
  {
    RewrittenCount(v, nonce, rab, segments, found, ts);
    DetectedFigures(v.policy, rab, segments, found, ts, e);
    TransformedFigure(v, nonce, rab, segments, found, ts, e);
    UniqueFigure(v, nonce, rab, segments, found, ts, e);
    EffectiveIsResolved(v.policy, rab, e, Effective(v.policy, e, rab));
  }

  lemma {:induction false} NothingTransformed(ds: seq<PlanData>, e: string)
    requires forall i :: 0 <= i < |ds| ==> ds[i].transformedCounts == map[] && ds[i].transformedValues == map[]
    ensures SumTransformed(ds, e) == 0 && AllValues(ds, e) == {}
  {
    if ds != [] {
      NothingTransformed(ds[..|ds| - 1], e);
    }
  }

  /** A row of a blocked request has the same detected figure, and nothing is transformed. */
  lemma PlannedRow(p: PolicySettings, rab: bool, segments: seq<Segment>, found: seq<seq<Match>>, e: string)
    requires ValidPolicy(p) && |segments| == |found| && AllValid(segments, found)
    ensures RowCounts(p, rab, segments, found, RowFor(p, rab, Plans(p, rab, segments, found), e), false)
  {
    var ds := Plans(p, rab, segments, found);
    PlansCount(p, rab, segments, found);
    DetectedFigures(p, rab, segments, found, ds, e);
    NothingTransformed(ds, e);
    EffectiveIsResolved(p, rab, e, Effective(p, e, rab));
  }

  /** What a text result says about detections, counted over the detector's matches. */
  ghost predicate Reports(
    p: PolicySettings, r: SegmentRequest, found: seq<seq<Match>>, entities: seq<string>, counts: map<string, int>,
    rows: seq<Row>, overlaps: int, rewritten: bool)
    requires |found| == |r.segments|
  {
    && Sorted(entities, NameKey) && NoDup(entities) && (forall e :: e in entities <==> Detected(found, e))
    && (forall e :: e in counts <==> e in entities)
    && RowNames(rows) == entities
    && (forall i :: 0 <= i < |rows| ==>
          RowCounts(p, r.kind == Mcp, r.segments, found, rows[i], rewritten)
          && rows[i].entity in counts && counts[rows[i].entity] == rows[i].detected)
    && overlaps == Total(MixedCounts(found))
  }

  lemma DetectedEntities(
    p: PolicySettings, rab: bool, segments: seq<Segment>, found: seq<seq<Match>>, ds: seq<PlanData>, e: string)
    requires |ds| == |found| == |segments|
    requires forall i :: 0 <= i < |ds| ==> ds[i].entities == EntitiesOf(found[i])
    ensures e in AllEntities(ds) <==> Detected(found, e)
  {
    EntityInLeaf(ds, e);
    if i :| 0 <= i < |ds| && e in ds[i].entities {
      var j :| 0 <= j < |found[i]| && found[i][j].entity == e;
      assert found[i][j] in found[i];
    }
    if i, m :| 0 <= i < |found| && m in found[i] && m.entity == e {
      var j :| 0 <= j < |found[i]| && found[i][j] == m;
      assert found[i][j].entity in EntitiesOf(found[i]);
    }
  }

  lemma EntitiesSame(p: PolicySettings, rab: bool, segments: seq<Segment>, found: seq<seq<Match>>, ds: seq<PlanData>)
    requires Counts(p, rab, segments, found, ds)
    ensures forall i :: 0 <= i < |ds| ==> ds[i].entities == EntitiesOf(found[i])
  {
    forall i | 0 <= i < |ds| ensures ds[i].entities == EntitiesOf(found[i]) {
      assert SameDetections(Prepared(p, rab, segments[i].text, found[i]), ds[i]);
      PreparedCounts(p, rab, segments[i].text, found[i]);
    }
  }

  ghost predicate AllRowsCount(
    p: PolicySettings, rab: bool, segments: seq<Segment>, found: seq<seq<Match>>, ds: seq<PlanData>, rewritten: bool)
    requires |segments| == |found|
  {
    forall e :: RowCounts(p, rab, segments, found, RowFor(p, rab, ds, e), rewritten)
  }

  /** The totals of planned or rewritten leaves report the detections of the request. */
  lemma TotalsReport(
    p: PolicySettings, r: SegmentRequest, found: seq<seq<Match>>, ds: seq<PlanData>, rewritten: bool)
    requires |found| == |r.segments| && Counts(p, r.kind == Mcp, r.segments, found, ds)
    requires Sound(p, r.kind == Mcp, ds, r.segments)
    requires AllRowsCount(p, r.kind == Mcp, r.segments, found, ds, rewritten)
    ensures var t := TotalsOf(p, r.kind == Mcp, ds);
            Reports(p, r, found, t.entities, t.counts, t.rows, t.overlaps, rewritten)
  {
    var rab := r.kind == Mcp;
    EntitiesSame(p, rab, r.segments, found, ds);
    RowNamesSorted(p, rab, ds, r.segments);
    RowsMatchTotals(p, rab, ds, r.segments);
    OverlapFigure(p, rab, r.segments, found, ds);
    forall e ensures e in AllEntities(ds) <==> Detected(found, e) {
      DetectedEntities(p, rab, r.segments, found, ds, e);
    }
    ReportRowCounts(p, r, found, ds, rewritten);
  }

  lemma ReportRowCounts(
    p: PolicySettings, r: SegmentRequest, found: seq<seq<Match>>, ds: seq<PlanData>, rewritten: bool)
    requires |found| == |r.segments|
    requires AllRowsCount(p, r.kind == Mcp, r.segments, found, ds, rewritten)
    ensures var rows := ReportRows(p, r.kind == Mcp, ds);
            forall i :: 0 <= i < |rows| ==> RowCounts(p, r.kind == Mcp, r.segments, found, rows[i], rewritten)
  {
  }

  /**
   * A text result reports exactly the detected entity types, for each the number of overlap components of
   * its matches, of its edited regions and of the texts they cover, and the number of mixed regions.
   */
  lemma TextReports(
    v: Service, r: SegmentRequest, found: seq<seq<Match>>, nonce: string, faceRoute: Option<string>)
    requires ValidPolicy(v.policy) && |found| == |r.segments| && AnalyzeText(v, r, found, nonce, faceRoute).Ok?
    ensures var w := AnalyzeText(v, r, found, nonce, faceRoute).value;
            Reports(v.policy, r, found, w.entities, w.entityCounts, w.rows, w.overlapCount, w.decision != Blocked)
  {
    TextTotals(v, r, found, nonce, faceRoute);
    if Blocks(v.policy, Plans(v.policy, r.kind == Mcp, r.segments, found), faceRoute) {
      BlockedReports(v.policy, r, found);
    } else {
      RewrittenReports(v, r, found, nonce);
    }
  }

  predicate HasTotals(w: Result, t: Totals) {
    w.entities == t.entities && w.entityCounts == t.counts && w.rows == t.rows && w.overlapCount == t.overlaps
  }

  lemma TextTotals(
    v: Service, r: SegmentRequest, found: seq<seq<Match>>, nonce: string, faceRoute: Option<string>)
    requires |found| == |r.segments| && AnalyzeText(v, r, found, nonce, faceRoute).Ok?
    ensures AllValid(r.segments, found) && AllFit(Plans(v.policy, r.kind == Mcp, r.segments, found))
    ensures var p, rab, w := v.policy, r.kind == Mcp, AnalyzeText(v, r, found, nonce, faceRoute).value;
            var ds := Plans(p, rab, r.segments, found);
            if Blocks(p, ds, faceRoute) then w.decision == Blocked && HasTotals(w, TotalsOf(p, rab, ds))
            else
              && w.decision != Blocked && TransformAll(v, nonce, ds).Some?
              && HasTotals(w, TotalsOf(p, rab, TransformAll(v, nonce, ds).value.0))
  {
    PreparedFits(v.policy, r.kind == Mcp, r.segments, found);
    DecideTotals(v, r, Plans(v.policy, r.kind == Mcp, r.segments, found), nonce, faceRoute);
  }

  lemma DecideTotals(v: Service, r: SegmentRequest, ds: seq<PlanData>, nonce: string, faceRoute: Option<string>)
    requires AllFit(ds) && |ds| == |r.segments| && Decide(v, r, ds, nonce, faceRoute).Ok?
    ensures var p, rab, w := v.policy, r.kind == Mcp, Decide(v, r, ds, nonce, faceRoute).value;
            if Blocks(p, ds, faceRoute) then w.decision == Blocked && HasTotals(w, TotalsOf(p, rab, ds))
            else
              && w.decision != Blocked && TransformAll(v, nonce, ds).Some?
              && HasTotals(w, TotalsOf(p, rab, TransformAll(v, nonce, ds).value.0))
  {
    TransformAllLength(v, nonce, ds);
    DecideCases(v, r, ds, nonce, faceRoute);
    if !Blocks(v.policy, ds, faceRoute) {
      var both := TransformAll(v, nonce, ds).value;
      SuccessTotals(v, r, both.0, both.1, ChosenRoute(v.policy, ds, faceRoute));
    }
  }

  lemma SuccessTotals(
    v: Service, r: SegmentRequest, ts: seq<PlanData>, reversal: map<string, string>, route: Option<string>)
    requires |ts| == |r.segments|
    ensures var w := Success(v, r, ts, reversal, route);
            w.decision != Blocked && HasTotals(w, TotalsOf(v.policy, r.kind == Mcp, ts))
  {
  }

  lemma BlockedReports(p: PolicySettings, r: SegmentRequest, found: seq<seq<Match>>)
    requires ValidPolicy(p) && |found| == |r.segments| && AllValid(r.segments, found)
    ensures var t := TotalsOf(p, r.kind == Mcp, Plans(p, r.kind == Mcp, r.segments, found));
            Reports(p, r, found, t.entities, t.counts, t.rows, t.overlaps, false)
  {
    var rab := r.kind == Mcp;
    PlansCount(p, rab, r.segments, found);
    PlansSound(p, rab, r.segments, found);
    forall e
      ensures RowCounts(p, rab, r.segments, found, RowFor(p, rab, Plans(p, rab, r.segments, found), e), false)
    {
      PlannedRow(p, rab, r.segments, found, e);
    }
    TotalsReport(p, r, found, Plans(p, rab, r.segments, found), false);
  }

  lemma RewrittenReports(v: Service, r: SegmentRequest, found: seq<seq<Match>>, nonce: string)
    requires ValidPolicy(v.policy) && |found| == |r.segments| && AllValid(r.segments, found)
    requires var ds := Plans(v.policy, r.kind == Mcp, r.segments, found);
             AllFit(ds) && !AnyBlocked(ds) && TransformAll(v, nonce, ds).Some?
    ensures var ts := TransformAll(v, nonce, Plans(v.policy, r.kind == Mcp, r.segments, found)).value.0;
            var t := TotalsOf(v.policy, r.kind == Mcp, ts);
            Reports(v.policy, r, found, t.entities, t.counts, t.rows, t.overlaps, true)
  {
    var rab := r.kind == Mcp;
    var ds := Plans(v.policy, rab, r.segments, found);
    var ts := TransformAll(v, nonce, ds).value.0;
    TransformAllLength(v, nonce, ds);
    TransformedLeaves(v, nonce, rab, r.segments, found);
    RewrittenCount(v, nonce, rab, r.segments, found, ts);
    forall e ensures RowCounts(v.policy, rab, r.segments, found, RowFor(v.policy, rab, ts, e), true) {
      RewrittenRow(v, nonce, rab, r.segments, found, ts, e);
    }
    TotalsReport(v.policy, r, found, ts, true);
  }
}
