/** Sums, unions and report rows over all leaves of a request. */
module Aggregate {
  import opened Ordering
  import opened PolicyConfig
  import opened Planner
  import opened Contracts
  import opened Policy
  import opened LeafFacts

  /** Every leaf is sound for its own segment. */
  ghost predicate Sound(p: PolicySettings, rab: bool, ds: seq<PlanData>, segments: seq<Segment>) {
    |ds| == |segments| && forall i {:trigger ds[i]} :: 0 <= i < |ds| ==> SoundLeaf(p, rab, ds[i], |segments[i].text|)
  }

  lemma SoundFront(p: PolicySettings, rab: bool, ds: seq<PlanData>, segments: seq<Segment>)
    requires Sound(p, rab, ds, segments) && ds != []
    ensures Sound(p, rab, ds[..|ds| - 1], segments[..|ds| - 1])
    ensures SoundLeaf(p, rab, ds[|ds| - 1], |segments[|ds| - 1].text|)
    ensures CharacterCount(segments) == CharacterCount(segments[..|ds| - 1]) + |segments[|ds| - 1].text|
  {
  }

  lemma {:induction false} TotalsAgree(
    p: PolicySettings, rab: bool, ds: seq<PlanData>, segments: seq<Segment>, e: string)
    requires Sound(p, rab, ds, segments)
    ensures e in TotalCounts(ds) <==> e in AllEntities(ds)
    ensures Get(TotalCounts(ds), e) == SumDetected(ds, e)
    ensures e in AllEntities(ds) ==> 1 <= SumDetected(ds, e)
    ensures 0 <= SumDetected(ds, e) <= CharacterCount(segments)
  {
    if ds != [] {
      var n := |ds| - 1;
      SoundFront(p, rab, ds, segments);
      TotalsAgree(p, rab, ds[..n], segments[..n], e);
      AtEntity(p, rab, ds[n], |segments[n].text|, e);
    }
  }

  lemma {:induction false} OverlapsBounded(p: PolicySettings, rab: bool, ds: seq<PlanData>, segments: seq<Segment>)
    requires Sound(p, rab, ds, segments)
    ensures TotalOverlaps(ds) <= CharacterCount(segments)
  {
    if ds != [] {
      SoundFront(p, rab, ds, segments);
      OverlapsBounded(p, rab, ds[..|ds| - 1], segments[..|ds| - 1]);
    }
  }

  /** Summed over leaves: distinct transformed <= transformed <= detected. */
  lemma {:induction false} TransformedWithinDetected(
    p: PolicySettings, rab: bool, ds: seq<PlanData>, segments: seq<Segment>, e: string)
    requires Sound(p, rab, ds, segments)
    ensures |AllValues(ds, e)| <= SumTransformed(ds, e) <= SumDetected(ds, e)
  {
    if ds != [] {
      var n := |ds| - 1;
      SoundFront(p, rab, ds, segments);
      TransformedWithinDetected(p, rab, ds[..n], segments[..n], e);
      AtEntity(p, rab, ds[n], |segments[n].text|, e);
      UnionSize(AllValues(ds[..n], e), if e in ds[n].entityCounts then GetSet(ds[n].transformedValues, e) else {});
    }
  }

  ghost predicate EditedIn(ds: seq<PlanData>, e: string) {
    exists i :: 0 <= i < |ds| && e in ds[i].transformedCounts
  }

  lemma EditedInFront(ds: seq<PlanData>, e: string)
    requires ds != []
    ensures EditedIn(ds, e) <==> EditedIn(ds[..|ds| - 1], e) || e in ds[|ds| - 1].transformedCounts
  {
    var n := |ds| - 1;
    if i :| 0 <= i < |ds| && e in ds[i].transformedCounts {
      assert i < n ==> e in ds[..n][i].transformedCounts;
    }
    if i :| 0 <= i < n && e in ds[..n][i].transformedCounts {
      assert e in ds[i].transformedCounts;
    }
  }

  lemma {:induction false} TransformedInLeaf(
    p: PolicySettings, rab: bool, ds: seq<PlanData>, segments: seq<Segment>, e: string)
    requires Sound(p, rab, ds, segments)
    ensures SumTransformed(ds, e) >= 0
    ensures SumTransformed(ds, e) > 0 <==> EditedIn(ds, e)
  {
    if ds != [] {
      var n := |ds| - 1;
      SoundFront(p, rab, ds, segments);
      TransformedInLeaf(p, rab, ds[..n], segments[..n], e);
      AtEntity(p, rab, ds[n], |segments[n].text|, e);
      EditedInFront(ds, e);
    }
  }

  lemma UnionSize<T>(a: set<T>, b: set<T>)
    ensures |a + b| <= |a| + |b|
  {
    assert a + b == a + (b - a);
    assert |a + (b - a)| == |a| + |b - a|;
    assert b == (b - a) + (b * a);
    assert |b| == |b - a| + |b * a|;
  }

  /** Membership in the unions, leaf by leaf. */
  lemma {:induction false} EntityInLeaf(ds: seq<PlanData>, e: string)
    ensures e in AllEntities(ds) <==> exists i :: 0 <= i < |ds| && e in ds[i].entities
  {
    if ds != [] {
      var n := |ds| - 1;
      EntityInLeaf(ds[..n], e);
      if e in AllEntities(ds[..n]) {
        var i :| 0 <= i < n && e in ds[..n][i].entities;
        assert e in ds[i].entities;
      }
      if i :| 0 <= i < |ds| && e in ds[i].entities {
        if i < n { assert e in ds[..n][i].entities; }
      }
    }
  }

  lemma {:induction false} ReroutedInLeaf(ds: seq<PlanData>, e: string)
    ensures e in AllRerouted(ds) <==> exists i :: 0 <= i < |ds| && e in ds[i].rerouteEntities
  {
    if ds != [] {
      var n := |ds| - 1;
      ReroutedInLeaf(ds[..n], e);
      if e in AllRerouted(ds[..n]) {
        var i :| 0 <= i < n && e in ds[..n][i].rerouteEntities;
        assert e in ds[i].rerouteEntities;
      }
      if i :| 0 <= i < |ds| && e in ds[i].rerouteEntities {
        if i < n { assert e in ds[..n][i].rerouteEntities; }
      }
    }
  }

  lemma {:induction false} ActionInLeaf(ds: seq<PlanData>, a: Action)
    ensures a in AllActions(ds) <==> exists i :: 0 <= i < |ds| && a in ds[i].appliedActions
  {
    if ds != [] {
      var n := |ds| - 1;
      ActionInLeaf(ds[..n], a);
      if a in AllActions(ds[..n]) {
        var i :| 0 <= i < n && a in ds[..n][i].appliedActions;
        assert a in ds[i].appliedActions;
      }
      if i :| 0 <= i < |ds| && a in ds[i].appliedActions {
        if i < n { assert a in ds[..n][i].appliedActions; }
      }
    }
  }

  lemma RouteNonEmpty(p: PolicySettings, e: string)
    requires ValidPolicy(p)
    ensures RouteFor(p, e) != ""
  {
  }

  ghost predicate RouteOfSome(p: PolicySettings, es: set<string>, route: string) {
    exists e :: e in es && route == RouteFor(p, e)
  }

  lemma LeafRoute(p: PolicySettings, rab: bool, d: PlanData, length: int)
    requires ValidPolicy(p) && SoundLeaf(p, rab, d, length)
    ensures d.routeClass.Some? <==> d.rerouteEntities != {}
    ensures d.routeClass.Some? ==> d.routeClass.value != "" && RouteOfSome(p, d.rerouteEntities, d.routeClass.value)
  {
    if d.routeClass.Some? {
      var e :| e in d.rerouteEntities && d.routeClass.value == RouteFor(p, e);
      RouteNonEmpty(p, e);
    }
  }

  lemma MoreRoutes(p: PolicySettings, es: set<string>, more: set<string>, routes: seq<string>)
    requires es <= more && forall k :: 0 <= k < |routes| ==> RouteOfSome(p, es, routes[k])
    ensures forall k :: 0 <= k < |routes| ==> RouteOfSome(p, more, routes[k])
  {
    forall k | 0 <= k < |routes| ensures RouteOfSome(p, more, routes[k]) {
      assert RouteOfSome(p, es, routes[k]);
      var e :| e in es && routes[k] == RouteFor(p, e);
      assert e in more;
    }
  }

  /** Leaf routes exist exactly when some leaf reroutes; each is the route of a rerouted entity. */
  lemma {:induction false} LeafRoutesFacts(p: PolicySettings, rab: bool, ds: seq<PlanData>, segments: seq<Segment>)
    requires ValidPolicy(p) && Sound(p, rab, ds, segments)
    ensures LeafRoutes(ds) != [] <==> AllRerouted(ds) != {}
    ensures forall k :: 0 <= k < |LeafRoutes(ds)| ==> RouteOfSome(p, AllRerouted(ds), LeafRoutes(ds)[k])
  {
    if ds != [] {
      var n := |ds| - 1;
      SoundFront(p, rab, ds, segments);
      LeafRoutesFacts(p, rab, ds[..n], segments[..n]);
      LeafRoute(p, rab, ds[n], |segments[n].text|);
      MoreRoutes(p, AllRerouted(ds[..n]), AllRerouted(ds), LeafRoutes(ds[..n]));
      if ds[n].routeClass.Some? {
        MoreRoutes(p, ds[n].rerouteEntities, AllRerouted(ds), [ds[n].routeClass.value]);
        assert RouteOfSome(p, AllRerouted(ds), [ds[n].routeClass.value][0]);
      }
    }
  }

  // ---- report rows ----

  lemma RowOf(p: PolicySettings, rab: bool, ds: seq<PlanData>, names: seq<string>, e: string) returns (i: nat)
    requires e in names
    ensures i < |names| && RowsFor(p, rab, ds, names)[i] == RowFor(p, rab, ds, e)
  {
    i :| 0 <= i < |names| && names[i] == e;
  }

  lemma RowNamesSorted(p: PolicySettings, rab: bool, ds: seq<PlanData>, segments: seq<Segment>)
    requires Sound(p, rab, ds, segments)
    ensures TotalCounts(ds).Keys == AllEntities(ds)
    ensures RowNames(ReportRows(p, rab, ds)) == SortedNames(AllEntities(ds))
  {
    forall e ensures e in TotalCounts(ds) <==> e in AllEntities(ds) {
      TotalsAgree(p, rab, ds, segments, e);
    }
    assert TotalCounts(ds).Keys == AllEntities(ds);
  }

  lemma RowsMatchTotals(p: PolicySettings, rab: bool, ds: seq<PlanData>, segments: seq<Segment>)
    requires Sound(p, rab, ds, segments)
    ensures RowsMatch(ReportRows(p, rab, ds), TotalCounts(ds))
  {
    var rows, names := ReportRows(p, rab, ds), SortedNames(TotalCounts(ds).Keys);
    forall e | e in TotalCounts(ds) ensures RowNamed(rows, e) {
      var i := RowOf(p, rab, ds, names, e);
      assert rows[i].entity == e;
    }
    forall i | 0 <= i < |rows|
      ensures rows[i].entity in TotalCounts(ds) && TotalCounts(ds)[rows[i].entity] == rows[i].detected
    {
      assert names[i] in names;
      TotalsAgree(p, rab, ds, segments, names[i]);
    }
  }

  /** Each row is the row of its detected entity. */
  lemma RowAt(p: PolicySettings, rab: bool, ds: seq<PlanData>, segments: seq<Segment>, i: nat)
    requires Sound(p, rab, ds, segments) && i < |ReportRows(p, rab, ds)|
    ensures var row := ReportRows(p, rab, ds)[i];
            row.entity in AllEntities(ds) && row.action == Effective(p, row.entity, rab)
  {
    var names := SortedNames(TotalCounts(ds).Keys);
    RowNamesSorted(p, rab, ds, segments);
    assert names[i] in names;
  }

  lemma RowOfEntity(p: PolicySettings, rab: bool, ds: seq<PlanData>, segments: seq<Segment>, e: string) returns (i: nat)
    requires Sound(p, rab, ds, segments) && e in AllEntities(ds)
    ensures i < |ReportRows(p, rab, ds)| && ReportRows(p, rab, ds)[i].action == Effective(p, e, rab)
  {
    RowNamesSorted(p, rab, ds, segments);
    i := RowOf(p, rab, ds, SortedNames(TotalCounts(ds).Keys), e);
  }

  lemma RowResolves(p: PolicySettings, rab: bool, ds: seq<PlanData>, segments: seq<Segment>, a: Action)
    requires Sound(p, rab, ds, segments) && HasRow(ReportRows(p, rab, ds), a)
    ensures ResolvesTo(p, rab, AllEntities(ds), a)
  {
    var i :| 0 <= i < |ReportRows(p, rab, ds)| && ReportRows(p, rab, ds)[i].action == a;
    RowAt(p, rab, ds, segments, i);
  }

  lemma EntityHasRow(p: PolicySettings, rab: bool, ds: seq<PlanData>, segments: seq<Segment>, a: Action)
    requires Sound(p, rab, ds, segments) && ResolvesTo(p, rab, AllEntities(ds), a)
    ensures HasRow(ReportRows(p, rab, ds), a)
  {
    var e :| e in AllEntities(ds) && Effective(p, e, rab) == a;
    var i := RowOfEntity(p, rab, ds, segments, e);
  }

  /** A row with an action exists exactly when a detected entity resolves to it. */
  lemma RowIffEntity(p: PolicySettings, rab: bool, ds: seq<PlanData>, segments: seq<Segment>, a: Action)
    requires Sound(p, rab, ds, segments)
    ensures HasRow(ReportRows(p, rab, ds), a) <==> ResolvesTo(p, rab, AllEntities(ds), a)
  {
    if HasRow(ReportRows(p, rab, ds), a) {
      RowResolves(p, rab, ds, segments, a);
    }
    if ResolvesTo(p, rab, AllEntities(ds), a) {
      EntityHasRow(p, rab, ds, segments, a);
    }
  }

  lemma RowValid(p: PolicySettings, rab: bool, ds: seq<PlanData>, segments: seq<Segment>, e: string)
    requires ValidPolicy(p) && Sound(p, rab, ds, segments) && CharacterCount(segments) <= MAX_COUNT
    requires e in AllEntities(ds) && e != "FACE"
    ensures ValidRow(RowFor(p, rab, ds, e))
  {
    TotalsAgree(p, rab, ds, segments, e);
    TransformedWithinDetected(p, rab, ds, segments, e);
    TransformedInLeaf(p, rab, ds, segments, e);
    ConfiguredNotTextOnly(p, e);
    if SumTransformed(ds, e) > 0 {
      var j :| 0 <= j < |ds| && e in ds[j].transformedCounts;
      AtEntity(p, rab, ds[j], |segments[j].text|, e);
    }
  }

  /** The report of prepared or transformed leaves passes its validators. */
  lemma RowsValid(p: PolicySettings, rab: bool, ds: seq<PlanData>, segments: seq<Segment>)
    requires ValidPolicy(p) && Sound(p, rab, ds, segments) && CharacterCount(segments) <= MAX_COUNT
    requires "FACE" !in AllEntities(ds) && |AllEntities(ds)| <= MAX_ENTITIES
    ensures ValidReport(ReportRows(p, rab, ds))
  {
    var rows, names := ReportRows(p, rab, ds), SortedNames(TotalCounts(ds).Keys);
    RowNamesSorted(p, rab, ds, segments);
    forall i | 0 <= i < |rows| ensures ValidRow(rows[i]) {
      assert names[i] in names;
      RowValid(p, rab, ds, segments, names[i]);
    }
  }

  /** Some row claims a transformation exactly when some leaf was edited. */
  lemma TransformedRow(p: PolicySettings, rab: bool, ds: seq<PlanData>, segments: seq<Segment>)
    requires Sound(p, rab, ds, segments)
    ensures SomeTransformed(ReportRows(p, rab, ds)) <==> exists e :: EditedIn(ds, e)
  {
    var rows, names := ReportRows(p, rab, ds), SortedNames(TotalCounts(ds).Keys);
    RowNamesSorted(p, rab, ds, segments);
    if i :| 0 <= i < |rows| && rows[i].transformed > 0 {
      TransformedInLeaf(p, rab, ds, segments, names[i]);
    }
    if e :| EditedIn(ds, e) {
      EditedIsDetected(p, rab, ds, segments, e);
      TransformedInLeaf(p, rab, ds, segments, e);
      var i := RowOf(p, rab, ds, names, e);
      assert rows[i].transformed > 0;
    }
  }

  lemma EditedIsDetected(p: PolicySettings, rab: bool, ds: seq<PlanData>, segments: seq<Segment>, e: string)
    requires Sound(p, rab, ds, segments) && EditedIn(ds, e)
    ensures e in AllEntities(ds)
  {
    var j :| 0 <= j < |ds| && e in ds[j].transformedCounts;
    AtEntity(p, rab, ds[j], |segments[j].text|, e);
    EntityInLeaf(ds, e);
  }
}
