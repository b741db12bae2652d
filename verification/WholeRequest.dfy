/** The decision of a whole request: a join that includes its faces, and the same for any order of its segments. */
module WholeRequest {
  import opened Ordering
  import opened PolicyConfig
  import opened Matches
  import opened Prepare
  import opened Rewrite
  import opened Planner
  import opened Contracts
  import opened Policy
  import opened Aggregate
  import opened Verdict
  import opened Requests
  import opened Routes
  import Response

  // ---- folds that ignore order ----

  ghost function Fold<A, T>(a: A, xs: seq<T>, f: (A, T) -> A): A {
    if xs == [] then a else f(Fold(a, xs[..|xs| - 1], f), xs[|xs| - 1])
  }

  ghost predicate Commutes<A(!new), T(!new)>(f: (A, T) -> A) {
    forall a, x, y :: f(f(a, x), y) == f(f(a, y), x)
  }

  lemma WithoutOne<T>(xs: seq<T>, j: nat)
    requires j < |xs| - 1
    ensures var n := |xs| - 1; var ys := xs[..j] + xs[j + 1..];
            && ys != [] && ys[|ys| - 1] == xs[n] && ys[..|ys| - 1] == xs[..n][..j] + xs[..n][j + 1..]
              && xs[..n][j] == xs[j]
  {
  }

  lemma {:induction false} FoldMoved<A(!new), T(!new)>(a: A, xs: seq<T>, j: nat, f: (A, T) -> A)
    requires Commutes(f) && j < |xs|
    ensures Fold(a, xs, f) == f(Fold(a, xs[..j] + xs[j + 1..], f), xs[j])
    decreases |xs|
  {
    var n := |xs| - 1;
    if j < n {
      FoldMoved(a, xs[..n], j, f);
      WithoutOne(xs, j);
    } else {
      assert xs[..j] + xs[j + 1..] == xs[..n];
    }
  }

  lemma TakenOut<T>(xs: seq<T>, j: nat)
    requires j < |xs|
    ensures multiset(xs[..j] + xs[j + 1..]) == multiset(xs) - multiset{xs[j]}
  {
    assert xs == xs[..j] + ([xs[j]] + xs[j + 1..]);
  }

  lemma {:induction false} FoldPermuted<A(!new), T(!new)>(a: A, xs: seq<T>, ys: seq<T>, f: (A, T) -> A)
    requires Commutes(f) && multiset(xs) == multiset(ys)
    ensures Fold(a, xs, f) == Fold(a, ys, f)
    decreases |xs|
  {
    if xs == [] {
      assert |multiset(ys)| == 0;
    } else {
      var n := |xs| - 1;
      assert xs[n] in multiset(ys);
      var j :| 0 <= j < |ys| && ys[j] == xs[n];
      TakenOut(ys, j);
      TakenOut(xs, n);
      assert xs[..n] + xs[n + 1..] == xs[..n];
      FoldPermuted(a, xs[..n], ys[..j] + ys[j + 1..], f);
      FoldMoved(a, ys, j, f);
    }
  }

  // ---- what a leaf adds, whatever its place ----

  /** A leaf of a request: its segment and what detectors find in it. */
  type Leaf = (Segment, seq<Match>)

  ghost function Leaves(segments: seq<Segment>, found: seq<seq<Match>>): (ls: seq<Leaf>)
    requires |segments| == |found|
    ensures |ls| == |segments| && forall i :: 0 <= i < |ls| ==> ls[i] == (segments[i], found[i])
  {
    seq(|segments|, i requires 0 <= i < |segments| => (segments[i], found[i]))
  }

  /** Two requests of the same leaves, in any order. */
  ghost predicate Permuted(s1: seq<Segment>, f1: seq<seq<Match>>, s2: seq<Segment>, f2: seq<seq<Match>>)
    requires |s1| == |f1| && |s2| == |f2|
  {
    multiset(Leaves(s1, f1)) == multiset(Leaves(s2, f2))
  }

  /** What the totals read of a plan. */
  datatype Outline = Outline(
    entities: set<string>, rerouted: set<string>, blocked: bool, counts: map<string, int>, overlaps: nat,
    actions: set<Action>, transformed: map<string, int>, values: map<string, set<string>>)

  function OutlineOf(d: PlanData): Outline {
    Outline(d.entities, d.rerouteEntities, d.blocked, d.entityCounts, d.overlapCount, d.appliedActions,
            d.transformedCounts, d.transformedValues)
  }

  /** What rewriting records, placeholders aside: the edited regions and what they covered. */
  datatype Marks = Marks(applied: set<Action>, counts: map<string, int>, values: map<string, set<string>>)

  function Covered(text: string, m: Match): string {
    if 0 <= m.start <= m.end <= |text| then text[m.start..m.end] else ""
  }

  function MarksOf(p: PolicySettings, base: set<Action>, text: string, regions: seq<Match>): Marks {
    if regions == [] then Marks(base, map[], map[])
    else
      var rest, m := MarksOf(p, base, text, regions[1..]), regions[0];
      if !Edited(p, m) then rest
      else
        var action := Configured(p, m.entity);
        Marks(if action == Reroute then rest.applied else rest.applied + {action},
              AddOne(rest.counts, m.entity), AddValue(rest.values, m.entity, Covered(text, m)))
  }

  /** No key, nonce or place of a leaf changes what rewriting records about it. */
  lemma {:induction false} LedgerMarks(c: Context, base: set<Action>, text: string, regions: seq<Match>)
    requires InText(text, regions) && LedgerOf(c, base, text, regions).Some?
    ensures var book := LedgerOf(c, base, text, regions).value;
            MarksOf(c.policy, base, text, regions) == Marks(book.applied, book.counts, book.values)
  {
    if regions != [] {
      LedgerMarks(c, base, text, regions[1..]);
      EditedIffNotKept(c, regions[0], Original(text, regions[0]));
    }
  }

  ghost function PlannedLeaf(p: PolicySettings, rab: bool, l: Leaf): Outline {
    OutlineOf(Prepared(p, rab, l.0.text, l.1))
  }

  function Marked(p: PolicySettings, d: PlanData): Outline {
    var m := MarksOf(p, d.appliedActions, d.text, d.effectiveMatches);
    OutlineOf(d).(actions := m.applied, transformed := m.counts, values := m.values)
  }

  ghost function RewrittenLeaf(p: PolicySettings, rab: bool, l: Leaf): Outline {
    Marked(p, Prepared(p, rab, l.0.text, l.1))
  }

  lemma TransformedOutline(c: Context, d: PlanData)
    requires PlanFits(d) && TransformOne(c, d).Some?
    ensures OutlineOf(TransformOne(c, d).value) == Marked(c.policy, d)
  {
    LedgerMarks(c, d.appliedActions, d.text, d.effectiveMatches);
  }

  // ---- totals as a fold ----

  /** All that is summed over leaves, with the row figures of one entity. */
  datatype Sums = Sums(
    entities: set<string>, rerouted: set<string>, blocked: bool, counts: map<string, int>, overlaps: int,
    actions: set<Action>, detected: int, transformed: int, values: set<string>)

  ghost function SumsOf(ds: seq<PlanData>, e: string): Sums {
    Sums(AllEntities(ds), AllRerouted(ds), AnyBlocked(ds), TotalCounts(ds), TotalOverlaps(ds), AllActions(ds),
         SumDetected(ds, e), SumTransformed(ds, e), AllValues(ds, e))
  }

  function Add(a: Sums, o: Outline, e: string): Sums {
    Sums(a.entities + o.entities, a.rerouted + o.rerouted, a.blocked || o.blocked, MergeCounts(a.counts, o.counts),
         a.overlaps + o.overlaps, a.actions + o.actions, a.detected + Get(o.counts, e),
         a.transformed + (if e in o.counts then Get(o.transformed, e) else 0),
         a.values + (if e in o.counts then GetSet(o.values, e) else {}))
  }

  const NOTHING := Sums({}, {}, false, map[], 0, {}, 0, 0, {})

  lemma MergeCommutes(a: map<string, int>, b: map<string, int>, c: map<string, int>)
    ensures MergeCounts(MergeCounts(a, b), c) == MergeCounts(MergeCounts(a, c), b)
  {
  }

  lemma AddCommutes(a: Sums, o1: Outline, o2: Outline, e: string)
    ensures Add(Add(a, o1, e), o2, e) == Add(Add(a, o2, e), o1, e)
  {
    MergeCommutes(a.counts, o1.counts, o2.counts);
  }

  lemma BlockedNext(ds: seq<PlanData>, d: PlanData)
    ensures AnyBlocked(ds + [d]) <==> AnyBlocked(ds) || d.blocked
  {
    var more := ds + [d];
    if i :| 0 <= i < |ds| && ds[i].blocked { assert more[i].blocked; }
    if d.blocked { assert more[|ds|].blocked; }
  }

  lemma SumsNext(ds: seq<PlanData>, d: PlanData, e: string)
    ensures SumsOf(ds + [d], e) == Add(SumsOf(ds, e), OutlineOf(d), e)
  {
    BlockedNext(ds, d);
    assert (ds + [d])[..|ds|] == ds;
  }

  /** Adding one more leaf, as planned or as rewritten. */
  ghost function AddLeaf(p: PolicySettings, rab: bool, rewritten: bool, e: string): (Sums, Leaf) -> Sums {
    (a: Sums, l: Leaf) => Add(a, LeafOutline(p, rab, rewritten, l), e)
  }

  lemma AddLeafCommutes(p: PolicySettings, rab: bool, rewritten: bool, e: string)
    ensures Commutes(AddLeaf(p, rab, rewritten, e))
  {
    var f := AddLeaf(p, rab, rewritten, e);
    forall a, x, y ensures f(f(a, x), y) == f(f(a, y), x) {
      AddCommutes(a, LeafOutline(p, rab, rewritten, x), LeafOutline(p, rab, rewritten, y), e);
    }
  }

  /** The leaves' outlines, as planned or as rewritten. */
  ghost predicate Outlined(p: PolicySettings, rab: bool, rewritten: bool, ds: seq<PlanData>, ls: seq<Leaf>) {
    && |ds| == |ls|
    && forall i :: 0 <= i < |ds| ==>
         OutlineOf(ds[i]) == LeafOutline(p, rab, rewritten, ls[i])
  }

  ghost function LeafOutline(p: PolicySettings, rab: bool, rewritten: bool, l: Leaf): Outline {
    if rewritten then RewrittenLeaf(p, rab, l) else PlannedLeaf(p, rab, l)
  }

  lemma AddLeafIs(p: PolicySettings, rab: bool, rewritten: bool, e: string, a: Sums, l: Leaf, o: Outline)
    requires o == LeafOutline(p, rab, rewritten, l)
    ensures AddLeaf(p, rab, rewritten, e)(a, l) == Add(a, o, e)
  {
  }

  lemma SumsLast(ds: seq<PlanData>, e: string)
    requires ds != []
    ensures SumsOf(ds, e) == Add(SumsOf(ds[..|ds| - 1], e), OutlineOf(ds[|ds| - 1]), e)
  {
    var n := |ds| - 1;
    SumsNext(ds[..n], ds[n], e);
    assert ds[..n] + [ds[n]] == ds;
  }

  lemma LastSum(
    p: PolicySettings, rab: bool, rewritten: bool, a: Sums, front: Sums, o: Outline, l: Leaf, e: string)
    requires a == Add(front, o, e) && o == LeafOutline(p, rab, rewritten, l)
    ensures a == AddLeaf(p, rab, rewritten, e)(front, l)
  {
    AddLeafIs(p, rab, rewritten, e, front, l, o);
  }

  lemma {:induction false} SumsAreFold(
    p: PolicySettings, rab: bool, rewritten: bool, ds: seq<PlanData>, ls: seq<Leaf>, e: string)
    requires Outlined(p, rab, rewritten, ds, ls)
    ensures SumsOf(ds, e) == Fold(NOTHING, ls, AddLeaf(p, rab, rewritten, e))
    decreases |ds|
  {
    if ds != [] {
      var n := |ds| - 1;
      OutlinedFront(p, rab, rewritten, ds, ls);
      SumsAreFold(p, rab, rewritten, ds[..n], ls[..n], e);
      SumsLast(ds, e);
      LastSum(p, rab, rewritten, SumsOf(ds, e), SumsOf(ds[..n], e), OutlineOf(ds[n]), ls[n], e);
    }
  }

  lemma OutlinedFront(p: PolicySettings, rab: bool, rewritten: bool, ds: seq<PlanData>, ls: seq<Leaf>)
    requires Outlined(p, rab, rewritten, ds, ls) && ds != []
    ensures Outlined(p, rab, rewritten, ds[..|ds| - 1], ls[..|ls| - 1])
    ensures OutlineOf(ds[|ds| - 1]) == LeafOutline(p, rab, rewritten, ls[|ls| - 1])
  {
  }

  /** Leaves of the same outlines, in any order, have the same sums. */
  lemma SumsPermuted(
    p: PolicySettings, rab: bool, rewritten: bool, ds: seq<PlanData>, es: seq<PlanData>, ls: seq<Leaf>, ms: seq<Leaf>,
    e: string)
    requires Outlined(p, rab, rewritten, ds, ls) && Outlined(p, rab, rewritten, es, ms) && multiset(ls) == multiset(ms)
    ensures SumsOf(ds, e) == SumsOf(es, e)
  {
    SumsAreFold(p, rab, rewritten, ds, ls, e);
    SumsAreFold(p, rab, rewritten, es, ms, e);
    AddLeafCommutes(p, rab, rewritten, e);
    FoldPermuted(NOTHING, ls, ms, AddLeaf(p, rab, rewritten, e));
  }

  ghost predicate SameSums(ds: seq<PlanData>, es: seq<PlanData>) {
    forall e :: SumsOf(ds, e) == SumsOf(es, e)
  }

  lemma SumsFields(ds: seq<PlanData>, es: seq<PlanData>, e: string)
    requires SumsOf(ds, e) == SumsOf(es, e)
    ensures AllEntities(ds) == AllEntities(es) && AllRerouted(ds) == AllRerouted(es) && AnyBlocked(ds) == AnyBlocked(es)
    ensures TotalCounts(ds) == TotalCounts(es) && TotalOverlaps(ds) == TotalOverlaps(es)
    ensures AllActions(ds) == AllActions(es)
    ensures SumDetected(ds, e) == SumDetected(es, e) && SumTransformed(ds, e) == SumTransformed(es, e)
    ensures AllValues(ds, e) == AllValues(es, e)
  {
  }

  lemma RowsSame(p: PolicySettings, rab: bool, ds: seq<PlanData>, es: seq<PlanData>, names: seq<string>)
    requires SameSums(ds, es)
    ensures RowsFor(p, rab, ds, names) == RowsFor(p, rab, es, names)
  {
    forall i | 0 <= i < |names| ensures RowFor(p, rab, ds, names[i]) == RowFor(p, rab, es, names[i]) {
      assert SumsOf(ds, names[i]) == SumsOf(es, names[i]);
      SumsFields(ds, es, names[i]);
    }
  }

  lemma TotalsSame(p: PolicySettings, rab: bool, ds: seq<PlanData>, es: seq<PlanData>)
    requires SameSums(ds, es)
    ensures TotalsOf(p, rab, ds) == TotalsOf(p, rab, es)
    ensures AnyBlocked(ds) == AnyBlocked(es) && AllRerouted(ds) == AllRerouted(es)
  {
    assert SumsOf(ds, "") == SumsOf(es, "");
    SumsFields(ds, es, "");
    RowsSame(p, rab, ds, es, SortedNames(TotalCounts(ds).Keys));
  }

  lemma PlansPermuted(
    p: PolicySettings, rab: bool, s1: seq<Segment>, f1: seq<seq<Match>>, s2: seq<Segment>, f2: seq<seq<Match>>)
    requires |s1| == |f1| && |s2| == |f2| && Permuted(s1, f1, s2, f2)
    ensures SameSums(Plans(p, rab, s1, f1), Plans(p, rab, s2, f2))
  {
    forall e ensures SumsOf(Plans(p, rab, s1, f1), e) == SumsOf(Plans(p, rab, s2, f2), e) {
      SumsPermuted(p, rab, false, Plans(p, rab, s1, f1), Plans(p, rab, s2, f2), Leaves(s1, f1), Leaves(s2, f2), e);
    }
  }

  lemma RewrittenOutlined(v: Service, nonce: string, rab: bool, segments: seq<Segment>, found: seq<seq<Match>>)
    requires |segments| == |found| && AllFit(Plans(v.policy, rab, segments, found))
    requires TransformAll(v, nonce, Plans(v.policy, rab, segments, found)).Some?
    ensures Outlined(v.policy, rab, true, TransformAll(v, nonce, Plans(v.policy, rab, segments, found)).value.0,
              Leaves(segments, found))
  {
    var ds := Plans(v.policy, rab, segments, found);
    TransformAllLength(v, nonce, ds);
    forall i | 0 <= i < |ds|
      ensures OutlineOf(TransformAll(v, nonce, ds).value.0[i]) ==
                RewrittenLeaf(v.policy, rab, Leaves(segments, found)[i])
    {
      TransformAllEach(v, nonce, ds, i);
      TransformedOutline(Context(v.policy, v.ops, nonce, i), ds[i]);
    }
  }

  lemma RewrittenPermuted(
    v: Service, n1: string, n2: string, rab: bool, s1: seq<Segment>, f1: seq<seq<Match>>, s2: seq<Segment>,
    f2: seq<seq<Match>>)
    requires |s1| == |f1| && |s2| == |f2| && Permuted(s1, f1, s2, f2)
    requires AllFit(Plans(v.policy, rab, s1, f1)) && TransformAll(v, n1, Plans(v.policy, rab, s1, f1)).Some?
    requires AllFit(Plans(v.policy, rab, s2, f2)) && TransformAll(v, n2, Plans(v.policy, rab, s2, f2)).Some?
    ensures SameSums(TransformAll(v, n1, Plans(v.policy, rab, s1, f1)).value.0,
              TransformAll(v, n2, Plans(v.policy, rab, s2, f2)).value.0)
  {
    var t1 := TransformAll(v, n1, Plans(v.policy, rab, s1, f1)).value.0;
    var t2 := TransformAll(v, n2, Plans(v.policy, rab, s2, f2)).value.0;
    RewrittenOutlined(v, n1, rab, s1, f1);
    RewrittenOutlined(v, n2, rab, s2, f2);
    forall e ensures SumsOf(t1, e) == SumsOf(t2, e) {
      SumsPermuted(v.policy, rab, true, t1, t2, Leaves(s1, f1), Leaves(s2, f2), e);
    }
  }

  // ---- the same outcome for any order of segments ----

  /** Everything of a result but its segments, its reversal map and a route chosen from the segments' texts. */
  ghost predicate SameOutcome(w: Result, x: Result) {
    && x == w.(segments := x.segments, reversal := x.reversal, routeClass := x.routeClass)
    && (w.segments.Some? <==> x.segments.Some?)
    && (w.decision == Rerouted ==> x.routeClass == w.routeClass)
  }

  lemma PermutedLeaves(s1: seq<Segment>, f1: seq<seq<Match>>, s2: seq<Segment>, f2: seq<seq<Match>>)
    requires |s1| == |f1| && |s2| == |f2| && Permuted(s1, f1, s2, f2)
    ensures |s1| == |s2| && LeavesAmong(s1, f1, s2, f2)
    ensures AllValid(s1, f1) ==> AllValid(s2, f2)
  {
    var l1, l2 := Leaves(s1, f1), Leaves(s2, f2);
    assert |l1| == |multiset(l1)| == |multiset(l2)| == |l2|;
    forall i | 0 <= i < |s1| ensures HasLeaf(s2, f2, s1[i], f1[i]) {
      assert l1[i] in multiset(l2);
      var j :| 0 <= j < |l2| && l2[j] == l1[i];
    }
    forall j | 0 <= j < |s2| && AllValid(s1, f1) ensures ValidSpans(f2[j], |s2[j].text|) {
      assert l2[j] in multiset(l1);
      var i :| 0 <= i < |l1| && l1[i] == l2[j];
      assert ValidSpans(f1[i], |s1[i].text|);
    }
  }

  /** The two plans of one request in two orders. */
  ghost predicate SamePlans(p: PolicySettings, ds: seq<PlanData>, es: seq<PlanData>) {
    && SameSums(ds, es) && |ds| == |es|
    && ResolveRouteClass(p, AllRerouted(ds), LeafRoutes(ds)) == ResolveRouteClass(p, AllRerouted(es), LeafRoutes(es))
  }

  lemma SameBlocks(p: PolicySettings, ds: seq<PlanData>, es: seq<PlanData>, faceRoute: Option<string>)
    requires SamePlans(p, ds, es)
    ensures Blocks(p, ds, faceRoute) == Blocks(p, es, faceRoute)
    ensures ChosenRoute(p, ds, faceRoute) == ChosenRoute(p, es, faceRoute)
  {
    TotalsSame(p, false, ds, es);
  }

  lemma SuccessSame(
    v: Service, r: SegmentRequest, x: SegmentRequest, ts: seq<PlanData>, us: seq<PlanData>, m1: map<string, string>,
    m2: map<string, string>, route: Option<string>)
    requires |ts| == |r.segments| == |us| == |x.segments| && x.kind == r.kind && SameSums(ts, us)
    ensures SameOutcome(Success(v, r, ts, m1, route), Success(v, x, us, m2, route))
  {
    TotalsSame(v.policy, r.kind == Mcp, ts, us);
  }

  lemma DecideSame(
    v: Service, r: SegmentRequest, x: SegmentRequest, ds: seq<PlanData>, es: seq<PlanData>, n1: string, n2: string,
    faceRoute: Option<string>)
    requires AllFit(ds) && AllFit(es) && |ds| == |r.segments| && |es| == |x.segments| && x.kind == r.kind
    requires SamePlans(v.policy, ds, es)
    requires TransformAll(v, n1, ds).Some? && TransformAll(v, n2, es).Some? ==>
               SameSums(TransformAll(v, n1, ds).value.0, TransformAll(v, n2, es).value.0)
    requires Decide(v, r, ds, n1, faceRoute).Ok? && Decide(v, x, es, n2, faceRoute).Ok?
    ensures SameOutcome(Decide(v, r, ds, n1, faceRoute).value, Decide(v, x, es, n2, faceRoute).value)
  {
    SameBlocks(v.policy, ds, es, faceRoute);
    TransformAllLength(v, n1, ds);
    TransformAllLength(v, n2, es);
    DecideCases(v, r, ds, n1, faceRoute);
    DecideCases(v, x, es, n2, faceRoute);
    if Blocks(v.policy, ds, faceRoute) {
      TotalsSame(v.policy, r.kind == Mcp, ds, es);
    } else {
      var t, u := TransformAll(v, n1, ds).value, TransformAll(v, n2, es).value;
      SuccessSame(v, r, x, t.0, u.0, t.1, u.1, ChosenRoute(v.policy, ds, faceRoute));
    }
  }

  lemma PlansSame(
    p: PolicySettings, rab: bool, s1: seq<Segment>, f1: seq<seq<Match>>, s2: seq<Segment>, f2: seq<seq<Match>>)
    requires ValidPolicy(p) && |s1| == |f1| && |s2| == |f2| && Permuted(s1, f1, s2, f2) && AllValid(s1, f1)
    requires AllValid(s2, f2)
    ensures SamePlans(p, Plans(p, rab, s1, f1), Plans(p, rab, s2, f2))
  {
    PlansPermuted(p, rab, s1, f1, s2, f2);
    PermutedLeaves(s1, f1, s2, f2);
    PermutedLeaves(s2, f2, s1, f1);
    RouteIgnoresSegmentOrder(p, rab, s1, f1, s2, f2);
  }

  lemma TextSame(
    v: Service, r: SegmentRequest, f1: seq<seq<Match>>, n1: string, x: SegmentRequest, f2: seq<seq<Match>>, n2: string,
    faceRoute: Option<string>)
    requires ValidPolicy(v.policy) && |f1| == |r.segments| && |f2| == |x.segments| && x.kind == r.kind
    requires Permuted(r.segments, f1, x.segments, f2)
    requires AnalyzeText(v, r, f1, n1, faceRoute).Ok? && AnalyzeText(v, x, f2, n2, faceRoute).Ok?
    ensures SameOutcome(AnalyzeText(v, r, f1, n1, faceRoute).value, AnalyzeText(v, x, f2, n2, faceRoute).value)
  {
    var p, rab := v.policy, r.kind == Mcp;
    PreparedFits(p, rab, r.segments, f1);
    PreparedFits(p, rab, x.segments, f2);
    PlansSame(p, rab, r.segments, f1, x.segments, f2);
    var ds, es := Plans(p, rab, r.segments, f1), Plans(p, rab, x.segments, f2);
    if TransformAll(v, n1, ds).Some? && TransformAll(v, n2, es).Some? {
      RewrittenPermuted(v, n1, n2, rab, r.segments, f1, x.segments, f2);
    }
    DecideSame(v, r, x, ds, es, n1, n2, faceRoute);
  }

  // ---- before and after text ----

  function AddLength(n: int, l: Leaf): int { n + |l.0.text| }

  lemma {:induction false} CharactersAreFold(segments: seq<Segment>, found: seq<seq<Match>>)
    requires |segments| == |found|
    ensures CharacterCount(segments) == Fold(0, Leaves(segments, found), AddLength)
    decreases |segments|
  {
    if segments != [] {
      var n := |segments| - 1;
      CharactersAreFold(segments[..n], found[..n]);
      assert Leaves(segments, found)[..n] == Leaves(segments[..n], found[..n]);
    }
  }

  lemma LengthsCommute()
    ensures Commutes(AddLength)
  {
  }

  lemma SameNumber(s1: seq<Segment>, f1: seq<seq<Match>>, s2: seq<Segment>, f2: seq<seq<Match>>)
    requires |s1| == |f1| && |s2| == |f2| && Permuted(s1, f1, s2, f2)
    ensures |s1| == |s2|
  {
    var l1, l2 := Leaves(s1, f1), Leaves(s2, f2);
    assert |l1| == |multiset(l1)| == |multiset(l2)| == |l2|;
  }

  lemma SameSize(s1: seq<Segment>, f1: seq<seq<Match>>, s2: seq<Segment>, f2: seq<seq<Match>>)
    requires |s1| == |f1| && |s2| == |f2| && Permuted(s1, f1, s2, f2)
    ensures |s1| == |s2| && CharacterCount(s1) == CharacterCount(s2)
  {
    SameNumber(s1, f1, s2, f2);
    CharactersAreFold(s1, f1);
    CharactersAreFold(s2, f2);
    LengthsCommute();
    FoldPermuted(0, Leaves(s1, f1), Leaves(s2, f2), AddLength);
  }

  /** Safety rules look at what segments say, not at their order. */
  ghost predicate SameRequest(
    v: Service, r: SegmentRequest, f1: seq<seq<Match>>, x: SegmentRequest, f2: seq<seq<Match>>) {
    && x == r.(segments := x.segments) && |f1| == |r.segments| && |f2| == |x.segments|
    && Permuted(r.segments, f1, x.segments, f2) && v.safety(r.segments) == v.safety(x.segments)
  }

  lemma PreflightSame(v: Service, r: SegmentRequest, f1: seq<seq<Match>>, x: SegmentRequest, f2: seq<seq<Match>>)
    requires SameRequest(v, r, f1, x, f2)
    ensures Preflight(v, r) == Preflight(v, x)
  {
    SameSize(r.segments, f1, x.segments, f2);
  }

  lemma BeforeVisualSame(
    v: Service, r: SegmentRequest, f1: seq<seq<Match>>, n1: string, x: SegmentRequest, f2: seq<seq<Match>>, n2: string)
    requires ValidPolicy(v.policy) && SameRequest(v, r, f1, x, f2)
    requires BeforeVisual(v, r, f1, n1).Ok? && BeforeVisual(v, x, f2, n2).Ok?
    ensures SameOutcome(BeforeVisual(v, r, f1, n1).value, BeforeVisual(v, x, f2, n2).value)
  {
    PreflightSame(v, r, f1, x, f2);
    SameSize(r.segments, f1, x.segments, f2);
    if Preflight(v, r).value.None? && (r.visual.Some? ==> FacesPass(v.policy, r) && r.textPiiEnabled) {
      TextSame(v, r, f1, n1, x, f2, n2, FaceRoute(v.policy, r));
    }
  }

  lemma EvidenceSame(w: Result, x: Result, action: Action, count: nat)
    requires SameOutcome(w, x)
    ensures SameOutcome(FaceEvidence(w, action, count), FaceEvidence(x, action, count))
  {
    var e, f := FaceEvidence(w, action, count), FaceEvidence(x, action, count);
    assert x.entityCounts == w.entityCounts && x.rows == w.rows;
    assert f.entities == e.entities && f.rows == e.rows && f.entityCounts == e.entityCounts;
  }

  lemma RoutingSame(p: PolicySettings, w: Result, x: Result, action: Action, faceRoute: Option<string>)
    requires SameOutcome(w, x)
    ensures SameOutcome(FaceRouting(p, w, action, faceRoute), FaceRouting(p, x, action, faceRoute))
  {
    if action == Reroute {
    } else if action == TextOnly {
    }
  }

  lemma FacesSame(p: PolicySettings, w: Result, x: Result, count: nat, faceRoute: Option<string>)
    requires SameOutcome(w, x)
    ensures SameOutcome(WithFaces(p, w, count, faceRoute), WithFaces(p, x, count, faceRoute))
  {
    var action := FaceActionFor(p, w);
    EvidenceSame(w, x, action, count);
    RoutingSame(p, FaceEvidence(w, action, count), FaceEvidence(x, action, count), action, faceRoute);
  }

  /**
   * Reordering the segments of a request, with their findings, changes no decision, count, report row,
   * applied action, overlap count, notice or reroute class, with or without faces and under any nonce.
   */
  lemma AnalysisIgnoresSegmentOrder(
    v: Service, r: SegmentRequest, f1: seq<seq<Match>>, n1: string, x: SegmentRequest, f2: seq<seq<Match>>, n2: string)
    requires ValidPolicy(v.policy) && SameRequest(v, r, f1, x, f2)
    requires AnalyzeSegments(v, r, f1, n1).Ok? && AnalyzeSegments(v, x, f2, n2).Ok?
    ensures SameOutcome(AnalyzeSegments(v, r, f1, n1).value, AnalyzeSegments(v, x, f2, n2).value)
  {
    BeforeVisualSame(v, r, f1, n1, x, f2, n2);
    if r.visual.Some? && FaceCount(r.visual.value) > 0 {
      FacesSame(
        v.policy, BeforeVisual(v, r, f1, n1).value, BeforeVisual(v, x, f2, n2).value, FaceCount(r.visual.value),
        FaceRoute(v.policy, r));
    }
  }

  // ---- the decision as a join with the face action ----

  /** Some scanned match resolves at least this strictly. */
  ghost predicate TextReaches(p: PolicySettings, r: SegmentRequest, found: seq<seq<Match>>, level: int) {
    (r.visual.Some? ==> r.textPiiEnabled) && SomeDetected(p, r.kind == Mcp, found, level)
  }

  /** Faces were found and this is the action for them. */
  predicate FacesAre(p: PolicySettings, r: SegmentRequest, action: Action) {
    r.visual.Some? && FaceCount(r.visual.value) > 0 && p.faceAction == action
  }

  /** A region is rerouted to another route than the faces. */
  ghost predicate PlansConflict(p: PolicySettings, r: SegmentRequest, found: seq<seq<Match>>)
    requires |found| == |r.segments|
  {
    && (r.visual.Some? ==> r.textPiiEnabled)
    && FaceRouteConflicts(p, FaceRoute(p, r), AllRerouted(Plans(p, r.kind == Mcp, r.segments, found)))
  }

  /** Block, else reroute, else actions, else pass. */
  function Join(blocks: bool, reroutes: bool, acts: bool): Decision {
    if blocks then Blocked else if reroutes then Rerouted else if acts then ApplyActions else PassThrough
  }

  ghost function DecisionAtLevels(p: PolicySettings, r: SegmentRequest, found: seq<seq<Match>>): Decision
    requires |found| == |r.segments|
  {
    Join(
      (r.visual.Some? && r.visual.value.scanStatus == ScanFailed) || FacesAre(p, r, Block)
      || TextReaches(p, r, found, 9) || PlansConflict(p, r, found),
      FacesAre(p, r, Reroute) || TextReaches(p, r, found, 8),
      FacesAre(p, r, TextOnly) || TextReaches(p, r, found, 2))
  }

  /** Text analysed beside rerouted faces: blocked over a match or a conflicting route, else rerouted. */
  lemma RoutedText(v: Service, r: SegmentRequest, found: seq<seq<Match>>, nonce: string, faceRoute: Option<string>)
    requires ValidPolicy(v.policy) && |found| == |r.segments| && faceRoute.Some?
    requires AnalyzeText(v, r, found, nonce, faceRoute).Ok?
    ensures var p, rab := v.policy, r.kind == Mcp;
            var conflict := FaceRouteConflicts(p, faceRoute, AllRerouted(Plans(p, rab, r.segments, found)));
            AnalyzeText(v, r, found, nonce, faceRoute).value.decision ==
            if SomeDetected(p, rab, found, 9) || conflict then Blocked else Rerouted
  {
    var p, rab := v.policy, r.kind == Mcp;
    var ds := Plans(p, rab, r.segments, found);
    PlansSound(p, rab, r.segments, found);
    LevelOfEntities(p, rab, r.segments, found, 9);
    BlockedIffLevel(p, rab, ds, r.segments);
    RoutedDecision(v, r, ds, nonce, faceRoute);
  }

  lemma RoutedDecision(v: Service, r: SegmentRequest, ds: seq<PlanData>, nonce: string, faceRoute: Option<string>)
    requires AllFit(ds) && |ds| == |r.segments| && faceRoute.Some? && Decide(v, r, ds, nonce, faceRoute).Ok?
    ensures Decide(v, r, ds, nonce, faceRoute).value.decision == if Blocks(v.policy, ds, faceRoute) then Blocked
            else Rerouted
  {
    TransformAllLength(v, nonce, ds);
    DecideCases(v, r, ds, nonce, faceRoute);
  }

  /** Adding faces raises a decision to what their action asks for. */
  lemma FacesRaise(p: PolicySettings, w: Result, count: nat, faceRoute: Option<string>)
    ensures WithFaces(p, w, count, faceRoute).decision ==
            if w.decision == Blocked then Blocked
            else if p.faceAction == Reroute then Rerouted
            else if p.faceAction == TextOnly && w.decision == PassThrough then ApplyActions
            else w.decision
  {
    Response.WithFacesFaced(p, w, count, faceRoute);
  }

  /** What analysis decides before faces are added, past the preflight checks. */
  lemma BeforeFaces(v: Service, r: SegmentRequest, found: seq<seq<Match>>, nonce: string)
    requires ValidPolicy(v.policy) && |found| == |r.segments| && Preflight(v, r) == Ok(None)
    requires (r.visual.Some? ==> FacesPass(v.policy, r)) && BeforeVisual(v, r, found, nonce).Ok?
    ensures var p, decision := v.policy, BeforeVisual(v, r, found, nonce).value.decision;
            && (decision == Blocked <==> TextReaches(p, r, found, 9) || PlansConflict(p, r, found))
            && (decision != Blocked && FaceRoute(p, r).None? ==>
                  decision == if TextReaches(p, r, found, 8) then Rerouted
                              else if TextReaches(p, r, found, 2) then ApplyActions else PassThrough)
  {
    if r.visual.None? || r.textPiiEnabled {
      if FaceRoute(v.policy, r).Some? {
        RoutedText(v, r, found, nonce, FaceRoute(v.policy, r));
      } else {
        DecisionByLevel(v, r, found, nonce);
      }
    }
  }

  /** From the decision before faces to the join. */
  lemma FacesJoin(
    p: PolicySettings, r: SegmentRequest, blocks: bool, reroutes: bool, acts: bool, before: Decision, final: Decision)
    requires ValidPolicy(p) && (r.visual.Some? ==> FacesPass(p, r))
    requires before == Blocked <==> blocks
    requires before != Blocked && FaceRoute(p, r).None? ==> before == Join(blocks, reroutes, acts)
    requires final ==
             if r.visual.None? || FaceCount(r.visual.value) == 0 then before
             else if before == Blocked then Blocked
             else if p.faceAction == Reroute then Rerouted
             else if p.faceAction == TextOnly && before == PassThrough then ApplyActions
             else before
    ensures !FacesAre(p, r, Block)
    ensures final == Join(blocks, FacesAre(p, r, Reroute) || reroutes, FacesAre(p, r, TextOnly) || acts)
  {
  }

  lemma RaisedDecision(v: Service, r: SegmentRequest, found: seq<seq<Match>>, nonce: string)
    requires |found| == |r.segments| && AnalyzeSegments(v, r, found, nonce).Ok?
    ensures BeforeVisual(v, r, found, nonce).Ok?
    ensures var before := BeforeVisual(v, r, found, nonce).value.decision;
            AnalyzeSegments(v, r, found, nonce).value.decision ==
            if r.visual.None? || FaceCount(r.visual.value) == 0 then before
            else if before == Blocked then Blocked
            else if v.policy.faceAction == Reroute then Rerouted
            else if v.policy.faceAction == TextOnly && before == PassThrough then ApplyActions
            else before
  {
    if r.visual.Some? {
      FacesRaise(v.policy, BeforeVisual(v, r, found, nonce).value, FaceCount(r.visual.value), FaceRoute(v.policy, r));
    }
  }

  lemma FacesBlock(v: Service, r: SegmentRequest, found: seq<seq<Match>>, nonce: string)
    requires |found| == |r.segments| && Preflight(v, r) == Ok(None) && r.visual.Some? && !FacesPass(v.policy, r)
    ensures BeforeVisual(v, r, found, nonce).Ok? && BeforeVisual(v, r, found, nonce).value.decision == Blocked
    ensures DecisionAtLevels(v.policy, r, found) == Blocked
  {
  }

  lemma DecisionByLevels(v: Service, r: SegmentRequest, found: seq<seq<Match>>, nonce: string)
    requires ValidPolicy(v.policy) && |found| == |r.segments| && Preflight(v, r) == Ok(None)
    requires AnalyzeSegments(v, r, found, nonce).Ok?
    ensures AnalyzeSegments(v, r, found, nonce).value.decision == DecisionAtLevels(v.policy, r, found)
  {
    RaisedDecision(v, r, found, nonce);
    if r.visual.Some? && !FacesPass(v.policy, r) {
      FacesBlock(v, r, found, nonce);
    } else {
      BeforeFaces(v, r, found, nonce);
      FacesJoin(
        v.policy, r, TextReaches(v.policy, r, found, 9) || PlansConflict(v.policy, r, found),
        TextReaches(v.policy, r, found, 8), TextReaches(v.policy, r, found, 2),
        BeforeVisual(v, r, found, nonce).value.decision, AnalyzeSegments(v, r, found, nonce).value.decision);
    }
  }

  /** Some scanned match resolves to this action. */
  ghost predicate TextFinds(p: PolicySettings, r: SegmentRequest, found: seq<seq<Match>>, a: Action) {
    (r.visual.Some? ==> r.textPiiEnabled) && Finds(p, r.kind == Mcp, found, a)
  }

  /** Some rerouted entity type goes elsewhere than the faces. */
  ghost predicate RoutesConflict(p: PolicySettings, r: SegmentRequest, found: seq<seq<Match>>) {
    (r.visual.Some? ==> r.textPiiEnabled) && GoesElsewhere(p, r, found)
  }

  ghost function JoinedDecision(p: PolicySettings, r: SegmentRequest, found: seq<seq<Match>>): Decision {
    Join(
      (r.visual.Some? && r.visual.value.scanStatus == ScanFailed) || FacesAre(p, r, Block)
      || TextFinds(p, r, found, Block) || RoutesConflict(p, r, found),
      FacesAre(p, r, Reroute) || TextFinds(p, r, found, Reroute),
      FacesAre(p, r, TextOnly) || TextActs(p, r, found))
  }

  /** Some scanned match resolves to more than pass. */
  ghost predicate TextActs(p: PolicySettings, r: SegmentRequest, found: seq<seq<Match>>) {
    (r.visual.Some? ==> r.textPiiEnabled) && FindsMore(p, r.kind == Mcp, found)
  }

  lemma TextLevels(p: PolicySettings, r: SegmentRequest, found: seq<seq<Match>>)
    requires ValidPolicy(p)
    ensures TextReaches(p, r, found, 9) <==> TextFinds(p, r, found, Block)
    ensures TextReaches(p, r, found, 8) <==> TextFinds(p, r, found, Block) || TextFinds(p, r, found, Reroute)
    ensures TextReaches(p, r, found, 2) <==> TextActs(p, r, found)
  {
    LevelsAreActions(p, r.kind == Mcp, found);
  }

  lemma JoinAgrees(blocks: bool, conflict: bool, reroutes: bool, acts: bool, b9: bool, b8: bool, b2: bool, block: bool,
                   reroute: bool)
    requires (b9 <==> block) && (b8 <==> block || reroute)
    ensures Join(blocks || b9 || conflict, reroutes || b8, acts || b2) ==
            Join(blocks || block || conflict, reroutes || reroute, acts || b2)
  {
  }

  lemma LevelsJoin(p: PolicySettings, r: SegmentRequest, found: seq<seq<Match>>)
    requires ValidPolicy(p) && |found| == |r.segments|
    ensures DecisionAtLevels(p, r, found) == JoinedDecision(p, r, found)
  {
    TextLevels(p, r, found);
    ConflictIsElsewhere(p, r, found);
    JoinAgrees(
      (r.visual.Some? && r.visual.value.scanStatus == ScanFailed) || FacesAre(p, r, Block), RoutesConflict(p, r, found),
      FacesAre(p, r, Reroute), FacesAre(p, r, TextOnly), TextReaches(p, r, found, 9), TextReaches(p, r, found, 8),
      TextReaches(p, r, found, 2), TextFinds(p, r, found, Block), TextFinds(p, r, found, Reroute));
  }

  /**
   * Within the limits, without attachments and free of what safety rules reject, the decision is the join
   * of the face action and of every match of every leaf: block, else reroute, else actions, else pass. A
   * failed face scan blocks, and so do faces and text that would be rerouted to different places.
   */
  lemma DecisionWithFaces(v: Service, r: SegmentRequest, found: seq<seq<Match>>, nonce: string)
    requires ValidPolicy(v.policy) && |found| == |r.segments| && Analyzable(v, r)
    requires AnalyzeSegments(v, r, found, nonce).Ok?
    ensures AnalyzeSegments(v, r, found, nonce).value.decision == JoinedDecision(v.policy, r, found)
  {
    AnalyzableGoesOn(v, r);
    DecisionByLevels(v, r, found, nonce);
    LevelsJoin(v.policy, r, found);
  }
}
