/** Half-open intervals, the left-to-right grouping sweep, and the components of strict overlap. */
module Spans {
  import opened Ordering

  datatype Iv = Iv(lo: int, hi: int)

  function Max(a: int, b: int): int { if a < b then b else a }

  function Min(a: int, b: int): int { if b < a then b else a }

  predicate Overlap(a: Iv, b: Iv) {
    a.lo < b.hi && b.lo < a.hi
  }

  predicate Within(a: Iv, r: Iv) {
    r.lo <= a.lo && a.hi <= r.hi
  }

  predicate Straddles(a: Iv, p: int) {
    a.lo < p < a.hi
  }

  ghost predicate NonEmpty(S: set<Iv>) {
    forall a :: a in S ==> a.lo < a.hi
  }

  /** Non-empty, left to right, pairwise disjoint. */
  ghost predicate Tiles(regions: seq<Iv>) {
    && (forall k :: 0 <= k < |regions| ==> regions[k].lo < regions[k].hi)
    && (forall j, k :: 0 <= j < k < |regions| ==> regions[j].hi <= regions[k].lo)
  }

  /**
   * The regions cover S without slack and without a seam: every interval lies in a region, both
   * ends of a region are ends of intervals inside it, and each inner point is strictly straddled.
   */
  ghost predicate Components(S: set<Iv>, regions: seq<Iv>) {
    && Tiles(regions)
    && (forall a {:trigger Housed(a, regions)} :: a in S ==> Housed(a, regions))
    && (forall k {:trigger Tight(S, regions[k])} :: 0 <= k < |regions| ==> Tight(S, regions[k]))
    && (forall k {:trigger Seamless(S, regions[k])} :: 0 <= k < |regions| ==> Seamless(S, regions[k]))
  }

  ghost predicate Seamless(S: set<Iv>, r: Iv) {
    forall p {:trigger Bridged(S, p)} :: Straddles(r, p) ==> Bridged(S, p)
  }

  ghost predicate Housed(a: Iv, regions: seq<Iv>) {
    exists k :: 0 <= k < |regions| && Within(a, regions[k])
  }

  ghost predicate Tight(S: set<Iv>, r: Iv) {
    && (exists a :: a in S && a.lo == r.lo && a.hi <= r.hi)
    && (exists b :: b in S && b.hi == r.hi && r.lo <= b.lo)
  }

  ghost predicate Bridged(S: set<Iv>, p: int) {
    exists a :: a in S && Straddles(a, p)
  }

  // ---- one more interval, starting no earlier than those seen ----

  function Extend(regions: seq<Iv>, x: Iv): seq<Iv> {
    var n := |regions| - 1;
    if regions != [] && x.lo < regions[n].hi
    then regions[..n] + [Iv(regions[n].lo, Max(regions[n].hi, x.hi))]
    else regions + [x]
  }

  lemma ComponentsExtend(S: set<Iv>, regions: seq<Iv>, x: Iv)
    requires Components(S, regions) && NonEmpty(S) && x.lo < x.hi
    requires forall a :: a in S ==> a.lo <= x.lo
    ensures Components(S + {x}, Extend(regions, x))
  {
    var n, out, S' := |regions| - 1, Extend(regions, x), S + {x};
    if regions != [] {
      assert Tight(S, regions[n]);
      assert regions[n].lo <= x.lo;
    }
    ExtendTiles(regions, x);
    forall a | a in S' ensures Housed(a, out) {
      if a in S {
        var k := House(S, regions, a);
        ExtendHouses(regions, x, a, k);
      } else {
        assert Within(a, out[|out| - 1]);
      }
    }
    forall k | 0 <= k < |out| ensures Tight(S', out[k]) && Seamless(S', out[k]) {
      if k < |regions| {
        assert Tight(S, regions[k]) && Seamless(S, regions[k]);
        ExtendRegion(S, regions[k], x, out[k]);
      } else {
        assert x in S' && out[k] == x;
        forall p | Straddles(x, p) ensures Bridged(S', p) {}
      }
    }
  }

  lemma ExtendTiles(regions: seq<Iv>, x: Iv)
    requires Tiles(regions) && x.lo < x.hi
    requires regions != [] ==> regions[|regions| - 1].lo <= x.lo
    ensures Tiles(Extend(regions, x))
  {
    var n, out := |regions| - 1, Extend(regions, x);
    if regions != [] && x.lo < regions[n].hi {
      assert forall k :: 0 <= k < n ==> out[k] == regions[k];
    } else {
      assert forall k :: 0 <= k < |regions| ==> out[k] == regions[k];
      if regions != [] {
        assert forall k :: 0 <= k < |regions| ==> regions[k].hi <= regions[n].hi;
      }
    }
  }

  lemma ExtendHouses(regions: seq<Iv>, x: Iv, a: Iv, k: nat)
    requires k < |regions| && Within(a, regions[k])
    ensures Housed(a, Extend(regions, x))
  {
    assert Within(a, Extend(regions, x)[k]);
  }

  /** The region that holds an interval of S. */
  lemma House(S: set<Iv>, R: seq<Iv>, a: Iv) returns (k: nat)
    requires Components(S, R) && a in S
    ensures k < |R| && Within(a, R[k])
  {
    assert Housed(a, R);
    k :| 0 <= k < |R| && Within(a, R[k]);
  }

  lemma ExtendRegion(S: set<Iv>, r: Iv, x: Iv, out: Iv)
    requires Tight(S, r) && Seamless(S, r) && x.lo < x.hi && r.lo < r.hi
    requires out == r || (r.lo <= x.lo < r.hi && out == Iv(r.lo, Max(r.hi, x.hi)))
    ensures Tight(S + {x}, out) && Seamless(S + {x}, out)
  {
    forall p | Straddles(out, p) ensures Bridged(S + {x}, p) {
      if Straddles(r, p) {
        assert Bridged(S, p);
      } else {
        assert Straddles(x, p);
      }
    }
  }

  // ---- what the components determine ----

  /** No interval straddles an end of a region. */
  lemma NoCrossing(S: set<Iv>, R: seq<Iv>, i: nat, p: int)
    requires Components(S, R) && i < |R| && (p == R[i].lo || p == R[i].hi)
    ensures !Bridged(S, p)
  {
    forall b | b in S ensures !Straddles(b, p) {
      var j := House(S, R, b);
      assert j < i || j == i || i < j;
    }
  }

  lemma RegionShared(S: set<Iv>, R1: seq<Iv>, R2: seq<Iv>, i: nat)
    requires Components(S, R1) && Components(S, R2) && NonEmpty(S) && i < |R1|
    ensures R1[i] in R2
  {
    var r := R1[i];
    assert Tight(S, r) && Seamless(S, r);
    var a :| a in S && a.lo == r.lo && a.hi <= r.hi;
    var k := House(S, R2, a);
    assert Seamless(S, R2[k]);
    NoCrossing(S, R1, i, r.lo);
    NoCrossing(S, R1, i, r.hi);
    NoCrossing(S, R2, k, R2[k].hi);
  }

  /** The regions of a set of intervals are unique. */
  lemma ComponentsUnique(S: set<Iv>, R1: seq<Iv>, R2: seq<Iv>)
    requires Components(S, R1) && Components(S, R2) && NonEmpty(S)
    ensures R1 == R2
  {
    forall r ensures r in R1 <==> r in R2 {
      if r in R1 { var i :| 0 <= i < |R1| && R1[i] == r; RegionShared(S, R1, R2, i); }
      if r in R2 { var i :| 0 <= i < |R2| && R2[i] == r; RegionShared(S, R2, R1, i); }
    }
    var key := (r: Iv) => [Num(r.lo as real), Num(r.hi as real)];
    TilesSorted(R1, key);
    TilesSorted(R2, key);
    SortedUnique(R1, R2, key);
  }

  lemma TilesSorted(R: seq<Iv>, key: Iv -> Key)
    requires Tiles(R) && forall r :: key(r) == [Num(r.lo as real), Num(r.hi as real)]
    ensures Sorted(R, key) && NoDup(R) && KeyInjective(R, key)
  {
    forall j, k | 0 <= j < k < |R| ensures Leq(key(R[j]), key(R[k])) && R[j] != R[k] {
      assert R[j].lo < R[k].lo;
    }
    forall x: Iv, y: Iv | key(x) == key(y) ensures x == y {
      assert key(x)[0].n == key(y)[0].n && key(x)[1].n == key(y)[1].n;
    }
  }

  /** A point's character cell is inside some region exactly when some interval covers it. */
  lemma CoverageExact(S: set<Iv>, R: seq<Iv>, c: int)
    requires Components(S, R) && NonEmpty(S)
    ensures (exists k :: 0 <= k < |R| && R[k].lo <= c < R[k].hi) <==> (exists a :: a in S && a.lo <= c < a.hi)
  {
    if k :| 0 <= k < |R| && R[k].lo <= c < R[k].hi {
      assert Tight(S, R[k]) && Seamless(S, R[k]);
      assert c == R[k].lo || Bridged(S, c);
    }
    if a :| a in S && a.lo <= c < a.hi {
      var k := House(S, R, a);
      assert R[k].lo <= c < R[k].hi;
    }
  }

  // ---- connectivity by chains of strict overlap ----

  ghost predicate Chain(S: set<Iv>, path: seq<Iv>) {
    && |path| > 0
    && (forall i :: 0 <= i < |path| ==> path[i] in S)
    && (forall i :: 0 <= i < |path| - 1 ==> Overlap(path[i], path[i + 1]))
  }

  ghost predicate Connected(S: set<Iv>, a: Iv, b: Iv) {
    exists path :: Chain(S, path) && path[0] == a && path[|path| - 1] == b
  }

  lemma {:induction false} ChainStays(S: set<Iv>, R: seq<Iv>, path: seq<Iv>, k: nat)
    requires Components(S, R) && NonEmpty(S) && Chain(S, path) && k < |R| && Within(path[0], R[k])
    ensures Within(path[|path| - 1], R[k])
  {
    if |path| > 1 {
      var j := House(S, R, path[1]);
      assert Overlap(path[0], path[0 + 1]);
      assert j == k by {
        assert path[0] in S && path[1] in S;
        assert !(j < k) && !(k < j);
      }
      ChainStays(S, R, path[1..], k);
    }
  }

  lemma {:induction false} ChainRight(S: set<Iv>, R: seq<Iv>, a: Iv, b: Iv, k: nat) returns (path: seq<Iv>)
    requires Components(S, R) && NonEmpty(S) && k < |R| && a in S && b in S
    requires Within(a, R[k]) && Within(b, R[k]) && a.lo <= b.lo
    ensures Chain(S, path) && path[0] == a && path[|path| - 1] == b
    decreases Max(0, b.lo + 1 - a.hi)
  {
    if Overlap(a, b) {
      path := [a, b];
    } else {
      assert Seamless(S, R[k]) && Straddles(R[k], a.hi) && Bridged(S, a.hi);
      var m :| m in S && Straddles(m, a.hi);
      if Overlap(m, b) {
        path := [a, m, b];
      } else {
        var j := House(S, R, m);
        assert !(j < k) && !(k < j);
        var rest := ChainRight(S, R, m, b, k);
        path := [a] + rest;
      }
    }
  }

  lemma Reverses(S: set<Iv>, path: seq<Iv>) returns (back: seq<Iv>)
    requires Chain(S, path)
    ensures Chain(S, back) && back[0] == path[|path| - 1] && back[|back| - 1] == path[0]
  {
    back := seq(|path|, i requires 0 <= i < |path| => path[|path| - 1 - i]);
    forall i | 0 <= i < |back| - 1 ensures Overlap(back[i], back[i + 1]) {
      assert Overlap(path[|path| - 2 - i], path[|path| - 2 - i + 1]);
    }
  }

  /** Two intervals share a region exactly when a chain of strict overlaps joins them. */
  lemma ConnectedIffSameRegion(S: set<Iv>, R: seq<Iv>, a: Iv, b: Iv)
    requires Components(S, R) && NonEmpty(S) && a in S && b in S
    ensures Connected(S, a, b) <==> exists k :: 0 <= k < |R| && Within(a, R[k]) && Within(b, R[k])
  {
    var k := House(S, R, a);
    if path :| Chain(S, path) && path[0] == a && path[|path| - 1] == b {
      ChainStays(S, R, path, k);
    }
    if j :| 0 <= j < |R| && Within(a, R[j]) && Within(b, R[j]) {
      if a.lo <= b.lo {
        var path := ChainRight(S, R, a, b, j);
      } else {
        var path := ChainRight(S, R, b, a, j);
        var back := Reverses(S, path);
      }
      assert Connected(S, a, b);
    }
  }

  // ---- the sweep over a list sorted by start ----

  function MaxHi<T>(g: seq<T>, iv: T -> Iv): int
    requires g != []
  {
    var n := |g| - 1;
    if n == 0 then iv(g[0]).hi else Max(MaxHi(g[..n], iv), iv(g[n]).hi)
  }

  function MinLo<T>(g: seq<T>, iv: T -> Iv): int
    requires g != []
  {
    var n := |g| - 1;
    if n == 0 then iv(g[0]).lo else Min(MinLo(g[..n], iv), iv(g[n]).lo)
  }

  function Hull<T>(g: seq<T>, iv: T -> Iv): Iv
    requires g != []
  {
    Iv(MinLo(g, iv), MaxHi(g, iv))
  }

  /** Groups of a list sorted by start: an element joins the last group while it starts before its end. */
  function Sweep<T>(xs: seq<T>, iv: T -> Iv): (gs: seq<seq<T>>)
    ensures forall k :: 0 <= k < |gs| ==> gs[k] != []
  {
    if xs == [] then []
    else
      var n := |xs| - 1;
      var gs, x := Sweep(xs[..n], iv), xs[n];
      var m := |gs| - 1;
      if gs != [] && iv(x).lo < MaxHi(gs[m], iv) then gs[..m] + [gs[m] + [x]] else gs + [[x]]
  }

  /** The groups of a loop that has closed some groups and still holds one open. */
  ghost function Pending<T>(done: seq<seq<T>>, group: seq<T>): seq<seq<T>> {
    if group == [] then [] else done + [group]
  }

  ghost predicate Closed<T>(done: seq<seq<T>>, group: seq<T>) {
    && (forall k :: 0 <= k < |done| ==> done[k] != [])
    && (group == [] ==> done == [])
  }

  /** One step of the sweep, as a loop with an open group performs it. */
  lemma SweepNext<T(!new)>(xs: seq<T>, i: nat, done: seq<seq<T>>, group: seq<T>, iv: T -> Iv)
    requires i < |xs| && Closed(done, group) && Sweep(xs[..i], iv) == Pending(done, group)
    ensures Sweep(xs[..i + 1], iv) ==
            if group != [] && iv(xs[i]).lo >= MaxHi(group, iv) then
              done + [group] + [[xs[i]]] else done + [group + [xs[i]]]
  {
    assert xs[..i + 1][..i] == xs[..i];
    var gs, x := Sweep(xs[..i], iv), xs[i];
    if group != [] {
      assert gs[..|gs| - 1] == done && gs[|gs| - 1] == group;
    } else {
      assert group + [x] == [x];
      assert done + [group + [x]] == gs + [[x]];
    }
  }

  /** The loop has swept the first i elements; group is open and ends at end. */
  ghost predicate Grouped<T>(xs: seq<T>, i: nat, done: seq<seq<T>>, group: seq<T>, end: int, iv: T -> Iv) {
    && i <= |xs|
    && Closed(done, group)
    && Sweep(xs[..i], iv) == Pending(done, group)
    && (group != [] ==> end == MaxHi(group, iv))
  }

  lemma GroupedNext<T(!new)>(xs: seq<T>, i: nat, done: seq<seq<T>>, group: seq<T>, end: int, iv: T -> Iv)
    requires i < |xs| && Grouped(xs, i, done, group, end, iv)
    ensures var x := xs[i];
            if group != [] && iv(x).lo >= end then Grouped(xs, i + 1, done + [group], [x], iv(x).hi, iv)
            else Grouped(xs, i + 1, done, group + [x], Max(if group == [] then iv(x).hi else end, iv(x).hi), iv)
  {
    SweepNext(xs, i, done, group, iv);
    assert (group + [xs[i]])[..|group|] == group;
  }

  lemma GroupedAll<T(!new)>(xs: seq<T>, done: seq<seq<T>>, group: seq<T>, end: int, iv: T -> Iv)
    requires Grouped(xs, |xs|, done, group, end, iv)
    ensures Closed(done, group) && Sweep(xs, iv) == Pending(done, group)
  {
    assert xs[..|xs|] == xs;
  }

  function Hulls<T>(gs: seq<seq<T>>, iv: T -> Iv): (hs: seq<Iv>)
    requires forall k :: 0 <= k < |gs| ==> gs[k] != []
    ensures |hs| == |gs| && forall k :: 0 <= k < |gs| ==> hs[k] == Hull(gs[k], iv)
  {
    seq(|gs|, k requires 0 <= k < |gs| => Hull(gs[k], iv))
  }

  ghost predicate Ordered<T(!new)>(xs: seq<T>, iv: T -> Iv) {
    && (forall i :: 0 <= i < |xs| ==> iv(xs[i]).lo < iv(xs[i]).hi)
    && (forall i, j :: 0 <= i < j < |xs| ==> iv(xs[i]).lo <= iv(xs[j]).lo)
  }

  function IvSet<T>(xs: seq<T>, iv: T -> Iv): set<Iv> {
    set i | 0 <= i < |xs| :: iv(xs[i])
  }

  lemma {:induction false} HullBounds<T(!new)>(g: seq<T>, iv: T -> Iv)
    requires g != []
    ensures forall i :: 0 <= i < |g| ==> Within(iv(g[i]), Hull(g, iv))
    ensures exists i :: 0 <= i < |g| && iv(g[i]).lo == MinLo(g, iv)
    ensures exists i :: 0 <= i < |g| && iv(g[i]).hi == MaxHi(g, iv)
  {
    var n := |g| - 1;
    if n == 0 {
      assert iv(g[0]).lo == MinLo(g, iv) && iv(g[0]).hi == MaxHi(g, iv);
    } else {
      var f := g[..n];
      HullBounds(f, iv);
      var i :| 0 <= i < |f| && iv(f[i]).lo == MinLo(f, iv);
      var j :| 0 <= j < |f| && iv(f[j]).hi == MaxHi(f, iv);
      assert iv(g[i]).lo == MinLo(f, iv) && iv(g[j]).hi == MaxHi(f, iv);
      forall k | 0 <= k < |g| ensures Within(iv(g[k]), Hull(g, iv)) {
        if k < n { assert g[k] == f[k]; }
      }
    }
  }

  lemma IvSetSnoc<T(!new)>(xs: seq<T>, iv: T -> Iv)
    requires xs != [] && Ordered(xs, iv)
    ensures IvSet(xs, iv) == IvSet(xs[..|xs| - 1], iv) + {iv(xs[|xs| - 1])}
    ensures Ordered(xs[..|xs| - 1], iv) && NonEmpty(IvSet(xs[..|xs| - 1], iv))
    ensures forall a :: a in IvSet(xs[..|xs| - 1], iv) ==> a.lo <= iv(xs[|xs| - 1]).lo
  {
    var n := |xs| - 1;
    assert iv(xs[n]) in IvSet(xs, iv);
    assert forall i :: 0 <= i < n ==> xs[i] == xs[..n][i];
  }

  /** The sweep's hulls are the components of the swept intervals. */
  lemma {:induction false} SweepComponents<T(!new)>(xs: seq<T>, iv: T -> Iv)
    requires Ordered(xs, iv)
    ensures Components(IvSet(xs, iv), Hulls(Sweep(xs, iv), iv))
  {
    if xs == [] {
      assert IvSet(xs, iv) == {};
    } else {
      var n := |xs| - 1;
      IvSetSnoc(xs, iv);
      SweepComponents(xs[..n], iv);
      SweepStep(xs, IvSet(xs[..n], iv), iv);
    }
  }

  lemma SweepStep<T(!new)>(xs: seq<T>, S: set<Iv>, iv: T -> Iv)
    requires xs != [] && NonEmpty(S) && iv(xs[|xs| - 1]).lo < iv(xs[|xs| - 1]).hi
    requires forall a :: a in S ==> a.lo <= iv(xs[|xs| - 1]).lo
    requires Components(S, Hulls(Sweep(xs[..|xs| - 1], iv), iv))
    ensures Components(S + {iv(xs[|xs| - 1])}, Hulls(Sweep(xs, iv), iv))
  {
    var R := Hulls(Sweep(xs[..|xs| - 1], iv), iv);
    ComponentsExtend(S, R, iv(xs[|xs| - 1]));
    if R != [] {
      assert Tight(S, R[|R| - 1]);
    }
    SweepHulls(xs, iv);
  }

  lemma HullSnoc<T(!new)>(g: seq<T>, x: T, iv: T -> Iv)
    requires g != []
    ensures Hull(g + [x], iv) == Iv(Min(MinLo(g, iv), iv(x).lo), Max(MaxHi(g, iv), iv(x).hi))
  {
    assert (g + [x])[..|g|] == g;
  }

  lemma HullsSnoc<T(!new)>(gs: seq<seq<T>>, g: seq<T>, iv: T -> Iv)
    requires g != [] && forall k :: 0 <= k < |gs| ==> gs[k] != []
    ensures Hulls(gs + [g], iv) == Hulls(gs, iv) + [Hull(g, iv)]
  {
  }

  lemma HullsFront<T(!new)>(gs: seq<seq<T>>, iv: T -> Iv)
    requires gs != [] && forall k :: 0 <= k < |gs| ==> gs[k] != []
    ensures Hulls(gs, iv)[..|gs| - 1] == Hulls(gs[..|gs| - 1], iv)
    ensures Hulls(gs, iv)[|gs| - 1] == Hull(gs[|gs| - 1], iv)
  {
  }

  lemma SweepHulls<T(!new)>(xs: seq<T>, iv: T -> Iv)
    requires xs != []
    requires var gs := Sweep(xs[..|xs| - 1], iv); gs != [] ==> MinLo(gs[|gs| - 1], iv) <= iv(xs[|xs| - 1]).lo
    ensures Hulls(Sweep(xs, iv), iv) == Extend(Hulls(Sweep(xs[..|xs| - 1], iv), iv), iv(xs[|xs| - 1]))
  {
    var gs, x := Sweep(xs[..|xs| - 1], iv), xs[|xs| - 1];
    if gs == [] {
      assert Hulls(gs, iv) == [];
      assert Sweep(xs, iv) == gs + [[x]] == [[x]];
    } else {
      var m := |gs| - 1;
      HullsFront(gs, iv);
      if iv(x).lo < MaxHi(gs[m], iv) {
        HullsSnoc(gs[..m], gs[m] + [x], iv);
        HullSnoc(gs[m], x, iv);
      } else {
        HullsSnoc(gs, [x], iv);
      }
    }
  }

  ghost predicate InSome<T(!new)>(gs: seq<seq<T>>, x: T) { exists k :: 0 <= k < |gs| && x in gs[k] }

  lemma InSomeSnoc<T(!new)>(gs: seq<seq<T>>, g: seq<T>, x: T)
    ensures InSome(gs + [g], x) <==> InSome(gs, x) || x in g
  {
    var out := gs + [g];
    if k :| 0 <= k < |gs| && x in gs[k] { assert x in out[k]; }
    if x in g { assert x in out[|gs|]; }
    if k :| 0 <= k < |out| && x in out[k] { assert k == |gs| || x in gs[k]; }
  }

  lemma LastGroup<T>(gs: seq<seq<T>>)
    requires gs != []
    ensures gs == gs[..|gs| - 1] + [gs[|gs| - 1]]
  {
  }

  /** The groups split the list: an element is in some group exactly when it was swept. */
  lemma {:induction false} SweepMembers<T(!new)>(xs: seq<T>, iv: T -> Iv)
    ensures forall x :: x in xs <==> InSome(Sweep(xs, iv), x)
  {
    if xs != [] {
      var n := |xs| - 1;
      SweepMembers(xs[..n], iv);
      var gs := Sweep(xs[..n], iv);
      var m := |gs| - 1;
      forall x ensures x in xs <==> InSome(Sweep(xs, iv), x) {
        assert x in xs <==> x in xs[..n] || x == xs[n];
        if gs != [] && iv(xs[n]).lo < MaxHi(gs[m], iv) {
          LastGroup(gs);
          InSomeSnoc(gs[..m], gs[m], x);
          InSomeSnoc(gs[..m], gs[m] + [xs[n]], x);
        } else {
          InSomeSnoc(gs, [xs[n]], x);
        }
      }
    }
  }
}
