/** The worklist check of JSON bounds, and the recursive height and size it refines. */
module Traversal {
  import opened PolicyConfig

  datatype Json = Scalar | Arr(items: seq<Json>) | Obj(names: seq<string>, items: seq<Json>)

  datatype Verdict = Accepted | TooDeep | TooManyContainers | TooManyNodes

  // ---- the recursive definitions ----

  function Height(v: Json): nat {
    if v.Scalar? || v.items == [] then 0 else 1 + Highest(v.items)
  }

  function Highest(vs: seq<Json>): nat
    requires vs != []
  {
    if |vs| == 1 then Height(vs[0])
    else
      var first, rest := Height(vs[0]), Highest(vs[1..]);
      if first >= rest then first else rest
  }

  function Nodes(v: Json): nat {
    if v.Scalar? then 1 else 1 + AllNodes(v.items)
  }

  function AllNodes(vs: seq<Json>): nat {
    if vs == [] then 0 else Nodes(vs[0]) + AllNodes(vs[1..])
  }

  function Containers(v: Json): nat {
    if v.Scalar? then 0 else 1 + AllContainers(v.items)
  }

  function AllContainers(vs: seq<Json>): nat {
    if vs == [] then 0 else Containers(vs[0]) + AllContainers(vs[1..])
  }

  /** What the bounds mean: depth is judged before nodes. */
  function Expected(v: Json, maxDepth: nat, maxNodes: Option<nat>): Verdict {
    if Height(v) > maxDepth then TooDeep
    else if maxNodes.Some? && Nodes(v) > maxNodes.value then TooManyNodes
    else Accepted
  }

  // ---- the worklist ----

  /** A value still to visit, and its depth. */
  datatype Item = Item(value: Json, depth: nat)

  /** Nodes below the pending values. */
  function Below(pending: seq<Item>): nat {
    if pending == [] then 0 else Below(pending[..|pending| - 1]) + Nodes(pending[|pending| - 1].value) - 1
  }

  function ContainersIn(pending: seq<Item>): nat {
    if pending == [] then 0 else ContainersIn(pending[..|pending| - 1]) + Containers(pending[|pending| - 1].value)
  }

  function Work(pending: seq<Item>): nat {
    if pending == [] then 0 else Work(pending[..|pending| - 1]) + Nodes(pending[|pending| - 1].value)
  }

  ghost predicate Reaches(pending: seq<Item>, maxDepth: nat) {
    exists i :: 0 <= i < |pending| && pending[i].depth + Height(pending[i].value) > maxDepth
  }

  function Nested(vs: seq<Json>, depth: nat): seq<Item> {
    if vs == [] then []
    else if vs[0].Scalar? then Nested(vs[1..], depth)
    else [Item(vs[0], depth)] + Nested(vs[1..], depth)
  }

  lemma PushOne(pending: seq<Item>, x: Item)
    ensures Below(pending + [x]) == Below(pending) + Nodes(x.value) - 1
    ensures ContainersIn(pending + [x]) == ContainersIn(pending) + Containers(x.value)
    ensures Work(pending + [x]) == Work(pending) + Nodes(x.value)
  {
    assert (pending + [x])[..|pending|] == pending;
  }

  /** Pushing the nested containers of a value: its scalars have nothing below them. */
  lemma {:induction false} PushNested(pending: seq<Item>, vs: seq<Json>, depth: nat)
    ensures Below(pending + Nested(vs, depth)) + |vs| == Below(pending) + AllNodes(vs)
    ensures ContainersIn(pending + Nested(vs, depth)) == ContainersIn(pending) + AllContainers(vs)
    ensures Work(pending + Nested(vs, depth)) <= Work(pending) + AllNodes(vs)
    decreases |vs|
  {
    if vs == [] {
      assert pending + [] == pending;
    } else if vs[0].Scalar? {
      PushNested(pending, vs[1..], depth);
    } else {
      var x := Item(vs[0], depth);
      PushOne(pending, x);
      PushNested(pending + [x], vs[1..], depth);
      assert pending + [x] + Nested(vs[1..], depth) == pending + ([x] + Nested(vs[1..], depth));
    }
  }

  lemma {:induction false} NestedDepths(vs: seq<Json>, depth: nat, maxDepth: nat)
    requires depth <= maxDepth
    ensures vs != [] ==> (Reaches(Nested(vs, depth), maxDepth) <==> depth + Highest(vs) > maxDepth)
    ensures vs == [] ==> Nested(vs, depth) == []
  {
    if vs != [] {
      var rest := Nested(vs[1..], depth);
      NestedDepths(vs[1..], depth, maxDepth);
      if !vs[0].Scalar? {
        ReachesConcat([Item(vs[0], depth)], rest, maxDepth);
        assert [Item(vs[0], depth)][0].depth + Height(vs[0]) > maxDepth <==> Reaches([Item(vs[0], depth)], maxDepth);
      }
      if |vs| == 1 {
        assert vs[1..] == [];
      }
    }
  }

  lemma ReachesConcat(a: seq<Item>, b: seq<Item>, maxDepth: nat)
    ensures Reaches(a + b, maxDepth) <==> Reaches(a, maxDepth) || Reaches(b, maxDepth)
  {
    var both := a + b;
    if i :| 0 <= i < |a| && a[i].depth + Height(a[i].value) > maxDepth { assert both[i] == a[i]; }
    if i :| 0 <= i < |b| && b[i].depth + Height(b[i].value) > maxDepth { assert both[|a| + i] == b[i]; }
  }

  lemma ReachesLast(pending: seq<Item>, x: Item, maxDepth: nat)
    ensures Reaches(pending + [x], maxDepth) <==> Reaches(pending, maxDepth) || x.depth + Height(x.value) > maxDepth
  {
    ReachesConcat(pending, [x], maxDepth);
    assert [x][0].depth + Height(x.value) > maxDepth <==> Reaches([x], maxDepth);
  }

  /** Visiting a container that is not at the depth limit moves everything about it to its nested containers. */
  lemma Visit(pending: seq<Item>, x: Item, maxDepth: nat)
    requires !x.value.Scalar? && x.depth <= maxDepth && !(x.value.items != [] && x.depth == maxDepth)
    ensures var next := pending + Nested(x.value.items, x.depth + 1);
            && Below(next) + |x.value.items| == Below(pending + [x])
            && ContainersIn(next) + 1 == ContainersIn(pending + [x])
            && Work(next) < Work(pending + [x])
            && (Reaches(next, maxDepth) <==> Reaches(pending + [x], maxDepth))
  {
    PushOne(pending, x);
    PushNested(pending, x.value.items, x.depth + 1);
    ReachesLast(pending, x, maxDepth);
    ReachesConcat(pending, Nested(x.value.items, x.depth + 1), maxDepth);
    if x.value.items != [] {
      NestedDepths(x.value.items, x.depth + 1, maxDepth);
    }
  }

  /** Everything already visited fits, and what is pending accounts for the rest. */
  ghost predicate Accounts(v: Json, pending: seq<Item>, nodes: nat, checked: nat, maxDepth: nat) {
    && nodes + Below(pending) == Nodes(v)
    && checked + ContainersIn(pending) == Containers(v)
    && (Reaches(pending, maxDepth) <==> Height(v) > maxDepth)
  }

  lemma StartAccounts(v: Json, maxDepth: nat)
    ensures Accounts(v, [Item(v, 0)], 1, 0, maxDepth)
  {
    PushOne([], Item(v, 0));
    ReachesLast([], Item(v, 0), maxDepth);
    assert [] + [Item(v, 0)] == [Item(v, 0)];
  }

  lemma SkipAccounts(v: Json, pending: seq<Item>, x: Item, nodes: nat, checked: nat, maxDepth: nat)
    requires Accounts(v, pending + [x], nodes, checked, maxDepth) && x.value.Scalar? && x.depth <= maxDepth
    ensures Accounts(v, pending, nodes, checked, maxDepth) && Work(pending) < Work(pending + [x])
  {
    PushOne(pending, x);
    ReachesLast(pending, x, maxDepth);
  }

  lemma VisitAccounts(v: Json, pending: seq<Item>, x: Item, nodes: nat, checked: nat, maxDepth: nat)
    requires Accounts(v, pending + [x], nodes, checked, maxDepth) && !x.value.Scalar? && x.depth <= maxDepth
    requires !(x.value.items != [] && x.depth == maxDepth)
    ensures Accounts(v, pending + Nested(x.value.items, x.depth + 1), nodes + |x.value.items|, checked + 1, maxDepth)
    ensures Work(pending + Nested(x.value.items, x.depth + 1)) < Work(pending + [x])
  {
    Visit(pending, x, maxDepth);
  }

  lemma LastItem(pending: seq<Item>, maxDepth: nat)
    requires pending != []
    ensures var x := pending[|pending| - 1];
            && pending == pending[..|pending| - 1] + [x]
            && (x.depth + Height(x.value) > maxDepth ==> Reaches(pending, maxDepth))
            && (!x.value.Scalar? ==> ContainersIn(pending) >= 1)
  {
  }

  lemma {:induction false} NothingReached(maxDepth: nat)
    ensures !Reaches([], maxDepth) && Below([]) == 0 && ContainersIn([]) == 0
  {
  }

  /**
   * Walk a value with an explicit stack. Within the container cap the verdict is exactly the recursive
   * one, depth before nodes; beyond the cap nothing is accepted.
   */
  method ValidateStructure(value: Option<Json>, maxDepth: nat, maxNodes: Option<nat>, cap: nat)
    returns (verdict: Verdict)
    ensures value.None? ==> verdict == Accepted
    ensures value.Some? && Containers(value.value) <= cap ==> verdict == Expected(value.value, maxDepth, maxNodes)
    ensures value.Some? && Containers(value.value) > cap ==>
              verdict == TooManyContainers || (verdict == TooDeep && Height(value.value) > maxDepth)
  {
    if value.None? {
      return Accepted;
    }
    var v := value.value;
    var nodes: nat, checked: nat := 1, 0;
    var pending := [Item(v, 0)];
    StartAccounts(v, maxDepth);
    while pending != []
      invariant Accounts(v, pending, nodes, checked, maxDepth) && checked <= cap
      decreases Work(pending)
    {
      var x := pending[|pending| - 1];
      LastItem(pending, maxDepth);
      pending := pending[..|pending| - 1];
      if x.depth > maxDepth {
        return TooDeep;
      }
      if x.value.Scalar? {
        SkipAccounts(v, pending, x, nodes, checked, maxDepth);
        continue;
      }
      if checked + 1 > cap {
        return TooManyContainers;
      }
      if x.value.items != [] && x.depth == maxDepth {
        return TooDeep;
      }
      VisitAccounts(v, pending, x, nodes, checked, maxDepth);
      checked := checked + 1;
      nodes := nodes + |x.value.items|;
      pending := pending + Nested(x.value.items, x.depth + 1);
    }
    NothingReached(maxDepth);
    verdict := if maxNodes.Some? && nodes > maxNodes.value then TooManyNodes else Accepted;
  }

  // ---- the verdict does not depend on the order of children ----

  lemma {:induction false} AllNodesSplit(a: seq<Json>, b: seq<Json>)
    ensures AllNodes(a + b) == AllNodes(a) + AllNodes(b) && AllContainers(a + b) == AllContainers(a) + AllContainers(b)
  {
    if a == [] {
      assert a + b == b;
    } else {
      assert (a + b)[1..] == a[1..] + b;
      AllNodesSplit(a[1..], b);
    }
  }

  lemma {:induction false} HighestBounds(vs: seq<Json>, i: nat)
    requires i < |vs|
    ensures Height(vs[i]) <= Highest(vs)
    decreases |vs|
  {
    if i > 0 {
      HighestBounds(vs[1..], i - 1);
    }
  }

  lemma {:induction false} HighestReached(vs: seq<Json>) returns (i: nat)
    requires vs != []
    ensures i < |vs| && Height(vs[i]) == Highest(vs)
    decreases |vs|
  {
    if |vs| == 1 || Height(vs[0]) >= Highest(vs[1..]) {
      i := 0;
    } else {
      i := HighestReached(vs[1..]);
      i := i + 1;
    }
  }

  lemma SameHighest(xs: seq<Json>, ys: seq<Json>)
    requires multiset(xs) == multiset(ys) && xs != [] && ys != []
    ensures Highest(xs) <= Highest(ys)
  {
    var i := HighestReached(xs);
    assert xs[i] in multiset(xs);
    var j :| 0 <= j < |ys| && ys[j] == xs[i];
    HighestBounds(ys, j);
  }

  lemma Around<T>(ys: seq<T>, i: nat)
    requires i < |ys|
    ensures ys == ys[..i] + ([ys[i]] + ys[i + 1..]) && ([ys[i]] + ys[i + 1..])[1..] == ys[i + 1..]
  {
  }

  lemma WithoutOne(ys: seq<Json>, i: nat)
    requires i < |ys|
    ensures multiset(ys[..i] + ys[i + 1..]) == multiset(ys) - multiset{ys[i]}
  {
    Around(ys, i);
    assert multiset(ys) == multiset(ys[..i]) + multiset([ys[i]] + ys[i + 1..]);
    assert multiset([ys[i]] + ys[i + 1..]) == multiset{ys[i]} + multiset(ys[i + 1..]);
  }

  lemma TakenOut(ys: seq<Json>, i: nat)
    requires i < |ys|
    ensures AllNodes(ys) == Nodes(ys[i]) + AllNodes(ys[..i] + ys[i + 1..])
    ensures AllContainers(ys) == Containers(ys[i]) + AllContainers(ys[..i] + ys[i + 1..])
  {
    Around(ys, i);
    AllNodesSplit(ys[..i], [ys[i]] + ys[i + 1..]);
    AllNodesSplit(ys[..i], ys[i + 1..]);
  }

  lemma WithoutFirst(xs: seq<Json>)
    requires xs != []
    ensures multiset(xs[1..]) == multiset(xs) - multiset{xs[0]}
  {
    assert xs == [xs[0]] + xs[1..];
  }

  lemma FirstIn(xs: seq<Json>, ys: seq<Json>) returns (i: nat)
    requires multiset(xs) == multiset(ys) && xs != []
    ensures i < |ys| && ys[i] == xs[0]
  {
    assert xs[0] in multiset(ys);
    i :| 0 <= i < |ys| && ys[i] == xs[0];
  }

  lemma {:induction false} SameSums(xs: seq<Json>, ys: seq<Json>)
    requires multiset(xs) == multiset(ys)
    ensures AllNodes(xs) == AllNodes(ys) && AllContainers(xs) == AllContainers(ys)
    decreases |xs|
  {
    if xs == [] {
      assert |ys| == |multiset(ys)| == |multiset(xs)| == 0;
    } else {
      var i := FirstIn(xs, ys);
      TakenOut(ys, i);
      WithoutOne(ys, i);
      WithoutFirst(xs);
      SameSums(xs[1..], ys[..i] + ys[i + 1..]);
    }
  }

  /** The same value up to the order of children, at every level of arrays and objects. */
  ghost predicate Shuffled(v: Json, w: Json) {
    if v.Scalar? then w.Scalar?
    else
      && !w.Scalar? && (v.Arr? <==> w.Arr?)
      && exists zs :: multiset(zs) == multiset(w.items) && Pairwise(v.items, zs)
  }

  ghost predicate Pairwise(xs: seq<Json>, zs: seq<Json>) {
    |xs| == |zs| && (xs != [] ==> Shuffled(xs[0], zs[0]) && Pairwise(xs[1..], zs[1..]))
  }

  predicate Alike(v: Json, w: Json) {
    Height(v) == Height(w) && Nodes(v) == Nodes(w) && Containers(v) == Containers(w)
  }

  predicate AlikeItems(xs: seq<Json>, zs: seq<Json>) {
    && |xs| == |zs| && AllNodes(xs) == AllNodes(zs) && AllContainers(xs) == AllContainers(zs)
    && (xs != [] ==> Highest(xs) == Highest(zs))
  }

  lemma ReorderedItems(xs: seq<Json>, ys: seq<Json>)
    requires multiset(xs) == multiset(ys)
    ensures AlikeItems(xs, ys)
  {
    SameSums(xs, ys);
    assert |xs| == |multiset(xs)| == |multiset(ys)| == |ys|;
    if xs != [] {
      SameHighest(xs, ys);
      SameHighest(ys, xs);
    }
  }

  lemma {:induction false} ShuffledAlike(v: Json, w: Json)
    requires Shuffled(v, w)
    ensures Alike(v, w)
  {
    if !v.Scalar? {
      var zs :| multiset(zs) == multiset(w.items) && Pairwise(v.items, zs);
      PairwiseAlike(v.items, zs);
      ReorderedItems(zs, w.items);
    }
  }

  lemma {:induction false} PairwiseAlike(xs: seq<Json>, zs: seq<Json>)
    requires Pairwise(xs, zs)
    ensures AlikeItems(xs, zs)
  {
    if xs != [] {
      ShuffledAlike(xs[0], zs[0]);
      PairwiseAlike(xs[1..], zs[1..]);
    }
  }

  /** Reordering children anywhere in a value changes no verdict. */
  lemma OrderIrrelevant(v: Json, w: Json, maxDepth: nat, maxNodes: Option<nat>)
    requires Shuffled(v, w)
    ensures Expected(v, maxDepth, maxNodes) == Expected(w, maxDepth, maxNodes) && Containers(v) == Containers(w)
  {
    ShuffledAlike(v, w);
  }
}
