/** Python's ordering of tuple keys, and the stable `sorted` and `min` built on it. */
module Ordering {

  /** One component of a sort key; a key is a sequence of numbers and strings. */
  datatype Part = Num(n: real) | Str(s: string)

  type Key = seq<Part>

  /** Code-point order on strings (Dafny's own `<` on sequences means proper prefix). */
  predicate StrLess(a: string, b: string) {
    if b == [] then false
    else if a == [] then true
    else a[0] < b[0] || (a[0] == b[0] && StrLess(a[1..], b[1..]))
  }

  predicate PartLess(a: Part, b: Part) {
    match (a, b)
    case (Num(x), Num(y)) => x < y
    case (Str(x), Str(y)) => StrLess(x, y)
    case (Num(_), Str(_)) => true
    case (Str(_), Num(_)) => false
  }

  /** Tuple order: the first differing component decides. */
  predicate KeyLess(a: Key, b: Key) {
    if b == [] then false
    else if a == [] then true
    else PartLess(a[0], b[0]) || (a[0] == b[0] && KeyLess(a[1..], b[1..]))
  }

  lemma {:induction false} StrTotal(a: string, b: string)
    ensures !(StrLess(a, b) && StrLess(b, a))
    ensures StrLess(a, b) || StrLess(b, a) || a == b
  {
    if a != [] && b != [] {
      StrTotal(a[1..], b[1..]);
      if a[0] == b[0] && a[1..] == b[1..] {
        assert a == [a[0]] + a[1..] == [b[0]] + b[1..] == b;
      }
    }
  }

  lemma {:induction false} StrTransitive(a: string, b: string, c: string)
    requires StrLess(a, b) && StrLess(b, c)
    ensures StrLess(a, c)
  {
    if a != [] && a[0] == b[0] && b[0] == c[0] {
      StrTransitive(a[1..], b[1..], c[1..]);
    }
  }

  lemma {:induction false} KeyTotal(a: Key, b: Key)
    ensures !(KeyLess(a, b) && KeyLess(b, a))
    ensures KeyLess(a, b) || KeyLess(b, a) || a == b
  {
    if a != [] && b != [] {
      PartTotal(a[0], b[0]);
      KeyTotal(a[1..], b[1..]);
      if a[0] == b[0] && a[1..] == b[1..] {
        assert a == [a[0]] + a[1..] == [b[0]] + b[1..] == b;
      }
    }
  }

  lemma PartTotal(a: Part, b: Part)
    ensures !(PartLess(a, b) && PartLess(b, a))
    ensures PartLess(a, b) || PartLess(b, a) || a == b
  {
    if a.Str? && b.Str? {
      StrTotal(a.s, b.s);
    }
  }

  lemma {:induction false} KeyTransitive(a: Key, b: Key, c: Key)
    requires KeyLess(a, b) && KeyLess(b, c)
    ensures KeyLess(a, c)
  {
    if a != [] {
      if a[0].Str? && b[0].Str? && c[0].Str? && a[0] != b[0] && b[0] != c[0] {
        StrTransitive(a[0].s, b[0].s, c[0].s);
      }
      if a[0] == b[0] && b[0] == c[0] {
        PartTotal(a[0], b[0]);
        KeyTransitive(a[1..], b[1..], c[1..]);
      }
    }
  }

  /** The first difference of two strings: a smaller character, or the end of the first string alone. */
  predicate DiffersAt(a: string, b: string, i: nat) {
    i <= |a| && i < |b| && a[..i] == b[..i] && (i == |a| || a[i] < b[i])
  }

  lemma {:induction false} StrLessExactly(a: string, b: string)
    ensures StrLess(a, b) <==> exists i :: DiffersAt(a, b, i)
  {
    if b != [] {
      if a == [] || a[0] < b[0] {
        assert DiffersAt(a, b, 0);
      } else {
        StrLessExactly(a[1..], b[1..]);
        if i: nat :| DiffersAt(a, b, i) {
          assert i > 0 && a[0] == a[..i][0] == b[..i][0] == b[0];
          assert a[1..][..i - 1] == a[..i][1..] && b[1..][..i - 1] == b[..i][1..];
          assert DiffersAt(a[1..], b[1..], i - 1);
        }
        if i: nat :| a[0] == b[0] && DiffersAt(a[1..], b[1..], i) {
          assert a[..i + 1] == [a[0]] + a[1..][..i] && b[..i + 1] == [b[0]] + b[1..][..i];
          assert DiffersAt(a, b, i + 1);
        }
      }
    }
  }

  /** The first difference of two keys: a smaller component, or the end of the first key alone. */
  predicate KeysDifferAt(a: Key, b: Key, i: nat) {
    i <= |a| && i < |b| && a[..i] == b[..i] && (i == |a| || PartLess(a[i], b[i]))
  }

  lemma {:induction false} KeyLessExactly(a: Key, b: Key)
    ensures KeyLess(a, b) <==> exists i :: KeysDifferAt(a, b, i)
  {
    if b != [] {
      if a == [] || PartLess(a[0], b[0]) {
        assert KeysDifferAt(a, b, 0);
      } else {
        KeyLessExactly(a[1..], b[1..]);
        if i: nat :| KeysDifferAt(a, b, i) {
          assert i > 0 && a[0] == a[..i][0] == b[..i][0] == b[0];
          assert a[1..][..i - 1] == a[..i][1..] && b[1..][..i - 1] == b[..i][1..];
          assert KeysDifferAt(a[1..], b[1..], i - 1);
        }
        if i: nat :| a[0] == b[0] && KeysDifferAt(a[1..], b[1..], i) {
          assert a[..i + 1] == [a[0]] + a[1..][..i] && b[..i + 1] == [b[0]] + b[1..][..i];
          assert KeysDifferAt(a, b, i + 1);
        }
      }
    }
  }

  /** `not (key(b) < key(a))`: a may stand before b. */
  predicate Leq(a: Key, b: Key) {
    !KeyLess(b, a)
  }

  lemma LeqTransitive(a: Key, b: Key, c: Key)
    requires Leq(a, b) && Leq(b, c)
    ensures Leq(a, c)
  {
    KeyTotal(a, b);
    KeyTotal(b, c);
    if a != b && b != c {
      KeyTransitive(a, b, c);
      KeyTotal(a, c);
    }
  }

  predicate Sorted<T(!new)>(xs: seq<T>, key: T -> Key) {
    forall i, j :: 0 <= i < j < |xs| ==> Leq(key(xs[i]), key(xs[j]))
  }

  predicate NoDup<T(==,!new)>(xs: seq<T>) {
    forall i, j :: 0 <= i < j < |xs| ==> xs[i] != xs[j]
  }

  /** The key tells any two elements of xs apart. */
  ghost predicate KeyInjective<T(!new)>(xs: seq<T>, key: T -> Key) {
    forall x, y :: x in xs && y in xs && key(x) == key(y) ==> x == y
  }

  function Insert<T>(x: T, xs: seq<T>, key: T -> Key): seq<T> {
    if xs == [] || Leq(key(x), key(xs[0])) then [x] + xs
    else [xs[0]] + Insert(x, xs[1..], key)
  }

  /** `sorted(xs, key=...)`: stable, as earlier elements go before later ones of equal key. */
  function Sort<T>(xs: seq<T>, key: T -> Key): seq<T> {
    if xs == [] then [] else Insert(xs[0], Sort(xs[1..], key), key)
  }

  /** `min(xs, key=...)`: the first element of least key. */
  function MinBy<T>(xs: seq<T>, key: T -> Key): T
    requires |xs| > 0
  {
    if |xs| == 1 then xs[0]
    else
      var m := MinBy(xs[..|xs| - 1], key);
      if KeyLess(key(xs[|xs| - 1]), key(m)) then xs[|xs| - 1] else m
  }

  lemma {:induction false} InsertMembers<T(!new)>(x: T, xs: seq<T>, key: T -> Key)
    ensures multiset(Insert(x, xs, key)) == multiset(xs) + multiset{x}
  {
    if xs != [] && !Leq(key(x), key(xs[0])) {
      InsertMembers(x, xs[1..], key);
      assert xs == [xs[0]] + xs[1..];
    }
  }

  lemma {:induction false} InsertSorted<T(!new)>(x: T, xs: seq<T>, key: T -> Key)
    requires Sorted(xs, key)
    ensures Sorted(Insert(x, xs, key), key)
  {
    if xs == [] {
    } else if Leq(key(x), key(xs[0])) {
      forall j | 0 <= j < |xs| ensures Leq(key(x), key(xs[j])) {
        if j > 0 { LeqTransitive(key(x), key(xs[0]), key(xs[j])); }
      }
    } else {
      InsertSorted(x, xs[1..], key);
      InsertMembers(x, xs[1..], key);
      KeyTotal(key(x), key(xs[0]));
      var rest := Insert(x, xs[1..], key);
      forall j | 0 <= j < |rest| ensures Leq(key(xs[0]), key(rest[j])) {
        assert rest[j] in multiset(rest);
        assert rest[j] == x || rest[j] in xs[1..];
      }
    }
  }

  lemma {:induction false} SortFacts<T(!new)>(xs: seq<T>, key: T -> Key)
    ensures Sorted(Sort(xs, key), key)
    ensures multiset(Sort(xs, key)) == multiset(xs)
    ensures |Sort(xs, key)| == |xs|
  {
    if xs != [] {
      SortFacts(xs[1..], key);
      InsertSorted(xs[0], Sort(xs[1..], key), key);
      InsertMembers(xs[0], Sort(xs[1..], key), key);
      assert xs == [xs[0]] + xs[1..];
    }
    assert |multiset(Sort(xs, key))| == |multiset(xs)|;
  }

  /** Sorting keeps the elements. */
  lemma SortMembers<T(!new)>(xs: seq<T>, key: T -> Key)
    ensures forall x :: x in Sort(xs, key) <==> x in xs
    ensures NoDup(xs) ==> NoDup(Sort(xs, key))
  {
    SortFacts(xs, key);
    var s := Sort(xs, key);
    forall x ensures x in s <==> x in xs {
      assert x in s <==> x in multiset(s);
      assert x in xs <==> x in multiset(xs);
    }
    if NoDup(xs) {
      NoDupMultiset(xs);
      MultisetNoDup(s);
    }
  }

  lemma {:induction false} NoDupMultiset<T(!new)>(xs: seq<T>)
    requires NoDup(xs)
    ensures forall x :: multiset(xs)[x] <= 1
  {
    if xs != [] {
      NoDupMultiset(xs[1..]);
      assert xs == [xs[0]] + xs[1..];
      assert xs[0] !in xs[1..];
    }
  }

  lemma {:induction false} MultisetNoDup<T(!new)>(xs: seq<T>)
    requires forall x :: multiset(xs)[x] <= 1
    ensures NoDup(xs)
  {
    forall i, j | 0 <= i < j < |xs| ensures xs[i] != xs[j] {
      var before, after := xs[..j], xs[j..];
      assert xs == before + after && before[i] == xs[i] && after[0] == xs[j];
      assert xs[i] in multiset(before) && xs[j] in multiset(after);
      assert multiset(xs)[xs[i]] == multiset(before)[xs[i]] + multiset(after)[xs[i]];
    }
  }

  lemma LeastFirst<T(!new)>(xs: seq<T>, key: T -> Key, x: T)
    requires Sorted(xs, key) && x in xs
    ensures Leq(key(xs[0]), key(x))
  {
    var j :| 0 <= j < |xs| && xs[j] == x;
    if j == 0 { KeyTotal(key(x), key(x)); }
  }

  /** Sorted listings of one set start alike, under a key that tells its elements apart. */
  lemma SameFirst<T(!new)>(xs: seq<T>, ys: seq<T>, key: T -> Key)
    requires Sorted(xs, key) && Sorted(ys, key) && xs != [] && ys != []
    requires (forall x :: x in xs <==> x in ys) && KeyInjective(xs, key)
    ensures xs[0] == ys[0]
  {
    assert xs[0] in ys && ys[0] in xs;
    LeastFirst(xs, key, ys[0]);
    LeastFirst(ys, key, xs[0]);
    KeyTotal(key(xs[0]), key(ys[0]));
  }

  lemma SameRest<T(!new)>(xs: seq<T>, ys: seq<T>)
    requires NoDup(xs) && NoDup(ys) && xs != [] && ys != [] && xs[0] == ys[0] && forall x :: x in xs <==> x in ys
    ensures forall x :: x in xs[1..] <==> x in ys[1..]
  {
    assert xs == [xs[0]] + xs[1..] && ys == [ys[0]] + ys[1..];
    forall x ensures x in xs[1..] <==> x in ys[1..] {
      if x in xs[1..] { assert x in ys; }
      if x in ys[1..] { assert x in xs; }
    }
  }

  /** A sorted duplicate-free listing of a set under a key that tells its elements apart is unique. */
  lemma {:induction false} SortedUnique<T(!new)>(xs: seq<T>, ys: seq<T>, key: T -> Key)
    requires Sorted(xs, key) && Sorted(ys, key) && NoDup(xs) && NoDup(ys)
    requires forall x :: x in xs <==> x in ys
    requires KeyInjective(xs, key)
    ensures xs == ys
  {
    assert |ys| > 0 ==> ys[0] in xs;
    assert |xs| > 0 ==> xs[0] in ys;
    if xs != [] {
      SameFirst(xs, ys, key);
      SameRest(xs, ys);
      SortedUnique(xs[1..], ys[1..], key);
      assert xs == [xs[0]] + xs[1..] && ys == [ys[0]] + ys[1..];
    }
  }

  /** `sorted` of two duplicate-free listings of one set gives one result. */
  lemma SortCanonical<T(!new)>(xs: seq<T>, ys: seq<T>, key: T -> Key)
    requires NoDup(xs) && NoDup(ys) && (forall x :: x in xs <==> x in ys)
    requires KeyInjective(xs, key)
    ensures Sort(xs, key) == Sort(ys, key)
  {
    SortFacts(xs, key);
    SortFacts(ys, key);
    SortMembers(xs, key);
    SortMembers(ys, key);
    SortedUnique(Sort(xs, key), Sort(ys, key), key);
  }

  /** An already sorted listing with distinguishing keys is left alone. */
  lemma SortIdentity<T(!new)>(xs: seq<T>, key: T -> Key)
    requires Sorted(xs, key) && NoDup(xs) && KeyInjective(xs, key)
    ensures Sort(xs, key) == xs
  {
    SortFacts(xs, key);
    SortMembers(xs, key);
    SortedUnique(xs, Sort(xs, key), key);
  }

  lemma {:induction false} MinByLeast<T(!new)>(xs: seq<T>, key: T -> Key)
    requires |xs| > 0
    ensures MinBy(xs, key) in xs
    ensures forall x :: x in xs ==> Leq(key(MinBy(xs, key)), key(x))
  {
    var n := |xs| - 1;
    if n == 0 {
      KeyTotal(key(xs[0]), key(xs[0]));
    } else {
      MinByLeast(xs[..n], key);
      var m := MinBy(xs[..n], key);
      assert xs == xs[..n] + [xs[n]];
      KeyTotal(key(xs[n]), key(m));
      KeyTotal(key(xs[n]), key(xs[n]));
      forall x | x in xs ensures Leq(key(MinBy(xs, key)), key(x)) {
        if x in xs[..n] && KeyLess(key(xs[n]), key(m)) {
          LeqTransitive(key(xs[n]), key(m), key(x));
        }
      }
    }
  }

  // ---- sorted names ----

  function NameKey(e: string): Key { [Str(e)] }

  /** `sorted` of the keys of a dictionary, whatever order the dictionary lists them in. */
  ghost function SortedNames(s: set<string>): (r: seq<string>)
    ensures forall e :: e in r <==> e in s
    ensures NoDup(r) && Sorted(r, NameKey) && |r| == |s|
  {
    SortFacts(Listing(s), NameKey);
    SortMembers(Listing(s), NameKey);
    Sort(Listing(s), NameKey)
  }

  ghost function Listing<T(!new)>(s: set<T>): (r: seq<T>)
    ensures forall x :: x in r <==> x in s
    ensures forall i, j :: 0 <= i < j < |r| ==> r[i] != r[j]
    ensures |r| == |s|
  {
    if s == {} then [] else var x :| x in s; [x] + Listing(s - {x})
  }

  lemma NameKeyInjective(xs: seq<string>)
    ensures KeyInjective(xs, NameKey)
  {
    forall x: string, y: string | NameKey(x) == NameKey(y) ensures x == y {
      assert NameKey(x)[0].s == NameKey(y)[0].s;
    }
  }

  lemma SortedNamesUnique(s: set<string>, xs: seq<string>)
    requires NoDup(xs) && forall e :: e in xs <==> e in s
    ensures Sort(xs, NameKey) == SortedNames(s)
  {
    NameKeyInjective(xs);
    SortCanonical(xs, Listing(s), NameKey);
  }
}
