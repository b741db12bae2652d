/** Windows over a text: exact slices that together hold every short span whole. */
module Windows {

  /** A piece of a text and where it starts. */
  datatype Window = Window(offset: nat, chunk: string)

  function End(w: Window): nat { w.offset + |w.chunk| }

  predicate SliceOf(text: string, w: Window) {
    End(w) <= |text| && w.chunk == text[w.offset..End(w)]
  }

  predicate AllSlices(text: string, ws: seq<Window>) {
    forall i :: 0 <= i < |ws| ==> SliceOf(text, ws[i])
  }

  /** The span lies whole inside the window. */
  predicate Inside(w: Window, s: int, e: int) { w.offset <= s && e <= End(w) }

  ghost predicate Holds(ws: seq<Window>, s: int, e: int) {
    exists i :: 0 <= i < |ws| && Inside(ws[i], s, e)
  }

  /** Every non-empty span of at most some width is whole in some window; width 1 means every character is covered. */
  ghost predicate HoldsAll(text: string, ws: seq<Window>, width: nat) {
    forall s, e :: 0 <= s < e <= |text| && e - s <= width ==> Holds(ws, s, e)
  }

  function Slice(text: string, from: nat, to: nat): Window
    requires from <= to <= |text|
  {
    Window(from, text[from..to])
  }

  /** Replacing one window by two that share `shared` characters loses no span up to that width. */
  lemma SplitHolds(front: seq<Window>, w: Window, back: seq<Window>, l: Window, r: Window, s: int, e: int, shared: int)
    requires Holds(front + [w] + back, s, e) && s < e && e - s <= shared
    requires l.offset == w.offset && End(r) == End(w) && r.offset + shared <= End(l)
    ensures Holds(front + [l, r] + back, s, e)
  {
    var ws, split := front + [w] + back, front + [l, r] + back;
    var i :| 0 <= i < |ws| && Inside(ws[i], s, e);
    if i < |front| {
      assert split[i] == ws[i];
    } else if i > |front| {
      assert split[i + 1] == ws[i];
    } else {
      assert split[i] == l && split[i + 1] == r;
      assert Inside(l, s, e) || Inside(r, s, e);
    }
  }

  /** The order of windows does not matter. */
  lemma MemberHolds(a: seq<Window>, b: seq<Window>, s: int, e: int)
    requires Holds(a, s, e) && forall w :: w in a ==> w in b
    ensures Holds(b, s, e)
  {
    var i :| 0 <= i < |a| && Inside(a[i], s, e);
    assert a[i] in b;
    var j :| 0 <= j < |b| && b[j] == a[i];
  }

  lemma LastSplit<T>(xs: seq<T>)
    requires xs != []
    ensures xs == xs[..|xs| - 1] + [xs[|xs| - 1]]
  {
  }

  lemma SliceSlice(text: string, from: nat, to: nat, i: nat, j: nat)
    requires from <= to <= |text| && i <= j <= to - from
    ensures text[from..to][i..j] == text[from + i..from + j]
  {
    var a, b := text[from..to][i..j], text[from + i..from + j];
    forall k | 0 <= k < |a| ensures a[k] == b[k] {
      assert a[k] == text[from..to][i + k];
    }
  }

  lemma SubSlice(text: string, w: Window, i: nat, j: nat)
    requires SliceOf(text, w) && i <= j <= |w.chunk|
    ensures SliceOf(text, Window(w.offset + i, w.chunk[i..j]))
  {
    SliceSlice(text, w.offset, End(w), i, j);
  }
}
