/** Token-aware windows: cut at token starts, retokenize, and split again what is still too long. */
module TokenWindows {
  import opened PolicyConfig
  import opened Windows

  /** A token's character range. */
  datatype Token = Token(start: nat, end: nat)

  /** Token ranges of a text without special tokens; end offsets and length with them. */
  datatype Tokenizer = Tokenizer(plain: string -> seq<Token>, full: string -> seq<Token>, count: string -> nat)

  /** Empty ranges belong to special tokens. */
  function Real(ts: seq<Token>): (r: seq<Token>)
    ensures forall t :: t in r <==> t in ts && t.start < t.end
  {
    if ts == [] then []
    else if ts[0].start < ts[0].end then [ts[0]] + Real(ts[1..])
    else Real(ts[1..])
  }

  /** Ranges are in order, disjoint and inside the text. */
  predicate Monotone(ts: seq<Token>, length: nat) {
    && (forall i :: 0 <= i < |ts| ==> ts[i].start < ts[i].end <= length)
    && forall i, j :: 0 <= i < j < |ts| ==> ts[i].end <= ts[j].start
  }

  ghost predicate WellBehaved(tok: Tokenizer) {
    forall s :: Monotone(Real(tok.plain(s)), |s|)
  }

  // ---- windows that start and end at token starts ----

  function FromToken(ts: seq<Token>, index: nat): nat
    requires index < |ts|
  {
    if index == 0 then 0 else ts[index].start
  }

  function ToToken(text: string, ts: seq<Token>, index: nat, window: nat): nat {
    if index + window >= |ts| then |text| else ts[index + window].start
  }

  lemma {:induction false} TokensAdvance(ts: seq<Token>, length: nat, i: nat, j: nat)
    requires Monotone(ts, length) && i <= j < |ts|
    ensures ts[j].start >= ts[i].start + (j - i)
    decreases j - i
  {
    if i < j {
      TokensAdvance(ts, length, i, j - 1);
      assert ts[j - 1].end <= ts[j].start;
    }
  }

  /** Windows up to some token hold every short span that starts before it. */
  ghost predicate HoldsBefore(text: string, ws: seq<Window>, width: nat, limit: nat) {
    forall s, e :: 0 <= s < e <= |text| && s < limit && e - s <= width ==> Holds(ws, s, e)
  }

  lemma HoldsNext(text: string, ws: seq<Window>, w: Window, width: nat, limit: nat)
    requires HoldsBefore(text, ws, width, w.offset)
    requires limit + width <= End(w) + 1 || End(w) >= |text|
    ensures HoldsBefore(text, ws + [w], width, if End(w) >= |text| then |text| else limit)
  {
    forall s, e | 0 <= s < e <= |text| && s < (if End(w) >= |text| then |text| else limit) && e - s <= width
      ensures Holds(ws + [w], s, e)
    {
      if s < w.offset {
        MemberHolds(ws, ws + [w], s, e);
      } else {
        assert Inside((ws + [w])[|ws|], s, e);
      }
    }
  }

  /** A window of tokens is a slice, and the next one starts `overlap` tokens before it ends. */
  lemma TokenSlice(text: string, ts: seq<Token>, index: nat, window: nat, overlap: nat)
    requires Monotone(ts, |text|) && index < |ts| && overlap < window
    ensures FromToken(ts, index) <= ToToken(text, ts, index, window) <= |text|
    ensures index + window < |ts| ==>
              FromToken(ts, index + (window - overlap)) + overlap <= ToToken(text, ts, index, window)
  {
    if index + window < |ts| {
      TokensAdvance(ts, |text|, index, index + window);
      TokensAdvance(ts, |text|, index + (window - overlap), index + window);
    }
  }

  /** Windows of `window` tokens from a token on, each starting `overlap` tokens before the last one ends. */
  function SlicesFrom(text: string, ts: seq<Token>, window: nat, overlap: nat, index: nat): seq<Window>
    requires Monotone(ts, |text|) && overlap < window
    decreases |ts| - index
  {
    if index >= |ts| then []
    else
      TokenSlice(text, ts, index, window, overlap);
      var w := Slice(text, FromToken(ts, index), ToToken(text, ts, index, window));
      if End(w) == |text| then [w] else [w] + SlicesFrom(text, ts, window, overlap, index + (window - overlap))
  }

  lemma FirstSlice(text: string, ts: seq<Token>, window: nat, overlap: nat, index: nat, before: seq<Window>)
    requires Monotone(ts, |text|) && overlap < window && index < |ts|
    ensures FromToken(ts, index) <= ToToken(text, ts, index, window) <= |text|
    ensures var w := Slice(text, FromToken(ts, index), ToToken(text, ts, index, window));
            before + SlicesFrom(text, ts, window, overlap, index) ==
            if End(w) == |text| then before + [w]
            else before + [w] + SlicesFrom(text, ts, window, overlap, index + (window - overlap))
  {
    TokenSlice(text, ts, index, window, overlap);
  }

  /** A window of `window` tokens from a token on, from the start of the text or of that token. */
  predicate AtToken(text: string, ts: seq<Token>, window: nat, w: Window, index: nat) {
    && index < |ts| && w.offset == (if index == 0 then 0 else ts[index].start)
    && End(w) == (if index + window >= |ts| then |text| else ts[index + window].start)
  }

  /** Window i starts at token `first[i]`, `window - overlap` tokens after the one before, until one ends the text. */
  ghost predicate Aligned(
    text: string, ts: seq<Token>, window: nat, overlap: nat, index: nat, ws: seq<Window>, first: seq<nat>) {
    && |first| == |ws| && (ws == [] <==> index >= |ts|)
    && (ws != [] ==> first[0] == index && End(ws[|ws| - 1]) == |text|)
    && (forall i :: 0 < i < |ws| ==> first[i] + overlap == first[i - 1] + window)
    && (forall i :: 0 <= i < |ws| ==> AtToken(text, ts, window, ws[i], first[i]))
    && forall i :: 0 <= i < |ws| - 1 ==> End(ws[i]) < |text|
  }

  lemma AlignedFirst(
    text: string, ts: seq<Token>, window: nat, overlap: nat, index: nat, w: Window, rest: seq<Window>,
    first: seq<nat>)
    requires Aligned(text, ts, window, overlap, index, rest, first) && rest != [] && index + overlap >= window
    requires AtToken(text, ts, window, w, index + overlap - window) && End(w) < |text|
    ensures Aligned(
              text, ts, window, overlap, index + overlap - window, [w] + rest, [index + overlap - window] + first)
  {
    var all, at := [w] + rest, [index + overlap - window] + first;
    forall i | 0 <= i < |all|
      ensures AtToken(text, ts, window, all[i], at[i]) && (i < |all| - 1 ==> End(all[i]) < |text|)
      ensures i > 0 ==> at[i] + overlap == at[i - 1] + window
    {
      if i > 0 {
        assert all[i] == rest[i - 1] && at[i] == first[i - 1] && (i > 1 ==> at[i - 1] == first[i - 2]);
      }
    }
  }

  /** The first windows of a text, by the tokens they start at. */
  lemma {:induction false} SlicesAligned(text: string, ts: seq<Token>, window: nat, overlap: nat, index: nat)
    returns (first: seq<nat>)
    requires Monotone(ts, |text|) && overlap < window
    ensures Aligned(text, ts, window, overlap, index, SlicesFrom(text, ts, window, overlap, index), first)
    decreases |ts| - index
  {
    if index >= |ts| {
      first := [];
    } else {
      TokenSlice(text, ts, index, window, overlap);
      var w := Slice(text, FromToken(ts, index), ToToken(text, ts, index, window));
      if End(w) == |text| {
        first := [index];
      } else {
        var next := index + (window - overlap);
        first := SlicesAligned(text, ts, window, overlap, next);
        AlignedFirst(text, ts, window, overlap, next, w, SlicesFrom(text, ts, window, overlap, next), first);
        first := [index] + first;
      }
    }
  }

  /** The parts of a chunk that is too long share the 64 characters before the cut. */
  lemma CutShares(w: Window, cut: nat)
    requires 64 < cut < |w.chunk|
    ensures LeftOf(w, cut) == Window(w.offset, w.chunk[..cut])
    ensures RightOf(w, cut) == Window(w.offset + cut - 64, w.chunk[cut - 64..])
  {
  }

  /** Windows taken so far, up to a token. */
  ghost predicate Begun(text: string, ts: seq<Token>, window: nat, overlap: nat, taken: seq<Window>, index: nat)
    requires Monotone(ts, |text|) && overlap < window
  {
    && taken + SlicesFrom(text, ts, window, overlap, index) == SlicesFrom(text, ts, window, overlap, 0)
    && AllSlices(text, taken) && AllWithin(text, ts, taken, window)
    && index < |ts| && HoldsBefore(text, taken, Wide(overlap), FromToken(ts, index))
  }

  ghost predicate AllWithin(text: string, ts: seq<Token>, ws: seq<Window>, window: nat) {
    forall i :: 0 <= i < |ws| ==> TokensWithin(text, ts, ws[i], window)
  }

  lemma BeginHolds(text: string, ts: seq<Token>, window: nat, overlap: nat, taken: seq<Window>, index: nat, w: Window)
    requires Monotone(ts, |text|) && overlap < window && index < |ts|
    requires FromToken(ts, index) <= ToToken(text, ts, index, window) <= |text|
    requires w == Slice(text, FromToken(ts, index), ToToken(text, ts, index, window))
    requires HoldsBefore(text, taken, Wide(overlap), FromToken(ts, index))
    ensures End(w) == |text| ==> HoldsAll(text, taken + [w], Wide(overlap))
    ensures End(w) < |text| ==>
              && index + (window - overlap) < |ts|
              && HoldsBefore(text, taken + [w], Wide(overlap), FromToken(ts, index + (window - overlap)))
  {
    if End(w) < |text| {
      WideStep(text, ts, index, window, overlap);
      HoldsNext(text, taken, w, Wide(overlap), FromToken(ts, index + (window - overlap)));
    } else {
      HoldsNext(text, taken, w, Wide(overlap), 0);
    }
  }

  lemma BeginWithin(text: string, ts: seq<Token>, window: nat, taken: seq<Window>, index: nat, w: Window)
    requires Monotone(ts, |text|) && index < |ts| && 0 < window
    requires FromToken(ts, index) <= ToToken(text, ts, index, window) <= |text|
    requires w == Slice(text, FromToken(ts, index), ToToken(text, ts, index, window))
    requires AllSlices(text, taken) && AllWithin(text, ts, taken, window)
    ensures AllSlices(text, taken + [w]) && AllWithin(text, ts, taken + [w], window)
  {
    WindowTokens(text, ts, index, window);
    var more := taken + [w];
    forall i | 0 <= i < |more| ensures SliceOf(text, more[i]) && TokensWithin(text, ts, more[i], window) {
      assert more[i] == if i < |taken| then taken[i] else w;
    }
  }

  lemma BeginNext(text: string, ts: seq<Token>, window: nat, overlap: nat, taken: seq<Window>, index: nat, w: Window)
    requires Monotone(ts, |text|) && overlap < window && Begun(text, ts, window, overlap, taken, index)
    requires FromToken(ts, index) <= ToToken(text, ts, index, window) <= |text|
    requires w == Slice(text, FromToken(ts, index), ToToken(text, ts, index, window))
    ensures AllSlices(text, taken + [w]) && AllWithin(text, ts, taken + [w], window)
    ensures End(w) == |text| ==>
              && taken + [w] == SlicesFrom(text, ts, window, overlap, 0) && HoldsAll(text, taken + [w], Wide(overlap))
    ensures End(w) < |text| ==> Begun(text, ts, window, overlap, taken + [w], index + (window - overlap))
  {
    FirstSlice(text, ts, window, overlap, index, taken);
    BeginWithin(text, ts, window, taken, index, w);
    BeginHolds(text, ts, window, overlap, taken, index, w);
  }

  /** Initial windows of at most `window` tokens; none when the text has no tokens. */
  method TokenSlices(text: string, ts: seq<Token>, window: nat, overlap: nat) returns (ws: seq<Window>)
    requires Monotone(ts, |text|) && overlap < window
    ensures ws == SlicesFrom(text, ts, window, overlap, 0)
    ensures AllSlices(text, ws) && AllWithin(text, ts, ws, window)
    ensures ts != [] ==> HoldsAll(text, ws, Wide(overlap))
    ensures ts == [] ==> ws == []
  {
    ws := [];
    if ts != [] {
      StartWindows(text, ts, window, overlap);
    }
    var index: nat := 0;
    while index < |ts|
      invariant ts == [] || Begun(text, ts, window, overlap, ws, index)
      invariant ts == [] ==> ws == []
      decreases |ts| - index
    {
      TokenSlice(text, ts, index, window, overlap);
      var w := Slice(text, FromToken(ts, index), ToToken(text, ts, index, window));
      BeginNext(text, ts, window, overlap, ws, index, w);
      ws := ws + [w];
      if End(w) == |text| {
        return;
      }
      index := index + (window - overlap);
    }
  }

  lemma StartWindows(text: string, ts: seq<Token>, window: nat, overlap: nat)
    requires Monotone(ts, |text|) && overlap < window && ts != []
    ensures Begun(text, ts, window, overlap, [], 0)
  {
  }

  function Wide(overlap: nat): nat { if overlap == 0 then 1 else overlap }

  lemma WideStep(text: string, ts: seq<Token>, index: nat, window: nat, overlap: nat)
    requires Monotone(ts, |text|) && index + window < |ts| && overlap < window
    ensures FromToken(ts, index + (window - overlap)) + overlap <= ToToken(text, ts, index, window)
  {
    TokenSlice(text, ts, index, window, overlap);
  }

  /** At most `window` tokens of the text start inside the window. */
  ghost predicate TokensWithin(text: string, ts: seq<Token>, w: Window, window: nat) {
    exists i :: 0 <= i < |ts| && StartsAmong(ts, w, i, window)
  }

  ghost predicate StartsAmong(ts: seq<Token>, w: Window, i: nat, window: nat) {
    forall k :: 0 <= k < |ts| && w.offset <= ts[k].start < End(w) ==> i <= k < i + window
  }

  lemma WindowTokens(text: string, ts: seq<Token>, index: nat, window: nat)
    requires Monotone(ts, |text|) && index < |ts| && 0 < window
    requires FromToken(ts, index) <= ToToken(text, ts, index, window) <= |text|
    ensures TokensWithin(text, ts, Slice(text, FromToken(ts, index), ToToken(text, ts, index, window)), window)
  {
    var w := Slice(text, FromToken(ts, index), ToToken(text, ts, index, window));
    forall k | 0 <= k < index ensures ts[k].start < ts[index].start {
      assert ts[k].start < ts[k].end <= ts[index].start;
    }
    forall k | index + window < k < |ts| ensures ts[index + window].start < ts[k].start {
      assert ts[index + window].start < ts[index + window].end <= ts[k].start;
    }
    assert StartsAmong(ts, w, index, window);
  }

  // ---- windows whose retokenized size is within the model's limit ----

  const SHARED := 64

  /** What remains to do for a chunk: no chunk of at most 64 characters is ever split. */
  function Effort(n: nat): nat { if n > SHARED then 2 * (n - SHARED) - 1 else 1 }

  function TotalEffort(ws: seq<Window>): nat {
    if ws == [] then 0 else TotalEffort(ws[..|ws| - 1]) + Effort(|ws[|ws| - 1].chunk|)
  }

  lemma PushEffort(ws: seq<Window>, w: Window)
    ensures TotalEffort(ws + [w]) == TotalEffort(ws) + Effort(|w.chunk|)
  {
    assert (ws + [w])[..|ws|] == ws;
  }

  method Reversed(ws: seq<Window>) returns (r: seq<Window>)
    ensures |r| == |ws| && forall i :: 0 <= i < |r| ==> r[i] == ws[|ws| - 1 - i]
  {
    r := [];
    for i := 0 to |ws|
      invariant |r| == i && forall k :: 0 <= k < i ==> r[k] == ws[|ws| - 1 - k]
    {
      r := r + [ws[|ws| - 1 - i]];
    }
  }

  lemma ReversedHolds(text: string, ws: seq<Window>, r: seq<Window>, width: nat)
    requires |r| == |ws| && forall i :: 0 <= i < |r| ==> r[i] == ws[|ws| - 1 - i]
    requires HoldsAll(text, ws, width) && AllSlices(text, ws)
    ensures HoldsAll(text, r, width) && AllSlices(text, r)
  {
    forall w | w in ws ensures w in r {
      var i :| 0 <= i < |ws| && ws[i] == w;
      assert r[|ws| - 1 - i] == w;
    }
    forall s, e | 0 <= s < e <= |text| && e - s <= width ensures Holds(r, s, e) {
      MemberHolds(ws, r, s, e);
    }
  }

  lemma WholeHolds(text: string, width: nat)
    ensures AllSlices(text, [Window(0, text)]) && HoldsAll(text, [Window(0, text)], width)
  {
    forall s, e | 0 <= s < e <= |text| && e - s <= width ensures Holds([Window(0, text)], s, e) {
      assert Inside([Window(0, text)][0], s, e);
    }
  }

  /** Where a chunk that is too long is cut: after its token number `window`, or its last one. */
  function Boundary(ends: seq<nat>, window: nat): nat
    requires ends != []
  {
    ends[if window < |ends| then window else |ends| - 1]
  }

  function Ends(ts: seq<Token>): (r: seq<nat>)
    ensures |r| == |ts| && forall i :: 0 <= i < |r| ==> r[i] == ts[i].end
  {
    seq(|ts|, i requires 0 <= i < |ts| => ts[i].end)
  }

  /** The usable cut of a chunk that is too long: past the shared characters and short of its end. */
  function CutOf(tok: Tokenizer, window: nat, chunk: string): (cut: Option<nat>)
    ensures cut.Some? ==> SHARED < cut.value < |chunk|
  {
    var ends := Ends(Real(tok.full(chunk)));
    if ends == [] || Boundary(ends, window) <= SHARED || Boundary(ends, window) >= |chunk| then None
    else Some(Boundary(ends, window))
  }

  /** The windows a chunk is taken apart into, left to right; None where one that is too long has no usable cut. */
  function Pieces(tok: Tokenizer, window: nat, limit: nat, w: Window): Option<seq<Window>>
    decreases |w.chunk|
  {
    if tok.count(w.chunk) <= limit then Some([w])
    else
      var cut := CutOf(tok, window, w.chunk);
      if cut.None? then None
      else
        var l := Pieces(tok, window, limit, LeftOf(w, cut.value));
        var r := Pieces(tok, window, limit, RightOf(w, cut.value));
        if l.None? || r.None? then None else Some(l.value + r.value)
  }

  /** The pieces of several windows, in order. */
  function AllPieces(tok: Tokenizer, window: nat, limit: nat, ws: seq<Window>): Option<seq<Window>> {
    if ws == [] then Some([])
    else
      var first, rest := Pieces(tok, window, limit, ws[0]), AllPieces(tok, window, limit, ws[1..]);
      if first.None? || rest.None? then None else Some(first.value + rest.value)
  }

  /** What a stack of windows still gives, the last one first, after what was done. */
  function StackPieces(
    tok: Tokenizer, window: nat, limit: nat, done: seq<Window>, pending: seq<Window>): Option<seq<Window>>
    decreases |pending|
  {
    if pending == [] then Some(done)
    else
      var n := |pending| - 1;
      var top := Pieces(tok, window, limit, pending[n]);
      if top.None? then None else StackPieces(tok, window, limit, done + top.value, pending[..n])
  }

  lemma {:induction false} ReversedPieces(
    tok: Tokenizer, window: nat, limit: nat, done: seq<Window>, ws: seq<Window>, pending: seq<Window>)
    requires |pending| == |ws| && forall i :: 0 <= i < |ws| ==> pending[i] == ws[|ws| - 1 - i]
    ensures StackPieces(tok, window, limit, done, pending) ==
            var all := AllPieces(tok, window, limit, ws); if all.None? then None else Some(done + all.value)
    decreases |ws|
  {
    if ws != [] {
      var top, rest := Pieces(tok, window, limit, ws[0]), AllPieces(tok, window, limit, ws[1..]);
      if top.Some? {
        ReversedPieces(tok, window, limit, done + top.value, ws[1..], pending[..|pending| - 1]);
        if rest.Some? {
          assert done + top.value + rest.value == done + (top.value + rest.value);
        }
      }
    } else {
      assert done + [] == done;
    }
  }

  lemma CutPieces(
    tok: Tokenizer, window: nat, limit: nat, done: seq<Window>, pending: seq<Window>, w: Window, cut: nat)
    requires tok.count(w.chunk) > limit && CutOf(tok, window, w.chunk) == Some(cut)
    ensures StackPieces(tok, window, limit, done, pending + [w]) ==
            StackPieces(tok, window, limit, done, pending + [RightOf(w, cut), LeftOf(w, cut)])
  {
    var l, r := LeftOf(w, cut), RightOf(w, cut);
    var both := pending + [r, l];
    assert both[..|both| - 1] == pending + [r] && (pending + [r])[..|pending|] == pending;
    assert (pending + [w])[..|pending|] == pending;
    var pl, pr := Pieces(tok, window, limit, l), Pieces(tok, window, limit, r);
    if pl.Some? && pr.Some? {
      assert done + pl.value + pr.value == done + (pl.value + pr.value);
    }
  }

  ghost predicate Progress(
    text: string, tok: Tokenizer, limit: nat, pending: seq<Window>, done: seq<Window>, width: nat) {
    && AllSlices(text, pending) && AllSlices(text, done)
    && HoldsAll(text, done + pending, width)
    && forall i :: 0 <= i < |done| ==> tok.count(done[i].chunk) <= limit
  }

  function LeftOf(w: Window, boundary: nat): Window
    requires SHARED < boundary < |w.chunk|
  {
    Window(w.offset, w.chunk[..boundary])
  }

  function RightOf(w: Window, boundary: nat): Window
    requires SHARED < boundary < |w.chunk|
  {
    Window(w.offset + (boundary - SHARED), w.chunk[boundary - SHARED..])
  }

  lemma SplitProgress(
    text: string, tok: Tokenizer, limit: nat, pending: seq<Window>, w: Window, done: seq<Window>, boundary: nat,
    width: nat)
    requires Progress(text, tok, limit, pending + [w], done, width) && width <= SHARED && SHARED < boundary < |w.chunk|
    ensures Progress(text, tok, limit, pending + [RightOf(w, boundary), LeftOf(w, boundary)], done, width)
    ensures TotalEffort(pending + [RightOf(w, boundary), LeftOf(w, boundary)]) < TotalEffort(pending + [w])
  {
    var r, l := RightOf(w, boundary), LeftOf(w, boundary);
    assert (pending + [w])[|pending|] == w;
    SubSlice(text, w, 0, boundary);
    SubSlice(text, w, boundary - SHARED, |w.chunk|);
    assert l.chunk == w.chunk[0..boundary] && r.chunk == w.chunk[boundary - SHARED..|w.chunk|];
    PushEffort(pending, w);
    PushEffort(pending, r);
    PushEffort(pending + [r], l);
    assert pending + [r] + [l] == pending + [r, l];
    SplitHolding(text, pending, w, l, r, done, width);
    forall i | 0 <= i < |pending + [r, l]| ensures SliceOf(text, (pending + [r, l])[i]) {
      assert i < |pending| ==> (pending + [w])[i] == pending[i];
    }
  }

  lemma SplitHolding(text: string, pending: seq<Window>, w: Window, l: Window, r: Window, done: seq<Window>, width: nat)
    requires HoldsAll(text, done + (pending + [w]), width) && width <= SHARED
    requires l.offset == w.offset && End(r) == End(w) && r.offset + SHARED <= End(l)
    ensures HoldsAll(text, done + (pending + [r, l]), width)
  {
    var front := done + pending;
    forall s, e | 0 <= s < e <= |text| && e - s <= width ensures Holds(done + (pending + [r, l]), s, e) {
      assert done + (pending + [w]) == front + [w] + [];
      assert Holds(done + (pending + [w]), s, e);
      SplitHolds(front, w, [], l, r, s, e, SHARED);
      MemberHolds(front + [l, r] + [], done + (pending + [r, l]), s, e);
    }
  }

  lemma YieldProgress(
    text: string, tok: Tokenizer, limit: nat, pending: seq<Window>, w: Window, done: seq<Window>, width: nat)
    requires Progress(text, tok, limit, pending + [w], done, width) && tok.count(w.chunk) <= limit
    ensures Progress(text, tok, limit, pending, done + [w], width)
  {
    assert (pending + [w])[|pending|] == w;
    forall i | 0 <= i < |pending| ensures SliceOf(text, pending[i]) {
      assert (pending + [w])[i] == pending[i];
    }
    forall s, e | 0 <= s < e <= |text| && e - s <= width ensures Holds(done + [w] + pending, s, e) {
      MemberHolds(done + (pending + [w]), done + [w] + pending, s, e);
    }
  }

  /** The widest span that is sure to lie whole in a window: 64 under the default overlap of 64 tokens. */
  function Sure(overlap: nat): nat { if overlap < SHARED then Wide(overlap) else SHARED }

  lemma Narrower(text: string, ws: seq<Window>, wide: nat, width: nat)
    requires HoldsAll(text, ws, wide) && width <= wide
    ensures HoldsAll(text, ws, width)
  {
  }

  /** The windows a text is first divided into; all of it when it has no tokens. */
  ghost function FirstChunks(text: string, tok: Tokenizer, window: nat, overlap: nat): seq<Window>
    requires WellBehaved(tok) && overlap < window
  {
    var offsets := Real(tok.plain(text));
    assert Monotone(offsets, |text|);
    if offsets == [] then [Window(0, text)] else SlicesFrom(text, offsets, window, overlap, 0)
  }

  /** Windows still to check, in reverse order so that the first is taken first. */
  method PendingChunks(text: string, tok: Tokenizer, window: nat, overlap: nat, ghost limit: nat)
    returns (pending: seq<Window>)
    requires WellBehaved(tok) && overlap < window
    ensures AllSlices(text, pending) && HoldsAll(text, pending, Sure(overlap))
    ensures StackPieces(tok, window, limit, [], pending) ==
            AllPieces(tok, window, limit, FirstChunks(text, tok, window, overlap))
  {
    var offsets := Real(tok.plain(text));
    assert Monotone(offsets, |text|);
    var ws := TokenSlices(text, offsets, window, overlap);
    if offsets == [] {
      ws := [Window(0, text)];
      WholeHolds(text, Wide(overlap));
    }
    Narrower(text, ws, Wide(overlap), Sure(overlap));
    pending := Reversed(ws);
    ReversedHolds(text, ws, pending, Sure(overlap));
    ReversedPieces(tok, window, limit, [], ws, pending);
    NothingBefore(AllPieces(tok, window, limit, ws));
  }

  lemma NothingBefore(all: Option<seq<Window>>)
    ensures all.Some? ==> [] + all.value == all.value
  {
  }

  /** The cut of a chunk that is too long; None when there is no token to cut at or the cut makes no progress. */
  method CutAt(w: Window, tok: Tokenizer, window: nat) returns (boundary: Option<nat>)
    ensures boundary.Some? ==> SHARED < boundary.value < |w.chunk|
    ensures var ends := Ends(Real(tok.full(w.chunk)));
            && (boundary.None? <==>
              ends == [] || Boundary(ends, window) <= SHARED || Boundary(ends, window) >= |w.chunk|)
            && (boundary.Some? ==> boundary.value == Boundary(ends, window))
  {
    var ends := Ends(Real(tok.full(w.chunk)));
    if ends == [] {
      return None;
    }
    var cut := Boundary(ends, window);
    boundary := if cut <= SHARED || cut >= |w.chunk| then None else Some(cut);
  }

  datatype Chunks = Complete(windows: seq<Window>) | Unbounded

  /**
   * For every well-behaved tokenizer it ends. It yields exactly the pieces of the first windows, in text
   * order, and is refused exactly when some piece is too long and has no usable cut; every window it
   * yields is an exact slice within the token limit, and every short span is whole in one.
   */
  method TokenChunks(text: string, tok: Tokenizer, window: nat, overlap: nat, limit: nat) returns (chunks: Chunks)
    requires WellBehaved(tok) && overlap < window
    ensures var pieces := AllPieces(tok, window, limit, FirstChunks(text, tok, window, overlap));
            chunks == if pieces.Some? then Complete(pieces.value) else Unbounded
    ensures chunks.Complete? ==>
              && AllSlices(text, chunks.windows) && HoldsAll(text, chunks.windows, Sure(overlap))
              && forall i :: 0 <= i < |chunks.windows| ==> tok.count(chunks.windows[i].chunk) <= limit
  {
    var pending := PendingChunks(text, tok, window, overlap, limit);
    var done: seq<Window> := [];
    ghost var all := AllPieces(tok, window, limit, FirstChunks(text, tok, window, overlap));
    StartProgress(text, tok, limit, pending, Sure(overlap));
    while pending != []
      invariant Progress(text, tok, limit, pending, done, Sure(overlap))
      invariant StackPieces(tok, window, limit, done, pending) == all
      decreases TotalEffort(pending)
    {
      var w := pending[|pending| - 1];
      LastSplit(pending);
      var ok;
      ok, pending, done := CheckChunk(text, tok, window, limit, pending[..|pending| - 1], w, done, Sure(overlap));
      if !ok {
        return Unbounded;
      }
    }
    DoneProgress(text, tok, limit, done, Sure(overlap));
    chunks := Complete(done);
  }

  /** Splitting is refused exactly over a chunk of the text that is too long and has no usable cut. */
  lemma {:induction false} RefusedPiece(text: string, tok: Tokenizer, window: nat, limit: nat, w: Window)
    returns (bad: Window)
    requires Pieces(tok, window, limit, w).None? && SliceOf(text, w)
    ensures SliceOf(text, bad) && w.offset <= bad.offset && End(bad) <= End(w)
    ensures tok.count(bad.chunk) > limit && CutOf(tok, window, bad.chunk).None?
    decreases |w.chunk|
  {
    var cut := CutOf(tok, window, w.chunk);
    if cut.None? {
      bad := w;
    } else {
      var l, r := LeftOf(w, cut.value), RightOf(w, cut.value);
      SubSlice(text, w, 0, cut.value);
      SubSlice(text, w, cut.value - SHARED, |w.chunk|);
      assert l.chunk == w.chunk[0..cut.value] && r.chunk == w.chunk[cut.value - SHARED..|w.chunk|];
      bad := RefusedPiece(text, tok, window, limit, if Pieces(tok, window, limit, l).None? then l else r);
    }
  }

  lemma DoneProgress(text: string, tok: Tokenizer, limit: nat, done: seq<Window>, width: nat)
    requires Progress(text, tok, limit, [], done, width)
    ensures AllSlices(text, done) && HoldsAll(text, done, width)
    ensures forall i :: 0 <= i < |done| ==> tok.count(done[i].chunk) <= limit
  {
    assert done + [] == done;
  }

  lemma StartProgress(text: string, tok: Tokenizer, limit: nat, pending: seq<Window>, width: nat)
    requires AllSlices(text, pending) && HoldsAll(text, pending, width)
    ensures Progress(text, tok, limit, pending, [], width)
  {
    assert [] + pending == pending;
  }

  /** One chunk retokenized: yielded, cut in two, or refused. */
  method CheckChunk(
    ghost text: string, tok: Tokenizer, window: nat, limit: nat, pending: seq<Window>, w: Window, done: seq<Window>,
    ghost width: nat)
    returns (ok: bool, left: seq<Window>, yielded: seq<Window>)
    requires Progress(text, tok, limit, pending + [w], done, width) && width <= SHARED
    ensures ok ==> Progress(text, tok, limit, left, yielded, width) && TotalEffort(left) < TotalEffort(pending + [w])
    ensures StackPieces(tok, window, limit, done, pending + [w]) ==
            if ok then StackPieces(tok, window, limit, yielded, left) else None
  {
    ok, left, yielded := true, pending, done;
    assert (pending + [w])[..|pending|] == pending;
    if tok.count(w.chunk) <= limit {
      YieldProgress(text, tok, limit, pending, w, done, width);
      PushEffort(pending, w);
      yielded := done + [w];
      return;
    }
    var boundary := CutAt(w, tok, window);
    if boundary.None? {
      return false, pending, done;
    }
    SplitProgress(text, tok, limit, pending, w, done, boundary.value, width);
    CutPieces(tok, window, limit, done, pending, w, boundary.value);
    left := pending + [RightOf(w, boundary.value), LeftOf(w, boundary.value)];
  }

  // ---- the local transformer's chunks ----

  /** The analyzer's chunks: at most `maxTokens` tokens each, overlapping by up to 64 tokens. */
  method LocalChunks(text: string, tok: Tokenizer, modelMaxLength: int) returns (chunks: Chunks)
    requires WellBehaved(tok)
    ensures chunks.Complete? <==> modelMaxLength > 32
    ensures chunks.Complete? ==>
              var maxTokens := if modelMaxLength - 32 < 480 then modelMaxLength - 32 else 480;
              && AllSlices(text, chunks.windows)
              && HoldsAll(text, chunks.windows, Wide(if maxTokens / 4 < 64 then maxTokens / 4 else 64))
              && (forall i :: 0 <= i < |chunks.windows| ==>
                Bounded(text, Real(tok.plain(text)), chunks.windows[i], maxTokens))
  {
    var offsets := Real(tok.plain(text));
    assert Monotone(offsets, |text|);
    var maxTokens := if modelMaxLength - 32 < 480 then modelMaxLength - 32 else 480;
    if maxTokens <= 0 {
      return Unbounded;
    }
    var overlap := if maxTokens / 4 < 64 then maxTokens / 4 else 64;
    if |offsets| <= maxTokens {
      WholeHolds(text, Wide(overlap));
      return Complete([Window(0, text)]);
    }
    var ws := TokenSlices(text, offsets, maxTokens, overlap);
    chunks := Complete(ws);
  }

  /** The window carries at most this many of the text's tokens. */
  ghost predicate Bounded(text: string, ts: seq<Token>, w: Window, maxTokens: nat) {
    |ts| <= maxTokens || TokensWithin(text, ts, w, maxTokens)
  }
}
