/** Baseline chunking: overlapping chunks whose owned ranges decide which chunk reports a finding. */
module BaselineChunks {
  import opened Windows
  import opened RemoteWindows

  /** A chunk and the part of the text it owns. */
  datatype Owned = Owned(window: Window, start: nat, end: nat)

  type Size = n: int | 0 < n witness 1

  function Least(a: int, b: int): int { if a <= b then a else b }

  function Most(a: int, b: int): int { if a >= b then a else b }

  /** What makes chunks a division of the text: owned ranges in order, without gaps, up to the end. */
  ghost predicate Divides(text: string, chunks: seq<Owned>) {
    && chunks != []
    && chunks[0].start == 0 && chunks[|chunks| - 1].end == |text|
    && (forall i :: 0 <= i < |chunks| ==> chunks[i].start <= chunks[i].end)
    && (forall i :: 0 < i < |chunks| ==> chunks[i].start == chunks[i - 1].end)
  }

  /** Each chunk extends its owned range by the overlap on both sides, as far as the text goes. */
  ghost predicate Extended(text: string, chunks: seq<Owned>, overlap: nat) {
    forall i :: 0 <= i < |chunks| ==>
      && SliceOf(text, chunks[i].window)
      && chunks[i].window.offset == Most(0, chunks[i].start - overlap)
      && End(chunks[i].window) == Least(|text|, chunks[i].end + overlap)
  }

  /** Owned ranges so far, up to a position; all are full-sized if that position is a multiple of the size. */
  ghost predicate DividesTo(chunks: seq<Owned>, size: nat, to: nat, full: bool) {
    && (chunks == [] ==> to == 0)
    && (chunks != [] ==> chunks[0].start == 0 && chunks[|chunks| - 1].end == to)
    && (forall i :: 0 <= i < |chunks| ==> chunks[i].start <= chunks[i].end <= chunks[i].start + size)
    && (forall i :: 0 <= i < |chunks| && (full || i < |chunks| - 1) ==> chunks[i].end == chunks[i].start + size)
    && (forall i :: 0 < i < |chunks| ==> chunks[i].start == chunks[i - 1].end)
  }

  lemma NextDivides(chunks: seq<Owned>, size: nat, c: Owned)
    requires DividesTo(chunks, size, c.start, true) && c.start <= c.end <= c.start + size
    ensures DividesTo(chunks + [c], size, c.end, c.end == c.start + size)
  {
    var more := chunks + [c];
    forall i | 0 <= i < |more| ensures i < |chunks| ==> more[i] == chunks[i] {}
  }

  lemma NextExtended(text: string, chunks: seq<Owned>, c: Owned, overlap: nat)
    requires Extended(text, chunks, overlap) && Extended(text, [c], overlap)
    ensures Extended(text, chunks + [c], overlap)
  {
    assert [c][0] == c;
  }

  function OwnedChunk(text: string, start: nat, end: nat, overlap: nat): Owned
    requires start <= end <= |text|
  {
    Owned(Slice(text, Most(0, start - overlap), Least(|text|, end + overlap)), start, end)
  }

  lemma OwnedExtends(text: string, start: nat, end: nat, overlap: nat)
    requires start <= end <= |text|
    ensures Extended(text, [OwnedChunk(text, start, end, overlap)], overlap)
  {
  }

  /** Chunks that own `size` characters each, the last one what remains. */
  function ChunksFrom(text: string, size: Size, overlap: nat, start: nat): seq<Owned>
    decreases |text| - start
  {
    if start >= |text| then []
    else [OwnedChunk(text, start, Least(|text|, start + size), overlap)] + ChunksFrom(text, size, overlap, start + size)
  }

  /** The chunks of a text; all of it in one when it is short enough. */
  function ChunksOf(text: string, size: Size, overlap: nat): seq<Owned>
  {
    if |text| <= size then [Owned(Window(0, text), 0, |text|)] else ChunksFrom(text, size, overlap, 0)
  }

  lemma ChunkStep(text: string, size: Size, overlap: nat, start: nat, before: seq<Owned>)
    requires start < |text| && DividesTo(before, size, start, true) && Extended(text, before, overlap)
    ensures var c := OwnedChunk(text, start, Least(|text|, start + size), overlap);
            && DividesTo(before + [c], size, Least(start + size, |text|), start + size <= |text|)
            && Extended(text, before + [c], overlap)
  {
    var c := OwnedChunk(text, start, Least(|text|, start + size), overlap);
    NextDivides(before, size, c);
    OwnedExtends(text, start, c.end, overlap);
    NextExtended(text, before, c, overlap);
  }

  lemma FirstFrom(text: string, size: Size, overlap: nat, start: nat, before: seq<Owned>)
    ensures before + ChunksFrom(text, size, overlap, start) ==
            if start >= |text| then before
            else before + [OwnedChunk(text, start, Least(|text|, start + size), overlap)]
                 + ChunksFrom(text, size, overlap, start + size)
  {
  }

  lemma {:induction false} ChunksFromDivide(text: string, size: Size, overlap: nat, start: nat, before: seq<Owned>)
    requires DividesTo(before, size, Least(start, |text|), start <= |text|) && Extended(text, before, overlap)
    ensures DividesTo(before + ChunksFrom(text, size, overlap, start), size, |text|, false)
    ensures Extended(text, before + ChunksFrom(text, size, overlap, start), overlap)
    decreases |text| - start
  {
    FirstFrom(text, size, overlap, start, before);
    if start < |text| {
      ChunkStep(text, size, overlap, start, before);
      var c := OwnedChunk(text, start, Least(|text|, start + size), overlap);
      ChunksFromDivide(text, size, overlap, start + size, before + [c]);
    }
  }

  /** The owned ranges run through the text in order without gaps; each window extends its range by the overlap. */
  lemma ChunksDivide(text: string, size: Size, overlap: nat)
    ensures var chunks := ChunksOf(text, size, overlap);
            && chunks != [] && DividesTo(chunks, size, |text|, false) && Extended(text, chunks, overlap)
            && Divides(text, chunks)
  {
    if |text| > size {
      ChunksFromDivide(text, size, overlap, 0, []);
      assert [] + ChunksFrom(text, size, overlap, 0) == ChunksFrom(text, size, overlap, 0);
    }
    DividedWhole(text, ChunksOf(text, size, overlap), size);
  }

  method Chunks(text: string, size: Size, overlap: nat) returns (chunks: seq<Owned>)
    ensures chunks == ChunksOf(text, size, overlap)
    ensures chunks != [] && DividesTo(chunks, size, |text|, false) && Extended(text, chunks, overlap)
  {
    if |text| <= size {
      ChunksDivide(text, size, overlap);
      return [Owned(Window(0, text), 0, |text|)];
    }
    chunks := [];
    var start: nat := 0;
    while start < |text|
      invariant chunks + ChunksFrom(text, size, overlap, start) == ChunksOf(text, size, overlap)
      decreases |text| - start
    {
      FirstFrom(text, size, overlap, start, chunks);
      chunks := chunks + [OwnedChunk(text, start, Least(|text|, start + size), overlap)];
      start := start + size;
    }
    FirstFrom(text, size, overlap, start, chunks);
    ChunksDivide(text, size, overlap);
  }

  lemma DividedWhole(text: string, chunks: seq<Owned>, size: Size)
    requires chunks != [] && DividesTo(chunks, size, |text|, false)
    ensures Divides(text, chunks)
  {
  }

  predicate Owns(c: Owned, m: int) { c.start <= m < c.end }

  /** The owned ranges partition the text: every position has exactly one owner. */
  lemma {:induction false} OneOwner(text: string, chunks: seq<Owned>, m: nat) returns (k: nat)
    requires Divides(text, chunks) && m < |text|
    ensures k < |chunks| && Owns(chunks[k], m)
    ensures forall i :: 0 <= i < |chunks| && Owns(chunks[i], m) ==> i == k
  {
    k := OwnerUpTo(text, chunks, m, |chunks| - 1);
    forall i | 0 <= i < |chunks| && i != k ensures !Owns(chunks[i], m) {
      if i < k {
        InOrder(text, chunks, i, k);
      } else {
        InOrder(text, chunks, k, i);
      }
    }
  }

  lemma {:induction false} InOrder(text: string, chunks: seq<Owned>, i: nat, j: nat)
    requires Divides(text, chunks) && i < j < |chunks|
    ensures chunks[i].end <= chunks[j].start
    decreases j
  {
    assert chunks[j].start == chunks[j - 1].end;
    if i < j - 1 {
      InOrder(text, chunks, i, j - 1);
    }
  }

  lemma {:induction false} OwnerUpTo(text: string, chunks: seq<Owned>, m: nat, last: nat) returns (k: nat)
    requires Divides(text, chunks) && last < |chunks| && m < chunks[last].end
    ensures k <= last && Owns(chunks[k], m)
    decreases last
  {
    if chunks[last].start <= m {
      k := last;
    } else {
      assert chunks[last].start == chunks[last - 1].end;
      k := OwnerUpTo(text, chunks, m, last - 1);
    }
  }

  function Midpoint(s: int, e: int): int { (s + e) / 2 }

  /** The owner of a short span's midpoint contains the whole span, and no other chunk owns that midpoint. */
  lemma OwnerContains(text: string, chunks: seq<Owned>, overlap: nat, s: nat, e: nat) returns (k: nat)
    requires Divides(text, chunks) && Extended(text, chunks, overlap) && s < e <= |text| && e - s <= 2 * overlap + 1
    ensures k < |chunks| && Owns(chunks[k], Midpoint(s, e)) && Inside(chunks[k].window, s, e)
    ensures forall i :: 0 <= i < |chunks| && Owns(chunks[i], Midpoint(s, e)) ==> i == k
  {
    k := OneOwner(text, chunks, Midpoint(s, e));
    assert chunks[k].window.offset == Most(0, chunks[k].start - overlap);
  }

  /** The bound is exact: one character more, and the owner of a midpoint at its first position cuts the span. */
  lemma WiderIsCut(text: string, chunks: seq<Owned>, overlap: nat, k: nat)
    requires Divides(text, chunks) && Extended(text, chunks, overlap) && k < |chunks| && chunks[k].start < chunks[k].end
    requires overlap + 1 <= chunks[k].start && chunks[k].start + overlap + 1 <= |text|
    ensures var s, e := chunks[k].start - overlap - 1, chunks[k].start + overlap + 1;
            e - s == 2 * overlap + 2 && Owns(chunks[k], Midpoint(s, e)) && !Inside(chunks[k].window, s, e)
  {
    assert chunks[k].window.offset == chunks[k].start - overlap;
  }

  // ---- keeping each finding once ----

  function Kept(fs: seq<Finding>, c: Owned): seq<Finding> {
    if fs == [] then []
    else
      var n := |fs| - 1;
      Kept(fs[..n], c) + (if Owns(c, Midpoint(fs[n].start, fs[n].end)) then [fs[n]] else [])
  }

  /** All findings kept from the first chunks, in chunk order. */
  function KeptAll(chunks: seq<Owned>, detect: string -> seq<Finding>): seq<Finding> {
    if chunks == [] then []
    else
      var c := chunks[|chunks| - 1];
      KeptAll(chunks[..|chunks| - 1], detect) + Kept(Moved(detect(c.window.chunk), c.window.offset), c)
  }

  /** One configured language: its window profile and what its engine finds in a chunk. */
  datatype Language = Language(size: Size, overlap: nat, detect: string -> seq<Finding>)

  /** The findings one language keeps. */
  function KeptBy(text: string, l: Language): seq<Finding> { KeptAll(ChunksOf(text, l.size, l.overlap), l.detect) }

  /** The findings kept over all languages, in their order. */
  function KeptByAll(text: string, languages: seq<Language>): seq<Finding>
  {
    if languages == [] then []
    else
      var l := languages[|languages| - 1];
      KeptByAll(text, languages[..|languages| - 1]) + KeptBy(text, l)
  }

  /** Scan the text once per language, each with its own chunks. */
  method Analyze(text: string, languages: seq<Language>) returns (results: seq<Finding>)
    ensures results == KeptByAll(text, languages)
  {
    results := [];
    for i := 0 to |languages|
      invariant results == KeptByAll(text, languages[..i])
    {
      var found := AnalyzeLanguage(text, languages[i]);
      results := results + found;
      assert languages[..i + 1][..i] == languages[..i];
    }
    assert languages[..|languages|] == languages;
  }

  lemma KeptNext(chunks: seq<Owned>, i: nat, detect: string -> seq<Finding>)
    requires i < |chunks|
    ensures KeptAll(chunks[..i + 1], detect) ==
            KeptAll(chunks[..i], detect) +
              Kept(Moved(detect(chunks[i].window.chunk), chunks[i].window.offset), chunks[i])
  {
    assert chunks[..i + 1][..i] == chunks[..i];
  }

  /** Scan every chunk and keep a finding where its midpoint is owned. */
  method AnalyzeLanguage(text: string, l: Language) returns (results: seq<Finding>)
    ensures results == KeptBy(text, l)
  {
    var parts := Chunks(text, l.size, l.overlap);
    results := [];
    for i := 0 to |parts|
      invariant results == KeptAll(parts[..i], l.detect)
    {
      var found := Moved(l.detect(parts[i].window.chunk), parts[i].window.offset);
      var kept := KeepOwned(found, parts[i]);
      KeptNext(parts, i, l.detect);
      results := results + kept;
    }
    assert parts[..|parts|] == parts;
  }

  method KeepOwned(fs: seq<Finding>, c: Owned) returns (kept: seq<Finding>)
    ensures kept == Kept(fs, c)
  {
    kept := [];
    for i := 0 to |fs|
      invariant kept == Kept(fs[..i], c)
    {
      var midpoint := (fs[i].start + fs[i].end) / 2;
      if c.start <= midpoint < c.end {
        kept := kept + [fs[i]];
      }
      assert fs[..i + 1][..i] == fs[..i];
    }
    assert fs[..|fs|] == fs;
  }

  function Times(fs: seq<Finding>, f: Finding): nat { multiset(fs)[f] }

  lemma {:induction false} KeptTimes(fs: seq<Finding>, c: Owned, f: Finding)
    ensures Times(Kept(fs, c), f) == if Owns(c, Midpoint(f.start, f.end)) then Times(fs, f) else 0
  {
    if fs != [] {
      var n := |fs| - 1;
      KeptTimes(fs[..n], c, f);
      assert fs == fs[..n] + [fs[n]];
    }
  }

  /** A detector that reports a span once, wherever it sees the whole of it. */
  ghost predicate ReportsOnce(chunks: seq<Owned>, detect: string -> seq<Finding>, f: Finding) {
    forall i :: 0 <= i < |chunks| && Inside(chunks[i].window, f.start, f.end) ==>
      Times(Moved(detect(chunks[i].window.chunk), chunks[i].window.offset), f) == 1
  }

  lemma {:induction false} KeptAllTimes(chunks: seq<Owned>, detect: string -> seq<Finding>, f: Finding, k: int)
    requires forall i :: 0 <= i < |chunks| && Owns(chunks[i], Midpoint(f.start, f.end)) ==> i == k
    requires 0 <= k < |chunks| ==>
               Owns(chunks[k], Midpoint(f.start, f.end))
                 && Times(Moved(detect(chunks[k].window.chunk), chunks[k].window.offset), f) == 1
    ensures Times(KeptAll(chunks, detect), f) == if 0 <= k < |chunks| then 1 else 0
  {
    if chunks != [] {
      var n := |chunks| - 1;
      KeptAllTimes(chunks[..n], detect, f, k);
      KeptTimes(Moved(detect(chunks[n].window.chunk), chunks[n].window.offset), chunks[n], f);
    }
  }

  /** Each short finding that every chunk seeing it whole reports once is kept exactly once. */
  lemma KeptExactlyOnce(text: string, chunks: seq<Owned>, overlap: nat, detect: string -> seq<Finding>, f: Finding)
    requires Divides(text, chunks) && Extended(text, chunks, overlap) && ReportsOnce(chunks, detect, f)
    requires 0 <= f.start < f.end <= |text| && f.end - f.start <= 2 * overlap + 1
    ensures Times(KeptAll(chunks, detect), f) == 1
  {
    var k := OwnerContains(text, chunks, overlap, f.start, f.end);
    KeptAllTimes(chunks, detect, f, k);
  }

  /** A language that reports a short finding once wherever it sees it whole. */
  ghost predicate Reports(text: string, l: Language, f: Finding) {
    && f.end - f.start <= 2 * l.overlap + 1
    && ReportsOnce(ChunksOf(text, l.size, l.overlap), l.detect, f)
  }

  lemma KeptOnce(text: string, l: Language, f: Finding)
    requires 0 <= f.start < f.end <= |text| && Reports(text, l, f)
    ensures Times(KeptBy(text, l), f) == 1
  {
    ChunksDivide(text, l.size, l.overlap);
    KeptExactlyOnce(text, ChunksOf(text, l.size, l.overlap), l.overlap, l.detect, f);
  }

  lemma TimesJoined(a: seq<Finding>, b: seq<Finding>, f: Finding)
    ensures Times(a + b, f) == Times(a, f) + Times(b, f)
  {
  }

  lemma NextLanguage(text: string, languages: seq<Language>, f: Finding)
    requires languages != []
    ensures var n := |languages| - 1;
            Times(KeptByAll(text, languages), f) ==
            Times(KeptByAll(text, languages[..n]), f) + Times(KeptBy(text, languages[n]), f)
  {
    var n := |languages| - 1;
    TimesJoined(KeptByAll(text, languages[..n]), KeptBy(text, languages[n]), f);
  }

  /** A short finding that every language reports once wherever it sees it whole is kept once per language. */
  lemma {:induction false} KeptOncePerLanguage(text: string, languages: seq<Language>, f: Finding)
    requires 0 <= f.start < f.end <= |text| && forall l :: l in languages ==> Reports(text, l, f)
    ensures Times(KeptByAll(text, languages), f) == |languages|
  {
    if languages != [] {
      var n := |languages| - 1;
      NextLanguage(text, languages, f);
      KeptOncePerLanguage(text, languages[..n], f);
      KeptOnce(text, languages[n], f);
    }
  }
}
