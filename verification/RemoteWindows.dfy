/** Remote window scanning: subdividing windows a service rejects for their size. */
module RemoteWindows {
  import opened Ordering
  import opened Windows

  datatype Finding = Finding(entity: string, start: int, end: int, score: real, source: string)

  /** What one remote call does: reject the size, fail otherwise, or report findings. */
  datatype Answer = TooLarge | Broken | Found(findings: seq<Finding>)

  /** The service may answer every call differently, even for one text. */
  type Service = (nat, string) -> Answer

  predicate InBounds(f: Finding, length: int) { 0 <= f.start < f.end <= length }

  predicate AllInBounds(fs: seq<Finding>, length: int) {
    forall i :: 0 <= i < |fs| ==> InBounds(fs[i], length)
  }

  function Moved(fs: seq<Finding>, offset: int): (r: seq<Finding>)
    ensures |r| == |fs|
    ensures forall i :: 0 <= i < |r| ==> r[i] == fs[i].(start := fs[i].start + offset, end := fs[i].end + offset)
  {
    seq(|fs|, i requires 0 <= i < |fs| => fs[i].(start := fs[i].start + offset, end := fs[i].end + offset))
  }

  /** A window the service accepted, with its validated findings. */
  datatype Accepted = Accepted(window: Window, findings: seq<Finding>)

  function Collected(done: seq<Accepted>): seq<Finding> {
    if done == [] then []
    else
      var last := done[|done| - 1];
      Collected(done[..|done| - 1]) + Moved(last.findings, last.window.offset)
  }

  function WindowsOf(done: seq<Accepted>): (r: seq<Window>)
    ensures |r| == |done| && forall i :: 0 <= i < |r| ==> r[i] == done[i].window
  {
    seq(|done|, i requires 0 <= i < |done| => done[i].window)
  }

  const SMALLEST := 64

  /** Half of the shared characters of the two parts of a rejected window. */
  function HalfOverlap(n: nat): nat { if n / 4 < 32 then n / 4 else 32 }

  /** Size of the splitting tree below a window that would be rejected at every size above the smallest. */
  function Work(n: nat): nat
    decreases n
  {
    if n <= SMALLEST then 1 else 1 + Work(n / 2 + HalfOverlap(n)) + Work(n - n / 2 + HalfOverlap(n))
  }

  function TotalWork(ws: seq<Window>): nat {
    if ws == [] then 0 else TotalWork(ws[..|ws| - 1]) + Work(|ws[|ws| - 1].chunk|)
  }

  lemma PushWork(ws: seq<Window>, w: Window)
    ensures TotalWork(ws + [w]) == TotalWork(ws) + Work(|w.chunk|)
  {
    assert (ws + [w])[..|ws|] == ws;
  }

  // ---- the calls of one scan ----

  /** One call of the service: the window it was shown and what it answered. */
  datatype Call = Call(window: Window, answer: Answer)

  /** An answer the scan cannot go on from. */
  predicate Fatal(c: Call) {
    match c.answer
    case Broken => true
    case TooLarge => |c.window.chunk| <= SMALLEST
    case Found(fs) => !AllInBounds(fs, |c.window.chunk|)
  }

  /** The windows still to show after some calls, the next one last: a rejected window leaves its two parts. */
  function Stack(initial: seq<Window>, log: seq<Call>): seq<Window> {
    if log == [] then initial
    else
      var n := |log| - 1;
      var before := Stack(initial, log[..n]);
      if before == [] then []
      else if log[n].answer == TooLarge && |log[n].window.chunk| > SMALLEST then
        before[..|before| - 1] + [LeftPart(log[n].window), RightPart(log[n].window)]
      else before[..|before| - 1]
  }

  /** Call k shows the service the window that is then last on the stack, and records its answer. */
  ghost predicate AskedAt(service: Service, initial: seq<Window>, log: seq<Call>, k: nat) {
    && k < |log|
    && var before := Stack(initial, log[..k]);
       before != [] && log[k] == Call(before[|before| - 1], service(k, before[|before| - 1].chunk))
  }

  /** The log is what a scan from these windows asks the service and is answered, and no answer is fatal. */
  ghost predicate Asked(service: Service, initial: seq<Window>, log: seq<Call>) {
    forall k :: 0 <= k < |log| ==> AskedAt(service, initial, log, k) && !Fatal(log[k])
  }

  /** The windows whose findings were taken, in order. */
  function AcceptedBy(log: seq<Call>): seq<Accepted> {
    if log == [] then []
    else
      var last := log[|log| - 1];
      AcceptedBy(log[..|log| - 1]) + (if last.answer.Found? then [Accepted(last.window, last.answer.findings)] else [])
  }

  lemma {:induction false} AcceptedAt(log: seq<Call>, i: nat) returns (k: nat)
    requires i < |AcceptedBy(log)|
    ensures k < |log| && log[k] == Call(AcceptedBy(log)[i].window, Found(AcceptedBy(log)[i].findings))
  {
    var n := |log| - 1;
    if i < |AcceptedBy(log[..n])| {
      k := AcceptedAt(log[..n], i);
    } else {
      k := n;
    }
  }

  lemma LogNext(service: Service, initial: seq<Window>, log: seq<Call>, w: Window)
    requires Asked(service, initial, log) && Stack(initial, log) != []
    requires w == Stack(initial, log)[|Stack(initial, log)| - 1]
    ensures var c := Call(w, service(|log|, w.chunk)); var more := log + [c];
            && AskedAt(service, initial, more, |log|)
            && (!Fatal(c) ==> Asked(service, initial, more))
            && more[..|log|] == log
  {
    var more := log + [Call(w, service(|log|, w.chunk))];
    assert more[..|log|] == log;
    forall k | 0 <= k < |log| ensures AskedAt(service, initial, more, k) && !Fatal(more[k]) {
      assert AskedAt(service, initial, log, k);
      assert more[..k] == log[..k];
    }
  }

  lemma CollectNext(done: seq<Accepted>, a: Accepted)
    ensures Collected(done + [a]) == Collected(done) + Moved(a.findings, a.window.offset)
  {
    assert (done + [a])[..|done|] == done;
  }

  // ---- the initial windows ----

  /** Windows of the given size from an offset on, each starting `overlap` characters before the last one ends. */
  function WindowsFrom(text: string, size: nat, overlap: nat, offset: nat): seq<Window>
    requires overlap < size
    decreases |text| - offset
  {
    if offset >= |text| then []
    else if offset + size >= |text| then [Slice(text, offset, |text|)]
    else [Slice(text, offset, offset + size)] + WindowsFrom(text, size, overlap, offset + size - overlap)
  }

  /** Where the windows stand: full-sized but for the last, each `overlap` before the end of the one before it. */
  ghost predicate Placed(text: string, size: nat, overlap: nat, offset: nat, ws: seq<Window>) {
    && (ws == [] <==> offset >= |text|)
    && (ws != [] ==> ws[0].offset == offset && End(ws[|ws| - 1]) == |text| && |ws[|ws| - 1].chunk| <= size)
    && (forall i :: 0 <= i < |ws| - 1 ==> |ws[i].chunk| == size && End(ws[i]) < |text|)
    && forall i :: 0 < i < |ws| ==> ws[i].offset + overlap == End(ws[i - 1])
  }

  lemma {:induction false} WindowsPlaced(text: string, size: nat, overlap: nat, offset: nat)
    requires overlap < size
    ensures Placed(text, size, overlap, offset, WindowsFrom(text, size, overlap, offset))
    decreases |text| - offset
  {
    if offset < |text| && offset + size < |text| {
      WindowsPlaced(text, size, overlap, offset + size - overlap);
      PlacedFirst(
        text, size, overlap, offset, Slice(text, offset, offset + size),
        WindowsFrom(text, size, overlap, offset + size - overlap));
    }
  }

  lemma PlacedFirst(text: string, size: nat, overlap: nat, offset: nat, w: Window, rest: seq<Window>)
    requires overlap < size && offset + size < |text| && w == Slice(text, offset, offset + size)
    requires Placed(text, size, overlap, offset + size - overlap, rest)
    ensures Placed(text, size, overlap, offset, [w] + rest)
  {
    var all := [w] + rest;
    forall i | 0 < i < |all| ensures all[i].offset + overlap == End(all[i - 1]) {
      assert all[i] == rest[i - 1] && (i > 1 ==> all[i - 1] == rest[i - 2]);
    }
    forall i | 0 <= i < |all| - 1 ensures |all[i].chunk| == size && End(all[i]) < |text| {
      assert i > 0 ==> all[i] == rest[i - 1];
    }
  }

  /** Windows taken so far, up to an offset. */
  ghost predicate Begun(text: string, size: nat, overlap: nat, taken: seq<Window>, offset: nat)
    requires overlap < size
  {
    && taken + WindowsFrom(text, size, overlap, offset) == WindowsFrom(text, size, overlap, 0)
    && AllSlices(text, taken) && CoversTo(text, taken, offset, Wider(overlap)) && Sized(taken, size)
  }

  predicate Sized(ws: seq<Window>, size: nat) { forall i :: 0 <= i < |ws| ==> |ws[i].chunk| <= size }

  method InitialWindows(text: string, size: nat, overlap: nat) returns (pending: seq<Window>)
    requires overlap < size
    ensures pending == WindowsFrom(text, size, overlap, 0)
    ensures AllSlices(text, pending) && HoldsAll(text, pending, Wider(overlap)) && Sized(pending, size)
  {
    pending := [];
    var offset: nat := 0;
    while offset < |text|
      invariant Begun(text, size, overlap, pending, offset)
      decreases |text| - offset
    {
      var to := if offset + size <= |text| then offset + size else |text|;
      BeginNext(text, size, overlap, pending, offset, Slice(text, offset, to));
      pending := pending + [Slice(text, offset, to)];
      if offset + size >= |text| {
        return;
      }
      offset := offset + size - overlap;
    }
  }

  lemma BeginNext(text: string, size: nat, overlap: nat, taken: seq<Window>, offset: nat, w: Window)
    requires overlap < size && offset < |text| && Begun(text, size, overlap, taken, offset)
    requires w == Slice(text, offset, if offset + size <= |text| then offset + size else |text|)
    ensures AllSlices(text, taken + [w]) && Sized(taken + [w], size)
    ensures offset + size >= |text| ==>
              taken + [w] == WindowsFrom(text, size, overlap, 0) && HoldsAll(text, taken + [w], Wider(overlap))
    ensures offset + size < |text| ==> Begun(text, size, overlap, taken + [w], offset + size - overlap)
  {
    CoverNext(text, taken, w, offset + size - overlap, Wider(overlap));
    FirstFrom(text, size, overlap, offset, taken);
  }

  lemma FirstFrom(text: string, size: nat, overlap: nat, offset: nat, before: seq<Window>)
    requires overlap < size && offset < |text|
    ensures before + WindowsFrom(text, size, overlap, offset) ==
            if offset + size >= |text| then before + [Slice(text, offset, |text|)]
            else before + [Slice(text, offset, offset + size)] +
                 WindowsFrom(text, size, overlap, offset + size - overlap)
  {
  }

  /** Every short span that starts before a position is whole in some window. */
  ghost predicate CoversTo(text: string, ws: seq<Window>, to: int, width: nat) {
    forall s, e :: 0 <= s < e <= |text| && s < to && e - s <= width ==> Holds(ws, s, e)
  }

  lemma CoverNext(text: string, before: seq<Window>, w: Window, to: int, width: nat)
    requires SliceOf(text, w) && CoversTo(text, before, w.offset, width)
    requires to + width <= End(w) + 1 || End(w) == |text|
    ensures CoversTo(text, before + [w], to, width)
    ensures End(w) == |text| ==> HoldsAll(text, before + [w], width)
  {
    forall s, e | 0 <= s < e <= |text| && (s < to || End(w) == |text|) && e - s <= width
      ensures Holds(before + [w], s, e)
    {
      if s < w.offset {
        MemberHolds(before, before + [w], s, e);
      } else {
        assert Inside((before + [w])[|before|], s, e);
      }
    }
  }

  /** Without overlap single characters are still covered. */
  function Wider(overlap: nat): nat { if overlap == 0 then 1 else overlap }

  /** The widest span that is sure to be scanned whole: 32 under the default overlap of 128. */
  function Sure(overlap: nat): nat { if overlap < 32 then Wider(overlap) else 32 }

  // ---- subdividing ----

  /** What is held so far: every short span is whole in a window that is accepted or still pending. */
  ghost predicate Progress(text: string, pending: seq<Window>, done: seq<Accepted>, width: nat) {
    && AllSlices(text, pending) && AllSlices(text, WindowsOf(done))
    && HoldsAll(text, WindowsOf(done) + pending, width)
    && forall i :: 0 <= i < |done| ==> AllInBounds(done[i].findings, |done[i].window.chunk|)
  }

  lemma SplitShares(n: nat)
    requires n > SMALLEST
    ensures n / 2 + HalfOverlap(n) < n && n - n / 2 + HalfOverlap(n) < n
    ensures n / 2 - HalfOverlap(n) >= 0 && 2 * HalfOverlap(n) >= 32
  {
  }

  function LeftPart(w: Window): Window
    requires |w.chunk| > SMALLEST
  {
    Window(w.offset, w.chunk[..|w.chunk| / 2 + HalfOverlap(|w.chunk|)])
  }

  function RightPart(w: Window): Window
    requires |w.chunk| > SMALLEST
  {
    SplitShares(|w.chunk|);
    Window(w.offset + (|w.chunk| / 2 - HalfOverlap(|w.chunk|)), w.chunk[|w.chunk| / 2 - HalfOverlap(|w.chunk|)..])
  }

  /**
   * A rejected window of more than 64 characters is cut around its middle; each part reaches 32 characters
   * beyond the middle, or a quarter of the window where that is less.
   */
  lemma PartsMeet(w: Window)
    requires |w.chunk| > 64
    ensures var middle, half := |w.chunk| / 2, if |w.chunk| / 4 < 32 then |w.chunk| / 4 else 32;
            && End(LeftPart(w)) == w.offset + middle + half && RightPart(w).offset == w.offset + middle - half
            && LeftPart(w).offset == w.offset && End(RightPart(w)) == End(w)
            && LeftPart(w).chunk == w.chunk[..middle + half] && RightPart(w).chunk == w.chunk[middle - half..]
  {
    SplitShares(|w.chunk|);
  }

  lemma PartsAreSlices(text: string, w: Window)
    requires SliceOf(text, w) && |w.chunk| > SMALLEST
    ensures SliceOf(text, LeftPart(w)) && SliceOf(text, RightPart(w)) && End(RightPart(w)) == End(w)
  {
    var l, r := LeftPart(w), RightPart(w);
    SplitShares(|w.chunk|);
    SubSlice(text, w, 0, |l.chunk|);
    SubSlice(text, w, |w.chunk| - |r.chunk|, |w.chunk|);
    assert l.chunk == w.chunk[0..|l.chunk|] && r.chunk == w.chunk[|w.chunk| - |r.chunk|..|w.chunk|];
  }

  lemma SplitWork(pending: seq<Window>, w: Window)
    requires |w.chunk| > SMALLEST
    ensures TotalWork(pending + [LeftPart(w), RightPart(w)]) < TotalWork(pending + [w])
  {
    var l, r := LeftPart(w), RightPart(w);
    SplitShares(|w.chunk|);
    PushWork(pending, w);
    PushWork(pending, l);
    PushWork(pending + [l], r);
    assert pending + [l] + [r] == pending + [l, r];
  }

  lemma RejectedProgress(text: string, pending: seq<Window>, w: Window, done: seq<Accepted>, width: nat)
    requires Progress(text, pending + [w], done, width) && |w.chunk| > SMALLEST && width <= 32
    ensures Progress(text, pending + [LeftPart(w), RightPart(w)], done, width)
    ensures TotalWork(pending + [LeftPart(w), RightPart(w)]) < TotalWork(pending + [w])
  {
    SplitShares(|w.chunk|);
    assert (pending + [w])[|pending|] == w;
    PartsAreSlices(text, w);
    SplitProgress(text, pending, w, LeftPart(w), RightPart(w), done, width);
    SplitWork(pending, w);
  }

  lemma SplitProgress(
    text: string, pending: seq<Window>, w: Window, l: Window, r: Window, done: seq<Accepted>, width: nat)
    requires Progress(text, pending + [w], done, width) && width <= 32
    requires SliceOf(text, l) && SliceOf(text, r) && l.offset == w.offset && End(r) == End(w) && r.offset + 32 <= End(l)
    ensures Progress(text, pending + [l, r], done, width)
  {
    var front := WindowsOf(done) + pending;
    forall s, e | 0 <= s < e <= |text| && e - s <= width ensures Holds(WindowsOf(done) + (pending + [l, r]), s, e) {
      assert WindowsOf(done) + (pending + [w]) == front + [w] + [];
      assert Holds(WindowsOf(done) + (pending + [w]), s, e);
      SplitHolds(front, w, [], l, r, s, e, 32);
      assert WindowsOf(done) + (pending + [l, r]) == front + [l, r] + [];
    }
    forall i | 0 <= i < |pending + [l, r]| ensures SliceOf(text, (pending + [l, r])[i]) {
      assert i < |pending| ==> (pending + [w])[i] == pending[i];
    }
  }

  lemma AcceptedProgress(
    text: string, pending: seq<Window>, w: Window, done: seq<Accepted>, fs: seq<Finding>, width: nat)
    requires Progress(text, pending + [w], done, width) && AllInBounds(fs, |w.chunk|)
    ensures Progress(text, pending, done + [Accepted(w, fs)], width)
  {
    var more := done + [Accepted(w, fs)];
    assert WindowsOf(more) == WindowsOf(done) + [w];
    assert (pending + [w])[|pending|] == w;
    forall i | 0 <= i < |pending| ensures SliceOf(text, pending[i]) {
      assert (pending + [w])[i] == pending[i];
    }
    forall s, e | 0 <= s < e <= |text| && e - s <= width ensures Holds(WindowsOf(more) + pending, s, e) {
      MemberHolds(WindowsOf(done) + (pending + [w]), WindowsOf(more) + pending, s, e);
    }
  }

  datatype Scan = Scanned(matches: seq<Finding>) | Failed

  /** A window taken off the stack, by its call. */
  lemma StackNext(initial: seq<Window>, log: seq<Call>, pending: seq<Window>, c: Call)
    requires Stack(initial, log) == pending + [c.window]
    ensures Stack(initial, log + [c]) ==
            if c.answer == TooLarge && |c.window.chunk| > SMALLEST then
              pending + [LeftPart(c.window), RightPart(c.window)]
            else pending
    ensures c.answer.Found? ==> AcceptedBy(log + [c]) == AcceptedBy(log) + [Accepted(c.window, c.answer.findings)]
    ensures !c.answer.Found? ==> AcceptedBy(log + [c]) == AcceptedBy(log)
  {
    assert (log + [c])[..|log|] == log;
    assert (pending + [c.window])[..|pending|] == pending;
  }

  /** How a scan ends: with nothing left to show, or with its one fatal answer. */
  ghost predicate Ended(service: Service, initial: seq<Window>, log: seq<Call>, scan: Scan) {
    match scan
    case Scanned(matches) =>
      Asked(service, initial, log) && Stack(initial, log) == [] && matches == Collected(AcceptedBy(log))
    case Failed =>
      && log != [] && Asked(service, initial, log[..|log| - 1])
      && AskedAt(service, initial, log, |log| - 1) && Fatal(log[|log| - 1])
  }

  /** Partway through a scan: the log so far, what is left to show, and what was found. */
  ghost predicate Scanning(
    text: string, service: Service, initial: seq<Window>, pending: seq<Window>, log: seq<Call>, matches: seq<Finding>,
    width: nat)
  {
    && Stack(initial, log) == pending && Asked(service, initial, log) && matches == Collected(AcceptedBy(log))
    && Progress(text, pending, AcceptedBy(log), width)
  }

  lemma StartScanning(text: string, service: Service, initial: seq<Window>, width: nat)
    requires AllSlices(text, initial) && HoldsAll(text, initial, width)
    ensures Scanning(text, service, initial, initial, [], [], width)
  {
    assert WindowsOf([]) + initial == initial;
  }

  lemma RejectedLog(service: Service, initial: seq<Window>, pending: seq<Window>, w: Window, log: seq<Call>)
    requires Asked(service, initial, log) && Stack(initial, log) == pending + [w]
    requires service(|log|, w.chunk) == TooLarge && |w.chunk| > SMALLEST
    ensures var more := log + [Call(w, TooLarge)];
            && Asked(service, initial, more) && Stack(initial, more) == pending + [LeftPart(w), RightPart(w)]
            && AcceptedBy(more) == AcceptedBy(log)
  {
    assert (pending + [w])[|pending|] == w;
    LogNext(service, initial, log, w);
    StackNext(initial, log, pending, Call(w, TooLarge));
  }

  lemma Rejected(
    text: string, service: Service, initial: seq<Window>, pending: seq<Window>, w: Window, log: seq<Call>,
    matches: seq<Finding>, width: nat)
    requires Scanning(text, service, initial, pending + [w], log, matches, width) && width <= 32
    requires service(|log|, w.chunk) == TooLarge && |w.chunk| > SMALLEST
    ensures var rest := pending + [LeftPart(w), RightPart(w)];
            && Scanning(text, service, initial, rest, log + [Call(w, TooLarge)], matches, width)
            && TotalWork(rest) < TotalWork(pending + [w])
  {
    RejectedLog(service, initial, pending, w, log);
    RejectedProgress(text, pending, w, AcceptedBy(log), width);
  }

  lemma Answered(
    text: string, service: Service, initial: seq<Window>, pending: seq<Window>, w: Window, log: seq<Call>,
    matches: seq<Finding>, width: nat, fs: seq<Finding>)
    requires Scanning(text, service, initial, pending + [w], log, matches, width)
    requires service(|log|, w.chunk) == Found(fs) && AllInBounds(fs, |w.chunk|)
    ensures Scanning(text, service, initial, pending, log + [Call(w, Found(fs))], matches + Moved(fs, w.offset), width)
    ensures TotalWork(pending) < TotalWork(pending + [w])
  {
    LogNext(service, initial, log, w);
    StackNext(initial, log, pending, Call(w, Found(fs)));
    AcceptedProgress(text, pending, w, AcceptedBy(log), fs, width);
    CollectNext(AcceptedBy(log), Accepted(w, fs));
    PushWork(pending, w);
  }

  lemma Fails(
    text: string, service: Service, initial: seq<Window>, pending: seq<Window>, w: Window, log: seq<Call>,
    matches: seq<Finding>, width: nat)
    requires Scanning(text, service, initial, pending + [w], log, matches, width)
    requires Fatal(Call(w, service(|log|, w.chunk)))
    ensures Ended(service, initial, log + [Call(w, service(|log|, w.chunk))], Failed)
  {
    LogNext(service, initial, log, w);
  }

  lemma DoneScanning(
    text: string, service: Service, initial: seq<Window>, log: seq<Call>, matches: seq<Finding>, width: nat)
    requires Scanning(text, service, initial, [], log, matches, width)
    ensures Ended(service, initial, log, Scanned(matches)) && Seen(text, AcceptedBy(log), width)
  {
    assert WindowsOf(AcceptedBy(log)) + [] == WindowsOf(AcceptedBy(log));
  }

  /** Accepted windows are exact slices that hold every short span whole; what was found in them lies in them. */
  ghost predicate Seen(text: string, done: seq<Accepted>, width: nat) {
    && AllSlices(text, WindowsOf(done)) && HoldsAll(text, WindowsOf(done), width)
    && forall i :: 0 <= i < |done| ==> AllInBounds(done[i].findings, |done[i].window.chunk|)
  }

  /**
   * Whatever the pattern of size rejections, the scan ends. Its log is exactly what the service was shown
   * and answered. It fails only over a fatal answer; otherwise the accepted windows hold every short span
   * whole, and the matches are the service's findings in them, moved into the full text.
   */
  method GlinerMatches(text: string, size: nat, overlap: nat, service: Service)
    returns (scan: Scan, ghost log: seq<Call>)
    requires overlap < size
    ensures Ended(service, WindowsFrom(text, size, overlap, 0), log, scan)
    ensures scan.Scanned? ==> Seen(text, AcceptedBy(log), Sure(overlap))
  {
    var pending := InitialWindows(text, size, overlap);
    ghost var initial := pending;
    var matches: seq<Finding> := [];
    var calls: nat := 0;
    log := [];
    StartScanning(text, service, initial, Sure(overlap));
    while pending != []
      invariant Scanning(text, service, initial, pending, log, matches, Sure(overlap)) && calls == |log|
      decreases TotalWork(pending)
    {
      var w := pending[|pending| - 1];
      LastSplit(pending);
      pending := pending[..|pending| - 1];
      var answer := service(calls, w.chunk);
      ghost var before := log;
      calls, log := calls + 1, log + [Call(w, answer)];
      match answer
      case Broken =>
        Fails(text, service, initial, pending, w, before, matches, Sure(overlap));
        return Failed, log;
      case TooLarge =>
        if |w.chunk| <= SMALLEST {
          Fails(text, service, initial, pending, w, before, matches, Sure(overlap));
          return Failed, log;
        }
        Rejected(text, service, initial, pending, w, before, matches, Sure(overlap));
        pending := pending + [LeftPart(w), RightPart(w)];
      case Found(fs) =>
        if !AllInBounds(fs, |w.chunk|) {
          Fails(text, service, initial, pending, w, before, matches, Sure(overlap));
          return Failed, log;
        }
        Answered(text, service, initial, pending, w, before, matches, Sure(overlap), fs);
        matches := matches + Moved(fs, w.offset);
    }
    DoneScanning(text, service, initial, log, matches, Sure(overlap));
    scan := Scanned(matches);
  }

  lemma {:induction false} CollectedSource(done: seq<Accepted>, m: Finding) returns (i: nat)
    requires m in Collected(done)
    ensures i < |done| && m in Moved(done[i].findings, done[i].window.offset)
  {
    var n := |done| - 1;
    if m in Collected(done[..n]) {
      i := CollectedSource(done[..n], m);
    } else {
      i := n;
    }
  }

  /** Every reported span is inside the full text, and is what the service found in a window it was shown. */
  lemma CollectedInBounds(text: string, service: Service, initial: seq<Window>, log: seq<Call>, m: Finding)
    returns (k: nat, f: Finding)
    requires Asked(service, initial, log) && AllSlices(text, WindowsOf(AcceptedBy(log)))
    requires m in Collected(AcceptedBy(log))
    ensures k < |log| && service(k, log[k].window.chunk) == log[k].answer && log[k].answer.Found?
    ensures f in log[k].answer.findings && InBounds(f, |log[k].window.chunk|)
    ensures m == f.(start := f.start + log[k].window.offset, end := f.end + log[k].window.offset)
    ensures SliceOf(text, log[k].window) && InBounds(m, |text|)
  {
    var i := CollectedSource(AcceptedBy(log), m);
    var a := AcceptedBy(log)[i];
    k := AcceptedAt(log, i);
    assert AskedAt(service, initial, log, k) && !Fatal(log[k]);
    var j :| 0 <= j < |a.findings| && Moved(a.findings, a.window.offset)[j] == m;
    f := a.findings[j];
    assert SliceOf(text, WindowsOf(AcceptedBy(log))[i]);
  }

  /** Every short span was shown whole to the service, as it stands in the text, in a window it accepted. */
  lemma SpanSeenWhole(
    text: string, service: Service, initial: seq<Window>, log: seq<Call>, overlap: nat, s: nat, e: nat) returns (k: nat)
    requires Asked(service, initial, log) && AllSlices(text, WindowsOf(AcceptedBy(log)))
    requires HoldsAll(text, WindowsOf(AcceptedBy(log)), Sure(overlap)) && s < e <= |text| && e - s <= Sure(overlap)
    ensures k < |log| && service(k, log[k].window.chunk) == log[k].answer && log[k].answer.Found?
    ensures var w := log[k].window; Inside(w, s, e) && w.chunk[s - w.offset..e - w.offset] == text[s..e]
  {
    var ws := WindowsOf(AcceptedBy(log));
    assert Holds(ws, s, e);
    var i: nat :| i < |ws| && Inside(ws[i], s, e);
    k := AcceptedAt(log, i);
    assert AskedAt(service, initial, log, k) && log[k].window == ws[i];
    SpanInSlice(text, ws[i], s, e);
  }

  lemma SpanInSlice(text: string, w: Window, s: nat, e: nat)
    requires SliceOf(text, w) && Inside(w, s, e) && s < e
    ensures w.chunk[s - w.offset..e - w.offset] == text[s..e]
  {
    SubSlice(text, w, s - w.offset, e - w.offset);
  }

  // ---- one finding per span ----

  datatype Key = Key(entity: string, start: int, end: int, source: string)

  function KeyOf(f: Finding): Key { Key(f.entity, f.start, f.end, f.source) }

  function SpanOrder(f: Finding): Ordering.Key { [Num(f.start as real), Num(f.end as real), Str(f.entity)] }

  /** The strongest finding of each key among some findings, in order of first appearance. */
  ghost predicate Strongest(ms: seq<Finding>, best: seq<Finding>) {
    && (forall i, j :: 0 <= i < j < |best| ==> KeyOf(best[i]) != KeyOf(best[j]))
    && (forall b :: b in best ==> b in ms)
    && (forall m :: m in ms ==> Outdone(m, best))
  }

  ghost predicate Outdone(m: Finding, best: seq<Finding>) {
    exists i :: 0 <= i < |best| && KeyOf(best[i]) == KeyOf(m) && best[i].score >= m.score
  }

  method Position(best: seq<Finding>, key: Key) returns (at: int)
    ensures if at < 0 then forall i :: 0 <= i < |best| ==>
              KeyOf(best[i]) != key else at < |best| && KeyOf(best[at]) == key
  {
    for i := 0 to |best|
      invariant forall k :: 0 <= k < i ==> KeyOf(best[k]) != key
    {
      if KeyOf(best[i]) == key {
        return i;
      }
    }
    at := -1;
  }

  /** A finding meets entry i of its own key and replaces it if it is stronger. */
  predicate Merges(best: seq<Finding>, next: seq<Finding>, m: Finding, i: int) {
    && 0 <= i < |best| && KeyOf(best[i]) == KeyOf(m)
    && next == if m.score > best[i].score then best[i := m] else best
  }

  lemma KeepBest(ms: seq<Finding>, m: Finding, best: seq<Finding>, next: seq<Finding>)
    requires Strongest(ms, best)
    requires next == best + [m] || exists i :: Merges(best, next, m, i)
    requires forall i, j :: 0 <= i < j < |next| ==> KeyOf(next[i]) != KeyOf(next[j])
    ensures Strongest(ms + [m], next)
  {
    forall x | x in ms + [m] ensures Outdone(x, next) {
      if x in ms {
        var i :| 0 <= i < |best| && KeyOf(best[i]) == KeyOf(x) && best[i].score >= x.score;
        assert KeyOf(next[i]) == KeyOf(x) && next[i].score >= x.score;
      } else if next == best + [m] {
        assert next[|best|] == m;
      } else {
        var i :| Merges(best, next, m, i);
        assert KeyOf(next[i]) == KeyOf(m) && next[i].score >= m.score;
      }
    }
  }

  /** One finding per entity, span and source, none weaker than any it replaces, in span order. */
  method Unique(ms: seq<Finding>) returns (unique: seq<Finding>)
    ensures Strongest(ms, unique) && Sorted(unique, SpanOrder)
  {
    var best: seq<Finding> := [];
    for i := 0 to |ms|
      invariant Strongest(ms[..i], best)
    {
      var at := Position(best, KeyOf(ms[i]));
      ghost var before := best;
      if at < 0 {
        best := best + [ms[i]];
      } else if ms[i].score > best[at].score {
        best := best[at := ms[i]];
      }
      assert at < 0 || Merges(before, best, ms[i], at);
      KeepBest(ms[..i], ms[i], before, best);
      assert ms[..i + 1] == ms[..i] + [ms[i]];
    }
    assert ms[..|ms|] == ms;
    unique := Sort(best, SpanOrder);
    SortedStrongest(ms, best, unique);
  }

  lemma SortedStrongest(ms: seq<Finding>, best: seq<Finding>, unique: seq<Finding>)
    requires Strongest(ms, best) && unique == Sort(best, SpanOrder)
    ensures Strongest(ms, unique) && Sorted(unique, SpanOrder)
  {
    SortFacts(best, SpanOrder);
    SortMembers(best, SpanOrder);
    forall i, j | 0 <= i < j < |unique| ensures KeyOf(unique[i]) != KeyOf(unique[j]) {
      assert unique[i] in best && unique[j] in best && unique[i] != unique[j];
      var a :| 0 <= a < |best| && best[a] == unique[i];
      var b :| 0 <= b < |best| && best[b] == unique[j];
    }
    forall m | m in ms ensures Outdone(m, unique) {
      var i :| 0 <= i < |best| && KeyOf(best[i]) == KeyOf(m) && best[i].score >= m.score;
      assert best[i] in unique;
      var j :| 0 <= j < |unique| && unique[j] == best[i];
    }
  }
}
