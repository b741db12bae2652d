/** Verified bundles: what a complete cache directory is, and the checksum index it is checked against. */
module Bundle {
  import opened PolicyConfig

  /** A directory as its files, by relative path. */
  type Dir = map<string, string>

  datatype Manifest = Manifest(
    version: string, modelPaths: seq<string>, checksumSha: string, checksumSize: int, fileCount: int, totalBytes: int)

  /** A line of the checksum file: a path and the digest its content must have. */
  datatype Record = Record(path: string, sha: string)

  /** Hashing, manifest parsing, and decoding of file contents into lines. */
  datatype Tools = Tools(
    sha: string -> string, readManifest: string -> Option<Manifest>, lines: string -> Option<seq<string>>)

  const MANIFEST := "manifest.yaml"
  const CHECKSUMS := "checksums.sha256"
  const MARKER := ".complete"

  const RESERVED := {MANIFEST, CHECKSUMS, MARKER}

  predicate IsSpace(c: char) { c == ' ' || c == '\t' || c == '\n' || c == '\r' }

  function TrimFront(s: string): string { if s != [] && IsSpace(s[0]) then TrimFront(s[1..]) else s }

  function TrimBack(s: string): string { if s != [] && IsSpace(s[|s| - 1]) then TrimBack(s[..|s| - 1]) else s }

  function Strip(s: string): string { TrimBack(TrimFront(s)) }

  predicate Digest(s: string) { forall i :: 0 <= i < |s| ==> !IsSpace(s[i]) }

  /** The manifest of these bytes, when their digest and version are the expected ones. */
  function ParseManifest(tools: Tools, data: string, digest: string, expected: Option<string>): Option<Manifest> {
    var manifest := tools.readManifest(data);
    if tools.sha(data) != digest || manifest.None? then None
    else if expected.Some? && manifest.value.version != expected.value then None
    else manifest
  }

  function Paths(files: seq<Record>): (r: seq<string>)
    ensures |r| == |files| && forall i :: 0 <= i < |r| ==> r[i] == files[i].path
  {
    seq(|files|, i requires 0 <= i < |files| => files[i].path)
  }

  /** An index lists at least one file, none twice, and none of the reserved ones. */
  predicate GoodIndex(files: seq<Record>) {
    && files != []
    && (forall i :: 0 <= i < |files| ==> files[i].path !in RESERVED)
    && forall i, j :: 0 <= i < j < |files| ==> files[i].path != files[j].path
  }

  // ---- records of the checksum file ----

  predicate LowerHex(c: char) { '0' <= c <= '9' || 'a' <= c <= 'f' }

  /** `path.split("/")`. */
  function Components(path: string): (parts: seq<string>)
    ensures parts != []
  {
    if path == [] then [[]]
    else
      var rest := Components(path[1..]);
      if path[0] == '/' then [[]] + rest else [[path[0]] + rest[0]] + rest[1..]
  }

  /** Relative and already normal: no empty component, no dot, no way up. */
  predicate SafePath(path: string) {
    forall i :: 0 <= i < |Components(path)| ==> Components(path)[i] !in {"", ".", ".."}
  }

  /** The text from i to j is one component: it has no slash, and ends of the path or slashes around it. */
  predicate ComponentAt(path: string, i: int, j: int) {
    && 0 <= i <= j <= |path| && (forall k :: i <= k < j ==> path[k] != '/')
    && (i == 0 || path[i - 1] == '/') && (j == |path| || path[j] == '/')
  }

  lemma {:induction false} FirstComponent(path: string)
    ensures ComponentAt(path, 0, |Components(path)[0]|) && Components(path)[0] == path[..|Components(path)[0]|]
  {
    if path != [] && path[0] != '/' {
      FirstComponent(path[1..]);
      var n := |Components(path[1..])[0]|;
      assert forall k :: 1 <= k < n + 1 ==> path[k] == path[1..][k - 1];
      assert n + 1 < |path| ==> path[n + 1] == path[1..][n];
    }
  }

  /** Every component of the split path stands somewhere in it. */
  lemma {:induction false} ComponentPlaced(path: string, n: nat) returns (i: nat, j: nat)
    requires n < |Components(path)|
    ensures ComponentAt(path, i, j) && Components(path)[n] == path[i..j] && (n > 0 ==> i > 0)
  {
    if n == 0 {
      FirstComponent(path);
      i, j := 0, |Components(path)[0]|;
      assert path[0..j] == path[..j];
    } else {
      i, j := ComponentPlaced(path[1..], if path[0] == '/' then n - 1 else n);
      assert path[1..][i..j] == path[i + 1..j + 1];
      ComponentLater(path, i, j);
      i, j := i + 1, j + 1;
    }
  }

  lemma ComponentLater(path: string, i: nat, j: nat)
    requires path != [] && ComponentAt(path[1..], i, j) && (path[0] == '/' || i > 0)
    ensures ComponentAt(path, i + 1, j + 1)
  {
    assert forall k :: 0 <= k < |path| - 1 ==> path[1..][k] == path[k + 1];
  }

  lemma FirstPlaced(path: string, j: int)
    requires ComponentAt(path, 0, j)
    ensures Components(path)[0] == path[0..j]
  {
    FirstComponent(path);
    var m := |Components(path)[0]|;
    assert !(j < m) && !(m < j);
    assert path[0..j] == path[..j];
  }

  lemma ComponentEarlier(path: string, i: int, j: int)
    requires 0 < i && ComponentAt(path, i, j)
    ensures path != [] && ComponentAt(path[1..], i - 1, j - 1) && path[1..][i - 1..j - 1] == path[i..j]
    ensures i == 1 ==> path[0] == '/'
  {
    assert forall k :: 0 <= k < |path| - 1 ==> path[1..][k] == path[k + 1];
  }

  lemma LaterComponents(path: string, n: nat)
    requires path != [] && n < |Components(path[1..])| && (path[0] == '/' || n > 0)
    ensures var k := if path[0] == '/' then n + 1 else n;
            k < |Components(path)| && Components(path)[k] == Components(path[1..])[n]
  {
  }

  /** Every component that stands in the path is one of the split path. */
  lemma {:induction false} PlacedComponent(path: string, i: int, j: int) returns (n: nat)
    requires ComponentAt(path, i, j)
    ensures n < |Components(path)| && Components(path)[n] == path[i..j] && (i > 0 ==> n > 0)
    decreases i
  {
    if i == 0 {
      n := 0;
      FirstPlaced(path, j);
    } else {
      ComponentEarlier(path, i, j);
      n := PlacedComponent(path[1..], i - 1, j - 1);
      LaterComponents(path, n);
      n := if path[0] == '/' then n + 1 else n;
    }
  }

  /** A path is safe exactly when nothing between its slashes or ends is empty, a dot or two dots. */
  lemma SafePathExactly(path: string)
    ensures SafePath(path) <==> forall i, j :: ComponentAt(path, i, j) ==> path[i..j] !in ["", ".", ".."]
  {
    if SafePath(path) {
      forall i, j | ComponentAt(path, i, j) ensures path[i..j] !in ["", ".", ".."] {
        var n := PlacedComponent(path, i, j);
      }
    } else {
      var n: nat :| n < |Components(path)| && Components(path)[n] in {"", ".", ".."};
      var i, j := ComponentPlaced(path, n);
    }
  }

  predicate GoodRecord(r: Record) {
    |r.sha| == 64 && (forall i :: 0 <= i < 64 ==> LowerHex(r.sha[i])) && '\n' !in r.path && SafePath(r.path)
  }

  function RecordLine(r: Record): string { r.sha + "  " + r.path }

  /** One line of the checksum file: sixty-four hex digits, two spaces and a safe path. */
  function ParseLine(line: string): Option<Record> {
    if |line| <= 66 || line[64..66] != "  " then None
    else
      var record := Record(line[66..], line[..64]);
      if GoodRecord(record) then Some(record) else None
  }

  lemma NoEmptyPath()
    ensures !SafePath("")
  {
    assert Components("")[0] == "";
  }

  /** A line parses to a record exactly when it is that record written out, and the record is good. */
  lemma LineRoundTrip(line: string, r: Record)
    ensures ParseLine(line) == Some(r) <==> line == RecordLine(r) && GoodRecord(r)
  {
    if ParseLine(line) == Some(r) {
      assert line == line[..64] + line[64..66] + line[66..];
    }
    if line == RecordLine(r) && GoodRecord(r) {
      NoEmptyPath();
      assert r.path != "";
      assert line[..64] == r.sha && line[64..66] == "  " && line[66..] == r.path;
    }
  }

  /** The records of all lines, when every line is one. */
  function Records(lines: seq<string>): (r: Option<seq<Record>>)
    ensures r.Some? ==> |r.value| == |lines| && forall i :: 0 <= i < |lines| ==> ParseLine(lines[i]) == Some(r.value[i])
    ensures r.None? ==> exists i :: 0 <= i < |lines| && ParseLine(lines[i]).None?
  {
    if lines == [] then Some([])
    else
      var n := |lines| - 1;
      var front, last := Records(lines[..n]), ParseLine(lines[n]);
      if front.None? || last.None? then None else Some(front.value + [last.value])
  }

  function ReadRecords(tools: Tools, data: string): Option<seq<Record>> {
    if tools.lines(data).None? then None else Records(tools.lines(data).value)
  }

  lemma RecordsPrefix(lines: seq<string>, i: nat)
    requires i < |lines|
    ensures Records(lines[..i + 1]) ==
            if Records(lines[..i]).None? || ParseLine(lines[i]).None? then None
            else Some(Records(lines[..i]).value + [ParseLine(lines[i]).value])
    ensures Records(lines[..i + 1]).None? ==> Records(lines).None?
  {
    assert lines[..i + 1][..i] == lines[..i];
    if Records(lines[..i + 1]).None? {
      var k :| 0 <= k < i + 1 && ParseLine(lines[..i + 1][k]).None?;
      assert ParseLine(lines[k]).None?;
    }
  }

  /** Accepts exactly the files whose lines are all good records and make a good index. */
  method ParseChecksums(tools: Tools, data: string) returns (entries: Option<seq<Record>>)
    ensures var records := ReadRecords(tools, data);
            entries == if records.Some? && GoodIndex(records.value) then records else None
    ensures entries.Some? ==>
              && entries.value != [] && tools.lines(data).Some? && |entries.value| == |tools.lines(data).value|
              && (forall i :: 0 <= i < |entries.value| ==>
                    && GoodRecord(entries.value[i]) && tools.lines(data).value[i] == RecordLine(entries.value[i])
                    && entries.value[i].path !in {"manifest.yaml", "checksums.sha256", ".complete"})
              && forall i, j :: 0 <= i < j < |entries.value| ==> entries.value[i].path != entries.value[j].path
  {
    if tools.lines(data).None? {
      return None;
    }
    var lines := tools.lines(data).value;
    var seen: set<string>, files: seq<Record> := {}, [];
    for i := 0 to |lines|
      invariant Indexed(lines[..i], seen, files)
    {
      RecordsPrefix(lines, i);
      var record := ParseLine(lines[i]);
      if record.None? {
        return None;
      }
      if record.value.path in seen || record.value.path in RESERVED {
        BadIndex(lines, files, i, record.value);
        return None;
      }
      IndexedNext(lines, i, seen, files, record.value);
      seen, files := seen + {record.value.path}, files + [record.value];
    }
    assert lines[..|lines|] == lines;
    entries := if files == [] then None else Some(files);
    forall i | 0 <= i < |files| ensures GoodRecord(files[i]) && lines[i] == RecordLine(files[i]) {
      LineRoundTrip(lines[i], files[i]);
    }
  }

  /** Some lines give these records, a good index so far, with these paths. */
  ghost predicate Indexed(lines: seq<string>, seen: set<string>, files: seq<Record>) {
    Records(lines) == Some(files) && seen == Listed(files) && (GoodIndex(files) || files == [])
  }

  lemma IndexedNext(lines: seq<string>, i: nat, seen: set<string>, files: seq<Record>, record: Record)
    requires i < |lines| && Indexed(lines[..i], seen, files) && ParseLine(lines[i]) == Some(record)
    requires record.path !in seen && record.path !in RESERVED
    ensures Indexed(lines[..i + 1], seen + {record.path}, files + [record])
  {
    RecordsPrefix(lines, i);
    assert Paths(files + [record]) == Paths(files) + [record.path];
    forall k | 0 <= k < |files| ensures files[k].path != record.path {
      assert Paths(files)[k] in Listed(files);
    }
  }

  lemma {:induction false} EarlierRecords(lines: seq<string>, files: seq<Record>, i: nat)
    requires i <= |lines| && Records(lines[..i]) == Some(files) && Records(lines).Some?
    ensures Records(lines).value[..i] == files
  {
    forall k | 0 <= k < i ensures Records(lines).value[k] == files[k] {
      assert lines[..i][k] == lines[k];
    }
  }

  /** A record that is reserved or listed before spoils every index it is in. */
  lemma BadIndex(lines: seq<string>, files: seq<Record>, i: nat, record: Record)
    requires i < |lines| && Records(lines[..i]) == Some(files) && ParseLine(lines[i]) == Some(record)
    requires record.path in RESERVED || record.path in Listed(files)
    ensures Records(lines).None? || !GoodIndex(Records(lines).value)
  {
    if Records(lines).Some? {
      EarlierRecords(lines, files, i);
      Spoiled(Records(lines).value, i);
    }
  }

  lemma Spoiled(all: seq<Record>, i: nat)
    requires i < |all| && (all[i].path in RESERVED || all[i].path in Listed(all[..i]))
    ensures !GoodIndex(all)
  {
    if all[i].path in Listed(all[..i]) {
      var k :| 0 <= k < i && Paths(all[..i])[k] == all[i].path;
      assert all[k].path == all[i].path;
    }
  }

  predicate IndexBytesOk(tools: Tools, data: string, m: Manifest) {
    |data| == m.checksumSize && tools.sha(data) == m.checksumSha
  }

  function TotalSize(root: Dir, files: seq<Record>): int
    requires forall i :: 0 <= i < |files| ==> files[i].path in root
  {
    if files == [] then 0 else |root[files[0].path]| + TotalSize(root, files[1..])
  }

  function Listed(files: seq<Record>): set<string> { set p | p in Paths(files) }

  /** The directory holds exactly what its index lists, beside the reserved files, and what the manifest counts. */
  predicate VerifyBundle(tools: Tools, root: Dir, m: Manifest, files: seq<Record>) {
    && |files| == m.fileCount
    && (forall k :: 0 <= k < |m.modelPaths| ==> Protected(m.modelPaths[k], files))
    && (forall i :: 0 <= i < |files| ==> files[i].path in root && tools.sha(root[files[i].path]) == files[i].sha)
    && TotalSize(root, files) == m.totalBytes
    && root.Keys == Listed(files) + {MANIFEST, CHECKSUMS} + (if MARKER in root then {MARKER} else {})
  }

  predicate Protected(path: string, files: seq<Record>) {
    exists i :: 0 <= i < |files| && path + "/" <= files[i].path
  }

  // ---- verifying the files of a directory ----

  /** Everything wrong that the files of a directory can be, given its manifest and its index. */
  ghost predicate Defective(tools: Tools, root: Dir, m: Manifest, files: seq<Record>) {
    || |files| != m.fileCount
    || (exists k :: 0 <= k < |m.modelPaths| && Unprotected(m.modelPaths[k], files))
    || (exists i :: 0 <= i < |files| && (files[i].path !in root || tools.sha(root[files[i].path]) != files[i].sha))
    || SizesOf(root, files) != m.totalBytes
    || (exists path :: Misplaced(root, files, path))
  }

  /** No listed file lies below the path of a model. */
  ghost predicate Unprotected(model: string, files: seq<Record>) {
    forall i :: 0 <= i < |files| ==> !(model + "/" <= files[i].path)
  }

  /** A file that nothing lists, or an expected one that is missing. */
  ghost predicate Misplaced(root: Dir, files: seq<Record>, path: string) {
    var expected :=
      (exists i :: 0 <= i < |files| && files[i].path == path) || path in {"manifest.yaml", "checksums.sha256"};
    path != ".complete" && (path in root <==> !expected)
  }

  /** The sizes of the listed files that are there, together. */
  function SizesOf(root: Dir, files: seq<Record>): int {
    if files == [] then 0
    else
      var n := |files| - 1;
      SizesOf(root, files[..n]) + if files[n].path in root then |root[files[n].path]| else 0
  }

  lemma {:induction false} SizesFromFront(root: Dir, files: seq<Record>)
    requires files != []
    ensures SizesOf(root, files) ==
            (if files[0].path in root then |root[files[0].path]| else 0) + SizesOf(root, files[1..])
  {
    var n := |files| - 1;
    if n > 0 {
      SizesFromFront(root, files[..n]);
      assert files[..n][1..] == files[1..][..n - 1];
    }
  }

  lemma {:induction false} SizesAreTotal(root: Dir, files: seq<Record>)
    requires forall i :: 0 <= i < |files| ==> files[i].path in root
    ensures TotalSize(root, files) == SizesOf(root, files)
  {
    if files != [] {
      SizesFromFront(root, files);
      SizesAreTotal(root, files[1..]);
    }
  }

  lemma ListedPath(files: seq<Record>, path: string)
    ensures path in Listed(files) <==> exists i :: 0 <= i < |files| && files[i].path == path
  {
    if path in Listed(files) {
      var i :| 0 <= i < |Paths(files)| && Paths(files)[i] == path;
    }
    if i :| 0 <= i < |files| && files[i].path == path {
      assert Paths(files)[i] == path;
    }
  }

  lemma KeysExpected(root: Dir, files: seq<Record>)
    requires MARKER !in Listed(files)
    ensures root.Keys == Listed(files) + {MANIFEST, CHECKSUMS} + (if MARKER in root then {MARKER} else {}) <==>
            !exists path :: Misplaced(root, files, path)
  {
    var expected := Listed(files) + {MANIFEST, CHECKSUMS} + (if MARKER in root then {MARKER} else {});
    forall path ensures Misplaced(root, files, path) <==> (path in root <==> path !in expected) {
      ListedPath(files, path);
    }
    if !exists path :: Misplaced(root, files, path) {
      forall path ensures path in root <==> path in expected {
        assert !Misplaced(root, files, path);
      }
    }
  }

  /** The files of a directory verify exactly when there is nothing wrong with them. */
  lemma VerifiedExactly(tools: Tools, root: Dir, m: Manifest, files: seq<Record>)
    requires GoodIndex(files)
    ensures VerifyBundle(tools, root, m, files) <==> !Defective(tools, root, m, files)
  {
    assert MARKER !in Listed(files) by { ListedPath(files, MARKER); }
    KeysExpected(root, files);
    forall k | 0 <= k < |m.modelPaths| ensures Protected(m.modelPaths[k], files) <==>
      !Unprotected(m.modelPaths[k], files)
    {
    }
    if forall i :: 0 <= i < |files| ==> files[i].path in root {
      SizesAreTotal(root, files);
    }
  }

  /** Check a directory: file count, model paths, each listed file, the bytes in all, and nothing else there. */
  method CheckBundle(tools: Tools, root: Dir, m: Manifest, files: seq<Record>) returns (ok: bool)
    ensures ok <==> VerifyBundle(tools, root, m, files)
  {
    if |files| != m.fileCount {
      return false;
    }
    for k := 0 to |m.modelPaths|
      invariant forall j :: 0 <= j < k ==> Protected(m.modelPaths[j], files)
    {
      if !Protected(m.modelPaths[k], files) {
        return false;
      }
    }
    for i := 0 to |files|
      invariant forall j :: 0 <= j < i ==> files[j].path in root && tools.sha(root[files[j].path]) == files[j].sha
    {
      if files[i].path !in root || tools.sha(root[files[i].path]) != files[i].sha {
        return false;
      }
    }
    var total := 0;
    for i := 0 to |files|
      invariant total == SizesOf(root, files[..i])
    {
      assert files[..i + 1][..i] == files[..i];
      total := total + |root[files[i].path]|;
    }
    assert files[..|files|] == files;
    SizesAreTotal(root, files);
    var expected := Listed(files) + {MANIFEST, CHECKSUMS} + (if MARKER in root then {MARKER} else {});
    ok := total == m.totalBytes && root.Keys == expected;
  }

  /** Manifest, index and files of a directory agree; the marker is not looked at. */
  predicate Verified(tools: Tools, root: Dir, digest: string, expected: Option<string>) {
    && MANIFEST in root && CHECKSUMS in root
    && ParseManifest(tools, root[MANIFEST], digest, expected).Some?
    && IndexBytesOk(tools, root[CHECKSUMS], tools.readManifest(root[MANIFEST]).value)
    && ReadRecords(tools, root[CHECKSUMS]).Some? && GoodIndex(ReadRecords(tools, root[CHECKSUMS]).value)
    && VerifyBundle(tools, root, tools.readManifest(root[MANIFEST]).value, ReadRecords(tools, root[CHECKSUMS]).value)
  }

  /** Full revalidation of a cache directory. */
  predicate Complete(tools: Tools, root: Dir, digest: string, expected: Option<string>) {
    Verified(tools, root, digest, expected) && MARKER in root && Strip(root[MARKER]) == digest
  }

  /** What the lines of a checksum file say: one good record each, none twice and none reserved. */
  ghost predicate Lists(lines: seq<string>, files: seq<Record>) {
    && files != [] && |files| == |lines|
    && (forall i :: 0 <= i < |files| ==>
          && GoodRecord(files[i]) && lines[i] == files[i].sha + "  " + files[i].path
          && files[i].path !in {"manifest.yaml", "checksums.sha256", ".complete"})
    && forall i, j :: 0 <= i < j < |files| ==> files[i].path != files[j].path
  }

  /** A manifest and an index that belong to a directory: pinned bytes, expected version, and what the index lists. */
  ghost predicate Describes(
    tools: Tools, root: Dir, digest: string, expected: Option<string>, m: Manifest, files: seq<Record>) {
    && "manifest.yaml" in root && tools.sha(root["manifest.yaml"]) == digest
    && tools.readManifest(root["manifest.yaml"]) == Some(m) && (expected.Some? ==> m.version == expected.value)
    && "checksums.sha256" in root && |root["checksums.sha256"]| == m.checksumSize
    && tools.sha(root["checksums.sha256"]) == m.checksumSha
    && tools.lines(root["checksums.sha256"]).Some? && Lists(tools.lines(root["checksums.sha256"]).value, files)
  }

  lemma {:induction false} RecordsListed(lines: seq<string>, files: seq<Record>)
    ensures Records(lines) == Some(files) && GoodIndex(files) <==> Lists(lines, files)
  {
    if Records(lines) == Some(files) && GoodIndex(files) {
      forall i | 0 <= i < |files| ensures GoodRecord(files[i]) && lines[i] == files[i].sha + "  " + files[i].path {
        LineRoundTrip(lines[i], files[i]);
      }
    }
    if Lists(lines, files) {
      forall i | 0 <= i < |lines| ensures ParseLine(lines[i]) == Some(files[i]) {
        LineRoundTrip(lines[i], files[i]);
      }
      assert Records(lines).Some?;
      assert Records(lines).value == files;
    }
  }

  lemma DescribedExactly(tools: Tools, root: Dir, digest: string, expected: Option<string>)
    ensures Verified(tools, root, digest, expected) <==>
              exists m, files :: Describes(tools, root, digest, expected, m, files) && !Defective(tools, root, m, files)
  {
    if Verified(tools, root, digest, expected) {
      var m, files := tools.readManifest(root[MANIFEST]).value, ReadRecords(tools, root[CHECKSUMS]).value;
      RecordsListed(tools.lines(root[CHECKSUMS]).value, files);
      VerifiedExactly(tools, root, m, files);
      assert Describes(tools, root, digest, expected, m, files);
    }
    if m, files :| Describes(tools, root, digest, expected, m, files) && !Defective(tools, root, m, files) {
      RecordsListed(tools.lines(root[CHECKSUMS]).value, files);
      VerifiedExactly(tools, root, m, files);
    }
  }

  /**
   * A cache directory is complete exactly when its manifest has the pinned digest and the expected version,
   * its index has the size and digest the manifest gives and lists good records, nothing is wrong with its
   * files, and its marker is the digest.
   */
  lemma CompleteExactly(tools: Tools, root: Dir, digest: string, expected: Option<string>)
    ensures Complete(tools, root, digest, expected) <==>
              && ".complete" in root && Strip(root[".complete"]) == digest
              && exists m, files ::
                   Describes(tools, root, digest, expected, m, files) && !Defective(tools, root, m, files)
  {
    DescribedExactly(tools, root, digest, expected);
  }

  lemma AnyVersion(tools: Tools, root: Dir, digest: string, version: string)
    requires Complete(tools, root, digest, Some(version))
    ensures Complete(tools, root, digest, None)
  {
  }

  lemma StripDigest(s: string)
    requires Digest(s)
    ensures Strip(s) == s
  {
  }

  lemma {:induction false} SameSize(root: Dir, more: Dir, files: seq<Record>)
    requires forall i :: 0 <= i < |files| ==>
               files[i].path in root && files[i].path in more && more[files[i].path] == root[files[i].path]
    ensures TotalSize(more, files) == TotalSize(root, files)
  {
    if files != [] {
      SameSize(root, more, files[1..]);
    }
  }

  /** A verified download with its marker added is a complete cache directory. */
  lemma MarkedIsComplete(tools: Tools, source: Dir, digest: string, expected: Option<string>)
    requires Verified(tools, source, digest, expected) && MARKER !in source && Digest(digest)
    ensures Complete(tools, source[MARKER := digest], digest, expected)
  {
    var staged, files := source[MARKER := digest], ReadRecords(tools, source[CHECKSUMS]).value;
    StripDigest(digest);
    forall i | 0 <= i < |files| ensures files[i].path in staged && staged[files[i].path] == source[files[i].path] {}
    SameSize(source, staged, files);
    assert staged.Keys == source.Keys + {MARKER};
  }

  // ---- complete parts of a directory ----

  predicate Part(part: Dir, whole: Dir) {
    forall path :: path in part ==> path in whole && whole[path] == part[path]
  }

  /** The files a directory's own index lists, with manifest, index and marker: what is left without junk. */
  function Core(tools: Tools, root: Dir): Dir {
    if CHECKSUMS !in root || ReadRecords(tools, root[CHECKSUMS]).None? then map[]
    else
      var kept := Listed(ReadRecords(tools, root[CHECKSUMS]).value) + RESERVED;
      map path | path in root && path in kept :: root[path]
  }

  lemma CoreIsPart(tools: Tools, root: Dir)
    ensures Part(Core(tools, root), root)
  {
  }

  /** The core is the only part of a directory that can be complete. */
  lemma CompletePartIsCore(tools: Tools, part: Dir, root: Dir, digest: string)
    requires Part(part, root) && Complete(tools, part, digest, None)
    ensures part == Core(tools, root)
  {
    var files := ReadRecords(tools, part[CHECKSUMS]).value;
    forall path | path in Listed(files) ensures path in part {
      assert path in Paths(files);
    }
    assert part.Keys == Listed(files) + RESERVED;
    assert Core(tools, root).Keys == part.Keys;
  }

  /** A complete directory without its marker is a verified source. */
  lemma UnmarkedIsVerified(tools: Tools, root: Dir, digest: string)
    requires Complete(tools, root, digest, None)
    ensures var source, version := root - {MARKER}, tools.readManifest(root[MANIFEST]).value.version;
            Verified(tools, source, digest, Some(version)) && MARKER !in source
  {
    var source, files := root - {MARKER}, ReadRecords(tools, root[CHECKSUMS]).value;
    forall i | 0 <= i < |files| ensures files[i].path in source && source[files[i].path] == root[files[i].path] {}
    SameSize(root, source, files);
    assert MARKER !in Listed(files);
    assert source.Keys == root.Keys - {MARKER};
  }

  // ---- the digest pins the bundle ----

  /** No two contents have one digest. */
  ghost predicate Collisionless(tools: Tools) { forall x, y :: tools.sha(x) == tools.sha(y) ==> x == y }

  lemma SameIndex(tools: Tools, a: Dir, b: Dir, digest: string)
    requires Collisionless(tools) && Complete(tools, a, digest, None) && Complete(tools, b, digest, None)
    ensures a[MANIFEST] == b[MANIFEST] && a[CHECKSUMS] == b[CHECKSUMS]
  {
    assert tools.sha(a[MANIFEST]) == tools.sha(b[MANIFEST]);
    assert tools.sha(a[CHECKSUMS]) == tools.sha(b[CHECKSUMS]);
  }

  lemma ListedContent(tools: Tools, a: Dir, b: Dir, m: Manifest, files: seq<Record>, path: string)
    requires Collisionless(tools) && VerifyBundle(tools, a, m, files) && VerifyBundle(tools, b, m, files)
    requires path in Listed(files)
    ensures path in a && path in b && a[path] == b[path]
  {
    var i :| 0 <= i < |Paths(files)| && Paths(files)[i] == path;
    assert tools.sha(a[files[i].path]) == files[i].sha == tools.sha(b[files[i].path]);
  }

  /**
   * Two complete directories of one digest hold the same files with the same contents; only white space
   * in their markers may differ. So a complete directory with any file changed, added or missing is not complete.
   */
  lemma DigestPinsBundle(tools: Tools, a: Dir, b: Dir, digest: string)
    requires Collisionless(tools) && Complete(tools, a, digest, None) && Complete(tools, b, digest, None)
    ensures a.Keys == b.Keys && a - {MARKER} == b - {MARKER} && Strip(a[MARKER]) == Strip(b[MARKER])
  {
    SameIndex(tools, a, b, digest);
    var m := tools.readManifest(a[MANIFEST]).value;
    var files := ReadRecords(tools, a[CHECKSUMS]).value;
    forall path | path in a && path != MARKER ensures path in b && a[path] == b[path] {
      if path in Listed(files) {
        ListedContent(tools, a, b, m, files, path);
      }
    }
    assert a.Keys == b.Keys;
    assert (a - {MARKER}).Keys == (b - {MARKER}).Keys;
  }
}
