/** Publishing and selecting bundles as filesystem steps, with a crash possible between any two. */
module Publish {
  import opened PolicyConfig
  import opened Bundle

  datatype Reference = Reference(version: string, digest: string)

  /** What survives a crash: the cache directories and the desired-bundle reference. */
  datatype Disk = Disk(dirs: map<string, Dir>, reference: Option<Reference>)

  predicate CompleteAt(tools: Tools, dirs: map<string, Dir>, digest: string, expected: Option<string>) {
    digest in dirs && Complete(tools, dirs[digest], digest, expected)
  }

  /** The reference is absent or names a directory that passes full revalidation. */
  ghost predicate ReferenceOk(tools: Tools, disk: Disk) {
    disk.reference.Some? ==>
      CompleteAt(tools, disk.dirs, disk.reference.value.digest, Some(disk.reference.value.version))
  }

  // ---- the job as steps ----

  /** Where the one writer stands. Staged files live outside the cache directories until the rename. */
  datatype Job =
    | Idle
    | Publishing(version: string, digest: string, source: Dir)
    | Removing(version: string, digest: string, source: Dir)
    | Copying(version: string, digest: string, source: Dir, staged: Dir)
    | Marked(version: string, digest: string, staged: Dir)
    | Selecting(version: string, digest: string)

  datatype Event =
    | Skip(version: string, digest: string)
    | Downloaded(version: string, digest: string, source: Dir)
    | FindComplete | StartRemoving | StartCopying
    | RemoveFile(path: string) | RemoveDir
    | CopyFile(path: string) | Mark | Rename
    | Select
    | Crash

  /** The directories when the current call began are kept for reference. */
  datatype World = World(disk: Disk, job: Job, before: map<string, Dir>)

  ghost predicate Enabled(tools: Tools, w: World, e: Event) {
    var dirs, job := w.disk.dirs, w.job;
    match e
    case Skip(v, d) => job == Idle && CompleteAt(tools, dirs, d, Some(v))
    case Downloaded(v, d, source) =>
      job == Idle && !CompleteAt(tools, dirs, d, Some(v)) && Verified(tools, source, d, Some(v)) && MARKER !in source
        && Digest(d)
    case FindComplete => job.Publishing? && CompleteAt(tools, dirs, job.digest, None)
    case StartRemoving => job.Publishing? && !CompleteAt(tools, dirs, job.digest, None) && job.digest in dirs
    case StartCopying => job.Publishing? && job.digest !in dirs
    case RemoveFile(path) => job.Removing? && job.digest in dirs && path in dirs[job.digest]
    case RemoveDir => job.Removing? && job.digest in dirs && dirs[job.digest] == map[]
    case CopyFile(path) => job.Copying? && path in job.source
    case Mark => job.Copying? && job.staged == job.source
    case Rename => job.Marked?
    case Select => job.Selecting?
    case Crash => true
  }

  ghost function Next(tools: Tools, w: World, e: Event): World
    requires Enabled(tools, w, e)
  {
    var disk, dirs, job := w.disk, w.disk.dirs, w.job;
    match e
    case Skip(v, d) => World(disk, Selecting(v, d), dirs)
    case Downloaded(v, d, source) => World(disk, Publishing(v, d, source), dirs)
    case FindComplete => w.(job := Selecting(job.version, job.digest))
    case StartRemoving => w.(job := Removing(job.version, job.digest, job.source))
    case StartCopying => w.(job := Copying(job.version, job.digest, job.source, map[]))
    case RemoveFile(path) => w.(disk := disk.(dirs := dirs[job.digest := dirs[job.digest] - {path}]))
    case RemoveDir =>
      w.(disk := disk.(dirs := dirs - {job.digest}), job := Copying(job.version, job.digest, job.source, map[]))
    case CopyFile(path) => w.(job := Copying(job.version, job.digest, job.source, job.staged[path := job.source[path]]))
    case Mark => w.(job := Marked(job.version, job.digest, job.staged[MARKER := job.digest]))
    case Rename => w.(disk := disk.(dirs := dirs[job.digest := job.staged]), job := Selecting(job.version, job.digest))
    case Select =>
      if CompleteAt(tools, dirs, job.digest, Some(job.version)) then
        w.(disk := disk.(reference := Some(Reference(job.version, job.digest))), job := Idle)
      else w.(job := Idle)
    case Crash => w.(job := Idle)
  }

  // ---- what every reachable state satisfies ----

  ghost predicate JobOk(tools: Tools, w: World) {
    var dirs, job := w.disk.dirs, w.job;
    match job
    case Publishing(v, d, source) => Download(tools, v, d, source) && dirs == w.before
    case Removing(v, d, source) => Download(tools, v, d, source) && !CompleteAt(tools, w.before, d, None)
    case Copying(v, d, source, _) => Download(tools, v, d, source) && d !in dirs
      && !CompleteAt(tools, w.before, d, None)
    case Marked(v, d, staged) => Complete(tools, staged, d, Some(v)) && d !in dirs
      && !CompleteAt(tools, w.before, d, None)
    case _ => true
  }

  ghost predicate Download(tools: Tools, v: string, d: string, source: Dir) {
    Verified(tools, source, d, Some(v)) && MARKER !in source && Digest(d)
  }

  /** Directories that were complete when the call began are as they were. */
  ghost predicate CompleteKept(tools: Tools, before: map<string, Dir>, dirs: map<string, Dir>) {
    forall d :: CompleteAt(tools, before, d, None) ==> d in dirs && dirs[d] == before[d]
  }

  /** While a directory is being replaced, the reference does not name it. */
  ghost predicate NotSelected(w: World) {
    w.job.Removing? || w.job.Copying? || w.job.Marked? ==>
      w.disk.reference.None? || w.disk.reference.value.digest != w.job.digest
  }

  ghost predicate WorldOk(tools: Tools, w: World) {
    JobOk(tools, w) && CompleteKept(tools, w.before, w.disk.dirs)
  }

  lemma JobStep(tools: Tools, w: World, e: Event)
    requires WorldOk(tools, w) && Enabled(tools, w, e)
    ensures JobOk(tools, Next(tools, w, e))
  {
    if e == Mark {
      MarkedIsComplete(tools, w.job.source, w.job.digest, Some(w.job.version));
    }
  }

  lemma KeptStep(tools: Tools, w: World, e: Event)
    requires WorldOk(tools, w) && Enabled(tools, w, e)
    ensures CompleteKept(tools, Next(tools, w, e).before, Next(tools, w, e).disk.dirs)
  {
  }

  lemma StepOk(tools: Tools, w: World, e: Event)
    requires WorldOk(tools, w) && Enabled(tools, w, e)
    ensures WorldOk(tools, Next(tools, w, e))
  {
    JobStep(tools, w, e);
    KeptStep(tools, w, e);
  }

  lemma ReferenceStep(tools: Tools, w: World, e: Event)
    requires WorldOk(tools, w) && Enabled(tools, w, e) && ReferenceOk(tools, w.disk) && NotSelected(w)
    ensures ReferenceOk(tools, Next(tools, w, e).disk) && NotSelected(Next(tools, w, e))
  {
    if e == StartRemoving && w.disk.reference.Some? && w.disk.reference.value.digest == w.job.digest {
      AnyVersion(tools, w.disk.dirs[w.job.digest], w.job.digest, w.disk.reference.value.version);
    }
  }

  ghost predicate Stepped(tools: Tools, worlds: seq<World>, events: seq<Event>, i: nat) {
    && i < |events| && i + 1 < |worlds| && Enabled(tools, worlds[i], events[i])
    && worlds[i + 1] == Next(tools, worlds[i], events[i])
  }

  ghost predicate Run(tools: Tools, worlds: seq<World>, events: seq<Event>) {
    && |worlds| == |events| + 1 && worlds[0].job == Idle && worlds[0].before == worlds[0].disk.dirs
    && forall i :: 0 <= i < |events| ==> Stepped(tools, worlds, events, i)
  }

  lemma {:induction false} RunOk(tools: Tools, worlds: seq<World>, events: seq<Event>, i: nat)
    requires Run(tools, worlds, events) && i < |worlds|
    ensures WorldOk(tools, worlds[i])
  {
    if i > 0 {
      RunOk(tools, worlds, events, i - 1);
      assert Stepped(tools, worlds, events, i - 1);
      StepOk(tools, worlds[i - 1], events[i - 1]);
    }
  }

  lemma {:induction false} ReferenceRun(tools: Tools, worlds: seq<World>, events: seq<Event>, i: nat)
    requires Run(tools, worlds, events) && ReferenceOk(tools, worlds[0].disk) && i < |worlds|
    ensures ReferenceOk(tools, worlds[i].disk) && NotSelected(worlds[i])
  {
    if i > 0 {
      ReferenceRun(tools, worlds, events, i - 1);
      RunOk(tools, worlds, events, i - 1);
      assert Stepped(tools, worlds, events, i - 1);
      ReferenceStep(tools, worlds[i - 1], events[i - 1]);
    }
  }

  /** Through any run with crashes anywhere, the reference is absent or names a directory that revalidates. */
  lemma ReferenceAlwaysValid(tools: Tools, worlds: seq<World>, events: seq<Event>, i: nat)
    requires Run(tools, worlds, events) && ReferenceOk(tools, worlds[0].disk) && i < |worlds|
    ensures ReferenceOk(tools, worlds[i].disk)
  {
    ReferenceRun(tools, worlds, events, i);
  }

  /** No call alters or removes a directory that was complete when the call began. */
  lemma CompleteAtStartIsKept(tools: Tools, worlds: seq<World>, events: seq<Event>, i: nat, d: string)
    requires Run(tools, worlds, events) && i < |worlds|
    requires CompleteAt(tools, worlds[i].before, d, None)
    ensures d in worlds[i].disk.dirs && worlds[i].disk.dirs[d] == worlds[i].before[d]
  {
    RunOk(tools, worlds, events, i);
  }

  // ---- caches the job itself built ----

  /** Every directory is complete, as in a cache that nobody else edits. */
  ghost predicate Healthy(tools: Tools, dirs: map<string, Dir>) {
    forall d :: d in dirs ==> CompleteAt(tools, dirs, d, None)
  }

  ghost predicate Grows(a: map<string, Dir>, b: map<string, Dir>) {
    forall d :: d in a ==> d in b && b[d] == a[d]
  }

  lemma RenameIsHealthy(tools: Tools, dirs: map<string, Dir>, d: string, dir: Dir)
    requires Healthy(tools, dirs) && d !in dirs && Complete(tools, dir, d, None)
    ensures Healthy(tools, dirs[d := dir]) && Grows(dirs, dirs[d := dir])
  {
    var after := dirs[d := dir];
    forall x | x in after ensures CompleteAt(tools, after, x, None) {
      assert x != d ==> CompleteAt(tools, dirs, x, None);
    }
  }

  lemma OtherStepsKeepDirs(tools: Tools, w: World, e: Event)
    requires Enabled(tools, w, e) && !e.Rename? && !e.RemoveFile? && !e.RemoveDir?
    ensures Next(tools, w, e).disk.dirs == w.disk.dirs
    ensures Next(tools, w, e).job.Removing? ==> e == StartRemoving && Next(tools, w, e).job.digest == w.job.digest
  {
  }

  lemma HealthyStep(tools: Tools, w: World, e: Event)
    requires WorldOk(tools, w) && Enabled(tools, w, e) && Healthy(tools, w.disk.dirs) && !w.job.Removing?
    ensures Healthy(tools, Next(tools, w, e).disk.dirs) && Grows(w.disk.dirs, Next(tools, w, e).disk.dirs)
    ensures !Next(tools, w, e).job.Removing?
  {
    assert w.job.Publishing? && w.job.digest in w.disk.dirs ==> CompleteAt(tools, w.disk.dirs, w.job.digest, None);
    if e == Rename {
      AnyVersion(tools, w.job.staged, w.job.digest, w.job.version);
      RenameIsHealthy(tools, w.disk.dirs, w.job.digest, w.job.staged);
    } else {
      OtherStepsKeepDirs(tools, w, e);
    }
  }

  lemma {:induction false} HealthyRun(tools: Tools, worlds: seq<World>, events: seq<Event>, i: nat)
    requires Run(tools, worlds, events) && Healthy(tools, worlds[0].disk.dirs) && i < |worlds|
    ensures Healthy(tools, worlds[i].disk.dirs) && !worlds[i].job.Removing?
    ensures i > 0 ==> Grows(worlds[i - 1].disk.dirs, worlds[i].disk.dirs)
  {
    if i > 0 {
      HealthyRun(tools, worlds, events, i - 1);
      RunOk(tools, worlds, events, i - 1);
      assert Stepped(tools, worlds, events, i - 1);
      HealthyStep(tools, worlds[i - 1], events[i - 1]);
    }
  }

  /**
   * Starting from an empty cache, or any whose directories are all complete, every directory is
   * complete at every step and stays as it is.
   */
  lemma {:induction false} HealthyStays(tools: Tools, worlds: seq<World>, events: seq<Event>, i: nat, j: nat, d: string)
    requires Run(tools, worlds, events) && Healthy(tools, worlds[0].disk.dirs)
    requires i <= j < |worlds| && d in worlds[i].disk.dirs
    ensures d in worlds[j].disk.dirs && worlds[j].disk.dirs[d] == worlds[i].disk.dirs[d]
    ensures CompleteAt(tools, worlds[j].disk.dirs, d, None)
    decreases j
  {
    HealthyRun(tools, worlds, events, j);
    if i < j {
      HealthyStays(tools, worlds, events, i, j - 1, d);
    }
  }

  // ---- exactly when no complete directory is ever altered ----

  /** No run from this disk ever alters or removes a directory that is complete at that moment. */
  ghost predicate NeverAlters(tools: Tools, disk: Disk) {
    forall worlds: seq<World>, events: seq<Event>, i: int, j: int, d: string ::
      Run(tools, worlds, events) && worlds[0].disk == disk && 0 <= i <= j < |worlds|
        && CompleteAt(tools, worlds[i].disk.dirs, d, None)
      ==> d in worlds[j].disk.dirs && worlds[j].disk.dirs[d] == worlds[i].disk.dirs[d]
  }

  /** No directory that the job could replace is incomplete only because of junk files. */
  predicate Settled(tools: Tools, dirs: map<string, Dir>) {
    forall d :: d in dirs && Digest(d) && Complete(tools, Core(tools, dirs[d]), d, None) ==>
      Complete(tools, dirs[d], d, None)
  }

  ghost predicate SettledWorld(tools: Tools, w: World) {
    && WorldOk(tools, w) && Settled(tools, w.disk.dirs)
    && (w.job.Removing? ==> !CompleteAt(tools, w.disk.dirs, w.job.digest, None))
  }

  /** Directories that are complete now are still there, unaltered. */
  ghost predicate Kept(tools: Tools, a: map<string, Dir>, b: map<string, Dir>) {
    forall d :: CompleteAt(tools, a, d, None) ==> d in b && b[d] == a[d]
  }

  /** Removing a file from a directory without a complete part leaves none. */
  lemma RemovalSettled(tools: Tools, dir: Dir, path: string, d: string)
    requires Complete(tools, Core(tools, dir), d, None) ==> Complete(tools, dir, d, None)
    requires !Complete(tools, dir, d, None)
    ensures !Complete(tools, Core(tools, dir - {path}), d, None) && !Complete(tools, dir - {path}, d, None)
  {
    var core := Core(tools, dir - {path});
    CoreIsPart(tools, dir - {path});
    if Complete(tools, core, d, None) {
      CompletePartIsCore(tools, core, dir, d);
    }
    if Complete(tools, dir - {path}, d, None) {
      CompletePartIsCore(tools, dir - {path}, dir, d);
    }
  }

  lemma FileRemoved(tools: Tools, dirs: map<string, Dir>, d: string, path: string)
    requires d in dirs && Settled(tools, dirs) && Digest(d) && !Complete(tools, dirs[d], d, None)
    ensures var after := dirs[d := dirs[d] - {path}];
            Settled(tools, after) && Kept(tools, dirs, after) && !CompleteAt(tools, after, d, None)
  {
    RemovalSettled(tools, dirs[d], path, d);
  }

  lemma DirRemoved(tools: Tools, dirs: map<string, Dir>, d: string)
    requires Settled(tools, dirs) && !CompleteAt(tools, dirs, d, None)
    ensures Settled(tools, dirs - {d}) && Kept(tools, dirs, dirs - {d})
  {
  }

  lemma DirAdded(tools: Tools, dirs: map<string, Dir>, d: string, dir: Dir)
    requires Settled(tools, dirs) && d !in dirs && Complete(tools, dir, d, None)
    ensures Settled(tools, dirs[d := dir]) && Kept(tools, dirs, dirs[d := dir])
  {
    var more := dirs[d := dir];
    forall x | x in more && Digest(x) && Complete(tools, Core(tools, more[x]), x, None)
      ensures Complete(tools, more[x], x, None)
    {
      assert x != d ==> more[x] == dirs[x];
    }
  }

  lemma SettledStep(tools: Tools, w: World, e: Event)
    requires SettledWorld(tools, w) && Enabled(tools, w, e)
    ensures SettledWorld(tools, Next(tools, w, e)) && Kept(tools, w.disk.dirs, Next(tools, w, e).disk.dirs)
  {
    var dirs, job := w.disk.dirs, w.job;
    StepOk(tools, w, e);
    match e
    case RemoveFile(path) => FileRemoved(tools, dirs, job.digest, path);
    case RemoveDir => DirRemoved(tools, dirs, job.digest);
    case Rename =>
      AnyVersion(tools, job.staged, job.digest, job.version);
      DirAdded(tools, dirs, job.digest, job.staged);
    case _ => OtherStepsKeepDirs(tools, w, e);
  }

  lemma {:induction false} SettledRun(tools: Tools, worlds: seq<World>, events: seq<Event>, i: nat)
    requires Run(tools, worlds, events) && Settled(tools, worlds[0].disk.dirs) && i < |worlds|
    ensures SettledWorld(tools, worlds[i])
    ensures i > 0 ==> Kept(tools, worlds[i - 1].disk.dirs, worlds[i].disk.dirs)
  {
    if i > 0 {
      SettledRun(tools, worlds, events, i - 1);
      assert Stepped(tools, worlds, events, i - 1);
      SettledStep(tools, worlds[i - 1], events[i - 1]);
    }
  }

  lemma {:induction false} SettledKeeps(tools: Tools, worlds: seq<World>, events: seq<Event>, i: nat, j: nat, d: string)
    requires Run(tools, worlds, events) && Settled(tools, worlds[0].disk.dirs) && i <= j < |worlds|
    requires CompleteAt(tools, worlds[i].disk.dirs, d, None)
    ensures d in worlds[j].disk.dirs && worlds[j].disk.dirs[d] == worlds[i].disk.dirs[d]
    decreases j
  {
    if i < j {
      SettledKeeps(tools, worlds, events, i, j - 1, d);
      SettledRun(tools, worlds, events, j);
    }
  }

  // ---- junk around a complete core gets it altered ----

  lemma Extend(tools: Tools, worlds: seq<World>, events: seq<Event>, e: Event)
    returns (more: seq<World>, done: seq<Event>)
    requires Run(tools, worlds, events) && Enabled(tools, worlds[|worlds| - 1], e)
    ensures Run(tools, more, done) && |more| == |worlds| + 1
    ensures more[..|worlds|] == worlds && more[|worlds|] == Next(tools, worlds[|worlds| - 1], e)
  {
    var n := |events|;
    more, done := worlds + [Next(tools, worlds[n], e)], events + [e];
    forall i | 0 <= i <= n ensures Stepped(tools, more, done, i) {
      assert i < n ==> Stepped(tools, worlds, events, i);
    }
    assert more[0] == worlds[0];
  }

  /** A removal in progress can take the junk first. */
  lemma {:induction false} RemoveJunk(tools: Tools, worlds: seq<World>, events: seq<Event>, core: Dir)
    returns (more: seq<World>, done: seq<Event>)
    requires Run(tools, worlds, events)
    requires var w := worlds[|worlds| - 1];
             w.job.Removing? && w.job.digest in w.disk.dirs && Part(core, w.disk.dirs[w.job.digest])
    ensures Run(tools, more, done) && more[0] == worlds[0]
    ensures var v, w := worlds[|worlds| - 1], more[|more| - 1];
            w.job == v.job && w.job.digest in w.disk.dirs && w.disk.dirs[w.job.digest] == core
    decreases var w := worlds[|worlds| - 1]; |w.disk.dirs[w.job.digest].Keys|
  {
    var w := worlds[|worlds| - 1];
    var dir := w.disk.dirs[w.job.digest];
    if dir.Keys <= core.Keys {
      more, done := worlds, events;
    } else {
      var path :| path in dir.Keys && path !in core.Keys;
      more, done := Extend(tools, worlds, events, RemoveFile(path));
      FewerFiles(dir, path);
      more, done := RemoveJunk(tools, more, done, core);
    }
  }

  lemma FewerFiles(dir: Dir, path: string)
    requires path in dir
    ensures |(dir - {path}).Keys| < |dir.Keys|
  {
    assert (dir - {path}).Keys == dir.Keys - {path};
  }

  /** A call that finds a directory incomplete over a complete core starts removing it. */
  lemma StartsRemoving(tools: Tools, disk: Disk, d: string) returns (worlds: seq<World>, events: seq<Event>)
    requires d in disk.dirs && Digest(d)
    requires Complete(tools, Core(tools, disk.dirs[d]), d, None) && !Complete(tools, disk.dirs[d], d, None)
    ensures Run(tools, worlds, events) && |worlds| == 3 && worlds[0].disk == disk
    ensures worlds[2].disk == disk && worlds[2].job.Removing? && worlds[2].job.digest == d
  {
    var core := Core(tools, disk.dirs[d]);
    var version := tools.readManifest(core[MANIFEST]).value.version;
    UnmarkedIsVerified(tools, core, d);
    if Complete(tools, disk.dirs[d], d, Some(version)) {
      AnyVersion(tools, disk.dirs[d], d, version);
    }
    worlds, events := [World(disk, Idle, disk.dirs)], [];
    worlds, events := Extend(tools, worlds, events, Downloaded(version, d, core - {MARKER}));
    worlds, events := Extend(tools, worlds, events, StartRemoving);
  }

  lemma JunkGetsAltered(tools: Tools, disk: Disk, d: string)
    requires d in disk.dirs && Digest(d)
    requires Complete(tools, Core(tools, disk.dirs[d]), d, None) && !Complete(tools, disk.dirs[d], d, None)
    ensures !NeverAlters(tools, disk)
  {
    var core := Core(tools, disk.dirs[d]);
    CoreIsPart(tools, disk.dirs[d]);
    var worlds, events := StartsRemoving(tools, disk, d);
    worlds, events := RemoveJunk(tools, worlds, events, core);
    var n := |worlds| - 1;
    var more, done := Extend(tools, worlds, events, RemoveFile(MANIFEST));
    assert more[n] == worlds[n] && CompleteAt(tools, more[n].disk.dirs, d, None);
    assert MANIFEST !in more[n + 1].disk.dirs[d] && MANIFEST in core;
  }

  /**
   * A complete directory is never altered or removed, at any step of any run, exactly when the cache
   * starts without a directory whose junk files alone keep it from being complete.
   */
  lemma NeverAltered(tools: Tools, disk: Disk)
    ensures NeverAlters(tools, disk) <==> Settled(tools, disk.dirs)
  {
    if Settled(tools, disk.dirs) {
      forall worlds: seq<World>, events: seq<Event>, i: int, j: int, d: string |
        Run(tools, worlds, events) && worlds[0].disk == disk && 0 <= i <= j < |worlds|
          && CompleteAt(tools, worlds[i].disk.dirs, d, None)
        ensures d in worlds[j].disk.dirs && worlds[j].disk.dirs[d] == worlds[i].disk.dirs[d]
      {
        SettledKeeps(tools, worlds, events, i, j, d);
      }
    } else {
      var d :| d in disk.dirs && Digest(d) && Complete(tools, Core(tools, disk.dirs[d]), d, None)
        && !Complete(tools, disk.dirs[d], d, None);
      JunkGetsAltered(tools, disk, d);
    }
  }

  // ---- a disk that is not settled ----

  const HASH: string := seq(64, i => 'd')

  const LISTED := Record("m/a", HASH)

  function Simple(): Tools {
    Tools(data => HASH, data => Some(Manifest("v", ["m"], HASH, 1, 1, 1)), data => Some([RecordLine(LISTED)]))
  }

  const SOUND: Dir := map[MANIFEST := "1", CHECKSUMS := "2", "m/a" := "3"]

  const JUNKED: Dir := map[MANIFEST := "1", CHECKSUMS := "2", "m/a" := "3", MARKER := HASH, "junk" := "4"]

  lemma LastComponent(c: char)
    requires c != '/'
    ensures Components([c]) == [[c]]
  {
    assert [c][1..] == [] && [c] + [] == [c] && [""][1..] == [];
    assert Components("") == [""];
  }

  lemma ListedRecord(data: string)
    ensures ReadRecords(Simple(), data) == Some([LISTED])
  {
    LastComponent('a');
    assert "/a"[1..] == "a" && "m/a"[1..] == "/a";
    assert Components("/a") == ["", "a"];
    assert ['m'] + "" == "m" && ["", "a"][1..] == ["a"];
    assert Components("m/a") == ["m", "a"];
    LineRoundTrip(RecordLine(LISTED), LISTED);
    assert GoodRecord(LISTED);
    var lines := [RecordLine(LISTED)];
    var none: seq<string> := [];
    assert lines[..0] == none && Records(none) == Some([]) && ParseLine(lines[0]) == Some(LISTED);
    RecordsPrefix(lines, 0);
    assert lines[..1] == lines && [] + [LISTED] == [LISTED];
    assert Records(lines) == Some([LISTED]);
  }

  lemma SoundIndex()
    ensures VerifyBundle(Simple(), SOUND, Manifest("v", ["m"], HASH, 1, 1, 1), [LISTED])
  {
    var files := [LISTED];
    assert Protected("m", files) by { assert "m/" <= files[0].path; }
    assert Listed(files) == {"m/a"} by { assert Paths(files) == ["m/a"]; }
    assert files[1..] == [];
    assert TotalSize(SOUND, files) == 1;
    assert SOUND.Keys == {"m/a", MANIFEST, CHECKSUMS};
  }

  lemma SoundIsVerified()
    ensures Complete(Simple(), SOUND[MARKER := HASH], HASH, None)
  {
    SoundIndex();
    ListedRecord("2");
    MarkedIsComplete(Simple(), SOUND, HASH, Some("v"));
    AnyVersion(Simple(), SOUND[MARKER := HASH], HASH, "v");
  }

  lemma JunkIsIncomplete()
    ensures !Complete(Simple(), JUNKED, HASH, None)
  {
    ListedRecord("2");
    assert Paths([LISTED]) == ["m/a"];
    assert "junk" in JUNKED.Keys && "junk" !in Listed([LISTED]);
  }

  lemma JunkedCore()
    ensures Core(Simple(), JUNKED) == SOUND[MARKER := HASH]
  {
    SoundIsVerified();
    assert Part(SOUND[MARKER := HASH], JUNKED);
    CompletePartIsCore(Simple(), SOUND[MARKER := HASH], JUNKED, HASH);
  }

  /** One junk file is enough for a complete directory to be altered while it is removed. */
  lemma TransientlyComplete()
    ensures !NeverAlters(Simple(), Disk(map[HASH := JUNKED], None))
  {
    SoundIsVerified();
    JunkIsIncomplete();
    JunkedCore();
    assert Digest(HASH);
    JunkGetsAltered(Simple(), Disk(map[HASH := JUNKED], None), HASH);
  }
}
