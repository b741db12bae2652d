/** Admission of analysis tasks: two limits held until the worker thread exits, whatever the caller does. */
module Admission {
  import opened Semaphores
  import opened Limiter

  /** Static limits, and which tasks belong to Studio. */
  datatype Config = Config(maxConcurrent: nat, maxQueued: nat, maxStudio: nat, studios: iset<Task>)

  /**
   * Analysis tasks by where they stand: created, at the Studio limit, at or in the shared limiter.
   * Live tasks have a worker thread; gone callers timed out or were cancelled; retained tasks are
   * kept by the runtime's background set; a cancelled task cannot run past its next resumption.
   */
  datatype Adm = Adm(
    pending: set<Task>, studio: Sem, lim: Lim, live: set<Task>,
    cancelled: set<Task>, gone: set<Task>, retained: set<Task>, finished: set<Task>)

  datatype Event =
    | Create(task: Task) | Begin(task: Task) | Drop(task: Task)
    | StudioGranted(task: Task) | StudioCancelled(task: Task) | StudioLeaves(task: Task)
    | SlotGranted(task: Task) | SlotCancelled(task: Task) | SlotLeaves(task: Task)
    | ThreadExits(task: Task) | Finishes(task: Task)
    | CallerTimesOut(task: Task) | CallerCancelled(task: Task)

  function Start(c: Config): Adm {
    Adm({}, Fresh(c.maxStudio), Lim(Fresh(c.maxConcurrent), 0, 0), {}, {}, {}, {}, {})
  }

  predicate Started(a: Adm, t: Task) { t in a.lim.sem.holding }

  ghost predicate InSlot(a: Adm, t: Task) { t in Members(a.lim.sem) }

  ghost predicate AtStudio(a: Adm, t: Task) { t in Members(a.studio) && t !in a.studio.holding }

  ghost predicate Active(a: Adm, t: Task) { t in a.pending || AtStudio(a, t) || InSlot(a, t) }

  // ---- the steps ----

  /** Nothing of it runs any more: it leaves the background set. */
  function Over(a: Adm, t: Task): Adm { a.(finished := a.finished + {t}, retained := a.retained - {t}) }

  function ReleaseStudio(c: Config, a: Adm, t: Task): Adm {
    if t in c.studios then a.(studio := Release(a.studio, t)) else a
  }

  /** Entering the shared limiter: refused, queued, or started with its worker thread. */
  function EnterSlot(c: Config, a: Adm, t: Task): Adm {
    match EntryOf(a.lim, c.maxQueued)
    case Full => Over(ReleaseStudio(c, a, t), t)
    case Waits => a.(lim := Entered(a.lim, c.maxQueued, t))
    case Starts => a.(lim := Entered(a.lim, c.maxQueued, t), live := a.live + {t})
  }

  function BeginTask(c: Config, a: Adm, t: Task): Adm {
    var b := a.(pending := a.pending - {t});
    if t !in c.studios then EnterSlot(c, b, t)
    else
      var s := b.(studio := Acquire(b.studio, t));
      if Locked(b.studio) then s else EnterSlot(c, s, t)
  }

  ghost predicate Enabled(a: Adm, e: Event) {
    match e
    case Create(t) => !Active(a, t) && t !in a.finished
    case Begin(t) => t in a.pending && t !in a.cancelled
    case Drop(t) => t in a.pending && t in a.cancelled
    case StudioGranted(t) => t in a.studio.granted && t !in a.cancelled
    case StudioCancelled(t) => t in a.studio.waiting
    case StudioLeaves(t) => t in a.studio.granted || t in a.studio.leaving
    case SlotGranted(t) => t in a.lim.sem.granted && t !in a.cancelled
    case SlotCancelled(t) => t in a.lim.sem.waiting
    case SlotLeaves(t) => t in a.lim.sem.granted || t in a.lim.sem.leaving
    case ThreadExits(t) => t in a.live
    case Finishes(t) => Started(a, t) && t !in a.live
    case CallerTimesOut(t) => Started(a, t)
    case CallerCancelled(t) => Active(a, t)
  }

  function Next(c: Config, a: Adm, e: Event): Adm {
    match e
    case Create(t) => a.(pending := a.pending + {t})
    case Begin(t) => BeginTask(c, a, t)
    case Drop(t) => Over(a.(pending := a.pending - {t}), t)
    case StudioGranted(t) => EnterSlot(c, a.(studio := Resume(a.studio, t)), t)
    case StudioCancelled(t) => a.(studio := GiveUp(a.studio, t))
    case StudioLeaves(t) => Over(a.(studio := Leave(a.studio, t)), t)
    case SlotGranted(t) => a.(lim := Resumed(a.lim, t), live := a.live + {t})
    case SlotCancelled(t) => a.(lim := GaveUp(a.lim, t))
    case SlotLeaves(t) => Over(ReleaseStudio(c, a.(lim := Left(a.lim, t)), t), t)
    case ThreadExits(t) => a.(live := a.live - {t})
    case Finishes(t) => Over(ReleaseStudio(c, a.(lim := Exited(a.lim, t)), t), t)
    case CallerTimesOut(t) => a.(gone := a.gone + {t}, retained := a.retained + {t})
    case CallerCancelled(t) =>
      a.(gone := a.gone + {t}, retained := a.retained + {t},
         cancelled := if Started(a, t) then a.cancelled else a.cancelled + {t})
  }

  // ---- what every reachable state satisfies ----

  /** Where one task stands. */
  datatype Spot = Spot(
    pending: bool, studio: bool, studioHolding: bool, slot: bool, running: bool, live: bool,
    cancelled: bool, gone: bool, retained: bool, finished: bool, isStudio: bool)

  ghost function SpotOf(c: Config, a: Adm, t: Task): Spot {
    Spot(t in a.pending, t in Members(a.studio), t in a.studio.holding, t in Members(a.lim.sem), t in a.lim.sem.holding,
      t in a.live,
         t in a.cancelled, t in a.gone, t in a.retained, t in a.finished, t in c.studios)
  }

  /**
   * A task stands in one place. A Studio task in the slot holds its Studio permit, and only such a
   * task does; a task at the door is on its way from the Studio limit into the slot.
   */
  predicate SpotOk(x: Spot, door: bool) {
    var active := x.pending || x.studio || x.slot || door;
    && !(x.pending && (x.studio || x.slot))
    && (x.studioHolding ==> x.studio && (x.slot || door))
    && (x.live ==> x.running) && (x.running ==> x.slot)
    && (x.studio ==> x.isStudio)
    && ((x.slot || door) && x.isStudio ==> x.studioHolding)
    && (x.finished ==> !active)
    && !(x.cancelled && x.running)
    && (x.gone && active ==> x.retained) && (x.cancelled ==> x.gone) && (x.gone ==> active || x.finished)
    && (door ==> !x.pending && !x.slot && !x.cancelled)
  }

  ghost predicate Placed(c: Config, a: Adm) { forall t :: SpotOk(SpotOf(c, a, t), false) }

  ghost predicate AdmOk(c: Config, a: Adm) {
    SemOk(a.studio, c.maxStudio) && LimOk(a.lim, c.maxConcurrent, c.maxQueued) && Placed(c, a)
  }

  ghost predicate AtDoor(c: Config, a: Adm, t: Task) {
    && SemOk(a.studio, c.maxStudio) && LimOk(a.lim, c.maxConcurrent, c.maxQueued)
    && forall u :: SpotOk(SpotOf(c, a, u), u == t)
  }

  /** Only t's spot changed, and its new spot is fine. */
  lemma PlacedAfter(c: Config, a: Adm, b: Adm, t: Task)
    requires forall u :: u != t ==> SpotOk(SpotOf(c, a, u), false) && SpotOf(c, b, u) == SpotOf(c, a, u)
    requires SpotOk(SpotOf(c, b, t), false)
    ensures Placed(c, b)
  {
    forall u ensures SpotOk(SpotOf(c, b, u), false) {
      assert u != t ==> SpotOf(c, b, u) == SpotOf(c, a, u);
    }
  }

  lemma RolesApart(s: Sem, permits: nat, t: Task)
    requires SemOk(s, permits)
    ensures t in s.waiting || t in s.granted || t in s.leaving ==> t in Members(s) && t !in s.holding
    ensures t in s.holding ==> t in Members(s)
  {
    assert RoleOk(s, t);
    InQueue(s.waiting, t);
  }

  // ---- one step keeps it ----

  lemma RefusedOk(c: Config, a: Adm, t: Task)
    requires AtDoor(c, a, t)
    ensures AdmOk(c, Over(ReleaseStudio(c, a, t), t))
  {
    assert SpotOk(SpotOf(c, a, t), true);
    var b := Over(ReleaseStudio(c, a, t), t);
    if t in c.studios {
      ReleaseOk(a.studio, c.maxStudio, t);
    }
    assert SpotOf(c, b, t) ==
      SpotOf(c, a, t).(studio := false, studioHolding := false, finished := true, retained := false);
    forall u | u != t ensures SpotOk(SpotOf(c, a, u), false) && SpotOf(c, b, u) == SpotOf(c, a, u) {
      assert SpotOk(SpotOf(c, a, u), u == t);
    }
    PlacedAfter(c, a, b, t);
  }

  lemma EnterSlotOk(c: Config, a: Adm, t: Task)
    requires AtDoor(c, a, t)
    ensures AdmOk(c, EnterSlot(c, a, t))
  {
    var b := EnterSlot(c, a, t);
    assert SpotOk(SpotOf(c, a, t), true);
    if EntryOf(a.lim, c.maxQueued) == Full {
      RefusedOk(c, a, t);
    } else {
      EnterOk(a.lim, c.maxConcurrent, c.maxQueued, t);
      forall u | u != t ensures SpotOk(SpotOf(c, a, u), false) && SpotOf(c, b, u) == SpotOf(c, a, u) {
        assert SpotOk(SpotOf(c, a, u), u == t);
      }
      PlacedAfter(c, a, b, t);
    }
  }

  lemma DoorOpen(c: Config, a: Adm, b: Adm, t: Task)
    requires Placed(c, a) && forall u :: u != t ==> SpotOf(c, b, u) == SpotOf(c, a, u)
    requires SpotOk(SpotOf(c, b, t), true)
    ensures forall u :: SpotOk(SpotOf(c, b, u), u == t)
  {
    forall u ensures SpotOk(SpotOf(c, b, u), u == t) {
      assert SpotOk(SpotOf(c, a, u), false);
      assert u != t ==> SpotOf(c, b, u) == SpotOf(c, a, u);
    }
  }

  lemma StudioWaitsOk(c: Config, a: Adm, t: Task)
    requires AdmOk(c, a) && t in a.pending && t !in a.cancelled && t in c.studios && Locked(a.studio)
    ensures AdmOk(c, a.(pending := a.pending - {t}, studio := Acquire(a.studio, t)))
  {
    var s := a.(pending := a.pending - {t}, studio := Acquire(a.studio, t));
    assert SpotOk(SpotOf(c, a, t), false);
    AcquireOk(a.studio, c.maxStudio, t);
    StillOut(a.studio, t, c.maxStudio);
    assert SpotOf(c, s, t) == SpotOf(c, a, t).(pending := false, studio := true);
    PlacedAfter(c, a, s, t);
  }

  /** Moving t from pending to a Studio permit moves nobody else. */
  lemma TakenSpots(c: Config, a: Adm, studio: Sem, t: Task)
    requires Members(studio) == Members(a.studio) + {t} && studio.holding == a.studio.holding + {t}
    ensures var s := a.(pending := a.pending - {t}, studio := studio);
            && SpotOf(c, s, t) == SpotOf(c, a, t).(pending := false, studio := true, studioHolding := true)
            && forall u :: u != t ==> SpotOf(c, s, u) == SpotOf(c, a, u)
  {
  }

  lemma StudioTakenOk(c: Config, a: Adm, t: Task)
    requires AdmOk(c, a) && t in a.pending && t !in a.cancelled && t in c.studios && !Locked(a.studio)
    ensures AtDoor(c, a.(pending := a.pending - {t}, studio := Acquire(a.studio, t)), t)
  {
    assert SpotOk(SpotOf(c, a, t), false);
    AcquireOk(a.studio, c.maxStudio, t);
    TakenSpots(c, a, Acquire(a.studio, t), t);
    DoorOpen(c, a, a.(pending := a.pending - {t}, studio := Acquire(a.studio, t)), t);
  }

  lemma BeginOk(c: Config, a: Adm, t: Task)
    requires AdmOk(c, a) && t in a.pending && t !in a.cancelled
    ensures AdmOk(c, BeginTask(c, a, t))
  {
    if t !in c.studios {
      var b := a.(pending := a.pending - {t});
      assert SpotOk(SpotOf(c, a, t), false);
      DoorOpen(c, a, b, t);
      EnterSlotOk(c, b, t);
    } else if Locked(a.studio) {
      StudioWaitsOk(c, a, t);
    } else {
      StudioTakenOk(c, a, t);
      EnterSlotOk(c, a.(pending := a.pending - {t}, studio := Acquire(a.studio, t)), t);
    }
  }

  lemma StillOut(s: Sem, t: Task, permits: nat)
    requires SemOk(s, permits) && t !in Members(s)
    ensures t !in s.holding
  {
  }

  lemma StudioGrantedDoor(c: Config, a: Adm, t: Task)
    requires AdmOk(c, a) && t in a.studio.granted && t !in a.cancelled
    ensures AtDoor(c, a.(studio := Resume(a.studio, t)), t)
  {
    RolesApart(a.studio, c.maxStudio, t);
    assert SpotOk(SpotOf(c, a, t), false);
    ResumeOk(a.studio, c.maxStudio, t);
    DoorOpen(c, a, a.(studio := Resume(a.studio, t)), t);
  }

  lemma StudioGrantedOk(c: Config, a: Adm, t: Task)
    requires AdmOk(c, a) && t in a.studio.granted && t !in a.cancelled
    ensures AdmOk(c, EnterSlot(c, a.(studio := Resume(a.studio, t)), t))
  {
    StudioGrantedDoor(c, a, t);
    EnterSlotOk(c, a.(studio := Resume(a.studio, t)), t);
  }

  lemma StudioCancelledOk(c: Config, a: Adm, t: Task)
    requires AdmOk(c, a) && t in a.studio.waiting
    ensures AdmOk(c, a.(studio := GiveUp(a.studio, t)))
  {
    GiveUpOk(a.studio, c.maxStudio, t);
    SameSpots(c, a, a.(studio := GiveUp(a.studio, t)));
  }

  lemma SameSpots(c: Config, a: Adm, b: Adm)
    requires Placed(c, a) && forall t :: SpotOf(c, b, t) == SpotOf(c, a, t)
    ensures Placed(c, b)
  {
    forall t ensures SpotOk(SpotOf(c, b, t), false) {
      assert SpotOf(c, b, t) == SpotOf(c, a, t);
    }
  }

  lemma StudioLeavesOk(c: Config, a: Adm, t: Task)
    requires AdmOk(c, a) && (t in a.studio.granted || t in a.studio.leaving)
    ensures AdmOk(c, Over(a.(studio := Leave(a.studio, t)), t))
  {
    var s, b := Leave(a.studio, t), Over(a.(studio := Leave(a.studio, t)), t);
    RolesApart(a.studio, c.maxStudio, t);
    assert SpotOk(SpotOf(c, a, t), false);
    LeaveOk(a.studio, c.maxStudio, t);
    assert SpotOf(c, b, t) == SpotOf(c, a, t).(studio := false, finished := true, retained := false);
    OthersUnmoved(c, a, b, t);
    PlacedAfter(c, a, b, t);
  }

  /** Sets that differ at most in t leave every other spot alone. */
  lemma OthersUnmoved(c: Config, a: Adm, b: Adm, t: Task)
    requires Placed(c, a) && b.pending == a.pending && b.live == a.live && b.cancelled == a.cancelled
    requires b.gone == a.gone
    requires b.finished == a.finished + {t} && b.retained == a.retained - {t}
    requires forall u :: u != t ==>
               (u in Members(b.studio) <==> u in Members(a.studio))
               && (u in b.studio.holding <==> u in a.studio.holding)
    requires forall u :: u != t ==>
               (u in Members(b.lim.sem) <==> u in Members(a.lim.sem))
               && (u in b.lim.sem.holding <==> u in a.lim.sem.holding)
    ensures forall u :: u != t ==> SpotOk(SpotOf(c, a, u), false) && SpotOf(c, b, u) == SpotOf(c, a, u)
  {
  }

  lemma SlotGrantedOk(c: Config, a: Adm, t: Task)
    requires AdmOk(c, a) && t in a.lim.sem.granted && t !in a.cancelled
    ensures AdmOk(c, a.(lim := Resumed(a.lim, t), live := a.live + {t}))
  {
    var b := a.(lim := Resumed(a.lim, t), live := a.live + {t});
    RolesApart(a.lim.sem, c.maxConcurrent, t);
    assert SpotOk(SpotOf(c, a, t), false);
    ResumedOk(a.lim, c.maxConcurrent, c.maxQueued, t);
    assert SpotOf(c, b, t) == SpotOf(c, a, t).(running := true, live := true);
    forall u | u != t ensures SpotOk(SpotOf(c, a, u), false) && SpotOf(c, b, u) == SpotOf(c, a, u) {}
    PlacedAfter(c, a, b, t);
  }

  lemma SlotCancelledOk(c: Config, a: Adm, t: Task)
    requires AdmOk(c, a) && t in a.lim.sem.waiting
    ensures AdmOk(c, a.(lim := GaveUp(a.lim, t)))
  {
    GaveUpOk(a.lim, c.maxConcurrent, c.maxQueued, t);
    SameSpots(c, a, a.(lim := GaveUp(a.lim, t)));
  }

  /** Out of the slot, before or after running: the Studio permit goes back too. */
  lemma SlotLeftOk(c: Config, a: Adm, lim: Lim, t: Task)
    requires AdmOk(c, a) && t in Members(a.lim.sem) && t !in a.live
    requires LimOk(lim, c.maxConcurrent, c.maxQueued) && Members(lim.sem) == Members(a.lim.sem) - {t}
    requires lim.sem.holding == a.lim.sem.holding - {t}
    ensures AdmOk(c, Over(ReleaseStudio(c, a.(lim := lim), t), t))
  {
    assert SpotOk(SpotOf(c, a, t), false);
    var b := Over(ReleaseStudio(c, a.(lim := lim), t), t);
    if t in c.studios {
      ReleaseOk(a.studio, c.maxStudio, t);
    }
    assert SpotOf(c, b, t) == SpotOf(c, a, t).(
      slot := false, running := false, studio := false, studioHolding := false, finished := true, retained := false);
    OthersUnmoved(c, a, b, t);
    PlacedAfter(c, a, b, t);
  }

  lemma SlotEndOk(c: Config, a: Adm, e: Event)
    requires AdmOk(c, a) && Enabled(a, e) && (e.SlotLeaves? || e.Finishes?)
    ensures AdmOk(c, Next(c, a, e))
  {
    var t := e.task;
    assert SpotOk(SpotOf(c, a, t), false);
    RolesApart(a.lim.sem, c.maxConcurrent, t);
    if e.SlotLeaves? {
      LeftOk(a.lim, c.maxConcurrent, c.maxQueued, t);
      SlotLeftOk(c, a, Left(a.lim, t), t);
    } else {
      ExitedOk(a.lim, c.maxConcurrent, c.maxQueued, t);
      SlotLeftOk(c, a, Exited(a.lim, t), t);
    }
  }

  lemma CallerOk(c: Config, a: Adm, e: Event)
    requires AdmOk(c, a) && Enabled(a, e)
    requires e.Create? || e.Drop? || e.ThreadExits? || e.CallerTimesOut? || e.CallerCancelled?
    ensures AdmOk(c, Next(c, a, e))
  {
    var x, b := SpotOf(c, a, e.task), Next(c, a, e);
    assert SpotOk(x, false);
    NotYet(a, e.task);
    var y := match e
      case Create(_) => x.(pending := true)
      case Drop(_) => x.(pending := false, finished := true, retained := false)
      case ThreadExits(_) => x.(live := false)
      case CallerTimesOut(_) => x.(gone := true, retained := true)
      case _ => x.(gone := true, retained := true, cancelled := x.cancelled || !x.running);
    assert SpotOf(c, b, e.task) == y;
    forall u | u != e.task ensures SpotOk(SpotOf(c, a, u), false) && SpotOf(c, b, u) == SpotOf(c, a, u) {}
    PlacedAfter(c, a, b, e.task);
  }

  lemma NotYet(a: Adm, t: Task)
    ensures !Active(a, t) ==>
              t !in a.pending && t !in Members(a.lim.sem) && (t in Members(a.studio) ==> t in a.studio.holding)
  {
  }

  lemma StepOk(c: Config, a: Adm, e: Event)
    requires AdmOk(c, a) && Enabled(a, e)
    ensures AdmOk(c, Next(c, a, e))
  {
    match e
    case Begin(t) => BeginOk(c, a, t);
    case StudioGranted(t) => StudioGrantedOk(c, a, t);
    case StudioCancelled(t) => StudioCancelledOk(c, a, t);
    case StudioLeaves(t) => StudioLeavesOk(c, a, t);
    case SlotGranted(t) => SlotGrantedOk(c, a, t);
    case SlotCancelled(t) => SlotCancelledOk(c, a, t);
    case SlotLeaves(_) => SlotEndOk(c, a, e);
    case Finishes(_) => SlotEndOk(c, a, e);
    case Create(_) => CallerOk(c, a, e);
    case Drop(_) => CallerOk(c, a, e);
    case ThreadExits(_) => CallerOk(c, a, e);
    case CallerTimesOut(_) => CallerOk(c, a, e);
    case CallerCancelled(_) => CallerOk(c, a, e);
  }

  // ---- every run ----

  ghost predicate Run(c: Config, states: seq<Adm>, events: seq<Event>) {
    && |states| == |events| + 1 && states[0] == Start(c)
    && forall i :: 0 <= i < |events| ==> Enabled(states[i], events[i]) && states[i + 1] == Next(c, states[i], events[i])
  }

  lemma StartOk(c: Config)
    ensures AdmOk(c, Start(c))
  {
    assert Members(Fresh(c.maxStudio)) == {} && Members(Fresh(c.maxConcurrent)) == {};
  }

  lemma {:induction false} RunOk(c: Config, states: seq<Adm>, events: seq<Event>, i: nat)
    requires Run(c, states, events) && i < |states|
    ensures AdmOk(c, states[i])
  {
    if i > 0 {
      RunOk(c, states, events, i - 1);
      assert Enabled(states[i - 1], events[i - 1]);
      StepOk(c, states[i - 1], events[i - 1]);
    } else {
      StartOk(c);
    }
  }

  lemma SubsetBound(a: set<Task>, b: set<Task>)
    requires forall t :: t in a ==> t in b
    ensures |a| <= |b|
  {
    assert b == a + (b - a);
  }

  ghost function StudioThreads(c: Config, a: Adm): set<Task> { set t | t in a.live && t in c.studios }

  lemma HoldersBounded(s: Sem, permits: nat)
    requires SemOk(s, permits)
    ensures |s.holding| <= permits
  {
  }

  /**
   * In every reachable state the live worker threads, including those whose caller timed out or was
   * cancelled, are within the concurrency limit, and the Studio ones within the Studio limit.
   */
  lemma LiveThreadsBounded(c: Config, states: seq<Adm>, events: seq<Event>, i: nat)
    requires Run(c, states, events) && i < |states|
    ensures |states[i].live| <= c.maxConcurrent
    ensures |StudioThreads(c, states[i])| <= c.maxStudio
  {
    var a := states[i];
    RunOk(c, states, events, i);
    forall t ensures t in a.live ==> t in a.lim.sem.holding && (t in c.studios ==> t in a.studio.holding) {
      assert SpotOk(SpotOf(c, a, t), false);
    }
    SubsetBound(a.live, a.lim.sem.holding);
    SubsetBound(StudioThreads(c, a), a.studio.holding);
    HoldersBounded(a.lim.sem, c.maxConcurrent);
    HoldersBounded(a.studio, c.maxStudio);
  }

  /** A task that comes to the shared limiter: it begins, or goes on from the Studio limit. */
  predicate Arrives(c: Config, a: Adm, e: Event) {
    match e
    case Begin(t) => t !in c.studios || !(a.studio.value == 0 || a.studio.waiting != [] || a.studio.granted != {})
    case StudioGranted(_) => true
    case _ => false
  }

  /** What coming to the limiter leads to, by the permits and the queue found there. */
  predicate Arrived(c: Config, s: Sem, n: Adm, t: Task) {
    && (t in n.finished <==> NothingToTake(s) && QueueFull(s, c.maxQueued))
    && (t in n.live <==> !NothingToTake(s))
    && (t in n.lim.sem.waiting <==> NothingToTake(s) && !QueueFull(s, c.maxQueued))
    && (t in n.lim.sem.waiting ==> n.lim.sem.waiting == s.waiting + [t])
  }

  lemma SlotArrival(c: Config, a: Adm, t: Task)
    requires LimOk(a.lim, c.maxConcurrent, c.maxQueued)
    requires t !in a.finished && t !in a.live && t !in a.lim.sem.waiting
    ensures Arrived(c, a.lim.sem, EnterSlot(c, a, t), t)
  {
    var s := a.lim.sem;
    if Locked(s) && a.lim.queued < c.maxQueued {
      assert (s.waiting + [t])[|s.waiting|] == t;
    }
  }

  /**
   * A task that comes to the shared limiter finishes there without a thread exactly when no permit can be
   * taken and the queue is full, gets a thread at once exactly when a permit can be taken, and otherwise
   * stands last in the queue. A Studio task that finds no Studio permit to take stands last in that queue.
   */
  lemma ArrivalAtSlot(c: Config, a: Adm, e: Event)
    requires AdmOk(c, a) && Enabled(a, e) && (e.Begin? || e.StudioGranted?)
    ensures var t, n := e.task, Next(c, a, e);
            if Arrives(c, a, e) then Arrived(c, a.lim.sem, n, t)
            else n.studio.waiting == a.studio.waiting + [t] && t !in n.finished && n.lim == a.lim
  {
    var t := e.task;
    assert SpotOk(SpotOf(c, a, t), false);
    RolesApart(a.lim.sem, c.maxConcurrent, t);
    RolesApart(a.studio, c.maxStudio, t);
    if e.StudioGranted? {
      SlotArrival(c, a.(studio := Resume(a.studio, t)), t);
    } else {
      var b := a.(pending := a.pending - {t});
      if t !in c.studios {
        SlotArrival(c, b, t);
      } else if Arrives(c, a, e) {
        SlotArrival(c, b.(studio := Acquire(b.studio, t)), t);
      }
    }
  }

  /** Nobody is turned away while there is room: who finishes unserved gave up, was cancelled, or met a full queue. */
  lemma RefusedOnlyWhenFull(c: Config, states: seq<Adm>, events: seq<Event>, i: nat, t: Task)
    requires Run(c, states, events) && i < |events| && t !in states[i].finished && t in states[i + 1].finished
    ensures || events[i] in {Finishes(t), SlotLeaves(t), StudioLeaves(t)} || t in states[i].cancelled
            || (NothingToTake(states[i].lim.sem) && QueueFull(states[i].lim.sem, c.maxQueued))
  {
    RunOk(c, states, events, i);
    assert Enabled(states[i], events[i]);
    if events[i].Begin? || events[i].StudioGranted? {
      ArrivalAtSlot(c, states[i], events[i]);
    }
  }

  lemma EnterStarts(c: Config, a: Adm, x: Task, t: Task)
    requires t !in a.lim.sem.holding && t in EnterSlot(c, a, x).lim.sem.holding
    ensures t == x && t in EnterSlot(c, a, x).live
  {
  }

  lemma BeginStarts(c: Config, a: Adm, x: Task, t: Task)
    requires t !in a.lim.sem.holding && t in BeginTask(c, a, x).lim.sem.holding
    ensures t == x && t in BeginTask(c, a, x).live
  {
    var b := a.(pending := a.pending - {x});
    if x !in c.studios {
      EnterStarts(c, b, x, t);
    } else if !Locked(b.studio) {
      EnterStarts(c, b.(studio := Acquire(b.studio, x)), x, t);
    }
  }

  /** A task that takes a slot permit gets its worker thread in the same step. */
  lemma StartsWithThread(c: Config, a: Adm, e: Event, t: Task)
    requires AdmOk(c, a) && Enabled(a, e) && !Started(a, t) && Started(Next(c, a, e), t)
    ensures t in Next(c, a, e).live && e.task == t
  {
    match e
    case Begin(x) => BeginStarts(c, a, x, t);
    case StudioGranted(x) => EnterStarts(c, a.(studio := Resume(a.studio, x)), x, t);
    case SlotGranted(x) => ResumedOk(a.lim, c.maxConcurrent, c.maxQueued, x);
    case SlotLeaves(x) => LeftOk(a.lim, c.maxConcurrent, c.maxQueued, x);
    case Finishes(x) => ExitedOk(a.lim, c.maxConcurrent, c.maxQueued, x);
    case _ =>
  }

  /** A worker thread goes only by exiting. */
  lemma ThreadsStay(c: Config, a: Adm, e: Event, t: Task)
    requires AdmOk(c, a) && Enabled(a, e) && t in a.live && e != ThreadExits(t)
    ensures t in Next(c, a, e).live
  {
  }

  /** A slot permit leaves its holder only by finishing, after its thread has exited. */
  lemma ReleasedAfterExit(c: Config, a: Adm, e: Event, t: Task)
    requires AdmOk(c, a) && Enabled(a, e) && Started(a, t) && !Started(Next(c, a, e), t)
    ensures e == Finishes(t) && t !in a.live && t in Next(c, a, e).finished
  {
    if e.Finishes? {
      ExitedOk(a.lim, c.maxConcurrent, c.maxQueued, e.task);
      FinishedIsOver(c, a, e.task);
    } else {
      HoldersStay(c, a, e);
    }
  }

  lemma FinishedIsOver(c: Config, a: Adm, t: Task)
    ensures t in Next(c, a, Finishes(t)).finished && Next(c, a, Finishes(t)).lim == Exited(a.lim, t)
  {
  }

  lemma HoldersStay(c: Config, a: Adm, e: Event)
    requires AdmOk(c, a) && Enabled(a, e) && !e.Finishes?
    ensures a.lim.sem.holding <= Next(c, a, e).lim.sem.holding
  {
    match e
    case Begin(x) => BeginHolding(c, a, x);
    case StudioGranted(x) => EnterHolding(c, a.(studio := Resume(a.studio, x)), x);
    case SlotGranted(x) => ResumedOk(a.lim, c.maxConcurrent, c.maxQueued, x);
    case SlotLeaves(x) => LeftOk(a.lim, c.maxConcurrent, c.maxQueued, x);
    case _ =>
  }

  lemma EnterHolding(c: Config, a: Adm, x: Task)
    ensures a.lim.sem.holding <= EnterSlot(c, a, x).lim.sem.holding
  {
  }

  lemma BeginHolding(c: Config, a: Adm, x: Task)
    ensures a.lim.sem.holding <= BeginTask(c, a, x).lim.sem.holding
  {
    var b := a.(pending := a.pending - {x});
    EnterHolding(c, b, x);
    EnterHolding(c, b.(studio := Acquire(b.studio, x)), x);
  }

  /** A task cancelled before it started never starts: it can only leave, giving back what it was granted. */
  lemma CancelledNeverStarts(c: Config, states: seq<Adm>, events: seq<Event>, i: nat, t: Task)
    requires Run(c, states, events) && i < |states| && t in states[i].cancelled
    ensures !Started(states[i], t) && t !in states[i].live
  {
    RunOk(c, states, events, i);
    assert SpotOk(SpotOf(c, states[i], t), false);
  }

  lemma WholeAgain(s: Sem, permits: nat)
    requires SemOk(s, permits) && Members(s) == {}
    ensures s.value == permits && s.waiting == [] && s.granted == {} && s.leaving == {} && s.holding == {}
  {
    assert s.granted <= Members(s) && s.leaving <= Members(s) && s.holding <= Members(s);
    SomeoneQueued(s.waiting);
  }

  lemma IdleIsWhole(c: Config, a: Adm)
    requires AdmOk(c, a) && forall t :: !Active(a, t)
    ensures a.lim.sem.value == c.maxConcurrent && a.studio.value == c.maxStudio
    ensures a.lim.queued == 0 && a.lim.inFlight == 0 && a.live == {}
  {
    forall t ensures t !in Members(a.lim.sem) && t !in Members(a.studio) && t !in a.live {
      assert SpotOk(SpotOf(c, a, t), false) && !Active(a, t);
      NotYet(a, t);
    }
    WholeAgain(a.lim.sem, c.maxConcurrent);
    WholeAgain(a.studio, c.maxStudio);
  }

  /** Once no task is active, no slot has leaked: both limits are whole and both counters are zero. */
  lemma NothingLeaks(c: Config, states: seq<Adm>, events: seq<Event>, i: nat)
    requires Run(c, states, events) && i < |states| && forall t :: !Active(states[i], t)
    ensures states[i].lim.sem.value == c.maxConcurrent && states[i].studio.value == c.maxStudio
    ensures states[i].lim.queued == 0 && states[i].lim.inFlight == 0 && states[i].live == {}
  {
    RunOk(c, states, events, i);
    IdleIsWhole(c, states[i]);
  }

  /** While a worker thread outlives its caller, its task stays in the background set. */
  lemma OutlivingThreadsRetained(c: Config, states: seq<Adm>, events: seq<Event>, i: nat, t: Task)
    requires Run(c, states, events) && i < |states| && t in states[i].live && t in states[i].gone
    ensures t in states[i].retained
  {
    RunOk(c, states, events, i);
    assert SpotOk(SpotOf(c, states[i], t), false);
  }
}
