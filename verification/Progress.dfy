/** Every admitted task can come to its end: no waiter is stranded, and every onward step uses up work. */
module Progress {
  import opened Semaphores
  import Limiter
  import opened Admission

  /** Steps a task takes by itself towards its end; creation, timeouts and cancellations are not among them. */
  predicate Onward(e: Event) {
    || e.Begin? || e.Drop? || e.StudioGranted? || e.StudioLeaves?
    || e.SlotGranted? || e.SlotLeaves? || e.ThreadExits? || e.Finishes?
  }

  function Line(s: Sem): nat { |s.waiting| + |s.granted| + |s.leaving| }

  /** The most onward steps the tasks of a state can still take. */
  function Remaining(a: Adm): nat {
    5 * |a.pending| + 4 * Line(a.studio) + 3 * Line(a.lim.sem) + |a.lim.sem.holding| + |a.live|
  }

  ghost predicate Idle(a: Adm) { forall t :: !Active(a, t) }

  // ---- onward steps use up work ----

  lemma JoinOne(s: set<Task>, t: Task)
    ensures |s + {t}| <= |s| + 1
  {
  }

  lemma AcquireLine(s: Sem, t: Task)
    ensures Line(Acquire(s, t)) == Line(s) + (if Locked(s) then 1 else 0)
    ensures |Acquire(s, t).holding| <= |s.holding| + (if Locked(s) then 0 else 1)
  {
    JoinOne(s.holding, t);
  }

  lemma ReleaseStudioLine(c: Config, a: Adm, t: Task)
    requires SemOk(a.studio, c.maxStudio) && (t in c.studios ==> t in a.studio.holding)
    ensures Remaining(Over(ReleaseStudio(c, a, t), t)) == Remaining(a)
  {
    if t in c.studios {
      ReleaseOk(a.studio, c.maxStudio, t);
    }
  }

  /** Entering the slot queue or the slot adds less than the place it is entered from was worth. */
  lemma EnterSlotWork(c: Config, a: Adm, t: Task)
    requires AtDoor(c, a, t)
    ensures Remaining(EnterSlot(c, a, t)) <= Remaining(a) + 3
  {
    assert SpotOk(SpotOf(c, a, t), true);
    ReleaseStudioLine(c, a, t);
    AcquireLine(a.lim.sem, t);
    JoinOne(a.live, t);
  }

  lemma PendingFewer(a: Adm, t: Task)
    requires t in a.pending
    ensures Remaining(a.(pending := a.pending - {t})) == Remaining(a) - 5
  {
  }

  lemma StudioAcquired(a: Adm, t: Task)
    ensures Remaining(a.(studio := Acquire(a.studio, t))) == Remaining(a) + (if Locked(a.studio) then 4 else 0)
  {
    AcquireLine(a.studio, t);
  }

  lemma BeginWork(c: Config, a: Adm, t: Task)
    requires AdmOk(c, a) && t in a.pending && t !in a.cancelled
    ensures Remaining(BeginTask(c, a, t)) < Remaining(a)
  {
    var b := a.(pending := a.pending - {t});
    assert SpotOk(SpotOf(c, a, t), false);
    PendingFewer(a, t);
    StudioAcquired(b, t);
    if t !in c.studios {
      DoorOpen(c, a, b, t);
      EnterSlotWork(c, b, t);
    } else if !Locked(a.studio) {
      StudioTakenOk(c, a, t);
      EnterSlotWork(c, b.(studio := Acquire(b.studio, t)), t);
    }
  }

  lemma StudioGrantedWork(c: Config, a: Adm, t: Task)
    requires AdmOk(c, a) && t in a.studio.granted && t !in a.cancelled
    ensures Remaining(EnterSlot(c, a.(studio := Resume(a.studio, t)), t)) < Remaining(a)
  {
    StudioGrantedDoor(c, a, t);
    ResumeOk(a.studio, c.maxStudio, t);
    EnterSlotWork(c, a.(studio := Resume(a.studio, t)), t);
  }

  lemma SlotEndWork(c: Config, a: Adm, e: Event)
    requires AdmOk(c, a) && Enabled(a, e) && (e.SlotLeaves? || e.Finishes?)
    ensures Remaining(Next(c, a, e)) < Remaining(a)
  {
    var t := e.task;
    assert SpotOk(SpotOf(c, a, t), false);
    RolesApart(a.lim.sem, c.maxConcurrent, t);
    if e.SlotLeaves? {
      LeaveOk(a.lim.sem, c.maxConcurrent, t);
      ReleaseStudioLine(c, a.(lim := Limiter.Left(a.lim, t)), t);
    } else {
      ReleaseOk(a.lim.sem, c.maxConcurrent, t);
      ReleaseStudioLine(c, a.(lim := Limiter.Exited(a.lim, t)), t);
    }
  }

  lemma SlotGrantedWork(c: Config, a: Adm, t: Task)
    requires AdmOk(c, a) && t in a.lim.sem.granted
    ensures Remaining(Next(c, a, SlotGranted(t))) < Remaining(a)
  {
    ResumeOk(a.lim.sem, c.maxConcurrent, t);
    JoinOne(a.lim.sem.holding, t);
    JoinOne(a.live, t);
  }

  /** No onward step can be repeated forever. */
  lemma OnwardUsesWork(c: Config, a: Adm, e: Event)
    requires AdmOk(c, a) && Enabled(a, e) && Onward(e)
    ensures Remaining(Next(c, a, e)) < Remaining(a)
  {
    match e
    case Begin(t) => BeginWork(c, a, t);
    case Drop(t) => PendingFewer(a, t);
    case StudioGranted(t) => StudioGrantedWork(c, a, t);
    case StudioLeaves(t) => LeaveOk(a.studio, c.maxStudio, t);
    case SlotGranted(t) => SlotGrantedWork(c, a, t);
    case SlotLeaves(_) => SlotEndWork(c, a, e);
    case Finishes(_) => SlotEndWork(c, a, e);
    case ThreadExits(_) =>
  }

  // ---- some onward step is always enabled ----

  /** Where somebody waits, somebody was granted a permit or holds one. */
  lemma SomeoneAhead(s: Sem, permits: nat, t: Task) returns (u: Task)
    requires SemOk(s, permits) && permits > 0 && t in s.waiting
    ensures u in s.granted || u in s.holding
  {
    if s.granted != {} {
      u :| u in s.granted;
    } else {
      assert s.holding != {};
      u :| u in s.holding;
    }
  }

  lemma SlotMoves(c: Config, a: Adm, t: Task) returns (e: Event)
    requires AdmOk(c, a) && c.maxConcurrent > 0 && InSlot(a, t)
    ensures Enabled(a, e) && Onward(e) && InSlot(a, e.task)
  {
    var s := a.lim.sem;
    InQueue(s.waiting, t);
    var u := t;
    if t in s.waiting {
      u := SomeoneAhead(s, c.maxConcurrent, t);
    }
    if u in s.holding {
      e := if u in a.live then ThreadExits(u) else Finishes(u);
    } else if u in s.leaving || u in a.cancelled {
      e := SlotLeaves(u);
    } else {
      e := SlotGranted(u);
    }
  }

  lemma StudioMoves(c: Config, a: Adm, t: Task) returns (e: Event)
    requires AdmOk(c, a) && c.maxConcurrent > 0 && c.maxStudio > 0 && AtStudio(a, t)
    ensures Enabled(a, e) && Onward(e) && Active(a, e.task)
  {
    var s := a.studio;
    InQueue(s.waiting, t);
    var u := t;
    if t in s.waiting {
      u := SomeoneAhead(s, c.maxStudio, t);
    }
    RolesApart(s, c.maxStudio, u);
    if u in s.holding {
      assert SpotOk(SpotOf(c, a, u), false);
      e := SlotMoves(c, a, u);
    } else if u in s.leaving || u in a.cancelled {
      e := StudioLeaves(u);
    } else {
      e := StudioGranted(u);
    }
  }

  /** While any task is active, some active task has an enabled onward step: no waiter is stranded. */
  lemma SomeoneMoves(c: Config, a: Adm, t: Task) returns (e: Event)
    requires AdmOk(c, a) && c.maxConcurrent > 0 && c.maxStudio > 0 && Active(a, t)
    ensures Enabled(a, e) && Onward(e) && Active(a, e.task)
  {
    if t in a.pending {
      e := if t in a.cancelled then Drop(t) else Begin(t);
    } else if AtStudio(a, t) {
      e := StudioMoves(c, a, t);
    } else {
      e := SlotMoves(c, a, t);
    }
  }

  // ---- every reachable state can come to rest ----

  /** A continuation of onward steps from a state. */
  ghost predicate Continues(c: Config, a: Adm, states: seq<Adm>, events: seq<Event>) {
    && |states| == |events| + 1 && states[0] == a
    && forall i :: 0 <= i < |events| ==>
         Enabled(states[i], events[i]) && Onward(events[i]) && states[i + 1] == Next(c, states[i], events[i])
  }

  lemma Prepended(c: Config, a: Adm, e: Event, states: seq<Adm>, events: seq<Event>)
    requires Enabled(a, e) && Onward(e) && Continues(c, Next(c, a, e), states, events)
    ensures Continues(c, a, [a] + states, [e] + events)
  {
    var longer, done := [a] + states, [e] + events;
    forall i | 0 <= i < |done|
      ensures Enabled(longer[i], done[i]) && Onward(done[i]) && longer[i + 1] == Next(c, longer[i], done[i])
    {
      if i > 0 {
        assert longer[i] == states[i - 1] && done[i] == events[i - 1] && longer[i + 1] == states[i];
      }
    }
  }

  lemma {:induction false} ComesToRest(c: Config, a: Adm) returns (states: seq<Adm>, events: seq<Event>)
    requires AdmOk(c, a) && c.maxConcurrent > 0 && c.maxStudio > 0
    ensures Continues(c, a, states, events) && Idle(states[|events|]) && AdmOk(c, states[|events|])
    decreases Remaining(a)
  {
    if Idle(a) {
      states, events := [a], [];
    } else {
      var t :| Active(a, t);
      var e := SomeoneMoves(c, a, t);
      OnwardUsesWork(c, a, e);
      StepOk(c, a, e);
      states, events := ComesToRest(c, Next(c, a, e));
      Prepended(c, a, e, states, events);
      states, events := [a] + states, [e] + events;
    }
  }

  lemma {:induction false} OnwardBounded(c: Config, a: Adm, states: seq<Adm>, events: seq<Event>, i: nat)
    requires AdmOk(c, a) && Continues(c, a, states, events) && i <= |events|
    ensures AdmOk(c, states[i]) && Remaining(states[i]) + i <= Remaining(a)
  {
    if i > 0 {
      OnwardBounded(c, a, states, events, i - 1);
      assert Enabled(states[i - 1], events[i - 1]) && Onward(events[i - 1]);
      OnwardUsesWork(c, states[i - 1], events[i - 1]);
      StepOk(c, states[i - 1], events[i - 1]);
    }
  }

  /**
   * From every reachable state, and without any help from callers: onward steps are bounded in number,
   * they end only when nothing is active, and then both limits are whole.
   */
  lemma EveryTaskEnds(c: Config, states: seq<Adm>, events: seq<Event>, more: seq<Adm>, done: seq<Event>)
    requires Run(c, states, events) && c.maxConcurrent > 0 && c.maxStudio > 0
    requires Continues(c, states[|events|], more, done)
    ensures |done| <= Remaining(states[|events|])
    ensures (forall e :: Onward(e) ==> !Enabled(more[|done|], e)) <==> Idle(more[|done|])
    ensures Idle(more[|done|]) ==>
              var a := more[|done|];
              a.lim.sem.value == c.maxConcurrent && a.studio.value == c.maxStudio && a.lim.queued == 0
                && a.lim.inFlight == 0 && a.live == {}
  {
    var n, a := |done|, more[|done|];
    RunOk(c, states, events, |events|);
    OnwardBounded(c, states[|events|], more, done, n);
    if Idle(a) {
      IdleIsWhole(c, a);
      NothingOnward(c, a);
    } else {
      var t :| Active(a, t);
      var e := SomeoneMoves(c, a, t);
    }
  }

  lemma NothingOnward(c: Config, a: Adm)
    requires AdmOk(c, a) && Idle(a)
    ensures forall e :: Onward(e) ==> !Enabled(a, e)
  {
    forall e | Onward(e) ensures !Enabled(a, e) {
      var t := e.task;
      assert SpotOk(SpotOf(c, a, t), false) && !Active(a, t);
      RolesApart(a.studio, c.maxStudio, t);
      RolesApart(a.lim.sem, c.maxConcurrent, t);
    }
  }
}
