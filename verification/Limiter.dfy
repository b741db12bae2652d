/** The bounded analysis limiter: entry, grant, timeout, cancellation and exit as atomic sections. */
module Limiter {
  import opened Semaphores

  /** The limiter's semaphore and its two published counters. */
  datatype Lim = Lim(sem: Sem, queued: int, inFlight: int)

  datatype Entry = Full | Waits | Starts

  /** Free, granted and running permits add up; counters count exactly the queued and the running tasks. */
  ghost predicate LimOk(l: Lim, maxConcurrent: nat, maxQueued: nat) {
    && SemOk(l.sem, maxConcurrent)
    && l.queued == |l.sem.waiting| + |l.sem.granted| + |l.sem.leaving|
    && l.queued <= maxQueued
    && l.inFlight == |l.sem.holding|
  }

  /** What arriving does: a full queue refuses; a free permit is taken without waiting. */
  function EntryOf(l: Lim, maxQueued: nat): Entry {
    if Locked(l.sem) && l.queued >= maxQueued then Full else if Locked(l.sem) then Waits else Starts
  }

  function Entered(l: Lim, maxQueued: nat, t: Task): Lim {
    match EntryOf(l, maxQueued)
    case Full => l
    case Waits => Lim(Acquire(l.sem, t), l.queued + 1, l.inFlight)
    case Starts => Lim(Acquire(l.sem, t), l.queued, l.inFlight + 1)
  }

  function Resumed(l: Lim, t: Task): Lim { Lim(Resume(l.sem, t), l.queued - 1, l.inFlight + 1) }

  function GaveUp(l: Lim, t: Task): Lim { l.(sem := GiveUp(l.sem, t)) }

  function Left(l: Lim, t: Task): Lim { Lim(Leave(l.sem, t), l.queued - 1, l.inFlight) }

  function Exited(l: Lim, t: Task): Lim { Lim(Release(l.sem, t), l.queued, l.inFlight - 1) }

  // ---- the limiter object ----

  class AnalysisLimiter {
    const maxConcurrent: nat
    const maxQueued: nat
    var value: nat
    var waiting: seq<Task>
    var granted: set<Task>
    var queued: int
    var inFlight: int
    ghost var leaving: set<Task>
    ghost var holding: set<Task>

    constructor (maxConcurrent: nat, maxQueued: nat)
      ensures this.maxConcurrent == maxConcurrent && this.maxQueued == maxQueued
      ensures State() == Lim(Fresh(maxConcurrent), 0, 0) && Valid()
    {
      this.maxConcurrent, this.maxQueued := maxConcurrent, maxQueued;
      value, waiting, granted, queued, inFlight, leaving, holding := maxConcurrent, [], {}, 0, 0, {}, {};
    }

    ghost function State(): Lim
      reads this
    {
      Lim(Sem(value, waiting, granted, leaving, holding), queued, inFlight)
    }

    ghost predicate Valid()
      reads this
    {
      LimOk(State(), maxConcurrent, maxQueued)
    }

    predicate IsLocked()
      reads this
      ensures IsLocked() <==> Locked(State().sem)
    {
      value == 0 || waiting != [] || granted != {}
    }

    /** The waiters a finishing acquire wakes: as many as free permits allow. */
    method WakeWaiters()
      modifies this`value, this`waiting, this`granted
      ensures State() == old(State()).(sem := WakeAll(old(State()).sem))
    {
      while value > 0 && waiting != []
        invariant State() == old(State()).(sem := State().sem)
        invariant WakeAll(State().sem) == WakeAll(old(State()).sem)
        decreases |waiting|
      {
        value, granted, waiting := value - 1, granted + {waiting[0]}, waiting[1..];
      }
    }

    /** Entering a slot, up to the first wait. */
    method Enter(t: Task) returns (entry: Entry)
      requires Valid() && t !in Members(State().sem)
      modifies this
      ensures entry == EntryOf(old(State()), maxQueued) && State() == Entered(old(State()), maxQueued, t) && Valid()
      ensures var taken := old(value == 0 || waiting != [] || granted != {});
              var full := old(|waiting| + |granted| + |leaving|) >= maxQueued;
              && (entry == Full <==> taken && full) && (entry == Starts <==> !taken)
      ensures entry == Full ==> State() == old(State())
      ensures entry == Waits ==> waiting == old(waiting) + [t] && holding == old(holding)
      ensures entry == Starts ==> holding == old(holding) + {t} && waiting == old(waiting)
    {
      EnterOk(State(), maxConcurrent, maxQueued, t);
      entry := EntryOrRefusal();
      if entry == Waits {
        JoinQueue(t);
        queued := queued + 1;
      } else if entry == Starts {
        queued := queued + 1;
        TakePermit(t);
        queued, inFlight := queued - 1, inFlight + 1;
      }
    }

    method EntryOrRefusal() returns (entry: Entry)
      ensures entry == EntryOf(State(), maxQueued)
    {
      if IsLocked() && queued >= maxQueued {
        return Full;
      }
      entry := if IsLocked() then Waits else Starts;
    }

    method JoinQueue(t: Task)
      requires IsLocked()
      modifies this`waiting
      ensures State() == old(State()).(sem := Acquire(old(State()).sem, t))
    {
      waiting := waiting + [t];
    }

    method TakePermit(t: Task)
      requires !IsLocked()
      modifies this`value, this`holding
      ensures State() == old(State()).(sem := Acquire(old(State()).sem, t))
    {
      value, holding := value - 1, holding + {t};
    }

    /** A granted waiter runs again and starts its analysis. */
    method ResumeGranted(t: Task)
      requires Valid() && t in granted
      modifies this
      ensures State() == Resumed(old(State()), t) && Valid()
    {
      ResumedOk(State(), maxConcurrent, maxQueued, t);
      KeepPermit(t);
      queued, inFlight := queued - 1, inFlight + 1;
    }

    method KeepPermit(t: Task)
      modifies this`value, this`waiting, this`granted, this`holding
      ensures State() == old(State()).(sem := Resume(old(State()).sem, t))
    {
      granted, holding := granted - {t}, holding + {t};
      WakeWaiters();
    }

    /** A timeout or cancellation reaches a waiter's future. */
    method CancelWaiter(t: Task)
      requires Valid() && t in waiting
      modifies this`waiting, this`leaving
      ensures State() == GaveUp(old(State()), t) && Valid()
    {
      GaveUpOk(State(), maxConcurrent, maxQueued, t);
      waiting, leaving := Without(waiting, t), leaving + {t};
    }

    /** A waiter that gave up runs again: a permit granted meanwhile goes back. */
    method LeaveQueue(t: Task)
      requires Valid() && (t in granted || t in leaving)
      modifies this
      ensures State() == Left(old(State()), t) && Valid()
    {
      LeftOk(State(), maxConcurrent, maxQueued, t);
      StopWaiting(t);
      queued := queued - 1;
    }

    method StopWaiting(t: Task)
      modifies this`value, this`waiting, this`granted, this`leaving
      ensures State() == old(State()).(sem := Leave(old(State()).sem, t))
    {
      value, granted, leaving := value + (if t in granted then 1 else 0), granted - {t}, leaving - {t};
      WakeWaiters();
    }

    /** The analysis ended, normally or not. */
    method Exit(t: Task)
      requires Valid() && t in holding
      modifies this
      ensures State() == Exited(old(State()), t) && Valid()
    {
      ExitedOk(State(), maxConcurrent, maxQueued, t);
      inFlight := inFlight - 1;
      ReleasePermit(t);
    }

    method ReleasePermit(t: Task)
      modifies this`value, this`waiting, this`granted, this`holding
      ensures State() == old(State()).(sem := Release(old(State()).sem, t))
    {
      value, holding := value + 1, holding - {t};
      WakeOne();
    }

    /** A release wakes the first live waiter. */
    method WakeOne()
      requires value > 0
      modifies this`value, this`waiting, this`granted
      ensures State() == old(State()).(sem := Wake(old(State()).sem))
    {
      if waiting != [] {
        value, granted, waiting := value - 1, granted + {waiting[0]}, waiting[1..];
      }
    }
  }

  // ---- every atomic section keeps the invariant ----

  lemma EnterOk(l: Lim, maxConcurrent: nat, maxQueued: nat, t: Task)
    requires LimOk(l, maxConcurrent, maxQueued) && t !in Members(l.sem)
    ensures LimOk(Entered(l, maxQueued, t), maxConcurrent, maxQueued)
    ensures EntryOf(l, maxQueued) != Full ==> Members(Entered(l, maxQueued, t).sem) == Members(l.sem) + {t}
    ensures Entered(l, maxQueued, t).sem.holding == if EntryOf(l, maxQueued) == Starts then l.sem.holding + {t}
            else l.sem.holding
  {
    AcquireOk(l.sem, maxConcurrent, t);
    assert t !in l.sem.holding ==> |l.sem.holding + {t}| == |l.sem.holding| + 1;
  }

  lemma ResumedOk(l: Lim, maxConcurrent: nat, maxQueued: nat, t: Task)
    requires LimOk(l, maxConcurrent, maxQueued) && t in l.sem.granted
    ensures LimOk(Resumed(l, t), maxConcurrent, maxQueued) && Members(Resumed(l, t).sem) == Members(l.sem)
    ensures Resumed(l, t).sem.holding == l.sem.holding + {t}
  {
    ResumeOk(l.sem, maxConcurrent, t);
    assert RoleOk(l.sem, t);
    assert |l.sem.holding + {t}| == |l.sem.holding| + 1;
  }

  lemma GaveUpOk(l: Lim, maxConcurrent: nat, maxQueued: nat, t: Task)
    requires LimOk(l, maxConcurrent, maxQueued) && t in l.sem.waiting
    ensures LimOk(GaveUp(l, t), maxConcurrent, maxQueued) && Members(GaveUp(l, t).sem) == Members(l.sem)
  {
    GiveUpOk(l.sem, maxConcurrent, t);
  }

  lemma LeftOk(l: Lim, maxConcurrent: nat, maxQueued: nat, t: Task)
    requires LimOk(l, maxConcurrent, maxQueued) && (t in l.sem.granted || t in l.sem.leaving)
    ensures LimOk(Left(l, t), maxConcurrent, maxQueued) && Members(Left(l, t).sem) == Members(l.sem) - {t}
    ensures Left(l, t).sem.holding == l.sem.holding
  {
    LeaveOk(l.sem, maxConcurrent, t);
  }

  lemma ExitedOk(l: Lim, maxConcurrent: nat, maxQueued: nat, t: Task)
    requires LimOk(l, maxConcurrent, maxQueued) && t in l.sem.holding
    ensures LimOk(Exited(l, t), maxConcurrent, maxQueued) && Members(Exited(l, t).sem) == Members(l.sem) - {t}
    ensures Exited(l, t).sem.holding == l.sem.holding - {t}
  {
    ReleaseOk(l.sem, maxConcurrent, t);
    assert |l.sem.holding - {t}| == |l.sem.holding| - 1;
  }

  // ---- all interleavings ----

  datatype Event =
    | Enter(task: Task)
    | Granted(task: Task)
    | Cancelled(task: Task)
    | Leaves(task: Task)
    | Exits(task: Task)

  predicate Enabled(l: Lim, e: Event) {
    match e
    case Enter(t) => t !in Members(l.sem)
    case Granted(t) => t in l.sem.granted
    case Cancelled(t) => t in l.sem.waiting
    case Leaves(t) => t in l.sem.granted || t in l.sem.leaving
    case Exits(t) => t in l.sem.holding
  }

  function Next(l: Lim, maxQueued: nat, e: Event): Lim {
    match e
    case Enter(t) => Entered(l, maxQueued, t)
    case Granted(t) => Resumed(l, t)
    case Cancelled(t) => GaveUp(l, t)
    case Leaves(t) => Left(l, t)
    case Exits(t) => Exited(l, t)
  }

  ghost predicate Run(states: seq<Lim>, maxConcurrent: nat, maxQueued: nat, events: seq<Event>) {
    && |states| == |events| + 1 && states[0] == Lim(Fresh(maxConcurrent), 0, 0)
    && forall i :: 0 <= i < |events| ==> Stepped(states, maxQueued, events, i)
  }

  ghost predicate Stepped(states: seq<Lim>, maxQueued: nat, events: seq<Event>, i: nat) {
    && i < |events| && i + 1 < |states|
    && Enabled(states[i], events[i]) && states[i + 1] == Next(states[i], maxQueued, events[i])
  }

  /**
   * Whatever the interleaving of entry, grant, timeout, cancellation and exit: permits are conserved,
   * no more than the maximum run, and no more than the maximum are queued.
   */
  lemma {:induction false} LimiterInvariant(
    states: seq<Lim>, maxConcurrent: nat, maxQueued: nat, events: seq<Event>, i: nat)
    requires Run(states, maxConcurrent, maxQueued, events) && i < |states|
    ensures LimOk(states[i], maxConcurrent, maxQueued)
    ensures states[i].sem.value + |states[i].sem.granted| + states[i].inFlight == maxConcurrent
    ensures 0 <= states[i].inFlight <= maxConcurrent && 0 <= states[i].queued <= maxQueued
  {
    if i > 0 {
      var l, t := states[i - 1], events[i - 1].task;
      LimiterInvariant(states, maxConcurrent, maxQueued, events, i - 1);
      assert Stepped(states, maxQueued, events, i - 1);
      match events[i - 1]
      case Enter(_) => EnterOk(l, maxConcurrent, maxQueued, t);
      case Granted(_) => ResumedOk(l, maxConcurrent, maxQueued, t);
      case Cancelled(_) => GaveUpOk(l, maxConcurrent, maxQueued, t);
      case Leaves(_) => LeftOk(l, maxConcurrent, maxQueued, t);
      case Exits(_) => ExitedOk(l, maxConcurrent, maxQueued, t);
    }
  }

  // ---- who is refused, who starts, and in what order waiters are served ----

  /** No permit can be taken at once: none is free, or somebody is ahead. */
  predicate NothingToTake(s: Sem) { s.value == 0 || s.waiting != [] || s.granted != {} }

  /** As many tasks wait, or are about to leave the queue, as may. */
  predicate QueueFull(s: Sem, maxQueued: nat) { |s.waiting| + |s.granted| + |s.leaving| >= maxQueued }

  /**
   * In every reachable state an arriving task is refused exactly when no permit can be taken and the
   * queue is full, starts at once exactly when a permit can be taken, and otherwise stands last in the queue.
   */
  lemma ArrivalExactly(
    states: seq<Lim>, maxConcurrent: nat, maxQueued: nat, events: seq<Event>, i: nat, t: Task)
    requires Run(states, maxConcurrent, maxQueued, events) && i < |events| && events[i] == Enter(t)
    ensures var s, n := states[i].sem, states[i + 1].sem;
            && (states[i + 1] == states[i] <==> NothingToTake(s) && QueueFull(s, maxQueued))
            && (t in n.holding <==> !NothingToTake(s))
            && (NothingToTake(s) && !QueueFull(s, maxQueued) ==> n == s.(waiting := s.waiting + [t]))
            && (!NothingToTake(s) ==> n == s.(value := s.value - 1, holding := s.holding + {t}))
  {
    LimiterInvariant(states, maxConcurrent, maxQueued, events, i);
    assert Stepped(states, maxQueued, events, i);
    InQueue(states[i].sem.waiting, t);
    assert t !in states[i].sem.holding;
  }

  /** Task t waits ahead of task u. */
  ghost predicate Ahead(s: Sem, t: Task, u: Task) {
    exists j, k :: 0 <= j < k < |s.waiting| && s.waiting[j] == t && s.waiting[k] == u
  }

  lemma AheadLater(xs: seq<Task>, s: Sem, t: Task, u: Task)
    requires Ahead(s, t, u) && s.waiting <= xs
    ensures Ahead(s.(waiting := xs), t, u)
  {
    var j, k :| 0 <= j < k < |s.waiting| && s.waiting[j] == t && s.waiting[k] == u;
    assert xs[j] == t && xs[k] == u;
  }

  /** Waking the first waiter leaves the others in their order. */
  lemma {:induction false} WakeAllAhead(s: Sem, t: Task, u: Task)
    requires Ahead(s, t, u) && Unique(s.waiting)
    ensures Ahead(WakeAll(s), t, u) || t !in WakeAll(s).waiting
    decreases |s.waiting|
  {
    if s.value > 0 && s.waiting != [] {
      WakeAhead(s, t, u);
      QueuedHead(s.waiting);
      if Ahead(Wake(s), t, u) {
        WakeAllAhead(Wake(s), t, u);
      } else {
        WakeAllFewer(Wake(s), t);
      }
    }
  }

  lemma WakeAhead(s: Sem, t: Task, u: Task)
    requires Ahead(s, t, u) && Unique(s.waiting)
    ensures Ahead(Wake(s), t, u) || t !in Wake(s).waiting
  {
    var j, k :| 0 <= j < k < |s.waiting| && s.waiting[j] == t && s.waiting[k] == u;
    if s.value > 0 && j > 0 {
      assert Wake(s).waiting[j - 1] == t && Wake(s).waiting[k - 1] == u;
    }
  }

  lemma {:induction false} WakeAllFewer(s: Sem, t: Task)
    requires t !in s.waiting
    ensures t !in WakeAll(s).waiting
    decreases |s.waiting|
  {
    if s.value > 0 && s.waiting != [] {
      WakeAllFewer(Wake(s), t);
    }
  }

  lemma {:induction false} WithoutAhead(xs: seq<Task>, x: Task, j: nat, k: nat) returns (j': nat, k': nat)
    requires Unique(xs) && j < k < |xs| && xs[j] != x && xs[k] != x
    ensures j' < k' < |Without(xs, x)| && Without(xs, x)[j'] == xs[j] && Without(xs, x)[k'] == xs[k]
  {
    if xs[0] == x {
      j', k' := j - 1, k - 1;
    } else if j > 0 {
      j', k' := WithoutAhead(xs[1..], x, j - 1, k - 1);
      j', k' := j' + 1, k' + 1;
    } else {
      j' := 0;
      k' := WithoutOther(xs[1..], x, k - 1);
      k' := k' + 1;
    }
  }

  lemma {:induction false} WithoutOther(xs: seq<Task>, x: Task, k: nat) returns (k': nat)
    requires k < |xs| && xs[k] != x
    ensures k' < |Without(xs, x)| && Without(xs, x)[k'] == xs[k]
  {
    if xs[0] == x {
      k' := k - 1;
    } else if k == 0 {
      k' := 0;
    } else {
      k' := WithoutOther(xs[1..], x, k - 1);
      k' := k' + 1;
    }
  }

  lemma CancelAhead(s: Sem, x: Task, t: Task, u: Task)
    requires Ahead(s, t, u) && Unique(s.waiting) && x in s.waiting && x != u
    ensures Ahead(GiveUp(s, x), t, u) || t !in GiveUp(s, x).waiting
  {
    if x == t {
      WithoutFacts(s.waiting, t);
      InQueue(Without(s.waiting, t), t);
    } else {
      var j, k :| 0 <= j < k < |s.waiting| && s.waiting[j] == t && s.waiting[k] == u;
      var j', k' := WithoutAhead(s.waiting, x, j, k);
    }
  }

  /** No step but its own cancellation takes a waiter out of the queue past the one ahead of it. */
  lemma StepAhead(l: Lim, maxConcurrent: nat, maxQueued: nat, e: Event, t: Task, u: Task)
    requires LimOk(l, maxConcurrent, maxQueued) && Enabled(l, e) && Ahead(l.sem, t, u) && e != Cancelled(u)
    ensures Ahead(Next(l, maxQueued, e).sem, t, u) || t !in Next(l, maxQueued, e).sem.waiting
  {
    var s := l.sem;
    match e
    case Enter(x) => AheadLater(s.waiting + [x], s, t, u);
    case Granted(x) => WakeAllAhead(s.(granted := s.granted - {x}, holding := s.holding + {x}), t, u);
    case Cancelled(x) => CancelAhead(s, x, t, u);
    case Leaves(x) =>
      WakeAllAhead(
        s.(value := s.value + (if x in s.granted then 1 else 0), granted := s.granted - {x},
           leaving := s.leaving - {x}), t, u);
    case Exits(x) => WakeAhead(s.(value := s.value + 1, holding := s.holding - {x}), t, u);
  }

  lemma AheadNext(
    states: seq<Lim>, maxConcurrent: nat, maxQueued: nat, events: seq<Event>, j: nat, t: Task, u: Task)
    requires Run(states, maxConcurrent, maxQueued, events) && j < |events| && Ahead(states[j].sem, t, u)
    requires WaitsOn(states, events, j, t, u)
    ensures Ahead(states[j + 1].sem, t, u)
  {
    LimiterInvariant(states, maxConcurrent, maxQueued, events, j);
    assert Stepped(states, maxQueued, events, j);
    StepAhead(states[j], maxConcurrent, maxQueued, events[j], t, u);
  }

  ghost predicate WaitsOn(states: seq<Lim>, events: seq<Event>, k: nat, t: Task, u: Task) {
    k < |events| && k + 1 < |states| && t in states[k + 1].sem.waiting && events[k] != Cancelled(u)
  }

  /** Task t stays in the queue from state i to state j, and task u is not cancelled meanwhile. */
  ghost predicate StillWaits(states: seq<Lim>, events: seq<Event>, i: nat, j: nat, t: Task, u: Task) {
    i <= j < |states| && forall k :: i <= k < j ==> WaitsOn(states, events, k, t, u)
  }

  lemma {:induction false} StaysBehind(
    states: seq<Lim>, maxConcurrent: nat, maxQueued: nat, events: seq<Event>, i: nat, j: nat, t: Task, u: Task)
    requires Run(states, maxConcurrent, maxQueued, events) && StillWaits(states, events, i, j, t, u)
    requires Ahead(states[i].sem, t, u)
    ensures Ahead(states[j].sem, t, u)
    decreases j
  {
    if i < j {
      StaysBehind(states, maxConcurrent, maxQueued, events, i, j - 1, t, u);
      AheadNext(states, maxConcurrent, maxQueued, events, j - 1, t, u);
    }
  }

  /**
   * First come, first served: a waiter that is not cancelled stays behind the one ahead of it until that
   * one has left the queue, so it is never granted a permit before.
   */
  lemma FirstComeFirstServed(
    states: seq<Lim>, maxConcurrent: nat, maxQueued: nat, events: seq<Event>, i: nat, j: nat, t: Task, u: Task)
    requires Run(states, maxConcurrent, maxQueued, events) && StillWaits(states, events, i, j, t, u)
    requires Ahead(states[i].sem, t, u)
    ensures Ahead(states[j].sem, t, u) && u !in states[j].sem.granted && u !in states[j].sem.holding
  {
    StaysBehind(states, maxConcurrent, maxQueued, events, i, j, t, u);
    LimiterInvariant(states, maxConcurrent, maxQueued, events, j);
    assert RoleOk(states[j].sem, u);
  }

  lemma SomeoneQueued(xs: seq<Task>)
    ensures xs != [] ==> xs[0] in Queued(xs)
  {
  }

  /** When every task has finished, both counters are zero and every permit is free. */
  lemma CountersReturnToZero(states: seq<Lim>, maxConcurrent: nat, maxQueued: nat, events: seq<Event>, i: nat)
    requires Run(states, maxConcurrent, maxQueued, events) && i < |states| && Members(states[i].sem) == {}
    ensures states[i].queued == 0 && states[i].inFlight == 0 && states[i].sem.value == maxConcurrent
  {
    var s := states[i].sem;
    LimiterInvariant(states, maxConcurrent, maxQueued, events, i);
    assert s.granted <= Members(s) && s.leaving <= Members(s) && s.holding <= Members(s);
    SomeoneQueued(s.waiting);
  }

  /** No wakeup is lost: a task that waits while nobody holds or is granted a permit does not exist. */
  lemma NobodyWaitsForNothing(states: seq<Lim>, maxConcurrent: nat, maxQueued: nat, events: seq<Event>, i: nat)
    requires Run(states, maxConcurrent, maxQueued, events) && i < |states| && maxConcurrent > 0
    requires states[i].sem.granted == {} && states[i].sem.holding == {}
    ensures states[i].sem.waiting == []
  {
    LimiterInvariant(states, maxConcurrent, maxQueued, events, i);
  }
}
