/** A FIFO semaphore of tasks: who waits, who was granted a permit but has not resumed, who holds one. */
module Semaphores {

  type Task = nat

  /** Leaving tasks gave up waiting (timeout or cancellation) but have not run again yet. */
  datatype Sem = Sem(value: nat, waiting: seq<Task>, granted: set<Task>, leaving: set<Task>, holding: set<Task>)

  const NOBODY: set<Task> := {}

  function Fresh(permits: nat): Sem { Sem(permits, [], {}, {}, {}) }

  /** True when no permit is free or a live waiter is ahead; cancelled waiters do not count. */
  predicate Locked(s: Sem) { s.value == 0 || s.waiting != [] || s.granted != {} }

  /** Hand a free permit to the first live waiter. */
  function Wake(s: Sem): Sem {
    if s.value > 0 && s.waiting != [] then
      s.(value := s.value - 1, waiting := s.waiting[1..], granted := s.granted + {s.waiting[0]})
    else s
  }

  function WakeAll(s: Sem): Sem
    decreases |s.waiting|
  {
    if s.value > 0 && s.waiting != [] then WakeAll(Wake(s)) else s
  }

  /** Take a permit at once, or join the queue. */
  function Acquire(s: Sem, t: Task): Sem {
    if Locked(s) then s.(waiting := s.waiting + [t]) else s.(value := s.value - 1, holding := s.holding + {t})
  }

  /** A granted waiter runs again and keeps its permit. */
  function Resume(s: Sem, t: Task): Sem {
    WakeAll(s.(granted := s.granted - {t}, holding := s.holding + {t}))
  }

  /** `deque.remove`. */
  function Without(xs: seq<Task>, t: Task): seq<Task> {
    if xs == [] then [] else if xs[0] == t then xs[1..] else [xs[0]] + Without(xs[1..], t)
  }

  /** A live waiter's future is cancelled. */
  function GiveUp(s: Sem, t: Task): Sem {
    s.(waiting := Without(s.waiting, t), leaving := s.leaving + {t})
  }

  /** A waiter that gave up runs again; one that had been granted a permit gives it back. */
  function Leave(s: Sem, t: Task): Sem {
    WakeAll(s.(value := s.value + (if t in s.granted then 1 else 0), granted := s.granted - {t}, leaving :=
      s.leaving - {t}))
  }

  function Release(s: Sem, t: Task): Sem {
    Wake(s.(value := s.value + 1, holding := s.holding - {t}))
  }

  predicate Unique(xs: seq<Task>) { forall i, j :: 0 <= i < j < |xs| ==> xs[i] != xs[j] }

  function Queued(xs: seq<Task>): set<Task> { set t | t in xs }

  function Members(s: Sem): set<Task> { Queued(s.waiting) + s.granted + s.leaving + s.holding }

  /**
   * Permits are conserved; each task has one role; whoever waits beside a free permit is behind a
   * granted task, whose next step wakes the queue.
   */
  ghost predicate SemOk(s: Sem, permits: nat) {
    && s.value + |s.granted| + |s.holding| == permits
    && (s.value > 0 && s.waiting != [] ==> s.granted != {})
    && Apart(s)
  }

  /** A task waits, was granted, is leaving or holds: never two of these. */
  predicate RoleOk(s: Sem, t: Task) {
    && !(t in s.waiting && (t in s.granted || t in s.leaving || t in s.holding))
    && !(t in s.granted && (t in s.leaving || t in s.holding))
    && !(t in s.leaving && t in s.holding)
  }

  ghost predicate Apart(s: Sem) { Unique(s.waiting) && forall t :: RoleOk(s, t) }

  /** Waking only moves waiters, in order, to granted. */
  lemma {:induction false} WakeAllOk(s: Sem, permits: nat)
    requires s.value + |s.granted| + |s.holding| == permits && Apart(s)
    ensures SemOk(WakeAll(s), permits)
    ensures WakeAll(s).leaving == s.leaving && WakeAll(s).holding == s.holding
    ensures Members(WakeAll(s)) == Members(s)
    ensures |WakeAll(s).waiting| + |WakeAll(s).granted| == |s.waiting| + |s.granted|
    decreases |s.waiting|
  {
    if s.value > 0 && s.waiting != [] {
      WakeOk(s);
      WakeAllOk(Wake(s), permits);
    }
  }

  lemma {:induction false} WithoutFacts(xs: seq<Task>, t: Task)
    requires Unique(xs) && t in xs
    ensures Queued(Without(xs, t)) == Queued(xs) - {t}
    ensures Unique(Without(xs, t)) && |Without(xs, t)| == |xs| - 1
  {
    QueuedHead(xs);
    if xs[0] != t {
      WithoutFacts(xs[1..], t);
      UniqueHead(xs[0], Without(xs[1..], t));
    }
  }

  lemma QueuedHead(xs: seq<Task>)
    requires xs != []
    ensures Queued(xs) == {xs[0]} + Queued(xs[1..])
    ensures Unique(xs) ==> Unique(xs[1..]) && xs[0] !in Queued(xs[1..])
  {
    assert xs == [xs[0]] + xs[1..];
  }

  lemma UniqueHead(x: Task, xs: seq<Task>)
    requires Unique(xs) && x !in Queued(xs)
    ensures Unique([x] + xs) && Queued([x] + xs) == {x} + Queued(xs)
  {
  }

  lemma UniqueLast(xs: seq<Task>, x: Task)
    requires Unique(xs) && x !in Queued(xs)
    ensures Unique(xs + [x]) && Queued(xs + [x]) == Queued(xs) + {x}
  {
  }

  lemma InQueue(xs: seq<Task>, t: Task)
    ensures t in Queued(xs) <==> t in xs
  {
  }

  lemma WakeOk(s: Sem)
    requires Apart(s)
    ensures Apart(Wake(s)) && Members(Wake(s)) == Members(s)
    ensures Wake(s).value + |Wake(s).granted| == s.value + |s.granted|
    ensures |Wake(s).waiting| + |Wake(s).granted| == |s.waiting| + |s.granted|
    ensures Wake(s).leaving == s.leaving && Wake(s).holding == s.holding
  {
    if s.value > 0 && s.waiting != [] {
      var t := s.waiting[0];
      QueuedHead(s.waiting);
      assert RoleOk(s, t);
      WakeRoles(s, t, s.waiting[1..]);
      assert Members(Wake(s)) == Members(s);
    }
  }

  lemma WakeRoles(s: Sem, t: Task, rest: seq<Task>)
    requires Apart(s) && Queued(s.waiting) == {t} + Queued(rest) && t in s.waiting && t !in Queued(rest) && Unique(rest)
    requires s.value > 0
    ensures Apart(Sem(s.value - 1, rest, s.granted + {t}, s.leaving, s.holding))
    ensures |s.granted + {t}| == |s.granted| + 1
  {
    var w := Sem(s.value - 1, rest, s.granted + {t}, s.leaving, s.holding);
    assert RoleOk(s, t);
    forall x ensures RoleOk(w, x) {
      assert RoleOk(s, x);
      InQueue(rest, x);
      InQueue(s.waiting, x);
    }
  }

  lemma AcquireOk(s: Sem, permits: nat, t: Task)
    requires SemOk(s, permits) && t !in Members(s)
    ensures SemOk(Acquire(s, t), permits) && Members(Acquire(s, t)) == Members(s) + {t}
    ensures Acquire(s, t).holding == if Locked(s) then s.holding else s.holding + {t}
  {
    InQueue(s.waiting, t);
    if Locked(s) {
      UniqueLast(s.waiting, t);
      JoinRoles(s, t);
      JoinMembers(s, t);
    } else {
      TakeRoles(s, t);
      TakeMembers(s, t);
    }
  }

  lemma JoinMembers(s: Sem, t: Task)
    requires Queued(s.waiting + [t]) == Queued(s.waiting) + {t}
    ensures Members(s.(waiting := s.waiting + [t])) == Members(s) + {t}
  {
  }

  lemma TakeMembers(s: Sem, t: Task)
    requires s.value > 0
    ensures Members(s.(value := s.value - 1, holding := s.holding + {t})) == Members(s) + {t}
  {
  }

  lemma JoinRoles(s: Sem, t: Task)
    requires Apart(s) && t !in s.granted && t !in s.leaving && t !in s.holding && Unique(s.waiting + [t])
    ensures Apart(s.(waiting := s.waiting + [t]))
  {
    var w := s.(waiting := s.waiting + [t]);
    forall x ensures RoleOk(w, x) {
      assert RoleOk(s, x);
      assert x in w.waiting <==> x in s.waiting || x == t;
    }
  }

  lemma TakeRoles(s: Sem, t: Task)
    requires Apart(s) && t !in s.waiting && t !in s.granted && t !in s.leaving && t !in s.holding && s.value > 0
    ensures Apart(s.(value := s.value - 1, holding := s.holding + {t}))
    ensures |s.holding + {t}| == |s.holding| + 1
  {
    var w := s.(value := s.value - 1, holding := s.holding + {t});
    forall x ensures RoleOk(w, x) {
      assert RoleOk(s, x);
    }
  }

  lemma ResumeOk(s: Sem, permits: nat, t: Task)
    requires SemOk(s, permits) && t in s.granted
    ensures SemOk(Resume(s, t), permits) && Members(Resume(s, t)) == Members(s)
    ensures Resume(s, t).holding == s.holding + {t} && Resume(s, t).leaving == s.leaving
    ensures |Resume(s, t).waiting| + |Resume(s, t).granted| == |s.waiting| + |s.granted| - 1
  {
    var moved := s.(granted := s.granted - {t}, holding := s.holding + {t});
    MoveRoles(s, t);
    assert Members(moved) == Members(s);
    WakeAllOk(moved, permits);
  }

  lemma MoveRoles(s: Sem, t: Task)
    requires Apart(s) && t in s.granted
    ensures Apart(s.(granted := s.granted - {t}, holding := s.holding + {t}))
    ensures |s.granted - {t}| == |s.granted| - 1 && |s.holding + {t}| == |s.holding| + 1
  {
    var w := s.(granted := s.granted - {t}, holding := s.holding + {t});
    assert RoleOk(s, t);
    forall x ensures RoleOk(w, x) {
      assert RoleOk(s, x);
    }
  }

  lemma GiveUpOk(s: Sem, permits: nat, t: Task)
    requires SemOk(s, permits) && t in s.waiting
    ensures SemOk(GiveUp(s, t), permits) && Members(GiveUp(s, t)) == Members(s)
    ensures |GiveUp(s, t).waiting| == |s.waiting| - 1 && |GiveUp(s, t).leaving| == |s.leaving| + 1
  {
    var rest := Without(s.waiting, t);
    WithoutFacts(s.waiting, t);
    GiveUpRoles(s, t, rest);
    InQueue(s.waiting, t);
    assert Queued(rest) + {t} == Queued(s.waiting);
    assert Members(GiveUp(s, t)) == Members(s);
  }

  lemma GiveUpRoles(s: Sem, t: Task, rest: seq<Task>)
    requires Apart(s) && t in s.waiting && Unique(rest) && Queued(rest) == Queued(s.waiting) - {t}
    ensures Apart(s.(waiting := rest, leaving := s.leaving + {t}))
    ensures |s.leaving + {t}| == |s.leaving| + 1
  {
    var w := s.(waiting := rest, leaving := s.leaving + {t});
    assert RoleOk(s, t);
    forall x ensures RoleOk(w, x) {
      assert RoleOk(s, x);
      InQueue(rest, x);
      InQueue(s.waiting, x);
    }
  }

  lemma LeaveOk(s: Sem, permits: nat, t: Task)
    requires SemOk(s, permits) && (t in s.granted || t in s.leaving)
    ensures SemOk(Leave(s, t), permits) && Members(Leave(s, t)) == Members(s) - {t}
    ensures Leave(s, t).holding == s.holding && Leave(s, t).leaving == s.leaving - {t}
    ensures |Leave(s, t).waiting| + |Leave(s, t).granted| + |Leave(s, t).leaving| == |s.waiting| + |s.granted| +
              |s.leaving| - 1
  {
    var left := s.(value := s.value + (if t in s.granted then 1 else 0), granted := s.granted - {t}, leaving :=
      s.leaving - {t});
    assert RoleOk(s, t);
    LeaveRoles(s, t, left.value);
    InQueue(s.waiting, t);
    LeaveMembers(s, t, left.value);
    WakeAllOk(left, permits);
  }

  lemma LeaveMembers(s: Sem, t: Task, value: nat)
    requires t !in Queued(s.waiting) && t !in s.holding
    ensures Members(s.(value := value, granted := s.granted - {t}, leaving := s.leaving - {t})) == Members(s) - {t}
  {
  }

  lemma LeaveRoles(s: Sem, t: Task, value: nat)
    requires Apart(s) && (t in s.granted || t in s.leaving)
    ensures Apart(s.(value := value, granted := s.granted - {t}, leaving := s.leaving - {t}))
    ensures |s.granted - {t}| == |s.granted| - (if t in s.granted then 1 else 0)
    ensures |s.leaving - {t}| == |s.leaving| - (if t in s.granted then 0 else 1)
  {
    var w := s.(value := value, granted := s.granted - {t}, leaving := s.leaving - {t});
    assert RoleOk(s, t);
    forall x ensures RoleOk(w, x) {
      assert RoleOk(s, x);
    }
    assert t !in s.granted ==> s.granted - {t} == s.granted;
    assert t in s.granted ==> s.leaving - {t} == s.leaving;
  }

  lemma ReleaseOk(s: Sem, permits: nat, t: Task)
    requires SemOk(s, permits) && t in s.holding
    ensures SemOk(Release(s, t), permits) && Members(Release(s, t)) == Members(s) - {t}
    ensures Release(s, t).holding == s.holding - {t} && Release(s, t).leaving == s.leaving
    ensures |Release(s, t).waiting| + |Release(s, t).granted| == |s.waiting| + |s.granted|
  {
    var freed := s.(value := s.value + 1, holding := s.holding - {t});
    assert RoleOk(s, t);
    FreeRoles(s, t);
    InQueue(s.waiting, t);
    assert Members(freed) == Members(s) - {t};
    WakeOk(freed);
  }

  lemma FreeRoles(s: Sem, t: Task)
    requires Apart(s) && t in s.holding
    ensures Apart(s.(value := s.value + 1, holding := s.holding - {t}))
    ensures |s.holding - {t}| == |s.holding| - 1
  {
    var w := s.(value := s.value + 1, holding := s.holding - {t});
    forall x ensures RoleOk(w, x) {
      assert RoleOk(s, x);
    }
  }
}
