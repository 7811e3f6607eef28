/**
 Environments on the move (kern/cpu/sched.c, round robin) and the semaphores that hold them up
 (kern/conc/semaphore_manager.c), as one state machine.  Queues are written head first, as the lists are:
 enqueue inserts at the head, dequeue takes the last.  The theorems: nobody is lost or in two places,
 a semaphore's counters and queue agree, waiters are released in order of arrival, and nobody starves.
 */
module Scheduling {
  import opened Basics
  import opened Blocks
  import opened Lists
  import Semaphores

  datatype Status = Ready | Runnable | BlockedStatus | New | Exited | Unknown

  /** One slot of the `semaphores` array.  The last five fields are history: the initial value, how many waits
      and signals there were, who had to block and who was released, oldest first. */
  datatype Semaphore = Semaphore(
    empty: bool, owner: int, name: string, value: int, queue: seq<nat>,
    initial: int, waits: nat, signals: nat, arrivals: seq<nat>, released: seq<nat>)

  datatype State = State(
    cur: Option<nat>, ready: seq<nat>, newcomers: seq<nat>, exited: seq<nat>,
    sems: seq<Semaphore>, status: map<nat, Status>, started: bool)

  // ---------------------------------------------------------------- the scheduler

  function Enqueue(q: seq<nat>, e: nat): seq<nat> { [e] + q }

  function Dequeue(q: seq<nat>): seq<nat> { if q == [] then [] else q[..|q| - 1] }

  function Oldest(q: seq<nat>): Option<nat> { if q == [] then None else Some(q[|q| - 1]) }

  /** fos_scheduler, with env_run taken as the switch to the environment picked, which is RUNNABLE from then on */
  function FosScheduler(s: State): State {
    var q := match s.cur { case None => s.ready case Some(e) => Enqueue(s.ready, e) };
    var next := Oldest(q);
    s.(cur := next, ready := Dequeue(q), started := q != [],
       status := if next.Some? then s.status[next.value := Runnable] else s.status)
  }

  function InsertReady(s: State, e: nat): State {
    s.(ready := Enqueue(s.ready, e), status := s.status[e := Ready])
  }

  /** sched_new_env */
  function NewEnv(s: State, e: nat): State {
    s.(newcomers := Enqueue(s.newcomers, e), status := s.status[e := New])
  }

  function Without(q: seq<nat>, i: nat): seq<nat>
    requires i < |q|
  {
    q[..i] + q[i + 1..]
  }

  function IndexOf(q: seq<nat>, e: nat, i: nat): (k: nat)
    requires i <= |q|
    ensures i <= k <= |q| && (k < |q| ==> q[k] == e) && forall j :: i <= j < k ==> q[j] != e
    decreases |q| - i
  {
    if i == |q| || q[i] == e then i else IndexOf(q, e, i + 1)
  }

  function WakeScheduler(s: State): State {
    if s.started then s else FosScheduler(s)
  }

  /** sched_run_env */
  function RunEnv(s: State, e: nat): State {
    var i := IndexOf(s.newcomers, e, 0);
    if i == |s.newcomers| then s
    else WakeScheduler(InsertReady(s.(newcomers := Without(s.newcomers, i)), e))
  }

  /** The loop of sched_run_all: each NEW environment, from the head, goes to the head of the ready queue. */
  function ReadyAll(s: State): State
    decreases |s.newcomers|
  {
    if s.newcomers == [] then s else ReadyAll(InsertReady(s.(newcomers := s.newcomers[1..]), s.newcomers[0]))
  }

  /** sched_run_all */
  function RunAll(s: State): State { WakeScheduler(ReadyAll(s)) }

  function InsertExit(s: State, e: nat): State {
    s.(exited := Enqueue(s.exited, e), status := s.status[e := Exited])
  }

  /** sched_exit_env; a NEW environment is taken off its queue and then forgotten, as the loop that finds it runs on */
  function ExitEnv(s: State, e: nat): State
    requires s.cur.Some?
  {
    var n, r := IndexOf(s.newcomers, e, 0), IndexOf(s.ready, e, 0);
    if n < |s.newcomers| then
      var s1 := s.(newcomers := Without(s.newcomers, n), status := s.status[e := Unknown]);
      if s.cur.value == e then FosScheduler(s1.(cur := None)) else s1
    else if r < |s.ready| then
      var s1 := InsertExit(s.(ready := Without(s.ready, r)), e);
      if s.cur.value == e then FosScheduler(s1.(cur := None)) else s1
    else if s.cur.value == e then FosScheduler(InsertExit(s, e).(cur := None))
    else s
  }

  // ---------------------------------------------------------------- semaphores

  predicate Named(m: Semaphore, owner: int, name: string) {
    !m.empty && m.owner == owner && m.name == name
  }

  /** get_semaphore_object_ID from slot `i` on; the number of slots if there is no such semaphore */
  function FindSem(sems: seq<Semaphore>, owner: int, name: string, i: nat): (k: nat)
    requires i <= |sems|
    ensures i <= k <= |sems| && (k < |sems| ==> Named(sems[k], owner, name))
    ensures forall j :: i <= j < k ==> !Named(sems[j], owner, name)
    decreases |sems| - i
  {
    if i == |sems| || Named(sems[i], owner, name) then i else FindSem(sems, owner, name, i + 1)
  }

  /** The slot allocate_semaphore_object takes. */
  function EmptySlot(sems: seq<Semaphore>, i: nat): (k: nat)
    requires i <= |sems|
    ensures i <= k <= |sems| && (k < |sems| ==> sems[k].empty) && forall j :: i <= j < k ==> !sems[j].empty
    decreases |sems| - i
  {
    if i == |sems| || sems[i].empty then i else EmptySlot(sems, i + 1)
  }

  function NewSemaphore(owner: int, name: string, value: int): Semaphore {
    Semaphore(false, owner, name, value, [], value, 0, 0, [], [])
  }

  /** createSemaphore while a slot is empty; its test for a duplicate compares an index with an error code, and never
      fires */
  function CreateSemaphore(s: State, owner: int, name: string, value: int): (State, nat)
    requires EmptySlot(s.sems, 0) < |s.sems|
  {
    var i := EmptySlot(s.sems, 0);
    (s.(sems := s.sems[i := NewSemaphore(owner, name, value)]), i)
  }

  /** waitSemaphore on semaphore `i` by the running environment */
  function Wait(s: State, i: nat): State
    requires i < |s.sems| && s.cur.Some?
  {
    var m, e := s.sems[i], s.cur.value;
    if m.value - 1 < 0 then
      var m' := m.(value := m.value - 1, queue := Enqueue(m.queue, e),
                   waits := m.waits + 1, arrivals := m.arrivals + [e]);
      FosScheduler(s.(sems := s.sems[i := m'], status := s.status[e := BlockedStatus], cur := None))
    else FosScheduler(s.(sems := s.sems[i := m.(value := m.value - 1, waits := m.waits + 1)]))
  }

  /** signalSemaphore on semaphore `i` */
  function Signal(s: State, i: nat): State
    requires i < |s.sems|
  {
    var m := s.sems[i];
    if m.value + 1 <= 0 then
      match Oldest(m.queue)
      case None => s.(sems := s.sems[i := m.(value := m.value + 1, signals := m.signals + 1)])
      case Some(e) =>
        var m' := m.(value := m.value + 1, queue := Dequeue(m.queue),
                     signals := m.signals + 1, released := m.released + [e]);
        InsertReady(s.(sems := s.sems[i := m']), e)
    else s.(sems := s.sems[i := m.(value := m.value + 1, signals := m.signals + 1)])
  }

  // ---------------------------------------------------------------- steps

  datatype Op =
    | Tick                                              // clock_interrupt_handler
    | OpNew(e: nat) | OpRun(e: nat) | OpRunAll | OpExit(e: nat)
    | OpCreate(owner: int, name: string, value: int)
    | OpWait(owner: int, name: string) | OpSignal(owner: int, name: string)

  /** What each call demands of its caller. */
  predicate Allowed(s: State, op: Op) {
    match op
    case OpNew(e) => Places(s, e) == 0
    case OpExit(_) => s.cur.Some?
    case OpCreate(_, _, value) => EmptySlot(s.sems, 0) < |s.sems| && value >= 0
    case OpWait(owner, name) => s.cur.Some? && FindSem(s.sems, owner, name, 0) < |s.sems|
    case OpSignal(owner, name) => FindSem(s.sems, owner, name, 0) < |s.sems|
    case _ => true
  }

  function Step(s: State, op: Op): State
    requires Allowed(s, op)
  {
    match op
    case Tick => FosScheduler(s)
    case OpNew(e) => NewEnv(s, e)
    case OpRun(e) => RunEnv(s, e)
    case OpRunAll => RunAll(s)
    case OpExit(e) => ExitEnv(s, e)
    case OpCreate(owner, name, value) => CreateSemaphore(s, owner, name, value).0
    case OpWait(owner, name) => Wait(s, FindSem(s.sems, owner, name, 0))
    case OpSignal(owner, name) => Signal(s, FindSem(s.sems, owner, name, 0))
  }

  // ---------------------------------------------------------------- where everybody is

  function Times(q: seq<nat>, e: nat): nat { multiset(q)[e] }

  /** How often an environment occurs in the queues of the semaphores, */
  function WaitTimes(sems: seq<Semaphore>, e: nat): nat {
    if sems == [] then 0 else WaitTimes(sems[..|sems| - 1], e) + Times(sems[|sems| - 1].queue, e)
  }

  /** and among the running one and all the queues. */
  function Places(s: State, e: nat): nat {
    Bit(s.cur == Some(e)) + Times(s.ready, e) + Times(s.newcomers, e) + Times(s.exited, e) + WaitTimes(s.sems, e)
  }

  /** Counters, queue and history of one semaphore agree. */
  ghost predicate SemOk(m: Semaphore) {
    && m.initial >= 0
    && m.value == m.initial + m.signals - m.waits
    && |m.queue| == (if m.value < 0 then -m.value else 0)
    && m.arrivals == m.released + Reverse(m.queue)
  }

  /** Every environment is in one place at most, and is BLOCKED iff that place is a semaphore's queue. */
  ghost predicate Sound(s: State) {
    && (forall e: nat :: Places(s, e) <= 1)
    && SemsOk(s.sems)
    && (forall e: nat :: Places(s, e) > 0 ==> StatusOk(s, e))
  }

  /** NEW, EXIT and BLOCKED mean being in the NEW queue, in the EXIT queue, in a semaphore's queue; an environment that
      is ready is READY or, if it has run before, RUNNABLE, as the running one is. */
  ghost predicate StatusOk(s: State, e: nat) {
    && e in s.status
    && (s.status[e] == BlockedStatus <==> WaitTimes(s.sems, e) > 0)
    && (s.status[e] == New <==> e in s.newcomers)
    && (s.status[e] == Exited <==> e in s.exited)
    && (e in s.ready ==> s.status[e] == Ready || s.status[e] == Runnable)
    && (s.cur == Some(e) ==> s.status[e] == Runnable)
  }

  // ---------------------------------------------------------------- lemmas

  lemma TimesAppend(a: seq<nat>, b: seq<nat>, e: nat)
    ensures Times(a + b, e) == Times(a, e) + Times(b, e)
  {
  }

  lemma TimesOf(q: seq<nat>, e: nat)
    ensures Times(q, e) > 0 <==> e in q
    ensures Times([], e) == 0 && forall f: nat :: Times([f], e) == Bit(f == e)
  {
  }

  lemma EnqueueTimes(q: seq<nat>, f: nat, e: nat)
    ensures Times(Enqueue(q, f), e) == Times(q, e) + Bit(f == e)
  {
    TimesAppend([f], q, e);
    TimesOf(q, e);
  }

  lemma DequeueTimes(q: seq<nat>, e: nat)
    requires q != []
    ensures Times(q, e) == Times(Dequeue(q), e) + Bit(q[|q| - 1] == e)
  {
    assert q == q[..|q| - 1] + [q[|q| - 1]];
    TimesAppend(q[..|q| - 1], [q[|q| - 1]], e);
    TimesOf(q, e);
  }

  lemma WithoutTimes(q: seq<nat>, i: nat, e: nat)
    requires i < |q|
    ensures Times(q, e) == Times(Without(q, i), e) + Bit(q[i] == e)
  {
    assert q == q[..i] + [q[i]] + q[i + 1..];
    TimesAppend(q[..i] + [q[i]], q[i + 1..], e);
    TimesAppend(q[..i], [q[i]], e);
    TimesAppend(q[..i], q[i + 1..], e);
    TimesOf(q, e);
  }

  lemma SchedulerPlaces(s: State, e: nat)
    ensures Places(FosScheduler(s), e) == Places(s, e)
  {
    hide Times, WaitTimes;
    var q := match s.cur { case None => s.ready case Some(f) => Enqueue(s.ready, f) };
    if s.cur.Some? { EnqueueTimes(s.ready, s.cur.value, e); }
    if q != [] { DequeueTimes(q, e); }
  }

  lemma ReadyPlaces(s: State, f: nat, e: nat)
    ensures Places(InsertReady(s, f), e) == Places(s, e) + Bit(f == e)
  {
    hide Times, WaitTimes;
    EnqueueTimes(s.ready, f, e);
  }

  lemma {:induction false} ReadyAllPlaces(s: State, e: nat)
    ensures Places(ReadyAll(s), e) == Places(s, e)
    decreases |s.newcomers|
  {
    hide Times, WaitTimes, Without;
    if s.newcomers != [] {
      var s1 := s.(newcomers := s.newcomers[1..]);
      ReadyPlaces(s1, s.newcomers[0], e);
      ReadyAllPlaces(InsertReady(s1, s.newcomers[0]), e);
      EnqueueTimes(s.newcomers[1..], s.newcomers[0], e);
      assert s.newcomers == Enqueue(s.newcomers[1..], s.newcomers[0]);
    }
  }

  lemma {:induction false} ReadyAllKeeps(s: State)
    ensures var t := ReadyAll(s);
      t.newcomers == [] && t.sems == s.sems && t.cur == s.cur && t.exited == s.exited && t.started == s.started
    decreases |s.newcomers|
  {
    if s.newcomers != [] {
      ReadyAllKeeps(InsertReady(s.(newcomers := s.newcomers[1..]), s.newcomers[0]));
    }
  }

  lemma {:induction false} ReadyAllOrder(s: State)
    ensures ReadyAll(s).ready == Reverse(s.newcomers) + s.ready
    decreases |s.newcomers|
  {
    if s.newcomers != [] {
      ReadyAllOrder(InsertReady(s.(newcomers := s.newcomers[1..]), s.newcomers[0]));
      assert Reverse(s.newcomers) == Reverse(s.newcomers[1..]) + [s.newcomers[0]];
    }
  }

  lemma {:induction false} ReadyAllStatus(s: State, e: nat)
    ensures var t := ReadyAll(s);
      if e in s.newcomers then e in t.status && t.status[e] == Ready
      else (e in t.status <==> e in s.status) && (e in s.status ==> t.status[e] == s.status[e])
    decreases |s.newcomers|
  {
    if s.newcomers != [] {
      ReadyAllStatus(InsertReady(s.(newcomers := s.newcomers[1..]), s.newcomers[0]), e);
      assert s.newcomers == [s.newcomers[0]] + s.newcomers[1..];
    }
  }

  // ---------------------------------------------------------------- semaphore queues

  lemma {:induction false} WaitTimesUpdate(sems: seq<Semaphore>, i: nat, m: Semaphore, e: nat)
    requires i < |sems|
    ensures WaitTimes(sems[i := m], e) + Times(sems[i].queue, e) == WaitTimes(sems, e) + Times(m.queue, e)
  {
    hide Times;
    var last := |sems| - 1;
    if i == last {
      assert sems[i := m][..last] == sems[..last];
    } else {
      assert sems[i := m][..last] == sems[..last][i := m];
      WaitTimesUpdate(sems[..last], i, m, e);
    }
  }

  lemma ReverseEnqueue(q: seq<nat>, e: nat)
    ensures Reverse(Enqueue(q, e)) == Reverse(q) + [e]
    ensures q != [] ==> Reverse(q) == [q[|q| - 1]] + Reverse(Dequeue(q))
  {
  }

  /** waitSemaphore and signalSemaphore keep one semaphore's books right. */
  lemma WaitSemOk(m: Semaphore, e: nat)
    requires SemOk(m)
    ensures SemOk(if m.value - 1 < 0
                  then m.(value := m.value - 1, queue := Enqueue(m.queue, e),
                          waits := m.waits + 1, arrivals := m.arrivals + [e])
                  else m.(value := m.value - 1, waits := m.waits + 1))
  {
    ReverseEnqueue(m.queue, e);
  }

  function ReleaseOldest(m: Semaphore): Semaphore
    requires m.queue != []
  {
    m.(value := m.value + 1, queue := Dequeue(m.queue),
       signals := m.signals + 1, released := m.released + [m.queue[|m.queue| - 1]])
  }

  lemma SignalSemOk(m: Semaphore)
    requires SemOk(m)
    ensures m.value + 1 <= 0 ==> m.queue != [] && SemOk(ReleaseOldest(m))
    ensures m.value + 1 > 0 ==> SemOk(m.(value := m.value + 1, signals := m.signals + 1))
  {
    if m.value + 1 <= 0 {
      ReverseEnqueue(m.queue, 0);
      assert m.released + [m.queue[|m.queue| - 1]] + Reverse(Dequeue(m.queue)) == m.released + Reverse(m.queue);
    }
  }

  // ---------------------------------------------------------------- nobody is lost

  lemma WaitPlaces(s: State, i: nat, e: nat)
    requires i < |s.sems| && s.cur.Some?
    ensures Places(Wait(s, i), e) == Places(s, e)
  {
    hide Times, WaitTimes, FosScheduler, Enqueue;
    var m, f := s.sems[i], s.cur.value;
    if m.value - 1 < 0 {
      var m' := m.(value := m.value - 1, queue := Enqueue(m.queue, f),
                   waits := m.waits + 1, arrivals := m.arrivals + [f]);
      WaitTimesUpdate(s.sems, i, m', e);
      EnqueueTimes(m.queue, f, e);
      SchedulerPlaces(s.(sems := s.sems[i := m'], status := s.status[f := BlockedStatus], cur := None), e);
    } else {
      var m' := m.(value := m.value - 1, waits := m.waits + 1);
      WaitTimesUpdate(s.sems, i, m', e);
      SchedulerPlaces(s.(sems := s.sems[i := m']), e);
    }
  }

  lemma SignalPlaces(s: State, i: nat, e: nat)
    requires i < |s.sems|
    ensures Places(Signal(s, i), e) == Places(s, e)
  {
    hide Times, WaitTimes, InsertReady, Dequeue;
    var m := s.sems[i];
    if m.value + 1 <= 0 && m.queue != [] {
      var f := m.queue[|m.queue| - 1];
      WaitTimesUpdate(s.sems, i, ReleaseOldest(m), e);
      DequeueTimes(m.queue, e);
      ReadyPlaces(s.(sems := s.sems[i := ReleaseOldest(m)]), f, e);
    } else {
      WaitTimesUpdate(s.sems, i, m.(value := m.value + 1, signals := m.signals + 1), e);
    }
  }

  lemma RunEnvPlaces(s: State, f: nat, e: nat)
    ensures Places(RunEnv(s, f), e) == Places(s, e)
  {
    hide Times, WaitTimes, FosScheduler, InsertReady, Without, IndexOf;
    var i := IndexOf(s.newcomers, f, 0);
    if i < |s.newcomers| {
      var s1 := s.(newcomers := Without(s.newcomers, i));
      WithoutTimes(s.newcomers, i, e);
      ReadyPlaces(s1, f, e);
      SchedulerPlaces(InsertReady(s1, f), e);
    }
  }

  /** sched_exit_env loses an environment exactly if it was NEW. */
  lemma ExitPlaces(s: State, f: nat, e: nat)
    requires s.cur.Some? && Places(s, f) <= 1
    ensures Places(ExitEnv(s, f), e) == Places(s, e) - Bit(e == f && f in s.newcomers)
  {
    OnlyOnce(s, f);
    hide Times, WaitTimes, FosScheduler, Enqueue, Without, IndexOf;
    var n, r := IndexOf(s.newcomers, f, 0), IndexOf(s.ready, f, 0);
    if n < |s.newcomers| {
      WithoutTimes(s.newcomers, n, e);
    } else if r < |s.ready| {
      WithoutTimes(s.ready, r, e);
      EnqueueTimes(s.exited, f, e);
    } else if s.cur.value == f {
      EnqueueTimes(s.exited, f, e);
      SchedulerPlaces(InsertExit(s, f).(cur := None), e);
    }
  }

  /** Somebody queued is not running. */
  lemma OnlyOnce(s: State, e: nat)
    requires Places(s, e) <= 1
    ensures e in s.newcomers || e in s.ready ==> s.cur != Some(e)
  {
    hide WaitTimes;
    TimesOf(s.newcomers, e);
    TimesOf(s.ready, e);
  }

  /** No step but the exit of a NEW environment loses anybody, and only sched_new_env brings somebody in. */
  lemma StepPlaces(s: State, op: Op, e: nat)
    requires Sound(s) && Allowed(s, op)
    ensures Places(Step(s, op), e) == Places(s, e) + Bit(op == OpNew(e)) - Bit(op == OpExit(e) && e in s.newcomers)
  {
    hide Times, WaitTimes, FosScheduler, InsertReady, Without, IndexOf, RunEnv, ReadyAll, ExitEnv, Wait, Signal, SemOk,
         StatusOk, Enqueue;
    match op
    case Tick => SchedulerPlaces(s, e);
    case OpNew(f) => EnqueueTimes(s.newcomers, f, e);
    case OpRun(f) => RunEnvPlaces(s, f, e);
    case OpRunAll =>
      ReadyAllPlaces(s, e);
      SchedulerPlaces(ReadyAll(s), e);
    case OpExit(f) => ExitPlaces(s, f, e);
    case OpCreate(owner, name, value) =>
      WaitTimesUpdate(s.sems, EmptySlot(s.sems, 0), NewSemaphore(owner, name, value), e);
      TimesOf([], e);
    case OpWait(owner, name) => WaitPlaces(s, FindSem(s.sems, owner, name, 0), e);
    case OpSignal(owner, name) => SignalPlaces(s, FindSem(s.sems, owner, name, 0), e);
  }

  // ---------------------------------------------------------------- blocked iff queued at a semaphore

  /** Somebody new, ready or running is nowhere else. */
  lemma NowhereElse(s: State, e: nat)
    requires Places(s, e) <= 1 && (e in s.newcomers || e in s.ready || s.cur == Some(e))
    ensures WaitTimes(s.sems, e) == 0 && e !in s.exited
    ensures e in s.ready || s.cur == Some(e) ==> e !in s.newcomers
  {
    hide WaitTimes;
    TimesOf(s.newcomers, e);
    TimesOf(s.ready, e);
    TimesOf(s.exited, e);
  }

  lemma TakenOut(s: State, i: nat, e: nat)
    requires Places(s, e) <= 1 && i < |s.newcomers|
    ensures e in Without(s.newcomers, i) <==> e in s.newcomers && e != s.newcomers[i]
  {
    hide WaitTimes;
    WithoutTimes(s.newcomers, i, e);
    TimesOf(s.newcomers, e);
    TimesOf(Without(s.newcomers, i), e);
  }

  lemma NotReadyTwice(s: State, r: nat, e: nat)
    requires Places(s, e) <= 1 && r < |s.ready|
    ensures e in Without(s.ready, r) <==> e in s.ready && e != s.ready[r]
  {
    hide WaitTimes;
    WithoutTimes(s.ready, r, e);
    TimesOf(s.ready, e);
    TimesOf(Without(s.ready, r), e);
  }

  lemma {:induction false} QueueWaits(sems: seq<Semaphore>, i: nat, e: nat)
    requires i < |sems|
    ensures WaitTimes(sems, e) >= Times(sems[i].queue, e)
  {
    hide Times;
    if i < |sems| - 1 {
      QueueWaits(sems[..|sems| - 1], i, e);
    }
  }

  lemma SchedulerStatus(s: State, e: nat)
    requires StatusOk(s, e)
    ensures StatusOk(FosScheduler(s), e)
  {
    hide WaitTimes, Times;
  }

  /** Somebody running is not ready too. */
  lemma RunnerNotReady(s: State, e: nat)
    requires Places(s, e) <= 1 && s.cur == Some(e)
    ensures e !in s.ready
  {
    hide WaitTimes;
    TimesOf(s.ready, e);
  }

  lemma WaitStatus(s: State, i: nat, e: nat)
    requires i < |s.sems| && s.cur.Some? && Places(s, e) == 1 && StatusOk(s, e)
    ensures StatusOk(Wait(s, i), e)
  {
    hide Times, WaitTimes, FosScheduler, Enqueue;
    var m, f := s.sems[i], s.cur.value;
    if m.value - 1 < 0 {
      var m' := m.(value := m.value - 1, queue := Enqueue(m.queue, f),
                   waits := m.waits + 1, arrivals := m.arrivals + [f]);
      WaitTimesUpdate(s.sems, i, m', e);
      EnqueueTimes(m.queue, f, e);
      if e == f {
        NowhereElse(s, e);
        RunnerNotReady(s, e);
      }
      SchedulerStatus(s.(sems := s.sems[i := m'], status := s.status[f := BlockedStatus], cur := None), e);
    } else {
      var m' := m.(value := m.value - 1, waits := m.waits + 1);
      WaitTimesUpdate(s.sems, i, m', e);
      SchedulerStatus(s.(sems := s.sems[i := m']), e);
    }
  }

  lemma SignalStatus(s: State, i: nat, e: nat)
    requires i < |s.sems| && Places(s, e) == 1 && StatusOk(s, e)
    ensures StatusOk(Signal(s, i), e)
  {
    hide Times, WaitTimes, Dequeue;
    var m := s.sems[i];
    if m.value + 1 <= 0 && m.queue != [] {
      WaitTimesUpdate(s.sems, i, ReleaseOldest(m), e);
      DequeueTimes(m.queue, e);
    } else {
      WaitTimesUpdate(s.sems, i, m.(value := m.value + 1, signals := m.signals + 1), e);
    }
  }

  lemma RunEnvStatus(s: State, f: nat, e: nat)
    requires Places(s, e) == 1 && StatusOk(s, e)
    ensures StatusOk(RunEnv(s, f), e)
  {
    hide Times, WaitTimes, Places, FosScheduler, Without, IndexOf;
    var i := IndexOf(s.newcomers, f, 0);
    if i < |s.newcomers| {
      if e == f { NowhereElse(s, e); }
      TakenOut(s, i, e);
      SchedulerStatus(InsertReady(s.(newcomers := Without(s.newcomers, i)), f), e);
    }
  }

  lemma ReverseHas(q: seq<nat>, e: nat)
    ensures e in Reverse(q) <==> e in q
  {
    if e in q {
      var k :| 0 <= k < |q| && q[k] == e;
      assert Reverse(q)[|q| - 1 - k] == e;
    }
  }

  lemma RunAllStatus(s: State, e: nat)
    requires Places(s, e) == 1 && StatusOk(s, e)
    ensures StatusOk(RunAll(s), e)
  {
    hide Times, WaitTimes, Places, FosScheduler, ReadyAll;
    ReadyAllStatus(s, e);
    ReadyAllKeeps(s);
    ReadyAllOrder(s);
    ReverseHas(s.newcomers, e);
    if e in s.newcomers { NowhereElse(s, e); }
    SchedulerStatus(ReadyAll(s), e);
  }

  lemma ExitStatus(s: State, f: nat, e: nat)
    requires s.cur.Some? && Places(s, f) <= 1 && Places(s, e) == 1 && StatusOk(s, e) && !(e == f && f in s.newcomers)
    ensures StatusOk(ExitEnv(s, f), e)
  {
    OnlyOnce(s, f);
    hide Times, WaitTimes, Places, FosScheduler, Without, IndexOf, StatusOk, InsertExit;
    var n, r := IndexOf(s.newcomers, f, 0), IndexOf(s.ready, f, 0);
    if n < |s.newcomers| {
      NewGone(s, n, e);
    } else if r < |s.ready| {
      ReadyGone(s, r, e);
    } else if s.cur.value == f {
      RunnerGone(s, f, e);
      SchedulerStatus(InsertExit(s, f).(cur := None), e);
    }
  }

  lemma NewGone(s: State, n: nat, e: nat)
    requires n < |s.newcomers| && Places(s, e) == 1 && StatusOk(s, e) && e != s.newcomers[n]
    ensures StatusOk(s.(newcomers := Without(s.newcomers, n), status := s.status[s.newcomers[n] := Unknown]), e)
  {
    hide Times, WaitTimes, Places, Without;
    TakenOut(s, n, e);
  }

  lemma ReadyGone(s: State, r: nat, e: nat)
    requires r < |s.ready| && Places(s, e) == 1 && StatusOk(s, e) && (s.cur == Some(e) ==> e != s.ready[r])
    ensures StatusOk(InsertExit(s.(ready := Without(s.ready, r)), s.ready[r]), e)
  {
    hide Times, WaitTimes, Places, Without;
    NotReadyTwice(s, r, e);
    if e == s.ready[r] { NowhereElse(s, e); }
  }

  lemma RunnerGone(s: State, f: nat, e: nat)
    requires s.cur == Some(f) && f !in s.ready && Places(s, e) == 1 && StatusOk(s, e)
    ensures StatusOk(InsertExit(s, f).(cur := None), e)
  {
    hide Times, WaitTimes, Places;
    if e == f { NowhereElse(s, e); }
  }

  lemma StepStatus(s: State, op: Op, e: nat)
    requires Sound(s) && Allowed(s, op) && Places(Step(s, op), e) > 0
    ensures StatusOk(Step(s, op), e)
  {
    StepPlaces(s, op, e);
    hide Times, WaitTimes, Places, FosScheduler, InsertReady, RunEnv, RunAll, ExitEnv, Wait, Signal, SemOk;
    match op
    case Tick => SchedulerStatus(s, e);
    case OpNew(f) => if e == f { NobodyYet(s, e); }
    case OpRun(f) => RunEnvStatus(s, f, e);
    case OpRunAll => RunAllStatus(s, e);
    case OpExit(f) => ExitStatus(s, f, e);
    case OpCreate(owner, name, value) =>
      WaitTimesUpdate(s.sems, EmptySlot(s.sems, 0), NewSemaphore(owner, name, value), e);
      TimesOf([], e);
    case OpWait(owner, name) => WaitStatus(s, FindSem(s.sems, owner, name, 0), e);
    case OpSignal(owner, name) => SignalStatus(s, FindSem(s.sems, owner, name, 0), e);
  }

  lemma NobodyYet(s: State, e: nat)
    requires Places(s, e) == 0
    ensures WaitTimes(s.sems, e) == 0
  {
  }

  ghost predicate SemsOk(sems: seq<Semaphore>) {
    forall i :: 0 <= i < |sems| ==> if sems[i].empty then sems[i].queue == [] else SemOk(sems[i])
  }

  lemma StepSems(s: State, op: Op)
    requires SemsOk(s.sems) && Allowed(s, op)
    ensures SemsOk(Step(s, op).sems)
  {
    hide SemOk, Places, Wait, Signal, Without, IndexOf, Dequeue;
    match op
    case Tick =>
    case OpNew(f) =>
    case OpRun(f) =>
    case OpRunAll => ReadyAllKeeps(s);
    case OpExit(f) =>
    case OpCreate(owner, name, value) => NewSemOk(owner, name, value);
    case OpWait(owner, name) => WaitSems(s, FindSem(s.sems, owner, name, 0));
    case OpSignal(owner, name) => SignalSems(s, FindSem(s.sems, owner, name, 0));
  }

  lemma WaitSems(s: State, i: nat)
    requires SemsOk(s.sems) && i < |s.sems| && !s.sems[i].empty && s.cur.Some?
    ensures SemsOk(Wait(s, i).sems)
  {
    hide SemOk;
    WaitSemOk(s.sems[i], s.cur.value);
  }

  lemma SignalSems(s: State, i: nat)
    requires SemsOk(s.sems) && i < |s.sems| && !s.sems[i].empty
    ensures SemsOk(Signal(s, i).sems)
  {
    hide SemOk;
    SignalSemOk(s.sems[i]);
  }

  lemma NewSemOk(owner: int, name: string, value: int)
    requires value >= 0
    ensures SemOk(NewSemaphore(owner, name, value))
  {
  }

  /** Every step keeps everybody in one place at most, BLOCKED iff queued at a semaphore, and all books right. */
  lemma StepKeepsSound(s: State, op: Op)
    requires Sound(s) && Allowed(s, op)
    ensures Sound(Step(s, op))
  {
    var t := Step(s, op);
    StepSems(s, op);
    forall e: nat ensures Places(t, e) <= 1 && (Places(t, e) > 0 ==> StatusOk(t, e)) {
      StepPlaces(s, op, e);
      if Places(t, e) > 0 { StepStatus(s, op, e); }
    }
    hide Places, SemOk, StatusOk, Step;
  }

  // ---------------------------------------------------------------- the start

  const NO_SEMAPHORE := Semaphore(true, 0, "", 0, [], 0, 0, 0, [], [])

  /** The state after sched_init and create_semaphores_array. */
  function Initial(n: nat): State {
    State(None, [], [], [], seq(n, _ => NO_SEMAPHORE), map[], false)
  }

  /** It is sound, and nobody is anywhere. */
  lemma InitialSound(n: nat)
    ensures Sound(Initial(n)) && forall e: nat :: Places(Initial(n), e) == 0
  {
    forall e: nat ensures Places(Initial(n), e) == 0 { NobodyWaits(Initial(n).sems, e); }
  }

  lemma {:induction false} NobodyWaits(sems: seq<Semaphore>, e: nat)
    requires forall i :: 0 <= i < |sems| ==> sems[i].queue == []
    ensures WaitTimes(sems, e) == 0
  {
    if sems != [] {
      NobodyWaits(sems[..|sems| - 1], e);
    }
  }

  // ---------------------------------------------------------------- every run

  ghost predicate RunOk(s: State, ops: seq<Op>)
    decreases |ops|
  {
    ops == [] || (Allowed(s, ops[0]) && RunOk(Step(s, ops[0]), ops[1..]))
  }

  function After(s: State, ops: seq<Op>): State
    requires RunOk(s, ops)
    decreases |ops|
  {
    if ops == [] then s else After(Step(s, ops[0]), ops[1..])
  }

  /** The environments created and not forgotten, starting from `live`. */
  ghost function Live(s: State, ops: seq<Op>, live: set<nat>): set<nat>
    requires RunOk(s, ops)
    decreases |ops|
  {
    if ops == [] then live
    else
      var next := match ops[0]
        case OpNew(e) => live + {e}
        case OpExit(e) => (if e in s.newcomers then live - {e} else live)
        case _ => live;
      Live(Step(s, ops[0]), ops[1..], next)
  }

  /** In every reachable state every live environment is in exactly one place - running, ready, new, exited or in
      one semaphore's queue - and nobody else is anywhere; it is BLOCKED iff it is in a semaphore's queue; and every
      semaphore's value is its initial value plus signals minus waits, its queue as long as the value is below 0. */
  lemma {:induction false} EveryRunKeepsEverybody(s: State, ops: seq<Op>, live: set<nat>, e: nat)
    requires Sound(s) && RunOk(s, ops) && forall f: nat :: Places(s, f) == Bit(f in live)
    ensures var t := After(s, ops);
      && Sound(t) && Places(t, e) == Bit(e in Live(s, ops, live))
      && (e in Live(s, ops, live) ==> StatusOk(t, e))
    decreases |ops|
  {
    hide Places, Step, SemsOk, StatusOk;
    if ops != [] {
      var op, t := ops[0], Step(s, ops[0]);
      StepKeepsSound(s, op);
      forall f: nat ensures Places(t, f) == Bit(f in match op
                                                  case OpNew(g) => live + {g}
                                                  case OpExit(g) => (if g in s.newcomers then live - {g} else live)
                                                  case _ => live) {
        StepPlaces(s, op, f);
        if op == OpExit(f) && f in s.newcomers { NewIsSomewhere(s, f); }
      }
      EveryRunKeepsEverybody(t, ops[1..], match op
                                          case OpNew(g) => live + {g}
                                          case OpExit(g) => (if g in s.newcomers then live - {g} else live)
                                          case _ => live, e);
    }
  }

  /** In particular after every run from sched_init. */
  lemma EveryRunFromBoot(n: nat, ops: seq<Op>, e: nat)
    requires RunOk(Initial(n), ops)
    ensures var t := After(Initial(n), ops);
      && Sound(t) && Places(t, e) == Bit(e in Live(Initial(n), ops, {}))
      && (e in Live(Initial(n), ops, {}) ==> StatusOk(t, e))
  {
    hide Sound, Places, StatusOk, Initial;
    InitialSound(n);
    EveryRunKeepsEverybody(Initial(n), ops, {}, e);
  }

  lemma NewIsSomewhere(s: State, e: nat)
    requires e in s.newcomers
    ensures Places(s, e) >= 1
  {
    hide WaitTimes;
    TimesOf(s.newcomers, e);
  }

  // ---------------------------------------------------------------- clients that bracket their work

  /** Is the step a wait, or a signal, on semaphore `i`? */
  predicate WaitsOn(s: State, op: Op, i: nat) {
    op.OpWait? && FindSem(s.sems, op.owner, op.name, 0) == i
  }

  predicate SignalsOn(s: State, op: Op, i: nat) {
    op.OpSignal? && FindSem(s.sems, op.owner, op.name, 0) == i
  }

  /** Who has called wait on semaphore `i` and not signalled since, after one more step, */
  function Users1(s: State, op: Op, i: nat, users: set<nat>): set<nat> {
    if s.cur == None then users
    else if WaitsOn(s, op, i) then users + {s.cur.value}
    else if SignalsOn(s, op, i) then users - {s.cur.value}
    else users
  }

  /** and after a run. */
  function Users(s: State, ops: seq<Op>, i: nat, users: set<nat>): set<nat>
    requires RunOk(s, ops)
    decreases |ops|
  {
    if ops == [] then users else Users(Step(s, ops[0]), ops[1..], i, Users1(s, ops[0], i, users))
  }

  /** Every environment calls wait and signal on semaphore `i` alternately, wait first. */
  ghost predicate Bracketed(s: State, ops: seq<Op>, i: nat, users: set<nat>)
    requires RunOk(s, ops)
    decreases |ops|
  {
    ops == [] || (
      && (WaitsOn(s, ops[0], i) ==> s.cur.value !in users)
      && (SignalsOn(s, ops[0], i) ==> s.cur.Some? && s.cur.value in users)
      && Bracketed(Step(s, ops[0]), ops[1..], i, Users1(s, ops[0], i, users)))
  }

  /** Those of them that got past their wait. */
  function Inside(m: Semaphore, users: set<nat>): set<nat> { Outside(users, m.queue) }

  function Outside(users: set<nat>, q: seq<nat>): set<nat> {
    set e | e in users && e !in q
  }

  /** The books of the semaphore count its clients. */
  ghost predicate ClientsOk(m: Semaphore, users: set<nat>) {
    !m.empty && |users| == m.waits - m.signals && forall e :: e in m.queue ==> e in users
  }

  lemma {:induction false} QueueCard(q: seq<nat>, users: set<nat>)
    requires (forall a, b :: 0 <= a < b < |q| ==> q[a] != q[b]) && forall e :: e in q ==> e in users
    ensures |Outside(users, q)| == |users| - |q|
  {
    if q == [] {
      assert Outside(users, q) == users;
    } else {
      var p, x := q[..|q| - 1], q[|q| - 1];
      QueueCard(p, users);
      assert q == p + [x] && x in q && x !in p;
      assert Outside(users, p) == Outside(users, q) + {x} && x !in Outside(users, q);
    }
  }

  lemma QueueDistinct(s: State, i: nat)
    requires Sound(s) && i < |s.sems|
    ensures var q := s.sems[i].queue; forall a, b :: 0 <= a < b < |q| ==> q[a] != q[b]
  {
    var q := s.sems[i].queue;
    forall a, b | 0 <= a < b < |q| ensures q[a] != q[b] {
      assert Places(s, q[a]) <= 1;
      hide SemsOk, StatusOk, WaitTimes, Times, Without;
      QueueWaits(s.sems, i, q[a]);
      WithoutTimes(q, a, q[a]);
      TimesOf(Without(q, a), q[a]);
      assert Without(q, a)[b - 1] == q[b];
    }
  }

  /** Who runs waits nowhere. */
  lemma RunnerNotQueued(s: State, i: nat)
    requires Sound(s) && i < |s.sems| && s.cur.Some?
    ensures s.cur.value !in s.sems[i].queue
  {
    var e := s.cur.value;
    assert Places(s, e) <= 1;
    hide SemsOk, StatusOk, WaitTimes, Times;
    QueueWaits(s.sems, i, e);
    TimesOf(s.sems[i].queue, e);
  }

  /** A step on another semaphore leaves this one alone. */
  lemma OtherSemKept(s: State, op: Op, i: nat)
    requires Allowed(s, op) && i < |s.sems| && !s.sems[i].empty && !WaitsOn(s, op, i) && !SignalsOn(s, op, i)
    ensures i < |Step(s, op).sems| && Step(s, op).sems[i] == s.sems[i]
  {
    hide ReadyAll;
    if op.OpRunAll? { ReadyAllKeeps(s); }
  }

  lemma ClientStep(s: State, op: Op, i: nat, users: set<nat>)
    requires Sound(s) && Allowed(s, op) && i < |s.sems| && ClientsOk(s.sems[i], users)
    requires WaitsOn(s, op, i) ==> s.cur.value !in users
    requires SignalsOn(s, op, i) ==> s.cur.Some? && s.cur.value in users
    ensures i < |Step(s, op).sems| && ClientsOk(Step(s, op).sems[i], Users1(s, op, i, users))
    ensures Step(s, op).sems[i].initial == s.sems[i].initial
  {
    if WaitsOn(s, op, i) {
      hide Sound;
    } else if SignalsOn(s, op, i) {
      RunnerNotQueued(s, i);
      hide Sound;
    } else {
      hide Sound;
      OtherSemKept(s, op, i);
    }
  }

  lemma {:induction false} ClientRun(s: State, ops: seq<Op>, i: nat, users: set<nat>)
    requires Sound(s) && RunOk(s, ops) && i < |s.sems| && ClientsOk(s.sems[i], users) && Bracketed(s, ops, i, users)
    ensures var t := After(s, ops);
      && Sound(t) && i < |t.sems| && ClientsOk(t.sems[i], Users(s, ops, i, users))
      && t.sems[i].initial == s.sems[i].initial
    decreases |ops|
  {
    hide Sound, Step, ClientsOk;
    if ops != [] {
      StepKeepsSound(s, ops[0]);
      ClientStep(s, ops[0], i, users);
      ClientRun(Step(s, ops[0]), ops[1..], i, Users1(s, ops[0], i, users));
    }
  }

  /** In every run in which each environment calls wait and signal on a new semaphore alternately, those past their
      wait and not yet at their signal are never more than the semaphore's initial value, and nobody waits while there
      is room; and the blocked are released in the order they came. */
  lemma BracketsExclude(s: State, ops: seq<Op>, i: nat)
    requires Sound(s) && RunOk(s, ops) && i < |s.sems| && !s.sems[i].empty && s.sems[i].waits == s.sems[i].signals == 0
    requires Bracketed(s, ops, i, {})
    ensures i < |After(s, ops).sems|
    ensures var m := After(s, ops).sems[i];
      var inside := Inside(m, Users(s, ops, i, {}));
      && |inside| <= s.sems[i].initial
      && (m.queue != [] ==> |inside| == s.sems[i].initial)
      && m.released <= m.arrivals && |m.arrivals| == |m.released| + |m.queue|
      && (m.queue != [] ==> m.queue[|m.queue| - 1] == m.arrivals[|m.released|])
  {
    assert SemOk(s.sems[i]);
    ClientRun(s, ops, i, {});
    var t, users := After(s, ops), Users(s, ops, i, {});
    QueueDistinct(t, i);
    QueueCard(t.sems[i].queue, users);
    assert SemOk(t.sems[i]);
    ReverseEnqueue(t.sems[i].queue, 0);
  }

  // ---------------------------------------------------------------- bounded waiting

  /** At most `k` environments are ahead of `e` in the ready queue. */
  ghost predicate Within(s: State, e: nat, k: nat) {
    exists i :: 0 <= i < |s.ready| && |s.ready| - 1 - k <= i && s.ready[i] == e
  }

  /** Does the step call fos_scheduler? */
  predicate Schedules(s: State, op: Op)
    requires Allowed(s, op)
  {
    match op
    case Tick => true
    case OpWait(_, _) => true
    case OpRun(e) => e in s.newcomers && !s.started
    case OpRunAll => !s.started
    case OpExit(e) => s.cur == Some(e)
    case _ => false
  }

  lemma SchedulerServes(s: State, e: nat, k: nat)
    requires Within(s, e, k)
    ensures var t := FosScheduler(s); t.cur == Some(e) || (k > 0 && Within(t, e, k - 1))
  {
    var i :| 0 <= i < |s.ready| && |s.ready| - 1 - k <= i && s.ready[i] == e;
    var q := match s.cur { case None => s.ready case Some(f) => Enqueue(s.ready, f) };
    var j := if s.cur == None then i else i + 1;
    assert q[j] == e;
    if j < |q| - 1 {
      assert Dequeue(q)[j] == e;
    }
  }

  lemma InsertKeepsWithin(s: State, f: nat, e: nat, k: nat)
    requires Within(s, e, k)
    ensures Within(InsertReady(s, f), e, k)
  {
    var i :| 0 <= i < |s.ready| && |s.ready| - 1 - k <= i && s.ready[i] == e;
    assert InsertReady(s, f).ready[i + 1] == e;
  }

  lemma PrefixKeepsWithin(s: State, t: State, a: seq<nat>, e: nat, k: nat)
    requires Within(s, e, k) && t.ready == a + s.ready
    ensures Within(t, e, k)
  {
    var i :| 0 <= i < |s.ready| && |s.ready| - 1 - k <= i && s.ready[i] == e;
    assert t.ready[|a| + i] == e;
  }

  lemma RemoveKeepsWithin(s: State, t: State, r: nat, e: nat, k: nat)
    requires Within(s, e, k) && r < |s.ready| && s.ready[r] != e && t.ready == Without(s.ready, r)
    ensures Within(t, e, k)
  {
    var i :| 0 <= i < |s.ready| && |s.ready| - 1 - k <= i && s.ready[i] == e;
    assert t.ready[if i < r then i else i - 1] == e;
  }

  lemma RunServes(s: State, f: nat, e: nat, k: nat)
    requires Within(s, e, k)
    ensures var t := RunEnv(s, f);
      if IndexOf(s.newcomers, f, 0) < |s.newcomers| && !s.started then
        t.cur == Some(e) || (k > 0 && Within(t, e, k - 1))
      else Within(t, e, k)
  {
    hide Within, FosScheduler;
    var i := IndexOf(s.newcomers, f, 0);
    if i < |s.newcomers| {
      var s1 := s.(newcomers := Without(s.newcomers, i));
      PrefixKeepsWithin(s, s1, [], e, k);
      InsertKeepsWithin(s1, f, e, k);
      if !s.started { SchedulerServes(InsertReady(s1, f), e, k); }
    }
  }

  lemma RunAllServes(s: State, e: nat, k: nat)
    requires Within(s, e, k)
    ensures var t := RunAll(s);
      if s.started then Within(t, e, k) else t.cur == Some(e) || (k > 0 && Within(t, e, k - 1))
  {
    hide Within, FosScheduler, ReadyAll, Reverse;
    ReadyAllOrder(s);
    ReadyAllKeeps(s);
    PrefixKeepsWithin(s, ReadyAll(s), Reverse(s.newcomers), e, k);
    if !s.started { SchedulerServes(ReadyAll(s), e, k); }
  }

  lemma SignalServes(s: State, j: nat, e: nat, k: nat)
    requires j < |s.sems| && Within(s, e, k)
    ensures Within(Signal(s, j), e, k)
  {
    hide Within;
    var m := s.sems[j];
    if m.value + 1 <= 0 && m.queue != [] {
      var s1 := s.(sems := s.sems[j := ReleaseOldest(m)]);
      PrefixKeepsWithin(s, s1, [], e, k);
      InsertKeepsWithin(s1, m.queue[|m.queue| - 1], e, k);
    } else {
      PrefixKeepsWithin(s, Signal(s, j), [], e, k);
    }
  }

  /** Every call of fos_scheduler brings a ready environment one place nearer; nothing but its own exit sets it back. */
  lemma StepServes(s: State, op: Op, e: nat, k: nat)
    requires Sound(s) && Allowed(s, op) && Within(s, e, k) && op != OpExit(e)
    ensures var t := Step(s, op);
      if Schedules(s, op) then t.cur == Some(e) || (k > 0 && Within(t, e, k - 1)) else Within(t, e, k)
  {
    hide Within, FosScheduler, SemOk, SemsOk, StatusOk, WaitTimes, Times, RunEnv, RunAll, Wait, Signal, ExitEnv;
    match op
    case Tick => SchedulerServes(s, e, k);
    case OpNew(f) => PrefixKeepsWithin(s, NewEnv(s, f), [], e, k);
    case OpRun(f) => RunServes(s, f, e, k);
    case OpRunAll => RunAllServes(s, e, k);
    case OpExit(f) => ExitServes(s, f, e, k);
    case OpCreate(owner, name, value) => PrefixKeepsWithin(s, CreateSemaphore(s, owner, name, value).0, [], e, k);
    case OpWait(owner, name) => WaitServes(s, FindSem(s.sems, owner, name, 0), e, k);
    case OpSignal(owner, name) => SignalServes(s, FindSem(s.sems, owner, name, 0), e, k);
  }

  lemma WaitServes(s: State, i: nat, e: nat, k: nat)
    requires i < |s.sems| && s.cur.Some? && Within(s, e, k)
    ensures var t := Wait(s, i); t.cur == Some(e) || (k > 0 && Within(t, e, k - 1))
  {
    hide Within, FosScheduler, Enqueue;
    var m, f := s.sems[i], s.cur.value;
    var s1 := if m.value - 1 < 0 then
        var m' := m.(value := m.value - 1, queue := Enqueue(m.queue, f),
                     waits := m.waits + 1, arrivals := m.arrivals + [f]);
        s.(sems := s.sems[i := m'], status := s.status[f := BlockedStatus], cur := None)
      else s.(sems := s.sems[i := m.(value := m.value - 1, waits := m.waits + 1)]);
    PrefixKeepsWithin(s, s1, [], e, k);
    SchedulerServes(s1, e, k);
  }

  lemma ExitServes(s: State, f: nat, e: nat, k: nat)
    requires s.cur.Some? && Places(s, f) <= 1 && Within(s, e, k) && f != e
    ensures var t := ExitEnv(s, f);
      if s.cur == Some(f) then t.cur == Some(e) || (k > 0 && Within(t, e, k - 1)) else Within(t, e, k)
  {
    OnlyOnce(s, f);
    hide Within, FosScheduler, Enqueue, Places, Without, IndexOf;
    var n, r := IndexOf(s.newcomers, f, 0), IndexOf(s.ready, f, 0);
    if n < |s.newcomers| {
      PrefixKeepsWithin(s, ExitEnv(s, f), [], e, k);
    } else if r < |s.ready| {
      RemoveKeepsWithin(s, ExitEnv(s, f), r, e, k);
    } else if s.cur.value == f {
      var s1 := InsertExit(s, f).(cur := None);
      PrefixKeepsWithin(s, s1, [], e, k);
      SchedulerServes(s1, e, k);
    } else {
      PrefixKeepsWithin(s, s, [], e, k);
    }
  }

  /** The number of fos_scheduler calls of a run. */
  function SchedulerCalls(s: State, ops: seq<Op>): nat
    requires RunOk(s, ops)
    decreases |ops|
  {
    if ops == [] then 0 else Bit(Schedules(s, ops[0])) + SchedulerCalls(Step(s, ops[0]), ops[1..])
  }

  /** `e` runs at some point of the run. */
  predicate GetsToRun(s: State, ops: seq<Op>, e: nat)
    requires RunOk(s, ops)
    decreases |ops|
  {
    ops != [] && (Step(s, ops[0]).cur == Some(e) || GetsToRun(Step(s, ops[0]), ops[1..], e))
  }

  /** Round robin has bounded waiting: with `k` environments ahead of it, an environment runs by the (k+1)-th call of
      fos_scheduler, whatever else happens meanwhile. */
  lemma {:induction false} BoundedWaiting(s: State, ops: seq<Op>, e: nat, k: nat)
    requires Sound(s) && RunOk(s, ops) && Within(s, e, k) && SchedulerCalls(s, ops) > k
    requires forall i :: 0 <= i < |ops| ==> ops[i] != OpExit(e)
    ensures GetsToRun(s, ops, e)
    decreases |ops|
  {
    hide Within, Step, Places, SemsOk, StatusOk, Schedules;
    var t := Step(s, ops[0]);
    StepServes(s, ops[0], e, k);
    StepKeepsSound(s, ops[0]);
    if t.cur != Some(e) {
      BoundedWaiting(t, ops[1..], e, if Schedules(s, ops[0]) then k - 1 else k);
    }
  }

  // ---------------------------------------------------------------- names

  ghost predicate NamesUnique(sems: seq<Semaphore>) {
    forall i, j :: 0 <= i < j < |sems| && !sems[i].empty && !sems[j].empty ==>
      !(sems[i].owner == sems[j].owner && sems[i].name == sems[j].name)
  }

  /** createSemaphore never finds the duplicate it looks for: names stay unique iff the caller's name was not taken. */
  lemma CreateNeedsNewName(s: State, owner: int, name: string, value: int)
    requires NamesUnique(s.sems) && EmptySlot(s.sems, 0) < |s.sems|
    ensures NamesUnique(CreateSemaphore(s, owner, name, value).0.sems) <==> FindSem(s.sems, owner, name, 0) == |s.sems|
  {
    var i, j := EmptySlot(s.sems, 0), FindSem(s.sems, owner, name, 0);
    var sems' := CreateSemaphore(s, owner, name, value).0.sems;
    if j < |s.sems| {
      assert Named(sems'[i], owner, name) && Named(sems'[j], owner, name) && i != j;
      if i < j { assert !sems'[i].empty && !sems'[j].empty; } else { assert !sems'[j].empty && !sems'[i].empty; }
    }
  }

  // ---------------------------------------------------------------- the semaphore other models use

  /** A semaphore without its names and history, its waiters oldest first. */
  function Plain(m: Semaphore): Semaphores.Sem<nat> {
    Semaphores.Sem(m.value, Reverse(m.queue))
  }

  /** waitSemaphore and signalSemaphore do to a semaphore what Semaphores.Sem says. */
  lemma SemaphoresRefine(s: State, i: nat)
    requires Sound(s) && i < |s.sems| && !s.sems[i].empty && s.cur.Some?
    ensures var m, e := s.sems[i], s.cur.value;
      && Plain(m).Ok()
      && Plain(Wait(s, i).sems[i]) == Plain(m).Wait(e)
      && (Plain(m).Blocks() <==> Wait(s, i).sems[i].queue != m.queue)
      && (Plain(m).Releases() ==> Plain(m).queue != [] && Signal(s, i).ready == [Plain(m).queue[0]] + s.ready)
      && (!Plain(m).Releases() ==> Signal(s, i).ready == s.ready)
      && Plain(Signal(s, i).sems[i]) == Plain(m).Signal()
  {
    hide Places, StatusOk;
    var m, e := s.sems[i], s.cur.value;
    assert SemOk(m);
    ReverseEnqueue(m.queue, e);
    if m.queue != [] { assert Plain(m).queue[1..] == Reverse(Dequeue(m.queue)); }
  }
}
