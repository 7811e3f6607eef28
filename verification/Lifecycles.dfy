/**
 Where each call of the scheduler and the semaphore manager sends every environment.  Scheduling counts places; here
 the places have names, and one table says for each call who leaves which and for where.
 */
module Lifecycles {
  import opened Basics
  import opened Blocks
  import opened Lists
  import opened Scheduling

  /** Active is running or ready to; semaphore `i` is where an environment is BLOCKED. */
  datatype Spot = Nowhere | Active | Unstarted | Left | Waiting(i: nat)

  ghost predicate At(s: State, e: nat, spot: Spot) {
    match spot
    case Nowhere => Places(s, e) == 0
    case Active => s.cur == Some(e) || e in s.ready
    case Unstarted => e in s.newcomers
    case Left => e in s.exited
    case Waiting(i) => i < |s.sems| && e in s.sems[i].queue
  }

  /** The table: from `spot`, a call sends environment `e` here. */
  function Target(s: State, op: Op, e: nat, spot: Spot): Spot
    requires Allowed(s, op)
  {
    match op
    case Tick => spot
    case OpNew(f) => if f == e then Unstarted else spot
    case OpRun(f) => if f == e && spot == Unstarted then Active else spot
    case OpRunAll => if spot == Unstarted then Active else spot
    case OpExit(f) =>
      if f == e && spot == Active then Left else if f == e && spot == Unstarted then Nowhere else spot
    case OpCreate(_, _, _) => spot
    case OpWait(owner, name) =>
      var i := FindSem(s.sems, owner, name, 0);
      if s.cur == Some(e) && s.sems[i].value <= 0 then Waiting(i) else spot
    case OpSignal(owner, name) =>
      var i := FindSem(s.sems, owner, name, 0);
      if s.sems[i].value < 0 && Oldest(s.sems[i].queue) == Some(e) then Active else spot
  }

  // ---------------------------------------------------------------- places and their names

  lemma SpotCounts(s: State, e: nat, spot: Spot)
    requires At(s, e, spot)
    ensures spot == Nowhere || Places(s, e) > 0
  {
    hide WaitTimes, Times;
    TimesOf(s.ready, e);
    TimesOf(s.newcomers, e);
    TimesOf(s.exited, e);
    if spot.Waiting? {
      TimesOf(s.sems[spot.i].queue, e);
      QueueWaits(s.sems, spot.i, e);
    }
  }

  lemma {:induction false} WaitsSomewhere(sems: seq<Semaphore>, e: nat) returns (i: nat)
    requires WaitTimes(sems, e) > 0
    ensures i < |sems| && e in sems[i].queue
  {
    hide Times;
    var last := |sems| - 1;
    TimesOf(sems[last].queue, e);
    if e in sems[last].queue {
      i := last;
    } else {
      i := WaitsSomewhere(sems[..last], e);
    }
  }

  /** Everybody is at some spot, */
  lemma SomeSpot(s: State, e: nat) returns (spot: Spot)
    ensures At(s, e, spot)
  {
    hide WaitTimes, Times;
    TimesOf(s.ready, e);
    TimesOf(s.newcomers, e);
    TimesOf(s.exited, e);
    if s.cur == Some(e) || e in s.ready {
      spot := Active;
    } else if e in s.newcomers {
      spot := Unstarted;
    } else if e in s.exited {
      spot := Left;
    } else if WaitTimes(s.sems, e) > 0 {
      var i := WaitsSomewhere(s.sems, e);
      spot := Waiting(i);
    } else {
      spot := Nowhere;
    }
  }

  lemma {:induction false} WaitsTwice(sems: seq<Semaphore>, i: nat, j: nat, e: nat)
    requires i < j < |sems| && e in sems[i].queue && e in sems[j].queue
    ensures WaitTimes(sems, e) > 1
  {
    hide Times;
    var last := |sems| - 1;
    TimesOf(sems[last].queue, e);
    if j == last {
      TimesOf(sems[i].queue, e);
      QueueWaits(sems[..last], i, e);
    } else {
      WaitsTwice(sems[..last], i, j, e);
    }
  }

  /** and in a sound state at one only. */
  lemma OneSpot(s: State, e: nat, a: Spot, b: Spot)
    requires Places(s, e) <= 1 && At(s, e, a) && At(s, e, b)
    ensures a == b
  {
    hide WaitTimes, Times;
    TimesOf(s.ready, e);
    TimesOf(s.newcomers, e);
    TimesOf(s.exited, e);
    SpotCounts(s, e, a);
    SpotCounts(s, e, b);
    if a.Waiting? {
      TimesOf(s.sems[a.i].queue, e);
      QueueWaits(s.sems, a.i, e);
    }
    if b.Waiting? {
      TimesOf(s.sems[b.i].queue, e);
      QueueWaits(s.sems, b.i, e);
    }
    if a.Waiting? && b.Waiting? && a.i != b.i {
      WaitsTwice(s.sems, if a.i < b.i then a.i else b.i, if a.i < b.i then b.i else a.i, e);
    }
  }

  // ---------------------------------------------------------------- the table is right

  /** fos_scheduler moves nobody but between running and ready. */
  lemma SchedulerMoves(s: State, e: nat, spot: Spot)
    requires spot != Nowhere && At(s, e, spot)
    ensures At(FosScheduler(s), e, spot)
  {
    var q := match s.cur { case None => s.ready case Some(f) => Enqueue(s.ready, f) };
    if spot == Active {
      assert e in q by {
        if s.cur.Some? && s.cur != Some(e) { assert q == [s.cur.value] + s.ready; }
      }
      var k :| 0 <= k < |q| && q[k] == e;
      if k < |q| - 1 { assert Dequeue(q)[k] == e; }
    }
  }

  /** Inserted in the ready queue, somebody is active; nobody else moves. */
  lemma ReadyMoves(s: State, f: nat, e: nat, spot: Spot)
    requires spot != Nowhere && At(s, e, spot)
    ensures At(InsertReady(s, f), e, spot) && At(InsertReady(s, f), f, Active)
  {
    assert InsertReady(s, f).ready == [f] + s.ready;
  }

  lemma RunMoves(s: State, f: nat, e: nat, spot: Spot)
    requires Sound(s) && spot != Nowhere && At(s, e, spot)
    ensures At(RunEnv(s, f), e, if f == e && spot == Unstarted then Active else spot)
  {
    hide FosScheduler, InsertReady, Places, SemsOk, StatusOk, Without;
    var i := IndexOf(s.newcomers, f, 0);
    if i < |s.newcomers| {
      var s1 := s.(newcomers := Without(s.newcomers, i));
      var spot' := if f == e && spot == Unstarted then Active else spot;
      if f != e || spot != Unstarted {
        TakenOut(s, i, e);
        if f == e { OneSpot(s, e, spot, Unstarted); }
        assert At(s1, e, spot);
        ReadyMoves(s1, f, e, spot);
      } else {
        ReadyInserted(s1, f);
      }
      SchedulerMoves(InsertReady(s1, f), e, spot');
    }
  }

  lemma ReadyInserted(s: State, f: nat)
    ensures At(InsertReady(s, f), f, Active)
  {
    assert InsertReady(s, f).ready[0] == f;
  }

  lemma RunAllMoves(s: State, e: nat, spot: Spot)
    requires spot != Nowhere && At(s, e, spot)
    ensures At(RunAll(s), e, if spot == Unstarted then Active else spot)
  {
    hide FosScheduler, ReadyAll;
    ReadyAllOrder(s);
    ReadyAllKeeps(s);
    ReverseHas(s.newcomers, e);
    SchedulerMoves(ReadyAll(s), e, if spot == Unstarted then Active else spot);
  }

  lemma ExitMoves(s: State, f: nat, e: nat, spot: Spot)
    requires Sound(s) && s.cur.Some? && spot != Nowhere && At(s, e, spot) && !(f == e && spot == Unstarted)
    ensures At(ExitEnv(s, f), e, if f == e && spot == Active then Left else spot)
  {
    assert Places(s, e) <= 1 && Places(s, f) <= 1;
    hide FosScheduler, Places, SemsOk, StatusOk, Without, Enqueue, IndexOf, Sound;
    var n, r := IndexOf(s.newcomers, f, 0), IndexOf(s.ready, f, 0);
    OnlyOnce(s, f);
    if f == e && f in s.newcomers { OneSpot(s, e, spot, Unstarted); }
    if n < |s.newcomers| {
      TakenOut(s, n, e);
    } else if r < |s.ready| {
      NotReadyTwice(s, r, e);
      ExitMembers(s, f, e);
    } else if s.cur.value == f {
      ExitMembers(s, f, e);
      SchedulerMoves(InsertExit(s, f).(cur := None), e, if f == e && spot == Active then Left else spot);
    }
  }

  lemma ExitMembers(s: State, f: nat, e: nat)
    ensures e in Enqueue(s.exited, f) <==> e == f || e in s.exited
  {
    assert Enqueue(s.exited, f) == [f] + s.exited;
  }

  lemma WaitMoves(s: State, i: nat, e: nat, spot: Spot)
    requires i < |s.sems| && s.cur.Some? && spot != Nowhere && At(s, e, spot) && Places(s, e) <= 1
    ensures At(Wait(s, i), e, if s.cur == Some(e) && s.sems[i].value <= 0 then Waiting(i) else spot)
  {
    hide FosScheduler, Places;
    var m, f := s.sems[i], s.cur.value;
    if m.value - 1 < 0 {
      var m' := m.(value := m.value - 1, queue := Enqueue(m.queue, f),
                   waits := m.waits + 1, arrivals := m.arrivals + [f]);
      var s1 := s.(sems := s.sems[i := m'], status := s.status[f := BlockedStatus], cur := None);
      assert m'.queue[0] == f;
      assert forall x :: x in m.queue ==> x in m'.queue;
      SchedulerMoves(s1, e, if f == e then Waiting(i) else spot);
    } else {
      SchedulerMoves(s.(sems := s.sems[i := m.(value := m.value - 1, waits := m.waits + 1)]), e, spot);
    }
  }

  lemma SignalMoves(s: State, i: nat, e: nat, spot: Spot)
    requires Sound(s) && i < |s.sems| && !s.sems[i].empty && spot != Nowhere && At(s, e, spot)
    ensures At(Signal(s, i), e, if s.sems[i].value < 0 && Oldest(s.sems[i].queue) == Some(e) then Active else spot)
  {
    assert SemOk(s.sems[i]);
    hide Places, SemsOk, StatusOk, InsertReady, Sound;
    var m := s.sems[i];
    if m.value + 1 <= 0 {
      var f := m.queue[|m.queue| - 1];
      var s1 := s.(sems := s.sems[i := ReleaseOldest(m)]);
      if f == e {
        ReadyInserted(s1, f);
      } else {
        if e in m.queue {
          var k :| 0 <= k < |m.queue| && m.queue[k] == e;
          assert Dequeue(m.queue)[k] == e;
        }
        ReadyMoves(s1, f, e, spot);
      }
    }
  }

  lemma CreateMoves(s: State, owner: int, name: string, value: int, e: nat, spot: Spot)
    requires Sound(s) && EmptySlot(s.sems, 0) < |s.sems| && spot != Nowhere && At(s, e, spot)
    ensures At(CreateSemaphore(s, owner, name, value).0, e, spot)
  {
    hide Places, StatusOk;
  }

  /** Every call sends every environment where the table says. */
  lemma StepMoves(s: State, op: Op, e: nat, spot: Spot)
    requires Sound(s) && Allowed(s, op) && At(s, e, spot)
    ensures At(Step(s, op), e, Target(s, op, e, spot))
  {
    hide Places, SemsOk, StatusOk, FosScheduler, RunEnv, RunAll, ExitEnv, Wait, Signal, CreateSemaphore;
    StepPlaces(s, op, e);
    if op == OpNew(e) {
      NewcomerIn(s, e);
    } else if spot == Nowhere {
      NobodyNamed(s, e);
    } else if op == OpExit(e) && spot == Unstarted {
      NewLeaves(s, e);
    } else {
      match op
      case Tick => SchedulerMoves(s, e, spot);
      case OpNew(f) => assert e in s.newcomers ==> e in Enqueue(s.newcomers, f);
      case OpRun(f) => RunMoves(s, f, e, spot);
      case OpRunAll => RunAllMoves(s, e, spot);
      case OpExit(f) => ExitMoves(s, f, e, spot);
      case OpCreate(owner, name, value) => CreateMoves(s, owner, name, value, e, spot);
      case OpWait(owner, name) => WaitMoves(s, FindSem(s.sems, owner, name, 0), e, spot);
      case OpSignal(owner, name) => SignalMoves(s, FindSem(s.sems, owner, name, 0), e, spot);
    }
  }

  lemma NewcomerIn(s: State, e: nat)
    ensures At(NewEnv(s, e), e, Unstarted)
  {
    assert NewEnv(s, e).newcomers[0] == e;
  }

  lemma NewLeaves(s: State, e: nat)
    requires Sound(s) && s.cur.Some? && e in s.newcomers
    ensures Places(ExitEnv(s, e), e) == 0
  {
    hide SemsOk, StatusOk, ExitEnv;
    ExitPlaces(s, e, e);
    NewIsSomewhere(s, e);
    assert Places(s, e) <= 1;
  }

  /** Who is nowhere does not run and waits nowhere, so no call moves it. */
  lemma NobodyNamed(s: State, e: nat)
    requires Places(s, e) == 0
    ensures s.cur != Some(e) && e !in s.newcomers
    ensures forall i :: 0 <= i < |s.sems| ==> e !in s.sems[i].queue
  {
    hide WaitTimes, Times;
    TimesOf(s.newcomers, e);
    forall i | 0 <= i < |s.sems| ensures e !in s.sems[i].queue {
      QueueWaits(s.sems, i, e);
      TimesOf(s.sems[i].queue, e);
    }
  }

  // ---------------------------------------------------------------- the scheduler stops for want of work only

  /** scheduler_status says whether somebody runs. */
  predicate Awake(s: State) {
    s.started <==> s.cur.Some?
  }

  /** That stays so.  Where fos_scheduler was called somebody runs unless nobody is ready, and sched_run_env and
      sched_run_all leave somebody running if they had anybody to run. */
  lemma StepAwake(s: State, op: Op)
    requires Awake(s) && Allowed(s, op)
    ensures var t := Step(s, op);
      && Awake(t) && (Schedules(s, op) ==> t.cur.Some? || t.ready == [])
      && ((op == OpRunAll && s.newcomers != []) || (op.OpRun? && op.e in s.newcomers) ==> t.cur.Some?)
  {
    hide ReadyAll;
    ReadyAllKeeps(s);
    ReadyAllOrder(s);
  }

  // ---------------------------------------------------------------- every run

  /** Where the table has led environment `e` after a run. */
  function Trace(s: State, ops: seq<Op>, e: nat, spot: Spot): Spot
    requires RunOk(s, ops)
    decreases |ops|
  {
    if ops == [] then spot else Trace(Step(s, ops[0]), ops[1..], e, Target(s, ops[0], e, spot))
  }

  lemma {:induction false} RunMovesAll(s: State, ops: seq<Op>, e: nat, spot: Spot)
    requires Sound(s) && RunOk(s, ops) && At(s, e, spot)
    ensures Sound(After(s, ops)) && At(After(s, ops), e, Trace(s, ops, e, spot)) && (Awake(s) ==> Awake(After(s, ops)))
    decreases |ops|
  {
    hide Sound, Step, At, Target, Allowed, Awake, Schedules;
    if ops != [] {
      if Awake(s) { StepAwake(s, ops[0]); }
      StepKeepsSound(s, ops[0]);
      StepMoves(s, ops[0], e, spot);
      RunMovesAll(Step(s, ops[0]), ops[1..], e, Target(s, ops[0], e, spot));
    }
  }

  /** What the status of somebody at a spot can be. */
  ghost predicate StatusFits(s: State, e: nat, spot: Spot) {
    spot != Nowhere ==> e in s.status && match spot
      case Nowhere => true
      case Active => s.status[e] == Runnable || (s.status[e] == Ready && s.cur != Some(e))
      case Unstarted => s.status[e] == New
      case Left => s.status[e] == Exited
      case Waiting(_) => s.status[e] == BlockedStatus
  }

  lemma StatusTells(s: State, e: nat, spot: Spot)
    requires Sound(s) && At(s, e, spot)
    ensures StatusFits(s, e, spot)
  {
    hide Places, SemsOk, WaitTimes;
    SpotCounts(s, e, spot);
    if spot.Waiting? {
      TimesOf(s.sems[spot.i].queue, e);
      QueueWaits(s.sems, spot.i, e);
    }
  }

  /** After every run from sched_init each environment is where the table has led it, and there alone, with the status
      of that place; and the scheduler is stopped iff nobody runs. */
  lemma EveryRunMoves(n: nat, ops: seq<Op>, e: nat, other: Spot)
    requires RunOk(Initial(n), ops)
    ensures var t, spot := After(Initial(n), ops), Trace(Initial(n), ops, e, Nowhere);
      At(t, e, spot) && StatusFits(t, e, spot) && (At(t, e, other) ==> other == spot) && Awake(t)
  {
    InitialSound(n);
    var t, spot := After(Initial(n), ops), Trace(Initial(n), ops, e, Nowhere);
    RunMovesAll(Initial(n), ops, e, Nowhere);
    StatusTells(t, e, spot);
    if At(t, e, other) {
      assert Places(t, e) <= 1;
      OneSpot(t, e, spot, other);
    }
  }

  // ---------------------------------------------------------------- exit, and the time before the first run

  /** sched_exit_env of the running or a ready environment: it is on the EXIT queue with status EXIT, and no longer
      running, ready or NEW. */
  lemma ExitLeaves(s: State, e: nat)
    requires Sound(s) && s.cur.Some? && At(s, e, Active)
    ensures var t := Step(s, OpExit(e));
      && e in t.exited && e in t.status && t.status[e] == Exited
      && t.cur != Some(e) && e !in t.ready && e !in t.newcomers
      && t.exited == [e] + s.exited
  {
    LeavesInFront(s, e);
    hide Step;
    var t := Step(s, OpExit(e));
    StepMoves(s, OpExit(e), e, Active);
    StepKeepsSound(s, OpExit(e));
    StatusTells(t, e, Left);
    LeftOnly(t, e);
  }

  lemma LeavesInFront(s: State, e: nat)
    requires Sound(s) && s.cur.Some? && At(s, e, Active)
    ensures Step(s, OpExit(e)).exited == [e] + s.exited
  {
    assert Places(s, e) <= 1;
    hide Places, SemsOk, StatusOk;
    if e in s.newcomers { OneSpot(s, e, Active, Unstarted); }
  }

  lemma LeftOnly(t: State, e: nat)
    requires Sound(t) && At(t, e, Left)
    ensures t.cur != Some(e) && e !in t.ready && e !in t.newcomers && Places(t, e) > 0
  {
    assert Places(t, e) <= 1;
    hide Places, SemsOk, StatusOk;
    SpotCounts(t, e, Left);
    if At(t, e, Active) { OneSpot(t, e, Left, Active); }
    if At(t, e, Unstarted) { OneSpot(t, e, Left, Unstarted); }
  }

  /** Whoever has exited never runs again, whatever calls follow. */
  lemma {:induction false} ExitedForGood(s: State, ops: seq<Op>, e: nat)
    requires Sound(s) && RunOk(s, ops) && At(s, e, Left)
    ensures At(After(s, ops), e, Left) && !GetsToRun(s, ops, e)
    decreases |ops|
  {
    hide Sound, Step, At, Places;
    if ops != [] {
      var t := Step(s, ops[0]);
      LeftOnly(s, e);
      StepKeepsSound(s, ops[0]);
      StepMoves(s, ops[0], e, Left);
      assert Target(s, ops[0], e, Left) == Left by { LeftStays(s, ops[0], e); }
      LeftOnly(t, e);
      ExitedForGood(t, ops[1..], e);
    }
  }

  lemma LeftStays(s: State, op: Op, e: nat)
    requires Sound(s) && Allowed(s, op) && At(s, e, Left)
    ensures Target(s, op, e, Left) == Left
  {
    assert Places(s, e) <= 1;
    hide Places, SemsOk, StatusOk;
    LeftOnly(s, e);
    if op.OpSignal? {
      var i := FindSem(s.sems, op.owner, op.name, 0);
      if e in s.sems[i].queue { OneSpot(s, e, Left, Waiting(i)); }
    }
  }

  /** A NEW environment does not run before a call runs it. */
  lemma {:induction false} NewUntilRun(s: State, ops: seq<Op>, e: nat)
    requires Sound(s) && RunOk(s, ops) && At(s, e, Unstarted)
    requires forall i :: 0 <= i < |ops| ==> ops[i] !in {OpRun(e), OpRunAll, OpExit(e)}
    ensures At(After(s, ops), e, Unstarted) && !GetsToRun(s, ops, e)
    decreases |ops|
  {
    hide Sound, Step, At, Places;
    if ops != [] {
      var t := Step(s, ops[0]);
      StepKeepsSound(s, ops[0]);
      StepMoves(s, ops[0], e, Unstarted);
      assert ops[0] !in {OpRun(e), OpRunAll, OpExit(e)};
      assert Target(s, ops[0], e, Unstarted) == Unstarted by { NewStays(s, ops[0], e); }
      NewDoesNotRun(t, e);
      NewUntilRun(t, ops[1..], e);
    }
  }

  lemma NewDoesNotRun(t: State, e: nat)
    requires Sound(t) && At(t, e, Unstarted)
    ensures t.cur != Some(e)
  {
    assert Places(t, e) <= 1;
    OnlyOnce(t, e);
  }

  lemma NewStays(s: State, op: Op, e: nat)
    requires Sound(s) && Allowed(s, op) && At(s, e, Unstarted) && op !in {OpRun(e), OpRunAll, OpExit(e)}
    ensures Target(s, op, e, Unstarted) == Unstarted
  {
    assert Places(s, e) <= 1;
    hide Places, SemsOk, StatusOk;
    NewDoesNotRun(s, e);
    if op.OpSignal? {
      var i := FindSem(s.sems, op.owner, op.name, 0);
      if e in s.sems[i].queue { OneSpot(s, e, Unstarted, Waiting(i)); }
    }
  }

  // ---------------------------------------------------------------- a semaphore as it was asked for

  /** createSemaphore fills an empty slot and answers where: the semaphore is found there unless its name was taken, its
      value is the one asked for, nobody is queued, and no other slot changes. */
  lemma CreatedAsAsked(s: State, owner: int, name: string, value: int)
    requires EmptySlot(s.sems, 0) < |s.sems|
    ensures var (t, i) := CreateSemaphore(s, owner, name, value);
      && i < |t.sems| == |s.sems| && s.sems[i].empty && !t.sems[i].empty
      && t.sems[i].value == value && t.sems[i].queue == [] && Named(t.sems[i], owner, name)
      && (forall j :: 0 <= j < |s.sems| && j != i ==> t.sems[j] == s.sems[j])
      && (FindSem(s.sems, owner, name, 0) == |s.sems| ==> FindSem(t.sems, owner, name, 0) == i)
  {
    var (t, i) := CreateSemaphore(s, owner, name, value);
    var j := FindSem(t.sems, owner, name, 0);
    assert Named(t.sems[i], owner, name);
    if j < i { assert t.sems[j] == s.sems[j]; }
  }

  /** So in every run that brackets its work with a semaphore created for `value`, at most `value` are inside, and
      exactly so many while anybody is queued. */
  lemma CreatedExcludes(s: State, owner: int, name: string, value: int, ops: seq<Op>)
    requires Sound(s) && Allowed(s, OpCreate(owner, name, value))
    requires var t := Step(s, OpCreate(owner, name, value));
      RunOk(t, ops) && Bracketed(t, ops, EmptySlot(s.sems, 0), {})
    ensures var t, i := Step(s, OpCreate(owner, name, value)), EmptySlot(s.sems, 0);
      && i < |After(t, ops).sems| && var m := After(t, ops).sems[i];
      var inside := Inside(m, Users(t, ops, i, {}));
      |inside| <= value && (m.queue != [] ==> |inside| == value)
  {
    hide Sound, RunOk, Bracketed, Users, After;
    var t, i := Step(s, OpCreate(owner, name, value)), EmptySlot(s.sems, 0);
    StepKeepsSound(s, OpCreate(owner, name, value));
    BracketsExclude(t, ops, i);
  }
}
