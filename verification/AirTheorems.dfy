/**
 The main theorems about the air reservation: the invariant of every run, what it says about the
 bookings and the queue, and freedom from deadlock.
 */
module AirTheorems {
  import opened Counting
  import opened Air
  import opened AirSemaphores
  import opened AirLine
  import opened AirBooking

  ghost predicate Inv(cfg: Config, s: State) {
    cfg.Valid() && SemInv(cfg, s) && Line(cfg, s) && Book(cfg, s)
  }

  lemma InitSems(cfg: Config, s: State)
    requires cfg.Valid() && Init(cfg, s)
    ensures SemInv(cfg, s)
  {
    CountNone(s.custs, InCounter);
    CountNone(s.custs, CustInQueue);
    CountNone(s.custs, Admitted);
    CountNone(s.custs, Readied);
    CountNone(s.custs, IsDone);
    CountNone(s.clerks, ClerkInQueue);
    CountNone(s.clerks, Holds1);
    CountNone(s.clerks, Holds2);
    CountNone(s.clerks, Starting);
    CountNone(s.clerks, Serving);
    forall id: nat ensures Count(s.custs, CollectedBy(id)) == 0 { CountNone(s.custs, CollectedBy(id)); }
    hide Count;
  }

  lemma InitLine(cfg: Config, s: State)
    requires cfg.Valid() && Init(cfg, s)
    ensures Line(cfg, s)
  {
    CountNone(s.custs, Counted);
    CountNone(s.custs, Queued);
    hide Count;
  }

  lemma InitBook(cfg: Config, s: State)
    requires cfg.Valid() && Init(cfg, s)
    ensures Book(cfg, s)
  {
    CountNone(s.clerks, Pending1);
    CountNone(s.clerks, Pending2);
    hide Count;
  }

  /** Every step of every process, in any state that satisfies the invariant, leads to another one. */
  lemma StepKeepsInv(cfg: Config, s: State, p: Proc)
    requires Inv(cfg, s) && Enabled(cfg, s, p)
    ensures Inv(cfg, Next(cfg, s, p))
  {
    hide SemInv, Line, Next, Enabled, Local;
    IdsInRange(cfg, s);
    StepKeepsSems(cfg, s, p);
    StepKeepsLine(cfg, s, p);
    StepKeepsBook(cfg, s, p);
  }

  /** A run in which every step was possible. */
  ghost predicate IsRun(cfg: Config, s0: State, run: seq<Proc>)
    decreases |run|
  {
    run == [] || (IsRun(cfg, s0, run[..|run| - 1]) && Enabled(cfg, Last(cfg, s0, run[..|run| - 1]), run[|run| - 1]))
  }

  /** The invariant holds after every run, whatever the interleaving. */
  lemma {:induction false} RunKeepsInv(cfg: Config, s0: State, run: seq<Proc>)
    requires cfg.Valid() && Init(cfg, s0) && IsRun(cfg, s0, run)
    ensures Inv(cfg, Last(cfg, s0, run))
    decreases |run|
  {
    hide SemInv, Line, Book, Init, Next, Enabled;
    if run == [] {
      InitSems(cfg, s0);
      InitLine(cfg, s0);
      InitBook(cfg, s0);
    } else {
      RunKeepsInv(cfg, s0, run[..|run| - 1]);
      StepKeepsInv(cfg, Last(cfg, s0, run[..|run| - 1]), run[|run| - 1]);
    }
  }

  // ---------------------------------------------------------------- safety

  lemma FreeMeansNobody(cfg: Config, s: State, j: nat)
    requires SemInv(cfg, s) && j < |s.clerks|
    ensures s.sems[Flight1CS].value == 1 ==> !Holds1(s.clerks[j])
    ensures s.sems[Flight2CS].value == 1 ==> !Holds2(s.clerks[j])
  {
    hide Count;
    assert QueueOk(cfg, s, Flight1CS) && QueueOk(cfg, s, Flight2CS);
    if Holds1(s.clerks[j]) { CountSome(s.clerks, Holds1, j); }
    if Holds2(s.clerks[j]) { CountSome(s.clerks, Holds2, j); }
  }

  lemma Flight1Books(cfg: Config, s: State)
    requires Inv(cfg, s) && s.sems[Flight1CS].value == 1
    ensures s.left1 + s.cnt1 == cfg.tickets1 && 0 <= s.cnt1 <= |s.arr1|
    ensures forall a, b :: 0 <= a < b < s.cnt1 ==> s.arr1[a] != s.arr1[b]
    ensures forall a :: 0 <= a < s.cnt1 ==> s.arr1[a] < cfg.N() && cfg.flight[s.arr1[a]] in {1, 3}
  {
    hide SemInv, Line, StatusOk, StatusOf;
    forall j | 0 <= j < |s.clerks| ensures !Pending1(s.clerks[j]) {
      assert ClerkOk(cfg, s, s.clerks[j]);
      FreeMeansNobody(cfg, s, j);
    }
    CountNone(s.clerks, Pending1);
  }

  lemma Flight2Books(cfg: Config, s: State)
    requires Inv(cfg, s) && s.sems[Flight2CS].value == 1
    ensures s.left2 + s.cnt2 == cfg.tickets2 && 0 <= s.cnt2 <= |s.arr2|
    ensures forall a, b :: 0 <= a < b < s.cnt2 ==> s.arr2[a] != s.arr2[b]
    ensures forall a :: 0 <= a < s.cnt2 ==> s.arr2[a] < cfg.N() && cfg.flight[s.arr2[a]] in {2, 3}
  {
    hide SemInv, Line, StatusOk, StatusOf;
    forall j | 0 <= j < |s.clerks| ensures !Pending2(s.clerks[j]) {
      assert ClerkOk(cfg, s, s.clerks[j]);
      FreeMeansNobody(cfg, s, j);
    }
    CountNone(s.clerks, Pending2);
  }

  lemma BothOrNone(cfg: Config, s: State, id: nat)
    requires Inv(cfg, s) && s.sems[Flight1CS].value == 1 && s.sems[Flight2CS].value == 1 && id < cfg.N()
    ensures Settled(cfg.flight[id], StatusOf(s, id))
  {
    hide SemInv, StatusOf, Flight1Ok, Flight2Ok;
    if Among(s.line, s.queueOut, id) {
      var i :| 0 <= i < s.queueOut && i < |s.line| && s.line[i] == id;
      if id !in s.served {
        var j :| 0 <= j < |s.clerks| && AtWork(s.clerks[j]) && s.clerks[j].id == id;
        assert ClerkOk(cfg, s, s.clerks[j]);
        FreeMeansNobody(cfg, s, j);
      }
    }
  }

  lemma LineOnce(cfg: Config, s: State)
    requires Inv(cfg, s)
    ensures s.queueOut <= s.queueIn <= |s.line|
    ensures forall a, b :: 0 <= a < b < s.queueIn ==> s.line[a] != s.line[b]
    ensures forall i, j :: 0 <= i < j < |s.clerks| && AtWork(s.clerks[i]) && AtWork(s.clerks[j]) ==>
      s.clerks[i].id != s.clerks[j].id
    ensures forall a :: 0 <= a < s.queueOut ==> (s.line[a] in s.served <==> !SomeoneAt(s, s.line[a]))
  {
    hide SemInv, Book;
    forall a | 0 <= a < s.queueOut ensures s.line[a] in s.served <==> !SomeoneAt(s, s.line[a]) {
      if SomeoneAt(s, s.line[a]) {
        var j :| 0 <= j < |s.clerks| && AtWork(s.clerks[j]) && s.clerks[j].id == s.line[a];
        assert HeadOk(s, s.clerks[j]);
      }
    }
  }

  lemma WritesInside(cfg: Config, s: State, p: Proc)
    requires Inv(cfg, s) && Enabled(cfg, s, p)
    ensures p.Cust? && s.custs[p.i].pc == PutId ==> s.queueIn < |s.line|
    ensures p.Clrk? && s.clerks[p.j].pc == TakeId ==> s.queueOut < |s.line|
    ensures p.Clrk? && s.clerks[p.j].pc == Put1 ==> s.cnt1 < |s.arr1|
    ensures p.Clrk? && s.clerks[p.j].pc == Put2 ==> s.cnt2 < |s.arr2|
    ensures p.Clrk? && s.clerks[p.j].pc in {Mark1, Mark2} ==> s.clerks[p.j].id < |s.booked|
  {
    SemaphoresExclude(cfg, s);
    hide SemInv, IdInv, TailInv, HeadInv, Book, Mutex;
    match p
    case Cust(i) => if s.custs[i].pc == PutId { PutIdTail(cfg, s, i); }
    case Clrk(j) =>
      var pc := s.clerks[j].pc;
      if pc == TakeId { GrantedFindsId(cfg, s, j); TakeIdHead(cfg, s, j); }
      if pc == Put1 { Put1Book(cfg, s, j); }
      if pc == Put2 { Put2Book(cfg, s, j); }
      if pc in {Mark1, Mark2} { HereFacts(cfg, s, j, pc); }
    case Main =>
  }

  // ---------------------------------------------------------------- safety of every run

  /** In every run, while flight 1 is not locked, its tickets left and its bookings are the initial tickets, and the
      booked array holds distinct customers that ordered flight 1 or both. */
  lemma Flight1Conserved(cfg: Config, s0: State, run: seq<Proc>)
    requires cfg.Valid() && Init(cfg, s0) && IsRun(cfg, s0, run)
    requires SemOf(Last(cfg, s0, run), Flight1CS).value == 1
    ensures var s := Last(cfg, s0, run);
      && s.left1 + s.cnt1 == cfg.tickets1 && 0 <= s.cnt1 <= |s.arr1|
      && (forall a, b :: 0 <= a < b < s.cnt1 ==> s.arr1[a] != s.arr1[b])
      && (forall a :: 0 <= a < s.cnt1 ==> s.arr1[a] < cfg.N() && cfg.flight[s.arr1[a]] in {1, 3})
  {
    hide SemInv, Line, Book, Init, IsRun;
    RunKeepsInv(cfg, s0, run);
    SemaphoresKnown(cfg, Last(cfg, s0, run));
    Flight1Books(cfg, Last(cfg, s0, run));
  }

  lemma Flight2Conserved(cfg: Config, s0: State, run: seq<Proc>)
    requires cfg.Valid() && Init(cfg, s0) && IsRun(cfg, s0, run)
    requires SemOf(Last(cfg, s0, run), Flight2CS).value == 1
    ensures var s := Last(cfg, s0, run);
      && s.left2 + s.cnt2 == cfg.tickets2 && 0 <= s.cnt2 <= |s.arr2|
      && (forall a, b :: 0 <= a < b < s.cnt2 ==> s.arr2[a] != s.arr2[b])
      && (forall a :: 0 <= a < s.cnt2 ==> s.arr2[a] < cfg.N() && cfg.flight[s.arr2[a]] in {2, 3})
  {
    hide SemInv, Line, Book, Init, IsRun;
    RunKeepsInv(cfg, s0, run);
    SemaphoresKnown(cfg, Last(cfg, s0, run));
    Flight2Books(cfg, Last(cfg, s0, run));
  }

  lemma SemaphoresKnown(cfg: Config, s: State)
    requires SemInv(cfg, s)
    ensures Flight1CS in s.sems && Flight2CS in s.sems
  {
    assert QueueOk(cfg, s, Flight1CS) && QueueOk(cfg, s, Flight2CS);
  }

  /** While neither flight is locked, every customer is on exactly the flights it ordered, or on none;
      so one that ordered both is on both or on neither. */
  lemma BothFlightsOrNeither(cfg: Config, s0: State, run: seq<Proc>, id: nat)
    requires cfg.Valid() && Init(cfg, s0) && IsRun(cfg, s0, run) && id < cfg.N()
    requires SemOf(Last(cfg, s0, run), Flight1CS).value == 1 && SemOf(Last(cfg, s0, run), Flight2CS).value == 1
    ensures Settled(cfg.flight[id], StatusOf(Last(cfg, s0, run), id))
  {
    hide SemInv, Line, Book, Init, IsRun, Settled, StatusOf;
    RunKeepsInv(cfg, s0, run);
    SemaphoresKnown(cfg, Last(cfg, s0, run));
    BothOrNone(cfg, Last(cfg, s0, run), id);
  }

  /** Every id is queued once and dequeued once, and the head never passes the tail: no two clerks work on one id,
      and a dequeued id is with a clerk until it has been served. */
  lemma QueuedAndDequeuedOnce(cfg: Config, s0: State, run: seq<Proc>)
    requires cfg.Valid() && Init(cfg, s0) && IsRun(cfg, s0, run)
    ensures var s := Last(cfg, s0, run);
      && s.queueOut <= s.queueIn <= |s.line|
      && (forall a, b :: 0 <= a < b < s.queueIn ==> s.line[a] != s.line[b])
      && (forall i, j :: 0 <= i < j < |s.clerks| && AtWork(s.clerks[i]) && AtWork(s.clerks[j]) ==>
            s.clerks[i].id != s.clerks[j].id)
      && (forall a :: 0 <= a < s.queueOut ==> (s.line[a] in s.served <==> !SomeoneAt(s, s.line[a])))
  {
    hide SemInv, Line, Book, Init, IsRun, SomeoneAt, AtWork;
    RunKeepsInv(cfg, s0, run);
    LineOnce(cfg, Last(cfg, s0, run));
  }

  /** No write of the protocol falls outside its array. */
  lemma NoOverrun(cfg: Config, s0: State, run: seq<Proc>, p: Proc)
    requires cfg.Valid() && Init(cfg, s0) && IsRun(cfg, s0, run) && Enabled(cfg, Last(cfg, s0, run), p)
    ensures var s := Last(cfg, s0, run);
      && (p.Cust? && s.custs[p.i].pc == PutId ==> s.queueIn < |s.line|)
      && (p.Clrk? && s.clerks[p.j].pc == TakeId ==> s.queueOut < |s.line|)
      && (p.Clrk? && s.clerks[p.j].pc == Put1 ==> s.cnt1 < |s.arr1|)
      && (p.Clrk? && s.clerks[p.j].pc == Put2 ==> s.cnt2 < |s.arr2|)
      && (p.Clrk? && s.clerks[p.j].pc in {Mark1, Mark2} ==> s.clerks[p.j].id < |s.booked|)
  {
    hide SemInv, Line, Book, Init, IsRun;
    RunKeepsInv(cfg, s0, run);
    WritesInside(cfg, Last(cfg, s0, run), p);
  }

  // ---------------------------------------------------------------- no deadlock

  ghost predicate Stuck(cfg: Config, s: State) {
    forall p :: !Enabled(cfg, s, p)
  }

  /** A blocked process waits on a semaphore with no free place. */
  lemma BlockedNoPlace(cfg: Config, s: State, p: Proc) returns (x: SemId)
    requires SemInv(cfg, s) && Exists(s, p) && Blocked(s, p)
    ensures WaitsOn(cfg, s, p) != [] && WaitsOn(cfg, s, p)[0] == x && x in s.sems && Avail(cfg, s, x) == 0
  {
    hide Avail;
    assert BlockedOk(cfg, s, p);
    x := WaitsOn(cfg, s, p)[0];
    assert QueueOk(cfg, s, x);
  }

  lemma StuckCust(cfg: Config, s: State, i: nat)
    requires SemInv(cfg, s) && Stuck(cfg, s) && i < |s.custs|
    ensures s.custs[i].pc == Done || (CustWait(s.custs[i]) != [] && Avail(cfg, s, CustWait(s.custs[i])[0]) == 0)
  {
    hide Avail;
    assert !Enabled(cfg, s, Cust(i));
    if s.custs[i].pc != Done { var x := BlockedNoPlace(cfg, s, Cust(i)); }
  }

  lemma StuckClerk(cfg: Config, s: State, j: nat)
    requires SemInv(cfg, s) && Stuck(cfg, s) && j < |s.clerks|
    ensures ClerkWait(s.clerks[j]) != [] && Avail(cfg, s, ClerkWait(s.clerks[j])[0]) == 0
  {
    hide Avail;
    assert !Enabled(cfg, s, Clrk(j));
    var x := BlockedNoPlace(cfg, s, Clrk(j));
  }

  /** Nobody can be stuck at a critical section, flight 2 before flight 1. */
  lemma StuckOutside(cfg: Config, s: State)
    requires SemInv(cfg, s) && Stuck(cfg, s)
    ensures forall i :: 0 <= i < |s.custs| ==> s.custs[i].pc in {WaitClerk, WaitFinished, Done}
    ensures forall j :: 0 <= j < |s.clerks| ==> s.clerks[j].pc == WaitReady
  {
    forall i | 0 <= i < |s.custs| ensures s.custs[i].pc in {WaitCounter, WaitClerk, WaitQueue, WaitFinished, Done} {
      StuckCust(cfg, s, i);
    }
    forall j | 0 <= j < |s.clerks| ensures s.clerks[j].pc in {WaitReady, EnterQueue, Lock1, Lock2} {
      StuckClerk(cfg, s, j);
    }
    CountNone(s.custs, InCounter);
    CountNone(s.custs, CustInQueue);
    CountNone(s.clerks, ClerkInQueue);
    CountNone(s.clerks, Holds2);
    hide Count, SemInv;
    forall i | 0 <= i < |s.custs| ensures s.custs[i].pc in {WaitClerk, WaitFinished, Done} { StuckCust(cfg, s, i); }
    forall j | 0 <= j < |s.clerks| ensures s.clerks[j].pc in {WaitReady, Lock1} { StuckClerk(cfg, s, j); }
    CountNone(s.clerks, Holds1);
    forall j | 0 <= j < |s.clerks| ensures s.clerks[j].pc == WaitReady { StuckClerk(cfg, s, j); }
  }

  /** The clerks have then dequeued everything that was queued, and finished with it. */
  lemma StuckCounts(cfg: Config, s: State)
    requires Inv(cfg, s) && Stuck(cfg, s)
    ensures Count(s.custs, Queued) == Count(s.custs, Readied) == Count(s.custs, Admitted) == s.queueOut == s.queueIn
    ensures Count(s.clerks, Serving) == 0
    ensures Avail(cfg, s, CustReady) == 0
  {
    hide Line, Book, SemInv;
    StuckOutside(cfg, s);
    SizesOf(cfg, s);
    StuckClerk(cfg, s, 0);
    CountNone(s.clerks, Starting);
    CountNone(s.clerks, Serving);
    CountMonotone(s.custs, Queued, Readied);
    CountMonotone(s.custs, Readied, Queued);
    CountMonotone(s.custs, Admitted, Readied);
    CountMonotone(s.custs, Readied, Admitted);
  }

  lemma SizesOf(cfg: Config, s: State)
    requires Inv(cfg, s)
    ensures |s.clerks| == cfg.clerks && |s.custs| == cfg.N() && |s.line| == cfg.N()
    ensures s.queueIn == Count(s.custs, Queued) && s.queueOut <= s.queueIn
  {
    hide Count;
  }

  lemma NobodyElseCollects(cfg: Config, s: State, i: nat)
    requires Line(cfg, s) && i < |s.custs| && s.custs[i].pc == WaitFinished
    ensures Count(s.custs, CollectedBy(s.custs[i].id)) == 0
  {
    hide TailInv, HeadInv;
    forall m | 0 <= m < |s.custs| ensures !Collected(s.custs[i].id, s.custs[m]) {
      if m < i { assert Counted(s.custs[m]) && Counted(s.custs[i]) ==> s.custs[m].id != s.custs[i].id; }
      if i < m { assert Counted(s.custs[i]) && Counted(s.custs[m]) ==> s.custs[i].id != s.custs[m].id; }
    }
    CountNone(s.custs, CollectedBy(s.custs[i].id));
  }

  /** So nobody waits for a cust_finished either, */
  lemma NotStuckAtFinished(cfg: Config, s: State, i: nat)
    requires Inv(cfg, s) && Stuck(cfg, s) && i < |s.custs|
    ensures s.custs[i].pc != WaitFinished
  {
    hide Count, Stuck, Book, Settled;
    var c := s.custs[i];
    if c.pc == WaitFinished {
      StuckCounts(cfg, s);
      StuckOutside(cfg, s);
      StuckCust(cfg, s, i);
      assert TailOk(s, c);
      var a :| 0 <= a < s.queueIn && a < |s.line| && s.line[a] == c.id;
      assert !SomeoneAt(s, c.id) by { hide Count, SemInv, Book; }
      NobodyElseCollects(cfg, s, i);
    }
  }

  /** nor for a clerk. */
  lemma StuckMeansDone(cfg: Config, s: State, i: nat)
    requires Inv(cfg, s) && Stuck(cfg, s) && i < |s.custs|
    ensures s.custs[i].pc == Done
  {
    hide SemInv, Line, Book;
    StuckOutside(cfg, s);
    NotStuckAtFinished(cfg, s, i);
    StuckCounts(cfg, s);
    StuckCust(cfg, s, i);
    assert cfg.tokens > 0;
  }

  lemma SomebodyMoves(cfg: Config, s: State)
    requires Inv(cfg, s) && ((exists i :: 0 <= i < |s.custs| && s.custs[i].pc != Done) || s.mainWaits < cfg.N())
    ensures exists p :: Enabled(cfg, s, p)
  {
    if Stuck(cfg, s) {
      forall i | 0 <= i < |s.custs| ensures s.custs[i].pc == Done { StuckMeansDone(cfg, s, i); }
      SizesOf(cfg, s);
      CountAll(s.custs, IsDone);
      assert !Enabled(cfg, s, Main);
      var x := BlockedNoPlace(cfg, s, Main);
      assert false;
    }
  }

  /** The reservation never deadlocks: after every run, while some customer is unfinished, or the master has not
      collected them all, some process can take a step. */
  lemma NoDeadlock(cfg: Config, s0: State, run: seq<Proc>)
    requires cfg.Valid() && Init(cfg, s0) && IsRun(cfg, s0, run)
    requires var s := Last(cfg, s0, run);
      (exists i :: 0 <= i < |s.custs| && s.custs[i].pc != Done) || s.mainWaits < cfg.N()
    ensures exists p :: Enabled(cfg, Last(cfg, s0, run), p)
  {
    hide SemInv, Line, Book, Init, IsRun, Enabled;
    RunKeepsInv(cfg, s0, run);
    SomebodyMoves(cfg, Last(cfg, s0, run));
  }
}
