/**
 How a run of the air reservation ends: every run is finite, a run that cannot go on has served every
 customer, and the state then satisfies everything the master program checks.
 */
module AirEnd {
  import opened Basics
  import opened Semaphores
  import opened Counting
  import opened Air
  import opened AirSemaphores
  import opened AirLine
  import opened AirBooking
  import opened AirTheorems

  // ---------------------------------------------------------------- permutations of 0 .. n-1

  /** n different numbers below n are all the numbers below n. */
  lemma FullRange(a: seq<nat>, v: nat)
    requires forall i, j :: 0 <= i < j < |a| ==> a[i] != a[j]
    requires forall i :: 0 <= i < |a| ==> a[i] < |a|
    requires v < |a|
    ensures v in a
  {
    InjectiveCard(a);
    var u, w := Elements(a), Below(|a|);
    if v !in a {
      SmallerCard(u, w - {v});
    }
  }

  // ---------------------------------------------------------------- the state at the end

  /** Everybody done: the ids 0 to N-1 were each given out once, and each was served. */
  lemma AllServed(cfg: Config, s: State, id: nat)
    requires Inv(cfg, s) && Stuck(cfg, s) && id < cfg.N()
    ensures id in s.served && Count(s.custs, CollectedBy(id)) == 1
  {
    var ids := seq(|s.custs|, i requires 0 <= i < |s.custs| => s.custs[i].id);
    SizesOf(cfg, s);
    forall i | 0 <= i < |s.custs| ensures s.custs[i].pc == Done { StuckMeansDone(cfg, s, i); }
    IdsAreDistinct(cfg, s, ids);
    FullRange(ids, id);
    var i :| 0 <= i < |ids| && ids[i] == id;
    ServedOnce(cfg, s, i);
  }

  lemma IdsAreDistinct(cfg: Config, s: State, ids: seq<nat>)
    requires Line(cfg, s) && |ids| == |s.custs| == cfg.N() && forall i :: 0 <= i < |ids| ==> ids[i] == s.custs[i].id
    requires forall i :: 0 <= i < |s.custs| ==> s.custs[i].pc == Done
    ensures forall i, j :: 0 <= i < j < |ids| ==> ids[i] != ids[j]
    ensures forall i :: 0 <= i < |ids| ==> ids[i] < cfg.N()
  {
    hide TailInv, HeadInv;
    forall i | 0 <= i < |ids| ensures ids[i] < cfg.N() {
      assert IdOk(s, s.custs[i]);
    }
  }

  lemma ServedOnce(cfg: Config, s: State, i: nat)
    requires Inv(cfg, s) && Stuck(cfg, s) && i < |s.custs| && s.custs[i].pc == Done && s.custs[i].id < cfg.N()
    ensures s.custs[i].id in s.served && Count(s.custs, CollectedBy(s.custs[i].id)) == 1
  {
    hide Count, SemInv, Line, Book, Stuck, Avail;
    var id := s.custs[i].id;
    ServedAtEnd(cfg, s, i);
    CountSome(s.custs, CollectedBy(id), i);
    PlacesLeft(cfg, s, Finished(id));
    assert Avail(cfg, s, Finished(id)) == 1 - Count(s.custs, CollectedBy(id)) by { FinishedPlaces(cfg, s, id); }
  }

  lemma FinishedPlaces(cfg: Config, s: State, id: nat)
    ensures Avail(cfg, s, Finished(id)) == Bit(id in s.served) - Count(s.custs, CollectedBy(id))
  {
  }

  lemma ServedAtEnd(cfg: Config, s: State, i: nat)
    requires Inv(cfg, s) && Stuck(cfg, s) && i < |s.custs| && s.custs[i].pc == Done
    ensures s.custs[i].id in s.served
  {
    StuckOutside(cfg, s);
    StuckCounts(cfg, s);
    hide Count, SemInv, Book, Stuck;
    assert TailOk(s, s.custs[i]);
    assert Among(s.line, s.queueIn, s.custs[i].id);
    assert !SomeoneAt(s, s.custs[i].id);
  }

  /** The values the master program asserts. */
  ghost predicate MasterIsHappy(cfg: Config, s: State) {
    && SemOf(s, CounterCS).value == 1 && SemOf(s, QueueCS).value == 1
    && SemOf(s, Flight1CS).value == 1 && SemOf(s, Flight2CS).value == 1
    && SemOf(s, ClerkToken).value == cfg.tokens
    && SemOf(s, CustReady).value + cfg.clerks == 0
    && SemOf(s, Terminated).value == 0
    && (forall id: nat :: id < cfg.N() ==> SemOf(s, Finished(id)).value == 0)
  }

  /** Only clerks wait, and only for customers. */
  lemma StuckQueues(cfg: Config, s: State, x: SemId)
    requires Inv(cfg, s) && Stuck(cfg, s) && Known(cfg, x)
    ensures x in s.sems
    ensures x != CustReady ==> s.sems[x].value == Avail(cfg, s, x)
    ensures x == CustReady ==> s.sems[x].value + cfg.clerks == 0
  {
    hide Line, Book, Avail;
    assert QueueOk(cfg, s, x);
    var queue := s.sems[x].queue;
    if x == CustReady {
      forall p | p in queue ensures p.Clrk? && p.j < cfg.clerks { OnlyClerksQueue(cfg, s, x, p); }
      AllClerksQueue(cfg, s, queue);
    } else if queue != [] {
      OnlyClerksQueue(cfg, s, x, queue[0]);
      assert false;
    }
  }

  lemma OnlyClerksQueue(cfg: Config, s: State, x: SemId, p: Proc)
    requires Inv(cfg, s) && Stuck(cfg, s) && Known(cfg, x) && x in s.sems && p in s.sems[x].queue
    ensures p.Clrk? && p.j < cfg.clerks && x == CustReady
  {
    hide Line, Book, Avail;
    assert QueueOk(cfg, s, x);
    SizesOf(cfg, s);
    MainCollected(cfg, s);
    StuckOutside(cfg, s);
    forall i | 0 <= i < |s.custs| ensures s.custs[i].pc == Done { StuckMeansDone(cfg, s, i); }
    assert WaitsOn(cfg, s, p) == [x];
  }

  lemma MainCollected(cfg: Config, s: State)
    requires Inv(cfg, s) && Stuck(cfg, s)
    ensures s.mainWaits >= cfg.N()
  {
    hide Line, Book;
    if s.mainWaits < cfg.N() {
      forall i | 0 <= i < |s.custs| ensures s.custs[i].pc == Done { StuckMeansDone(cfg, s, i); }
      SomebodyMoves(cfg, s);
      assert false;
    }
  }

  lemma AllClerksQueue(cfg: Config, s: State, queue: seq<Proc>)
    requires Inv(cfg, s) && Stuck(cfg, s) && queue == s.sems[CustReady].queue
    requires forall p :: p in queue ==> p.Clrk? && p.j < cfg.clerks
    ensures |queue| == cfg.clerks
  {
    hide Line, Book, Avail;
    SizesOf(cfg, s);
    assert QueueOk(cfg, s, CustReady);
    var js := seq(|queue|, i requires 0 <= i < |queue| => queue[i].j);
    forall a, b | 0 <= a < b < |js| ensures js[a] != js[b] {
      assert queue[a] != queue[b] && queue[a] in queue && queue[b] in queue;
    }
    forall j: nat | j < cfg.clerks ensures j in js {
      StuckOutside(cfg, s);
      assert !Enabled(cfg, s, Clrk(j));
      assert BlockedOk(cfg, s, Clrk(j));
      var i :| 0 <= i < |queue| && queue[i] == Clrk(j);
      assert js[i] == j;
    }
    InjectiveCard(js);
    forall i | 0 <= i < |js| ensures js[i] < cfg.clerks { assert queue[i] in queue; }
    assert Elements(js) == Below(cfg.clerks);
  }

  /** When nothing can move any more, all customers are done, the semaphores have the values the master
      asserts, everybody is on exactly the flights it ordered or on none, and if the tickets suffice the
      master's search finds everybody. */
  lemma StuckIsFinal(cfg: Config, s: State)
    requires Inv(cfg, s) && Stuck(cfg, s)
    ensures forall i :: 0 <= i < |s.custs| ==> s.custs[i].pc == Done
    ensures forall x :: Known(cfg, x) ==> x in s.sems
    ensures MasterIsHappy(cfg, s)
    ensures forall id: nat :: id < cfg.N() ==> Settled(cfg.flight[id], StatusOf(s, id))
    ensures Suffices(cfg) ==> forall id: nat :: id < cfg.N() ==>
              (cfg.flight[id] != 2 ==> On1(s, id)) && (cfg.flight[id] != 1 ==> On2(s, id))
  {
    hide Line, SemInv, Among, On1, On2;
    forall i | 0 <= i < |s.custs| ensures s.custs[i].pc == Done { StuckMeansDone(cfg, s, i); }
    forall x | Known(cfg, x) ensures x in s.sems { StuckQueues(cfg, s, x); }
    forall id: nat | id < cfg.N() ensures id in s.served && Count(s.custs, CollectedBy(id)) == 1 {
      AllServed(cfg, s, id);
    }
    StuckValues(cfg, s);
  }

  lemma StuckValues(cfg: Config, s: State)
    requires Inv(cfg, s) && Stuck(cfg, s)
    requires forall id: nat :: id < cfg.N() ==> id in s.served && Count(s.custs, CollectedBy(id)) == 1
    ensures MasterIsHappy(cfg, s)
  {
    hide Inv, Stuck, Avail, Count;
    StuckPlaces(cfg, s);
    forall x | Known(cfg, x) ensures x in s.sems { StuckQueues(cfg, s, x); }
    StuckQueues(cfg, s, CounterCS);
    StuckQueues(cfg, s, QueueCS);
    StuckQueues(cfg, s, Flight1CS);
    StuckQueues(cfg, s, Flight2CS);
    StuckQueues(cfg, s, ClerkToken);
    StuckQueues(cfg, s, CustReady);
    StuckQueues(cfg, s, Terminated);
    forall id: nat | id < cfg.N() ensures SemOf(s, Finished(id)).value == 0 { StuckQueues(cfg, s, Finished(id)); }
  }

  /** The places left at each semaphore. */
  lemma StuckPlaces(cfg: Config, s: State)
    requires Inv(cfg, s) && Stuck(cfg, s)
    requires forall id: nat :: id < cfg.N() ==> id in s.served && Count(s.custs, CollectedBy(id)) == 1
    ensures Avail(cfg, s, CounterCS) == Avail(cfg, s, QueueCS) == Avail(cfg, s, Flight1CS)
      == Avail(cfg, s, Flight2CS) == 1
    ensures Avail(cfg, s, ClerkToken) == cfg.tokens && Avail(cfg, s, Terminated) == 0
    ensures forall id: nat :: id < cfg.N() ==> Avail(cfg, s, Finished(id)) == 0
  {
    hide Line, SemInv, Book;
    StuckOutside(cfg, s);
    StuckCounts(cfg, s);
    SizesOf(cfg, s);
    forall i | 0 <= i < |s.custs| ensures s.custs[i].pc == Done { StuckMeansDone(cfg, s, i); }
    CountNone(s.custs, InCounter);
    CountNone(s.custs, CustInQueue);
    CountAll(s.custs, IsDone);
    CountNone(s.clerks, ClerkInQueue);
    CountNone(s.clerks, Holds1);
    CountNone(s.clerks, Holds2);
    MainCollected(cfg, s);
    PlacesLeft(cfg, s, Terminated);
  }

  lemma PlacesLeft(cfg: Config, s: State, x: SemId)
    requires SemInv(cfg, s) && Known(cfg, x)
    ensures Avail(cfg, s, x) >= 0
  {
    hide Avail;
    assert QueueOk(cfg, s, x);
  }

  // ---------------------------------------------------------------- every run is finite

  function CustWork(c: Customer): nat {
    2 * (12 - CRank(c.pc)) + Bit(!c.blocked)
  }

  function ClerkWork(k: Clerk): nat {
    (if k.pc == WaitReady then 0 else 2 * (20 - KRank(k.pc))) + Bit(!k.blocked)
  }

  /** The steps that can still be taken at most. */
  function Measure(cfg: Config, s: State): int {
    Sum(s.custs, CustWork) + Sum(s.clerks, ClerkWork) + 40 * (cfg.N() - Begun(s))
    + 2 * (cfg.N() - s.mainWaits) + Bit(!s.mainBlocked)
  }

  lemma OneCust(cfg: Config, s: State, t: State, i: nat, c: Customer)
    requires i < |s.custs| && t.custs == s.custs[i := c] && t.clerks == s.clerks && t.queueOut == s.queueOut
    requires t.mainWaits == s.mainWaits && t.mainBlocked == s.mainBlocked
    ensures Measure(cfg, t) == Measure(cfg, s) - CustWork(s.custs[i]) + CustWork(c)
  {
    hide Count, Sum, CustWork;
    SumUpdate(s.custs, i, c, CustWork);
  }

  lemma OneClerk(cfg: Config, s: State, t: State, j: nat, k: Clerk)
    requires j < |s.clerks| && t.clerks == s.clerks[j := k] && t.custs == s.custs
    requires t.mainWaits == s.mainWaits && t.mainBlocked == s.mainBlocked
    ensures Measure(cfg, t) == Measure(cfg, s) - ClerkWork(s.clerks[j]) + ClerkWork(k)
                               - 40 * (t.queueOut - s.queueOut + Bit(Starting(k)) - Bit(Starting(s.clerks[j])))
  {
    hide Count, Sum, ClerkWork, Starting;
    SumUpdate(s.clerks, j, k, ClerkWork);
    CountUpdate(s.clerks, j, k, Starting);
  }

  lemma PassWorks(cfg: Config, s: State, p: Proc)
    requires Exists(s, p) && WaitsOn(cfg, s, p) != []
    ensures Measure(cfg, Pass(s, p)) < Measure(cfg, s)
  {
    hide Measure;
    match p
    case Cust(i) => OneCust(cfg, s, Pass(s, p), i, CustAfterWait(s.custs[i]));
    case Clrk(j) => OneClerk(cfg, s, Pass(s, p), j, ClerkAfterWait(s.clerks[j]));
    case Main => MainPasses(cfg, s);
  }

  lemma MainPasses(cfg: Config, s: State)
    ensures Measure(cfg, Pass(s, Main)) < Measure(cfg, s)
  {
    hide Sum, Count;
  }

  lemma BlockWorks(cfg: Config, s: State, p: Proc)
    requires Exists(s, p) && !Blocked(s, p)
    ensures Measure(cfg, Block(s, p)) < Measure(cfg, s)
  {
    match p
    case Cust(i) => OneCust(cfg, s, Block(s, p), i, s.custs[i].(blocked := true));
    case Clrk(j) => OneClerk(cfg, s, Block(s, p), j, s.clerks[j].(blocked := true));
    case Main => hide Sum, Count;
  }

  lemma MoveWorks(cfg: Config, s: State, p: Proc)
    requires Enabled(cfg, s, p) && WaitsOn(cfg, s, p) == []
    ensures Measure(cfg, Move(cfg, s, p)) < Measure(cfg, s)
  {
    hide Measure, CustEffect, ClerkEffect, CustGo, ClerkGo, CustWork, ClerkWork;
    match p
    case Cust(i) =>
      EffectFields(s, s.custs[i], Clerk(WaitReady, 0, 0, false));
      CustAdvances(s, s.custs[i]);
      OneCust(cfg, s, Move(cfg, s, p), i, CustGo(s, s.custs[i]));
    case Clrk(j) =>
      EffectFields(s, Customer(Done, 0, false), s.clerks[j]);
      ClerkAdvances(cfg, s, s.clerks[j]);
      OneClerk(cfg, s, Move(cfg, s, p), j, ClerkGo(cfg, s, s.clerks[j]));
  }

  lemma CustAdvances(s: State, c: Customer)
    requires CustWait(c) == [] && c.pc != Done
    ensures CustWork(CustGo(s, c)) < CustWork(c)
  {
  }

  lemma ClerkAdvances(cfg: Config, s: State, k: Clerk)
    requires ClerkWait(k) == []
    ensures ClerkWork(ClerkGo(cfg, s, k)) < ClerkWork(k)
    ensures Bit(k.pc == BumpOut) + Bit(Starting(ClerkGo(cfg, s, k))) == Bit(Starting(k))
  {
  }

  lemma SemsDoNotWork(cfg: Config, s: State, sems: map<SemId, Sem<Proc>>)
    ensures Measure(cfg, s.(sems := sems)) == Measure(cfg, s)
  {
  }

  /** Every step uses up some of the measure, */
  lemma StepWorks(cfg: Config, s: State, p: Proc)
    requires Inv(cfg, s) && Enabled(cfg, s, p)
    ensures Measure(cfg, Next(cfg, s, p)) < Measure(cfg, s)
  {
    IdsInRange(cfg, s);
    hide SemInv, Line, Book, Local, Measure, Next, Move, Pass, Block;
    var shape := NextShape(cfg, s, p);
    var t := Next(cfg, s, p);
    match shape
    case Blocks =>
      BlockWorks(cfg, s, p);
      SemsDoNotWork(cfg, Block(s, p), t.sems);
    case Passes =>
      PassWorks(cfg, s, p);
      SemsDoNotWork(cfg, Pass(s, p), t.sems);
    case Moves =>
      MoveWorks(cfg, s, p);
      SemsDoNotWork(cfg, Move(cfg, s, p), t.sems);
    case MovesAndReleases(q) =>
      MoveWorks(cfg, s, p);
      PassWorks(cfg, Move(cfg, s, p), q);
      SemsDoNotWork(cfg, Pass(Move(cfg, s, p), q), t.sems);
  }

  /** which is never negative, as the clerks begin at most one round for each customer. */
  lemma WorkLeft(cfg: Config, s: State)
    requires Inv(cfg, s)
    ensures Measure(cfg, s) >= 0
  {
    SizesOf(cfg, s);
    PlacesLeft(cfg, s, CustReady);
    assert QueueOk(cfg, s, Terminated) && Avail(cfg, s, Terminated) >= 0;
    hide SemInv, Line, Book;
  }

  lemma {:induction false} RunWorks(cfg: Config, s0: State, run: seq<Proc>)
    requires cfg.Valid() && Init(cfg, s0) && IsRun(cfg, s0, run)
    ensures |run| + Measure(cfg, Last(cfg, s0, run)) <= Measure(cfg, s0)
    decreases |run|
  {
    hide Measure, Next, Enabled, Init, Inv;
    if run != [] {
      var before := run[..|run| - 1];
      RunWorks(cfg, s0, before);
      RunKeepsInv(cfg, s0, before);
      StepWorks(cfg, Last(cfg, s0, before), run[|run| - 1]);
    }
  }

  lemma {:induction false} SumSame<T>(xs: seq<T>, f: T -> nat, v: nat)
    requires forall i :: 0 <= i < |xs| ==> f(xs[i]) == v
    ensures Sum(xs, f) == v * |xs|
  {
    if xs != [] {
      SumSame(xs[..|xs| - 1], f, v);
    }
  }

  /** No run of n customers and c clerks has more than 67 n + c + 1 steps. */
  lemma RunsAreBounded(cfg: Config, s0: State, run: seq<Proc>)
    requires cfg.Valid() && Init(cfg, s0) && IsRun(cfg, s0, run)
    ensures |run| <= 67 * cfg.N() + cfg.clerks + 1
  {
    RunWorks(cfg, s0, run);
    RunKeepsInv(cfg, s0, run);
    WorkLeft(cfg, Last(cfg, s0, run));
    SumSame(s0.custs, CustWork, 25);
    SumSame(s0.clerks, ClerkWork, 1);
    CountNone(s0.clerks, Starting);
    hide Sum, Count, Inv;
  }

  /** Every run can be completed, and however it is completed it ends as the master program demands. */
  lemma {:induction false} EveryRunCanFinish(cfg: Config, s0: State, run: seq<Proc>) returns (full: seq<Proc>)
    requires cfg.Valid() && Init(cfg, s0) && IsRun(cfg, s0, run)
    ensures run <= full && IsRun(cfg, s0, full) && Stuck(cfg, Last(cfg, s0, full))
    decreases 67 * cfg.N() + cfg.clerks + 1 - |run|
  {
    hide Next, Enabled, Init;
    var s := Last(cfg, s0, run);
    if Stuck(cfg, s) {
      full := run;
    } else {
      var p :| Enabled(cfg, s, p);
      var longer := run + [p];
      assert longer[..|longer| - 1] == run;
      RunsAreBounded(cfg, s0, longer);
      full := EveryRunCanFinish(cfg, s0, longer);
    }
  }

  // ---------------------------------------------------------------- the master's check

  /** find: does `val` occur among the first `size` entries? */
  method Find(arr: seq<nat>, size: nat, val: nat) returns (result: int)
    requires size <= |arr|
    ensures result == if val in arr[..size] then 1 else 0
  {
    result := 0;
    var i := 0;
    while i < size
      invariant 0 <= i <= size
      invariant result == 0 && val !in arr[..i]
    {
      if arr[i] == val {
        result := 1;
        break;
      }
      i := i + 1;
    }
  }

  /** The customers who ordered flight 1 come first, then flight 2, then both. */
  predicate LaidOut(cfg: Config, n1: nat, n2: nat) {
    n1 + n2 <= cfg.N()
    && forall id :: 0 <= id < cfg.N() ==> cfg.flight[id] == if id < n1 then 1 else if id < n1 + n2 then 2 else 3
  }

  /** The three checking loops at the end of the master program; false where the source panics. */
  method CheckBookings(cfg: Config, s: State, n1: nat, n2: nat) returns (ok: bool)
    requires LaidOut(cfg, n1, n2)
    ensures ok <==> forall id :: 0 <= id < cfg.N() ==>
                      (cfg.flight[id] != 2 ==> id in s.arr1) && (cfg.flight[id] != 1 ==> id in s.arr2)
  {
    var f := 0;
    while f < n1
      invariant 0 <= f <= n1
      invariant forall id :: 0 <= id < f ==> id in s.arr1
    {
      var r := Find(s.arr1, |s.arr1|, f);
      assert s.arr1[..|s.arr1|] == s.arr1;
      if r != 1 { return false; }
      f := f + 1;
    }
    while f < n1 + n2
      invariant n1 <= f <= n1 + n2
      invariant forall id :: n1 <= id < f ==> id in s.arr2
    {
      var r := Find(s.arr2, |s.arr2|, f);
      assert s.arr2[..|s.arr2|] == s.arr2;
      if r != 1 { return false; }
      f := f + 1;
    }
    while f < cfg.N()
      invariant n1 + n2 <= f <= cfg.N()
      invariant forall id :: n1 + n2 <= id < f ==> id in s.arr1 && id in s.arr2
    {
      var r1 := Find(s.arr1, |s.arr1|, f);
      var r2 := Find(s.arr2, |s.arr2|, f);
      assert s.arr1[..|s.arr1|] == s.arr1 && s.arr2[..|s.arr2|] == s.arr2;
      if r1 != 1 || r2 != 1 { return false; }
      f := f + 1;
    }
    return true;
  }

  /** Every run that cannot go on has finished all customers, served and collected each id exactly once, left the
      semaphores at the values the master asserts, and put everybody on exactly the flights it ordered or on none. */
  lemma RunsEndSettled(cfg: Config, s0: State, run: seq<Proc>)
    requires cfg.Valid() && Init(cfg, s0) && IsRun(cfg, s0, run) && Stuck(cfg, Last(cfg, s0, run))
    ensures var s := Last(cfg, s0, run);
      && (forall i :: 0 <= i < |s.custs| ==> s.custs[i].pc == Done)
      && (forall id: nat :: id < cfg.N() ==>
            id in s.served && Count(s.custs, CollectedBy(id)) == 1 && Settled(cfg.flight[id], StatusOf(s, id)))
      && MasterIsHappy(cfg, s)
  {
    hide Init, IsRun, Inv, Stuck, MasterIsHappy, Suffices, Settled, StatusOf;
    RunKeepsInv(cfg, s0, run);
    var s := Last(cfg, s0, run);
    StuckIsFinal(cfg, s);
    forall id: nat | id < cfg.N() ensures id in s.served && Count(s.custs, CollectedBy(id)) == 1 {
      AllServed(cfg, s, id);
    }
  }

  /** Whatever the interleaving, if the tickets suffice the master program reports success: every check of the
      final state that can panic passes once nothing moves any more. */
  lemma MasterSucceeds(cfg: Config, s0: State, run: seq<Proc>)
    requires cfg.Valid() && Init(cfg, s0) && IsRun(cfg, s0, run) && Stuck(cfg, Last(cfg, s0, run)) && Suffices(cfg)
    ensures var s := Last(cfg, s0, run);
      && MasterIsHappy(cfg, s)
      && forall id :: 0 <= id < cfg.N() ==>
           (cfg.flight[id] != 2 ==> id in s.arr1) && (cfg.flight[id] != 1 ==> id in s.arr2)
  {
    hide Init, IsRun, Inv, Stuck, MasterIsHappy, Suffices;
    RunKeepsInv(cfg, s0, run);
    StuckIsFinal(cfg, Last(cfg, s0, run));
  }
}
