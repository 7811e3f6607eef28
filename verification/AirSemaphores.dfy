/**
 What every step of the air reservation keeps about its semaphores: the free places of each one are an
 exact count of where the processes are, and a process is blocked iff it is queued at the semaphore it
 waits on.
 */
module AirSemaphores {
  import opened Basics
  import opened Semaphores
  import opened Counting
  import opened Air

  // ---------------------------------------------------------------- where processes are

  predicate InCounter(c: Customer) { 1 <= CRank(c.pc) <= 3 }
  predicate Admitted(c: Customer) { CRank(c.pc) >= 5 }
  predicate CustInQueue(c: Customer) { 6 <= CRank(c.pc) <= 8 }
  predicate Readied(c: Customer) { CRank(c.pc) >= 10 }
  predicate IsDone(c: Customer) { c.pc == Done }
  predicate Collected(id: nat, c: Customer) { CRank(c.pc) >= 11 && c.id == id }

  predicate ClerkInQueue(k: Clerk) { 2 <= KRank(k.pc) <= 4 }
  predicate Holds1(k: Clerk) { k.kind != 2 && 6 <= KRank(k.pc) <= 17 }
  predicate Holds2(k: Clerk) { k.kind != 1 && 7 <= KRank(k.pc) <= 16 }
  predicate Starting(k: Clerk) { 1 <= KRank(k.pc) <= 3 }
  predicate Serving(k: Clerk) { KRank(k.pc) >= 4 }

  /** The rounds the clerks have begun, and those they have finished. */
  function Begun(s: State): nat { s.queueOut + Count(s.clerks, Starting) }
  function Ended(s: State): int { s.queueOut - Count(s.clerks, Serving) }

  function CollectedBy(id: nat): Customer -> bool { c => Collected(id, c) }

  /** The number of free places of a semaphore, read off the positions of the processes. */
  function Avail(cfg: Config, s: State, x: SemId): int {
    match x
    case CounterCS => 1 - Count(s.custs, InCounter)
    case QueueCS => 1 - Count(s.custs, CustInQueue) - Count(s.clerks, ClerkInQueue)
    case Flight1CS => 1 - Count(s.clerks, Holds1)
    case Flight2CS => 1 - Count(s.clerks, Holds2)
    case ClerkToken => cfg.tokens - Count(s.custs, Admitted) + Ended(s)
    case CustReady => Count(s.custs, Readied) - Begun(s)
    case Terminated => Count(s.custs, IsDone) - s.mainWaits
    case Finished(id) => Bit(id in s.served) - Count(s.custs, CollectedBy(id))
  }

  predicate Known(cfg: Config, x: SemId) {
    x.Finished? ==> x.id < cfg.N()
  }

  ghost predicate QueueOk(cfg: Config, s: State, x: SemId)
    requires x in s.sems
  {
    && s.sems[x].Ok() && s.sems[x].Places() == Avail(cfg, s, x)
    && (forall a, b :: 0 <= a < b < |s.sems[x].queue| ==> s.sems[x].queue[a] != s.sems[x].queue[b])
    && (forall p :: p in s.sems[x].queue ==> Exists(s, p) && Blocked(s, p) && WaitsOn(cfg, s, p) == [x])
  }

  ghost predicate BlockedOk(cfg: Config, s: State, p: Proc) {
    Exists(s, p) && Blocked(s, p) ==>
      var w := WaitsOn(cfg, s, p); w != [] && w[0] in s.sems && p in s.sems[w[0]].queue
  }

  ghost predicate SemInv(cfg: Config, s: State) {
    && (forall x :: x in s.sems <==> Known(cfg, x))
    && (forall x :: x in s.sems ==> QueueOk(cfg, s, x))
    && (forall p :: BlockedOk(cfg, s, p))
  }

  /** A clerk past its dequeue knows the customer's flight type and is on the branch for it. */
  predicate KindOk(cfg: Config, k: Clerk) {
    && (KRank(k.pc) >= 5 ==> k.kind == Get(cfg.flight, k.id) && 1 <= k.kind <= 3)
    && (k.kind == 1 && KRank(k.pc) >= 5 ==> k.pc != Lock2 && !(12 <= KRank(k.pc) <= 16))
    && (k.kind == 2 && KRank(k.pc) >= 5 ==> k.pc != Lock1 && !(8 <= KRank(k.pc) <= 11) && k.pc != Release1)
  }

  // ---------------------------------------------------------------- counting a change of one process

  lemma CustChanged(cs: seq<Customer>, i: nat, c: Customer)
    requires i < |cs|
    ensures var d := cs[i];
      && Count(cs[i := c], InCounter) == Count(cs, InCounter) - Bit(InCounter(d)) + Bit(InCounter(c))
      && Count(cs[i := c], Admitted) == Count(cs, Admitted) - Bit(Admitted(d)) + Bit(Admitted(c))
      && Count(cs[i := c], CustInQueue) == Count(cs, CustInQueue) - Bit(CustInQueue(d)) + Bit(CustInQueue(c))
      && Count(cs[i := c], Readied) == Count(cs, Readied) - Bit(Readied(d)) + Bit(Readied(c))
      && Count(cs[i := c], IsDone) == Count(cs, IsDone) - Bit(IsDone(d)) + Bit(IsDone(c))
      && forall id: nat :: Count(cs[i := c], CollectedBy(id))
                           == Count(cs, CollectedBy(id)) - Bit(Collected(id, d)) + Bit(Collected(id, c))
  {
    CountUpdate(cs, i, c, InCounter);
    CountUpdate(cs, i, c, Admitted);
    CountUpdate(cs, i, c, CustInQueue);
    CountUpdate(cs, i, c, Readied);
    CountUpdate(cs, i, c, IsDone);
    forall id: nat ensures Count(cs[i := c], CollectedBy(id))
                           == Count(cs, CollectedBy(id)) - Bit(Collected(id, cs[i])) + Bit(Collected(id, c)) {
      CountUpdate(cs, i, c, CollectedBy(id));
    }
  }

  lemma ClerkChanged(ks: seq<Clerk>, j: nat, k: Clerk)
    requires j < |ks|
    ensures var d := ks[j];
      && Count(ks[j := k], ClerkInQueue) == Count(ks, ClerkInQueue) - Bit(ClerkInQueue(d)) + Bit(ClerkInQueue(k))
      && Count(ks[j := k], Holds1) == Count(ks, Holds1) - Bit(Holds1(d)) + Bit(Holds1(k))
      && Count(ks[j := k], Holds2) == Count(ks, Holds2) - Bit(Holds2(d)) + Bit(Holds2(k))
      && Count(ks[j := k], Starting) == Count(ks, Starting) - Bit(Starting(d)) + Bit(Starting(k))
      && Count(ks[j := k], Serving) == Count(ks, Serving) - Bit(Serving(d)) + Bit(Serving(k))
  {
    CountUpdate(ks, j, k, ClerkInQueue);
    CountUpdate(ks, j, k, Holds1);
    CountUpdate(ks, j, k, Holds2);
    CountUpdate(ks, j, k, Starting);
    CountUpdate(ks, j, k, Serving);
  }

  lemma CustWaitBits(c: Customer)
    ensures var c' := CustAfterWait(c);
      && Bit(InCounter(c')) == Bit(InCounter(c)) + Bit(c.pc == WaitCounter)
      && Bit(CustInQueue(c')) == Bit(CustInQueue(c)) + Bit(c.pc == WaitQueue)
      && Bit(Admitted(c')) == Bit(Admitted(c)) + Bit(c.pc == WaitClerk)
      && Bit(Readied(c')) == Bit(Readied(c)) && Bit(IsDone(c')) == Bit(IsDone(c))
      && (forall id: nat :: Bit(Collected(id, c')) == Bit(Collected(id, c)) + Bit(c.pc == WaitFinished && c.id == id))
  {
  }

  lemma ClerkWaitBits(cfg: Config, k: Clerk)
    requires KindOk(cfg, k)
    ensures var k' := ClerkAfterWait(k);
      && Bit(ClerkInQueue(k')) == Bit(ClerkInQueue(k)) + Bit(k.pc == EnterQueue)
      && Bit(Holds1(k')) == Bit(Holds1(k)) + Bit(k.pc == Lock1)
      && Bit(Holds2(k')) == Bit(Holds2(k)) + Bit(k.pc == Lock2)
      && Bit(Starting(k')) == Bit(Starting(k)) + Bit(k.pc == WaitReady)
      && Bit(Serving(k')) == Bit(Serving(k))
  {
  }

  /** Passing a wait takes a place of that semaphore and of no other. */
  lemma PassAvail(cfg: Config, s: State, p: Proc, y: SemId)
    requires Exists(s, p) && WaitsOn(cfg, s, p) == [y]
    requires p.Clrk? ==> KindOk(cfg, s.clerks[p.j])
    ensures forall x :: Avail(cfg, Pass(s, p), x) == Avail(cfg, s, x) - Bit(x == y)
  {
    hide Avail, KindOk;
    match p
    case Cust(i) => CustPassAvail(cfg, s, i, y);
    case Clrk(j) => ClerkPassAvail(cfg, s, j, y);
    case Main => MainPassAvail(cfg, s, y);
  }

  lemma CustPassAvail(cfg: Config, s: State, i: nat, y: SemId)
    requires Exists(s, Cust(i)) && WaitsOn(cfg, s, Cust(i)) == [y]
    ensures forall x :: Avail(cfg, Pass(s, Cust(i)), x) == Avail(cfg, s, x) - Bit(x == y)
  {
    hide Count, CustAfterWait, CRank, KRank, InCounter, CustInQueue, Admitted, Readied, IsDone, Collected,
         ClerkInQueue, Holds1, Holds2, Starting, Serving;
    CustChanged(s.custs, i, CustAfterWait(s.custs[i]));
    CustWaitBits(s.custs[i]);
  }

  lemma ClerkPassAvail(cfg: Config, s: State, j: nat, y: SemId)
    requires Exists(s, Clrk(j)) && WaitsOn(cfg, s, Clrk(j)) == [y] && KindOk(cfg, s.clerks[j])
    ensures forall x :: Avail(cfg, Pass(s, Clrk(j)), x) == Avail(cfg, s, x) - Bit(x == y)
  {
    hide Count, ClerkAfterWait, CRank, KRank, InCounter, CustInQueue, Admitted, Readied, IsDone, Collected,
         ClerkInQueue, Holds1, Holds2, Starting, Serving, KindOk;
    ClerkChanged(s.clerks, j, ClerkAfterWait(s.clerks[j]));
    ClerkWaitBits(cfg, s.clerks[j]);
  }

  lemma MainPassAvail(cfg: Config, s: State, y: SemId)
    requires WaitsOn(cfg, s, Main) == [y]
    ensures forall x :: Avail(cfg, Pass(s, Main), x) == Avail(cfg, s, x) - Bit(x == y)
  {
    hide Count;
  }

  lemma BlockAvail(cfg: Config, s: State, p: Proc)
    requires Exists(s, p)
    ensures forall x :: Avail(cfg, Block(s, p), x) == Avail(cfg, s, x)
  {
    hide Count;
    match p
    case Cust(i) => CustChanged(s.custs, i, s.custs[i].(blocked := true));
    case Clrk(j) => ClerkChanged(s.clerks, j, s.clerks[j].(blocked := true));
    case Main =>
  }

  lemma CustBits(s: State, c: Customer, x: SemId)
    requires CustWait(c) == [] && c.pc != Done
    ensures var c', g := CustGo(s, c), Bit(CustSignal(c) == [x]);
      && (x == CounterCS ==> Bit(InCounter(c)) == Bit(InCounter(c')) + g)
      && (x == QueueCS ==> Bit(CustInQueue(c)) == Bit(CustInQueue(c')) + g)
      && (x == ClerkToken ==> Bit(Admitted(c)) == Bit(Admitted(c')) && g == 0)
      && (x == CustReady ==> Bit(Readied(c')) == Bit(Readied(c)) + g)
      && (x == Terminated ==> Bit(IsDone(c')) == Bit(IsDone(c)) + g)
      && (x.Finished? ==> g == 0)
      && (x == Flight1CS || x == Flight2CS ==> g == 0)
      && (forall id: nat :: Collected(id, c') <==> Collected(id, c))
  {
  }

  lemma ClerkBits(cfg: Config, s: State, k: Clerk, x: SemId)
    requires cfg.Valid() && ClerkWait(k) == []
    requires KindOk(cfg, k) && (k.pc == ExitQueue ==> k.id < cfg.N())
    ensures var k', g := ClerkGo(cfg, s, k), Bit(ClerkSignal(k) == [x]);
      && (x == QueueCS ==> Bit(ClerkInQueue(k)) == Bit(ClerkInQueue(k')) + g)
      && (x == Flight1CS ==> Bit(Holds1(k)) == Bit(Holds1(k')) + g)
      && (x == Flight2CS ==> Bit(Holds2(k)) == Bit(Holds2(k')) + g)
      && (x == CustReady ==> g == 0)
      && (x == ClerkToken ==> Bit(Serving(k')) == Bit(Serving(k)) + Bit(k.pc == BumpOut) - g)
      && (x.Finished? ==> g == Bit(k.pc == SayFinished && x.id == k.id))
      && (x == CounterCS || x == Terminated ==> g == 0)
      && Bit(Starting(k)) == Bit(Starting(k')) + Bit(k.pc == BumpOut)
  {
  }

  lemma EffectFields(s: State, c: Customer, k: Clerk)
    ensures var t := CustEffect(s, c);
      t.sems == s.sems && t.custs == s.custs && t.clerks == s.clerks && t.mainWaits == s.mainWaits
      && t.mainBlocked == s.mainBlocked && t.queueOut == s.queueOut && t.served == s.served
    ensures var t := ClerkEffect(s, k);
      t.sems == s.sems && t.custs == s.custs && t.clerks == s.clerks && t.mainWaits == s.mainWaits
      && t.mainBlocked == s.mainBlocked && t.queueOut == s.queueOut + Bit(k.pc == BumpOut)
      && t.served == s.served + (if k.pc == SayFinished then {k.id} else {})
  {
  }

  lemma CustMoveAvail(cfg: Config, s: State, i: nat, x: SemId)
    requires Enabled(cfg, s, Cust(i)) && WaitsOn(cfg, s, Cust(i)) == []
    ensures Avail(cfg, Move(cfg, s, Cust(i)), x) == Avail(cfg, s, x) + Bit(Signals(s, Cust(i)) == [x])
  {
    EffectFields(s, s.custs[i], Clerk(WaitReady, 0, 0, false));
    hide Count, CustGo, CustEffect, CustSignal, CRank, InCounter, CustInQueue, Admitted, Readied, IsDone, Collected;
    CustChanged(s.custs, i, CustGo(s, s.custs[i]));
    CustBits(s, s.custs[i], x);
  }

  lemma ClerkMoveAvail(cfg: Config, s: State, j: nat, x: SemId)
    requires cfg.Valid() && Enabled(cfg, s, Clrk(j)) && WaitsOn(cfg, s, Clrk(j)) == []
    requires KindOk(cfg, s.clerks[j])
    requires s.clerks[j].pc == ExitQueue ==> s.clerks[j].id < cfg.N()
    requires s.clerks[j].pc == SayFinished ==> s.clerks[j].id !in s.served
    ensures Avail(cfg, Move(cfg, s, Clrk(j)), x) == Avail(cfg, s, x) + Bit(Signals(s, Clrk(j)) == [x])
  {
    EffectFields(s, Customer(Done, 0, false), s.clerks[j]);
    hide Count, ClerkGo, ClerkEffect, ClerkSignal, KRank, ClerkInQueue, Holds1, Holds2, Starting, Serving, KindOk;
    ClerkChanged(s.clerks, j, ClerkGo(cfg, s, s.clerks[j]));
    ClerkBits(cfg, s, s.clerks[j], x);
  }

  /** Any other step frees a place of the semaphore it signals, if it signals one, and of no other. */
  lemma MoveAvail(cfg: Config, s: State, p: Proc)
    requires cfg.Valid() && Enabled(cfg, s, p) && WaitsOn(cfg, s, p) == []
    requires p.Clrk? ==> KindOk(cfg, s.clerks[p.j])
    requires p.Clrk? && s.clerks[p.j].pc == ExitQueue ==> s.clerks[p.j].id < cfg.N()
    requires p.Clrk? && s.clerks[p.j].pc == SayFinished ==> s.clerks[p.j].id !in s.served
    ensures forall x :: Avail(cfg, Move(cfg, s, p), x) == Avail(cfg, s, x) + Bit(Signals(s, p) == [x])
  {
    hide Count, ClerkGo, CustGo, ClerkEffect, CustEffect, Avail, KindOk;
    forall x ensures Avail(cfg, Move(cfg, s, p), x) == Avail(cfg, s, x) + Bit(Signals(s, p) == [x]) {
      match p
      case Cust(i) => CustMoveAvail(cfg, s, i, x);
      case Clrk(j) => ClerkMoveAvail(cfg, s, j, x);
      case Main =>
    }
  }

  // ---------------------------------------------------------------- steps keep the semaphores right

  /** What a state says about the waiting of one process. */
  ghost predicate SameWait(cfg: Config, s: State, t: State, q: Proc) {
    Exists(s, q) == Exists(t, q) && Blocked(s, q) == Blocked(t, q) && WaitsOn(cfg, s, q) == WaitsOn(cfg, t, q)
  }

  lemma OthersKeepWaiting(cfg: Config, s: State, p: Proc, q: Proc)
    requires q != p
    ensures SameWait(cfg, s, Pass(s, p), q) && SameWait(cfg, s, Block(s, p), q) && SameWait(cfg, s, Move(cfg, s, p), q)
  {
    hide SameWait, Pass, Block, Move;
    PassKeepsWaiting(cfg, s, p, q);
    BlockKeepsWaiting(cfg, s, p, q);
    MoveKeepsWaiting(cfg, s, p, q);
  }

  lemma PassKeepsWaiting(cfg: Config, s: State, p: Proc, q: Proc)
    requires q != p
    ensures SameWait(cfg, s, Pass(s, p), q)
  {
  }

  lemma BlockKeepsWaiting(cfg: Config, s: State, p: Proc, q: Proc)
    requires q != p
    ensures SameWait(cfg, s, Block(s, p), q)
  {
  }

  lemma MoveKeepsWaiting(cfg: Config, s: State, p: Proc, q: Proc)
    requires q != p
    ensures SameWait(cfg, s, Move(cfg, s, p), q)
  {
    hide CustGo, ClerkGo;
  }

  lemma SemsDoNotCount(cfg: Config, s: State, sems: map<SemId, Sem<Proc>>, x: SemId)
    ensures Avail(cfg, s.(sems := sems), x) == Avail(cfg, s, x)
  {
    hide Count;
  }

  lemma SemsDoNotWait(cfg: Config, s: State, sems: map<SemId, Sem<Proc>>, q: Proc)
    ensures SameWait(cfg, s, s.(sems := sems), q)
  {
  }

  /** Nothing about semaphore `x` changed from `s` to `t`, nor about the processes queued there. */
  lemma QueueUntouched(cfg: Config, s: State, t: State, x: SemId)
    requires x in s.sems && x in t.sems && t.sems[x] == s.sems[x] && QueueOk(cfg, s, x)
    requires Avail(cfg, t, x) == Avail(cfg, s, x)
    requires forall q :: q in s.sems[x].queue ==> SameWait(cfg, s, t, q)
    ensures QueueOk(cfg, t, x)
  {
    hide Avail, Exists, Blocked, WaitsOn;
  }

  /** The wait of a process that blocks. */
  lemma BlockKeeps(cfg: Config, s: State, p: Proc, x: SemId)
    requires SemInv(cfg, s) && Enabled(cfg, s, p) && WaitsOn(cfg, s, p) == [x] && Known(cfg, x) && s.sems[x].Blocks()
    ensures SemInv(cfg, Block(s.(sems := s.sems[x := s.sems[x].Wait(p)]), p))
  {
    var m, sems := s.sems[x], s.sems[x := s.sems[x].Wait(p)];
    var t := Block(s.(sems := sems), p);
    assert t.sems == sems && t == Block(s, p).(sems := sems);
    assert Exists(t, p) && Blocked(t, p) && WaitsOn(cfg, t, p) == [x];
    BlockAvail(cfg, s, p);
    hide Avail, Exists, Blocked, WaitsOn, Block, Enabled;
    forall y ensures Avail(cfg, t, y) == Avail(cfg, s, y) { SemsDoNotCount(cfg, Block(s, p), sems, y); }
    forall q | q != p ensures SameWait(cfg, s, t, q) {
      OthersKeepWaiting(cfg, s, p, q);
      SemsDoNotWait(cfg, Block(s, p), sems, q);
    }
    Requeued(cfg, s, t, p, x);
  }

  /** The queues of the other semaphores, when only `p` changed and it is queued at none of them. */
  lemma OtherQueues(cfg: Config, s: State, t: State, p: Proc, x: SemId)
    requires SemInv(cfg, s) && t.sems.Keys == s.sems.Keys
    requires forall y :: y in s.sems && y != x ==> t.sems[y] == s.sems[y] && Avail(cfg, t, y) == Avail(cfg, s, y)
    requires forall y :: y in s.sems && y != x ==> p !in s.sems[y].queue
    requires forall q :: q != p ==> SameWait(cfg, s, t, q)
    ensures forall y :: y in t.sems && y != x ==> QueueOk(cfg, t, y)
  {
    hide Avail, Exists, Blocked, WaitsOn;
    forall y | y in t.sems && y != x ensures QueueOk(cfg, t, y) {
      assert QueueOk(cfg, s, y);
      QueueUntouched(cfg, s, t, y);
    }
  }

  lemma QueuedNowhere(cfg: Config, s: State, p: Proc)
    requires SemInv(cfg, s) && !Blocked(s, p)
    ensures forall y :: y in s.sems ==> p !in s.sems[y].queue
  {
  }

  /** Every process other than `p` is blocked in `t` only where it is queued. */
  lemma OthersBlockedOk(cfg: Config, s: State, t: State, p: Proc)
    requires SemInv(cfg, s) && t.sems.Keys == s.sems.Keys
    requires forall q :: q != p ==> SameWait(cfg, s, t, q)
    requires forall y, q :: y in s.sems && q in s.sems[y].queue && q != p ==> q in t.sems[y].queue
    ensures forall q :: q != p ==> BlockedOk(cfg, t, q)
  {
    hide Avail, Exists, Blocked, WaitsOn;
    forall q | q != p ensures BlockedOk(cfg, t, q) {
      assert BlockedOk(cfg, s, q) && SameWait(cfg, s, t, q);
    }
  }

  /** The queue of `x` is right again once everybody in it still waits there and its places are recounted. */
  lemma QueueRewritten(cfg: Config, s: State, t: State, x: SemId)
    requires x in t.sems && t.sems[x].Ok() && t.sems[x].Places() == Avail(cfg, t, x)
    requires forall a, b :: 0 <= a < b < |t.sems[x].queue| ==> t.sems[x].queue[a] != t.sems[x].queue[b]
    requires x in s.sems && QueueOk(cfg, s, x)
    requires forall q :: q in t.sems[x].queue && q in s.sems[x].queue ==> SameWait(cfg, s, t, q)
    requires forall q :: q in t.sems[x].queue && q !in s.sems[x].queue ==>
               Exists(t, q) && Blocked(t, q) && WaitsOn(cfg, t, q) == [x]
    ensures QueueOk(cfg, t, x)
  {
    hide Avail, Exists, Blocked, WaitsOn;
  }

  /** `p`, which was queued nowhere, is now the last in the queue of `x`. */
  lemma Requeued(cfg: Config, s: State, t: State, p: Proc, x: SemId)
    requires SemInv(cfg, s) && Known(cfg, x) && !Blocked(s, p) && s.sems[x].Blocks()
    requires t.sems == s.sems[x := s.sems[x].Wait(p)]
    requires forall y :: Avail(cfg, t, y) == Avail(cfg, s, y)
    requires forall q :: q != p ==> SameWait(cfg, s, t, q)
    requires Exists(t, p) && Blocked(t, p) && WaitsOn(cfg, t, p) == [x]
    ensures SemInv(cfg, t)
  {
    hide Avail, Exists, Blocked, WaitsOn, SameWait, Known;
    QueuedNowhere(cfg, s, p);
    assert s.sems[x].Ok() && s.sems[x].Places() == Avail(cfg, s, x) by { assert QueueOk(cfg, s, x); }
    assert NoRepeats(s.sems[x].queue) by { assert QueueOk(cfg, s, x); }
    hide QueueOk, BlockedOk;
    assert t.sems.Keys == s.sems.Keys;
    assert t.sems[x].queue == s.sems[x].queue + [p];
    QueueRewritten(cfg, s, t, x);
    OtherQueues(cfg, s, t, p, x);
    OthersBlockedOk(cfg, s, t, p);
    BlockedHere(cfg, t, p, x);
    hide Semaphores.Sem.Ok, Semaphores.Sem.Places;
  }

  lemma BlockedHere(cfg: Config, t: State, p: Proc, x: SemId)
    requires !Blocked(t, p) || (WaitsOn(cfg, t, p) == [x] && x in t.sems && p in t.sems[x].queue)
    ensures BlockedOk(cfg, t, p)
  {
    hide Exists, Blocked, WaitsOn;
  }

  /** A semaphore changed its value only, and the one process that changed is blocked neither before nor after. */
  lemma Revalued(cfg: Config, s: State, t: State, p: Proc, x: SemId, d: int)
    requires SemInv(cfg, s) && Known(cfg, x) && !Blocked(s, p) && !Blocked(t, p)
    requires t.sems == s.sems[x := Sem(s.sems[x].value + d, s.sems[x].queue)] && t.sems[x].Ok()
    requires forall y :: Avail(cfg, t, y) == Avail(cfg, s, y) + if y == x then d else 0
    requires forall q :: q != p ==> SameWait(cfg, s, t, q)
    ensures SemInv(cfg, t)
  {
    QueuedNowhere(cfg, s, p);
    hide Avail, Exists, Blocked, WaitsOn, SameWait, Known;
    assert s.sems[x].Places() == Avail(cfg, s, x) by { assert QueueOk(cfg, s, x); }
    assert NoRepeats(s.sems[x].queue) by { assert QueueOk(cfg, s, x); }
    hide QueueOk, BlockedOk;
    assert t.sems.Keys == s.sems.Keys;
    QueueRewritten(cfg, s, t, x);
    OtherQueues(cfg, s, t, p, x);
    OthersBlockedOk(cfg, s, t, p);
    BlockedHere(cfg, t, p, x);
  }

  /** The queue of `x` without its oldest process. */
  lemma Shortened(cfg: Config, s: State, t: State, r: Proc, x: SemId)
    requires SemInv(cfg, s) && Known(cfg, x) && s.sems[x].Releases() && s.sems[x].queue != [] && !Blocked(s, r)
    requires t.sems == s.sems[x := s.sems[x].Signal()]
    requires Avail(cfg, t, x) == Avail(cfg, s, x)
    requires forall q :: q != s.sems[x].queue[0] && q != r ==> SameWait(cfg, s, t, q)
    ensures QueueOk(cfg, t, x)
    ensures forall q :: q in s.sems[x].queue && q != s.sems[x].queue[0] ==> q in t.sems[x].queue
  {
    var queue := s.sems[x].queue;
    QueuedNowhere(cfg, s, r);
    hide Avail, Exists, Blocked, WaitsOn, SameWait, Known;
    assert QueueOk(cfg, s, x);
    assert NoRepeats(queue);
    hide QueueOk, SemInv;
    assert t.sems[x].queue == queue[1..] && queue == [queue[0]] + queue[1..];
    assert forall q :: q in queue[1..] ==> q in queue;
    assert queue[0] !in queue[1..];
    QueueRewritten(cfg, s, t, x);
  }

  /** The oldest process in the queue of `x` was let go by `r`, which is not blocked. */
  lemma Dequeued(cfg: Config, s: State, t: State, r: Proc, x: SemId)
    requires SemInv(cfg, s) && Known(cfg, x) && s.sems[x].Releases() && s.sems[x].queue != []
    requires !Blocked(t, s.sems[x].queue[0]) && !Blocked(s, r) && !Blocked(t, r)
    requires t.sems == s.sems[x := s.sems[x].Signal()]
    requires forall y :: Avail(cfg, t, y) == Avail(cfg, s, y)
    requires forall q :: q != s.sems[x].queue[0] && q != r ==> SameWait(cfg, s, t, q)
    ensures SemInv(cfg, t)
  {
    hide Avail, Exists, Blocked, WaitsOn, SameWait, Known, QueueOk, BlockedOk;
    QueuedNowhere(cfg, s, r);
    var p := s.sems[x].queue[0];
    QueuedOnce(cfg, s, p, x);
    Shortened(cfg, s, t, r, x);
    assert t.sems.Keys == s.sems.Keys && forall y :: y in s.sems && y != x ==> t.sems[y] == s.sems[y];
    hide Semaphores.Sem.Releases, Semaphores.Sem.Signal;
    forall y | y in s.sems && y != x ensures QueueOk(cfg, t, y) { QueueUntouched(cfg, s, t, y); }
    forall q ensures BlockedOk(cfg, t, q) {
      if q == p || q == r {
        BlockedHere(cfg, t, q, x);
      } else {
        StillBlockedOk(cfg, s, t, q);
      }
    }
  }

  /** A queued process is queued nowhere else. */
  lemma QueuedOnce(cfg: Config, s: State, p: Proc, x: SemId)
    requires SemInv(cfg, s) && x in s.sems && p in s.sems[x].queue
    ensures forall y :: y in s.sems && y != x ==> p !in s.sems[y].queue
  {
    hide Avail, Exists, Blocked, WaitsOn;
    forall y | y in s.sems && y != x ensures p !in s.sems[y].queue {
      assert QueueOk(cfg, s, x) && QueueOk(cfg, s, y);
      assert [x][0] != [y][0];
    }
  }

  lemma StillBlockedOk(cfg: Config, s: State, t: State, q: Proc)
    requires BlockedOk(cfg, s, q) && SameWait(cfg, s, t, q) && t.sems.Keys == s.sems.Keys
    requires forall y :: y in s.sems && q in s.sems[y].queue ==> q in t.sems[y].queue
    ensures BlockedOk(cfg, t, q)
  {
    hide Avail, Exists, Blocked, WaitsOn;
  }

  /** What a step needs to know about where the processes are. */
  ghost predicate Local(cfg: Config, s: State) {
    && |s.custs| == cfg.N() && |s.clerks| == cfg.clerks
    && (forall i :: 0 <= i < |s.custs| ==> CRank(s.custs[i].pc) >= 2 ==> s.custs[i].id < cfg.N())
    && (forall j :: 0 <= j < |s.clerks| ==> KindOk(cfg, s.clerks[j]))
    && (forall j :: 0 <= j < |s.clerks| ==> KRank(s.clerks[j].pc) >= 3 ==> s.clerks[j].id < cfg.N())
    && (forall j :: 0 <= j < |s.clerks| ==> 4 <= KRank(s.clerks[j].pc) <= 18 ==> s.clerks[j].id !in s.served)
  }

  lemma WaitKeeps(cfg: Config, s: State, p: Proc)
    requires SemInv(cfg, s) && Local(cfg, s) && Enabled(cfg, s, p) && WaitsOn(cfg, s, p) != []
    ensures SemInv(cfg, Next(cfg, s, p))
  {
    var x := WaitsOn(cfg, s, p)[0];
    assert Known(cfg, x) && WaitsOn(cfg, s, p) == [x];
    var m := s.sems[x];
    if m.Blocks() {
      BlockKeeps(cfg, s, p, x);
    } else {
      PassKeeps(cfg, s, p, x);
    }
  }

  lemma PassKeeps(cfg: Config, s: State, p: Proc, x: SemId)
    requires SemInv(cfg, s) && Local(cfg, s) && Enabled(cfg, s, p)
    requires WaitsOn(cfg, s, p) == [x] && Known(cfg, x) && !s.sems[x].Blocks()
    ensures SemInv(cfg, Pass(s.(sems := s.sems[x := s.sems[x].Wait(p)]), p))
  {
    hide Avail, Exists, WaitsOn, Pass, KindOk, Blocked, Enabled, SameWait, QueueOk, BlockedOk;
    var sems := s.sems[x := s.sems[x].Wait(p)];
    PassSems(s, p, sems);
    ReadyToPass(cfg, s, p, x);
    PassSummary(cfg, s, p, x);
    SameAfterSems(cfg, s, Pass(s, p), sems, p);
    Revalued(cfg, s, Pass(s, p).(sems := sems), p, x, -1);
  }

  lemma ReadyToPass(cfg: Config, s: State, p: Proc, x: SemId)
    requires SemInv(cfg, s) && Local(cfg, s) && Enabled(cfg, s, p) && Known(cfg, x)
    ensures x in s.sems && s.sems[x].Ok() && Exists(s, p) && !Blocked(s, p)
    ensures p.Clrk? ==> KindOk(cfg, s.clerks[p.j])
  {
    hide Avail, WaitsOn, KindOk;
    assert QueueOk(cfg, s, x);
  }

  lemma MoveFacts(cfg: Config, s: State, p: Proc)
    requires Enabled(cfg, s, p) && WaitsOn(cfg, s, p) == []
    ensures var t := Move(cfg, s, p);
      !Blocked(t, p) && t.sems == s.sems && |t.custs| == |s.custs| && |t.clerks| == |s.clerks|
    ensures Signals(s, p) != [] ==> Signals(s, p) == [Signals(s, p)[0]]
  {
  }

  lemma MoveSummary(cfg: Config, s: State, p: Proc)
    requires cfg.Valid() && Local(cfg, s) && Enabled(cfg, s, p) && WaitsOn(cfg, s, p) == []
    ensures var t := Move(cfg, s, p);
      && !Blocked(s, p) && !Blocked(t, p) && t.sems == s.sems
      && (forall x :: Avail(cfg, t, x) == Avail(cfg, s, x) + Bit(Signals(s, p) == [x]))
      && (forall q :: q != p ==> SameWait(cfg, s, t, q))
  {
    MoveAvail(cfg, s, p);
    MoveFacts(cfg, s, p);
    hide Avail, WaitsOn, Signals, Move, KindOk, Local;
    forall q | q != p ensures SameWait(cfg, s, Move(cfg, s, p), q) { OthersKeepWaiting(cfg, s, p, q); }
  }

  lemma PassSummary(cfg: Config, s: State, p: Proc, y: SemId)
    requires Exists(s, p) && WaitsOn(cfg, s, p) == [y]
    requires p.Clrk? ==> KindOk(cfg, s.clerks[p.j])
    ensures var t := Pass(s, p);
      && !Blocked(t, p) && t.sems == s.sems
      && (forall x :: Avail(cfg, t, x) == Avail(cfg, s, x) - Bit(x == y))
      && (forall q :: q != p ==> SameWait(cfg, s, t, q))
  {
    PassAvail(cfg, s, p, y);
    hide Avail, WaitsOn, KindOk;
    forall q | q != p ensures SameWait(cfg, s, Pass(s, p), q) { OthersKeepWaiting(cfg, s, p, q); }
  }

  /** A step that neither waits nor signals. */
  lemma PlainKeeps(cfg: Config, s: State, p: Proc)
    requires cfg.Valid() && SemInv(cfg, s) && Local(cfg, s) && Enabled(cfg, s, p)
    requires WaitsOn(cfg, s, p) == [] && Signals(s, p) == []
    ensures SemInv(cfg, Next(cfg, s, p))
  {
    hide Avail, Exists, Blocked, Move, Enabled, KindOk, Local;
    MoveSummary(cfg, s, p);
    assert QueueOk(cfg, s, CounterCS);
    assert s.sems[CounterCS := s.sems[CounterCS]] == s.sems;
    Revalued(cfg, s, Move(cfg, s, p), p, CounterCS, 0);
  }

  lemma OthersUnmoved(cfg: Config, s: State, p: Proc, q: Proc)
    requires q != p
    ensures q.Clrk? && q.j < |s.clerks| ==>
      q.j < |Move(cfg, s, p).clerks| && Move(cfg, s, p).clerks[q.j] == s.clerks[q.j]
  {
  }

  /** A signal that hands the place on to the oldest waiter. */
  lemma ReleaseKeeps(cfg: Config, s: State, p: Proc, x: SemId)
    requires cfg.Valid() && SemInv(cfg, s) && Local(cfg, s) && Enabled(cfg, s, p)
    requires WaitsOn(cfg, s, p) == [] && Signals(s, p) == [x] && Known(cfg, x)
    requires s.sems[x].Releases() && s.sems[x].queue != []
    ensures SemInv(cfg, Pass(Move(cfg, s, p).(sems := s.sems[x := s.sems[x].Signal()]), s.sems[x].queue[0]))
  {
    hide Avail, Exists, Blocked, WaitsOn, Signals, Move, Pass, Enabled, KindOk, Local, QueueOk, BlockedOk;
    var u, sems, q := Move(cfg, s, p), s.sems[x := s.sems[x].Signal()], s.sems[x].queue[0];
    var t := Pass(u.(sems := sems), q);
    PassSems(u, q, sems);
    WaiterSummary(cfg, s, p, q, x);
    MoveSummary(cfg, s, p);
    PassSummary(cfg, u, q, x);
    SameAfterSems(cfg, s, Pass(u, q), sems, p);
    SameAfterSems(cfg, s, Pass(u, q), sems, q);
    forall o | o != p && o != q ensures SameWait(cfg, s, t, o) {
      assert SameWait(cfg, s, u, o) && SameWait(cfg, u, Pass(u, q), o);
    }
    assert SameWait(cfg, u, Pass(u, q), p);
    Dequeued(cfg, s, t, p, x);
  }

  lemma PassSems(s: State, q: Proc, sems: map<SemId, Sem<Proc>>)
    ensures Pass(s.(sems := sems), q) == Pass(s, q).(sems := sems)
  {
  }

  /** What is known of the oldest waiter `q` when `p` has signalled. */
  lemma WaiterSummary(cfg: Config, s: State, p: Proc, q: Proc, x: SemId)
    requires SemInv(cfg, s) && Local(cfg, s) && Enabled(cfg, s, p) && Known(cfg, x) && q in s.sems[x].queue
    ensures q != p && Exists(Move(cfg, s, p), q) && WaitsOn(cfg, Move(cfg, s, p), q) == [x]
    ensures q.Clrk? ==> KindOk(cfg, Move(cfg, s, p).clerks[q.j])
  {
    hide Avail, KindOk, WaitsOn;
    assert QueueOk(cfg, s, x);
    assert Blocked(s, q) && WaitsOn(cfg, s, q) == [x] && q != p;
    OthersKeepWaiting(cfg, s, p, q);
    OthersUnmoved(cfg, s, p, q);
  }

  /** A signal that nobody was waiting for. */
  lemma FreeKeeps(cfg: Config, s: State, p: Proc, x: SemId)
    requires cfg.Valid() && SemInv(cfg, s) && Local(cfg, s) && Enabled(cfg, s, p)
    requires WaitsOn(cfg, s, p) == [] && Signals(s, p) == [x] && Known(cfg, x) && !s.sems[x].Releases()
    ensures SemInv(cfg, Move(cfg, s, p).(sems := s.sems[x := Sem(s.sems[x].value + 1, s.sems[x].queue)]))
  {
    hide Avail, Exists, Blocked, WaitsOn, Signals, Move, Enabled, KindOk, Local, SameWait;
    var u, m := Move(cfg, s, p), s.sems[x];
    MoveSummary(cfg, s, p);
    assert QueueOk(cfg, s, x);
    var t := u.(sems := s.sems[x := Sem(m.value + 1, m.queue)]);
    SameAfterSems(cfg, s, u, t.sems, p);
    Revalued(cfg, s, t, p, x, 1);
  }

  /** Changing only the semaphores of `u` changes no position and no count. */
  lemma SameAfterSems(cfg: Config, s: State, u: State, sems: map<SemId, Sem<Proc>>, p: Proc)
    ensures var t := u.(sems := sems);
      && (forall x :: Avail(cfg, t, x) == Avail(cfg, u, x))
      && Blocked(t, p) == Blocked(u, p)
      && (forall q :: SameWait(cfg, s, u, q) ==> SameWait(cfg, s, t, q))
  {
    hide Avail, WaitsOn;
    var t := u.(sems := sems);
    forall x ensures Avail(cfg, t, x) == Avail(cfg, u, x) { SemsDoNotCount(cfg, u, sems, x); }
    SemsDoNotWait(cfg, u, sems, p);
    forall q | SameWait(cfg, s, u, q) ensures SameWait(cfg, s, t, q) { SemsDoNotWait(cfg, u, sems, q); }
  }

  lemma SignalKeeps(cfg: Config, s: State, p: Proc, x: SemId)
    requires cfg.Valid() && SemInv(cfg, s) && Local(cfg, s) && Enabled(cfg, s, p)
    requires WaitsOn(cfg, s, p) == [] && Signals(s, p) == [x] && Known(cfg, x)
    ensures SemInv(cfg, Next(cfg, s, p))
  {
    hide Avail, Exists, Blocked, Enabled, KindOk, Local, Move, Pass;
    assert QueueOk(cfg, s, x);
    assert Move(cfg, s, p).sems == s.sems by { MoveFacts(cfg, s, p); }
    if s.sems[x].Releases() {
      ReleaseKeeps(cfg, s, p, x);
    } else {
      FreeKeeps(cfg, s, p, x);
    }
  }

  /** Every step of every process keeps the semaphores consistent with the processes. */
  lemma StepKeepsSems(cfg: Config, s: State, p: Proc)
    requires cfg.Valid() && SemInv(cfg, s) && Local(cfg, s) && Enabled(cfg, s, p)
    ensures SemInv(cfg, Next(cfg, s, p))
  {
    if WaitsOn(cfg, s, p) != [] {
      WaitKeeps(cfg, s, p);
    } else if Signals(s, p) != [] {
      MoveFacts(cfg, s, p);
      SignalKeeps(cfg, s, p, Signals(s, p)[0]);
    } else {
      PlainKeeps(cfg, s, p);
    }
  }

  /** The four shapes a step can have, semaphores aside. */
  datatype Shape = Blocks | Passes | Moves | MovesAndReleases(q: Proc)

  lemma NextShape(cfg: Config, s: State, p: Proc) returns (shape: Shape)
    requires SemInv(cfg, s) && Local(cfg, s) && Enabled(cfg, s, p)
    ensures var t := Next(cfg, s, p);
      match shape
      case Blocks => WaitsOn(cfg, s, p) != [] && t == Block(s, p).(sems := t.sems)
      case Passes => WaitsOn(cfg, s, p) != [] && t == Pass(s, p).(sems := t.sems)
      case Moves => WaitsOn(cfg, s, p) == [] && t == Move(cfg, s, p).(sems := t.sems)
      case MovesAndReleases(q) =>
        && WaitsOn(cfg, s, p) == [] && t == Pass(Move(cfg, s, p), q).(sems := t.sems)
        && q != p && WaitsOn(cfg, s, q) != [] && WaitsOn(cfg, Move(cfg, s, p), q) != []
  {
    var w, g := WaitsOn(cfg, s, p), Signals(s, p);
    if w != [] {
      shape := if s.sems[w[0]].Blocks() then Blocks else Passes;
      PassSems(s, p, s.sems[w[0] := s.sems[w[0]].Wait(p)]);
    } else if g != [] {
      MoveFacts(cfg, s, p);
      var x := g[0];
      var m := s.sems[x];
      assert QueueOk(cfg, s, x);
      if m.Releases() {
        var q := m.queue[0];
        shape := MovesAndReleases(q);
        WaiterSummary(cfg, s, p, q, x);
        PassSems(Move(cfg, s, p), q, s.sems[x := m.Signal()]);
      } else {
        shape := Moves;
      }
    } else {
      shape := Moves;
    }
  }
}
