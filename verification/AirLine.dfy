/**
 Identities and the ready queue of the air reservation: every customer gets an id of its own, queues it
 exactly once, and every queued id is dequeued by exactly one clerk round.
 */
module AirLine {
  import opened Counting
  import opened Air
  import opened AirSemaphores

  predicate Counted(c: Customer) { CRank(c.pc) >= 3 }
  predicate Queued(c: Customer) { CRank(c.pc) >= 8 }

  /** The clerk has dequeued an id and has not yet signalled its customer. */
  predicate AtWork(k: Clerk) { 4 <= KRank(k.pc) <= 18 }

  /** Every critical section holds at most one process. */
  ghost predicate Mutex(s: State) {
    && (forall i, j :: 0 <= i < j < |s.custs| ==> !(InCounter(s.custs[i]) && InCounter(s.custs[j])))
    && (forall i, j :: 0 <= i < j < |s.custs| ==> !(CustInQueue(s.custs[i]) && CustInQueue(s.custs[j])))
    && (forall i, j :: 0 <= i < j < |s.clerks| ==> !(ClerkInQueue(s.clerks[i]) && ClerkInQueue(s.clerks[j])))
    && (forall i, j :: 0 <= i < |s.custs| && 0 <= j < |s.clerks| ==>
          !(CustInQueue(s.custs[i]) && ClerkInQueue(s.clerks[j])))
    && (forall i, j :: 0 <= i < j < |s.clerks| ==> !(Holds1(s.clerks[i]) && Holds1(s.clerks[j])))
    && (forall i, j :: 0 <= i < j < |s.clerks| ==> !(Holds2(s.clerks[i]) && Holds2(s.clerks[j])))
  }

  /** customers' ids */
  ghost predicate IdInv(cfg: Config, s: State) {
    && |s.custs| == cfg.N() && |s.line| == cfg.N()
    && s.custCounter == Count(s.custs, Counted)
    && (forall i :: 0 <= i < |s.custs| ==> IdOk(s, s.custs[i]))
    && (forall i, j :: 0 <= i < j < |s.custs| && Counted(s.custs[i]) && Counted(s.custs[j]) ==>
        s.custs[i].id != s.custs[j].id)
  }

  predicate IdOk(s: State, c: Customer) {
    && (c.pc == BumpCounter ==> c.id == s.custCounter)
    && (Counted(c) ==> c.id < s.custCounter)
  }

  ghost predicate Distinct<T>(a: seq<T>, n: nat) {
    forall i, j :: 0 <= i < j < n && j < |a| ==> a[i] != a[j]
  }

  /** `id` is among the first `n` entries. */
  ghost predicate Among(a: seq<nat>, n: nat, id: nat) {
    exists i :: 0 <= i < n && i < |a| && a[i] == id
  }

  /** the ready queue, at its tail */
  ghost predicate TailInv(cfg: Config, s: State) {
    && s.queueIn == Count(s.custs, Queued) && s.queueIn <= |s.line|
    && Distinct(s.line, s.queueIn)
    && (forall i :: 0 <= i < s.queueIn ==> s.line[i] < s.custCounter)
    && (forall i :: 0 <= i < |s.custs| ==> TailOk(s, s.custs[i]))
  }

  ghost predicate TailOk(s: State, c: Customer) {
    && (c.pc == BumpIn ==> s.queueIn < |s.line| && s.line[s.queueIn] == c.id)
    && (Counted(c) ==> (Queued(c) <==> Among(s.line, s.queueIn, c.id)))
  }

  /** the ready queue, at its head */
  ghost predicate HeadInv(cfg: Config, s: State) {
    && |s.clerks| == cfg.clerks
    && s.queueOut <= s.queueIn
    && (forall j :: 0 <= j < |s.clerks| ==> HeadOk(s, s.clerks[j]))
    && (forall i, j :: 0 <= i < j < |s.clerks| && AtWork(s.clerks[i]) && AtWork(s.clerks[j]) ==>
        s.clerks[i].id != s.clerks[j].id)
    && (forall id :: id in s.served ==> Among(s.line, s.queueOut, id))
    && (forall i :: 0 <= i < s.queueOut && i < |s.line| ==> s.line[i] in s.served || SomeoneAt(s, s.line[i]))
  }

  ghost predicate SomeoneAt(s: State, id: nat) {
    exists j :: 0 <= j < |s.clerks| && AtWork(s.clerks[j]) && s.clerks[j].id == id
  }

  ghost predicate HeadOk(s: State, k: Clerk) {
    && (k.pc == BumpOut ==> s.queueOut < s.queueIn && s.queueOut < |s.line| && k.id == s.line[s.queueOut])
    && (KRank(k.pc) >= 4 ==> Among(s.line, s.queueOut, k.id))
    && (AtWork(k) <==> KRank(k.pc) >= 4 && k.id !in s.served)
  }

  // ---------------------------------------------------------------- mutual exclusion

  lemma AtMostOne<T>(xs: seq<T>, f: T -> bool, i: nat, j: nat)
    requires i < j < |xs| && Count(xs, f) <= 1
    ensures !(f(xs[i]) && f(xs[j]))
  {
    if f(xs[i]) && f(xs[j]) {
      CountPair(xs, f, i, j);
    }
  }

  /** The semaphores do exclude: their places are never negative. */
  lemma SemaphoresExclude(cfg: Config, s: State)
    requires SemInv(cfg, s)
    ensures Mutex(s)
  {
    hide Count;
    assert QueueOk(cfg, s, CounterCS) && QueueOk(cfg, s, QueueCS) && QueueOk(cfg, s, Flight1CS)
        && QueueOk(cfg, s, Flight2CS);
    forall i, j | 0 <= i < j < |s.custs| ensures !(InCounter(s.custs[i]) && InCounter(s.custs[j])) {
      AtMostOne(s.custs, InCounter, i, j);
    }
    forall i, j | 0 <= i < j < |s.custs| ensures !(CustInQueue(s.custs[i]) && CustInQueue(s.custs[j])) {
      AtMostOne(s.custs, CustInQueue, i, j);
    }
    forall i, j | 0 <= i < j < |s.clerks| ensures !(ClerkInQueue(s.clerks[i]) && ClerkInQueue(s.clerks[j])) {
      AtMostOne(s.clerks, ClerkInQueue, i, j);
    }
    forall i, j | 0 <= i < |s.custs| && 0 <= j < |s.clerks|
      ensures !(CustInQueue(s.custs[i]) && ClerkInQueue(s.clerks[j]))
    {
      if CustInQueue(s.custs[i]) { CountSome(s.custs, CustInQueue, i); }
      if ClerkInQueue(s.clerks[j]) { CountSome(s.clerks, ClerkInQueue, j); }
    }
    forall i, j | 0 <= i < j < |s.clerks| ensures !(Holds1(s.clerks[i]) && Holds1(s.clerks[j])) {
      AtMostOne(s.clerks, Holds1, i, j);
    }
    forall i, j | 0 <= i < j < |s.clerks| ensures !(Holds2(s.clerks[i]) && Holds2(s.clerks[j])) {
      AtMostOne(s.clerks, Holds2, i, j);
    }
  }

  /** A clerk let past cust_ready finds an id in the queue. */
  lemma GrantedFindsId(cfg: Config, s: State, j: nat)
    requires SemInv(cfg, s) && TailInv(cfg, s) && j < |s.clerks| && Starting(s.clerks[j])
    ensures s.queueOut < s.queueIn
  {
    hide Count;
    assert QueueOk(cfg, s, CustReady);
    CountSome(s.clerks, Starting, j);
    CountMonotone(s.custs, Readied, Queued);
  }

  // ---------------------------------------------------------------- steps of a customer

  lemma RoomLeft(cs: seq<Customer>, f: Customer -> bool, i: nat)
    requires i < |cs| && !f(cs[i])
    ensures Count(cs, f) < |cs|
  {
    CountUpdate(cs, i, cs[i], f);
    var g := c => !f(c);
    CountSome(cs, g, i);
    CountSplit(cs, f);
  }

  lemma {:induction false} CountSplit(cs: seq<Customer>, f: Customer -> bool)
    ensures Count(cs, f) + Count(cs, c => !f(c)) == |cs|
  {
    if cs != [] {
      CountSplit(cs[..|cs| - 1], f);
    }
  }

  lemma BumpCounterIds(cfg: Config, s: State, i: nat)
    requires IdInv(cfg, s) && Mutex(s) && i < |s.custs| && s.custs[i].pc == BumpCounter
    ensures IdInv(cfg, Move(cfg, s, Cust(i)))
  {
    var c := s.custs[i];
    CountUpdate(s.custs, i, CustGo(s, c), Counted);
    hide Count;
    var t := Move(cfg, s, Cust(i));
    forall j | 0 <= j < |t.custs| ensures IdOk(t, t.custs[j]) {
      assert IdOk(s, s.custs[j]);
      if j < i { assert !(InCounter(s.custs[j]) && InCounter(c)); }
      if i < j { assert !(InCounter(c) && InCounter(s.custs[j])); }
    }
    forall j, m | 0 <= j < m < |t.custs| && Counted(t.custs[j]) && Counted(t.custs[m])
      ensures t.custs[j].id != t.custs[m].id
    {
      assert IdOk(s, s.custs[j]) && IdOk(s, s.custs[m]);
    }
  }

  lemma OtherIds(cfg: Config, s: State, i: nat)
    requires IdInv(cfg, s) && i < |s.custs| && s.custs[i].pc != BumpCounter
    requires Enabled(cfg, s, Cust(i)) && WaitsOn(cfg, s, Cust(i)) == []
    ensures IdInv(cfg, Move(cfg, s, Cust(i)))
  {
    var c, t := s.custs[i], Move(cfg, s, Cust(i));
    var c' := CustGo(s, c);
    assert t.custs == s.custs[i := c'] && t.custCounter == s.custCounter && |t.line| == |s.line|;
    assert Counted(c') == Counted(c) && (Counted(c) ==> c'.id == c.id) && IdOk(t, c') by { assert IdOk(s, c); }
    CountUpdate(s.custs, i, c', Counted);
    hide Count, Move, CustGo, Counted;
    forall j | 0 <= j < |t.custs| ensures IdOk(t, t.custs[j]) {
      assert IdOk(s, s.custs[j]);
    }
  }

  lemma CustMoveIds(cfg: Config, s: State, i: nat)
    requires IdInv(cfg, s) && Mutex(s) && Enabled(cfg, s, Cust(i)) && WaitsOn(cfg, s, Cust(i)) == []
    ensures IdInv(cfg, Move(cfg, s, Cust(i)))
  {
    hide IdInv, Mutex;
    if s.custs[i].pc == BumpCounter { BumpCounterIds(cfg, s, i); } else { OtherIds(cfg, s, i); }
  }

  lemma AmongGrows(a: seq<nat>, n: nat, id: nat)
    requires n < |a|
    ensures Among(a, n + 1, id) <==> Among(a, n, id) || a[n] == id
  {
    if Among(a, n, id) {
      var i :| 0 <= i < n && i < |a| && a[i] == id;
    }
  }

  lemma AmongPrefix(a: seq<nat>, b: seq<nat>, n: nat, id: nat)
    requires |a| == |b| && n <= |a| && forall i :: 0 <= i < n ==> a[i] == b[i]
    ensures Among(a, n, id) <==> Among(b, n, id)
  {
    if Among(a, n, id) {
      var i :| 0 <= i < n && i < |a| && a[i] == id;
      assert b[i] == id;
    }
    if Among(b, n, id) {
      var i :| 0 <= i < n && i < |b| && b[i] == id;
      assert a[i] == id;
    }
  }

  /** The customer's write of its id lands inside the array, behind everything queued. */
  lemma PutIdTail(cfg: Config, s: State, i: nat)
    requires IdInv(cfg, s) && TailInv(cfg, s) && Mutex(s) && i < |s.custs| && s.custs[i].pc == PutId
    ensures s.queueIn < |s.line| && TailInv(cfg, Move(cfg, s, Cust(i)))
  {
    var c := s.custs[i];
    CountUpdate(s.custs, i, CustGo(s, c), Queued);
    RoomLeft(s.custs, Queued, i);
    hide Count;
    var t := Move(cfg, s, Cust(i));
    forall j | 0 <= j < |t.custs| ensures TailOk(t, t.custs[j]) {
      var d := s.custs[j];
      assert TailOk(s, d);
      if j < i { assert !(CustInQueue(d) && CustInQueue(c)); }
      if i < j { assert !(CustInQueue(c) && CustInQueue(d)); }
      AmongPrefix(s.line, t.line, s.queueIn, d.id);
    }
  }

  lemma BumpInTail(cfg: Config, s: State, i: nat)
    requires IdInv(cfg, s) && TailInv(cfg, s) && Mutex(s) && i < |s.custs| && s.custs[i].pc == BumpIn
    ensures TailInv(cfg, Move(cfg, s, Cust(i)))
  {
    hide Count;
    var c := s.custs[i];
    CountUpdate(s.custs, i, CustGo(s, c), Queued);
    assert IdOk(s, c) && TailOk(s, c);
    var t := Move(cfg, s, Cust(i));
    assert !Among(s.line, s.queueIn, c.id);
    assert forall j :: 0 <= j < s.queueIn ==> s.line[j] != c.id;
    assert CustInQueue(c);
    assert t.custs == s.custs[i := CustGo(s, c)] && t.queueIn == s.queueIn + 1 && t.line == s.line;
    assert Queued(CustGo(s, c)) && Counted(c) && CustGo(s, c).id == c.id && CustGo(s, c).pc != BumpIn;
    hide CRank, Move, CustGo, Distinct;
    forall j | 0 <= j < |t.custs| ensures TailOk(t, t.custs[j]) {
      var d := s.custs[j];
      assert IdOk(s, d) && TailOk(s, d);
      if j < i { assert !(CustInQueue(d) && CustInQueue(c)); }
      if i < j { assert !(CustInQueue(c) && CustInQueue(d)); }
      AmongGrows(s.line, s.queueIn, d.id);
      if j != i && Counted(d) { assert d.id != c.id; }
    }
  }

  lemma BumpCounterTail(cfg: Config, s: State, i: nat)
    requires IdInv(cfg, s) && TailInv(cfg, s) && i < |s.custs| && s.custs[i].pc == BumpCounter
    ensures TailInv(cfg, Move(cfg, s, Cust(i)))
  {
    var c := s.custs[i];
    CountUpdate(s.custs, i, CustGo(s, c), Queued);
    assert IdOk(s, c);
    NotYetAmong(s.line, s.queueIn, c.id);
    hide Count, Among;
    var t := Move(cfg, s, Cust(i));
    forall j | 0 <= j < |t.custs| ensures TailOk(t, t.custs[j]) {
      assert TailOk(s, s.custs[j]);
    }
  }

  lemma OtherTail(cfg: Config, s: State, i: nat)
    requires TailInv(cfg, s) && i < |s.custs| && s.custs[i].pc !in {PutId, BumpIn, BumpCounter}
    requires Enabled(cfg, s, Cust(i)) && WaitsOn(cfg, s, Cust(i)) == []
    ensures TailInv(cfg, Move(cfg, s, Cust(i)))
  {
    var c, t := s.custs[i], Move(cfg, s, Cust(i));
    assert t == s.(custs := t.custs) && t.custs == s.custs[i := CustGo(s, c)];
    assert Queued(CustGo(s, c)) == Queued(c) && Counted(CustGo(s, c)) == Counted(c) && CustGo(s, c).pc != BumpIn;
    assert Counted(c) ==> CustGo(s, c).id == c.id;
    CountUpdate(s.custs, i, CustGo(s, c), Queued);
    hide Count, Among, Move, CustGo, Queued, Counted;
    forall j | 0 <= j < |t.custs| ensures TailOk(t, t.custs[j]) {
      assert TailOk(s, s.custs[j]);
    }
  }

  lemma NotYetAmong(a: seq<nat>, n: nat, id: nat)
    requires n <= |a| && forall i :: 0 <= i < n ==> a[i] < id
    ensures !Among(a, n, id)
  {
  }

  lemma CustMoveTail(cfg: Config, s: State, i: nat)
    requires IdInv(cfg, s) && TailInv(cfg, s) && Mutex(s) && Enabled(cfg, s, Cust(i)) && WaitsOn(cfg, s, Cust(i)) == []
    ensures TailInv(cfg, Move(cfg, s, Cust(i)))
  {
    hide TailInv, IdInv, Mutex;
    match s.custs[i].pc
    case PutId => PutIdTail(cfg, s, i);
    case BumpIn => BumpInTail(cfg, s, i);
    case BumpCounter => BumpCounterTail(cfg, s, i);
    case _ => OtherTail(cfg, s, i);
  }

  // ---------------------------------------------------------------- steps of a clerk

  /** The dequeue reads an id that has been queued. */
  lemma TakeIdHead(cfg: Config, s: State, j: nat)
    requires TailInv(cfg, s) && HeadInv(cfg, s) && j < |s.clerks| && s.clerks[j].pc == TakeId && s.queueOut < s.queueIn
    ensures s.queueOut < |s.line| && HeadInv(cfg, Move(cfg, s, Clrk(j)))
  {
    var t := Move(cfg, s, Clrk(j));
    assert t == s.(clerks := s.clerks[j := s.clerks[j].(pc := BumpOut, id := s.line[s.queueOut])]);
    hide Move;
    StaysSomeone(s, t, j);
    forall m | 0 <= m < |t.clerks| ensures HeadOk(t, t.clerks[m]) {
      assert HeadOk(s, s.clerks[m]);
    }
  }

  /** Whoever was at work on an id still is, unless it is the clerk that moved. */
  lemma StaysSomeone(s: State, t: State, j: nat)
    requires j < |s.clerks| == |t.clerks| && t.clerks == s.clerks[j := t.clerks[j]]
    requires AtWork(s.clerks[j]) ==> AtWork(t.clerks[j]) && t.clerks[j].id == s.clerks[j].id
    ensures forall id :: SomeoneAt(s, id) ==> SomeoneAt(t, id)
  {
    forall id | SomeoneAt(s, id) ensures SomeoneAt(t, id) {
      var m :| 0 <= m < |s.clerks| && AtWork(s.clerks[m]) && s.clerks[m].id == id;
      assert AtWork(t.clerks[m]) && t.clerks[m].id == id;
    }
  }

  lemma BumpOutHead(cfg: Config, s: State, j: nat)
    requires TailInv(cfg, s) && HeadInv(cfg, s) && Mutex(s) && j < |s.clerks| && s.clerks[j].pc == BumpOut
    ensures HeadInv(cfg, Move(cfg, s, Clrk(j)))
  {
    var k := s.clerks[j];
    var t := Move(cfg, s, Clrk(j));
    assert t == s.(clerks := s.clerks[j := k.(pc := ExitQueue)], queueOut := s.queueOut + 1);
    hide Move;
    assert HeadOk(s, k);
    StaysSomeone(s, t, j);
    forall id ensures Among(t.line, t.queueOut, id) <==> Among(s.line, s.queueOut, id) || id == k.id {
      AmongGrows(s.line, s.queueOut, id);
    }
    assert !Among(s.line, s.queueOut, k.id);
    forall m | 0 <= m < |t.clerks| ensures HeadOk(t, t.clerks[m]) {
      var d := s.clerks[m];
      assert HeadOk(s, d);
      if m < j { assert !(ClerkInQueue(d) && ClerkInQueue(k)); }
      if j < m { assert !(ClerkInQueue(k) && ClerkInQueue(d)); }
    }
    forall m, n | 0 <= m < n < |t.clerks| && AtWork(t.clerks[m]) && AtWork(t.clerks[n])
      ensures t.clerks[m].id != t.clerks[n].id
    {
      assert HeadOk(s, s.clerks[m]) && HeadOk(s, s.clerks[n]);
    }
    forall i | 0 <= i < t.queueOut && i < |t.line| ensures t.line[i] in t.served || SomeoneAt(t, t.line[i]) {
      if i == s.queueOut { assert AtWork(t.clerks[j]) && t.clerks[j].id == t.line[i]; }
    }
  }

  lemma SayFinishedHead(cfg: Config, s: State, j: nat)
    requires HeadInv(cfg, s) && j < |s.clerks| && s.clerks[j].pc == SayFinished
    ensures HeadInv(cfg, Move(cfg, s, Clrk(j)))
  {
    var k := s.clerks[j];
    var t := Move(cfg, s, Clrk(j));
    assert t == s.(clerks := s.clerks[j := k.(pc := ReturnToken)], served := s.served + {k.id});
    hide Move;
    assert HeadOk(s, k);
    forall m | 0 <= m < |t.clerks| ensures HeadOk(t, t.clerks[m]) {
      assert HeadOk(s, s.clerks[m]);
    }
    forall i | 0 <= i < t.queueOut && i < |t.line| ensures t.line[i] in t.served || SomeoneAt(t, t.line[i]) {
      if SomeoneAt(s, s.line[i]) {
        var m :| 0 <= m < |s.clerks| && AtWork(s.clerks[m]) && s.clerks[m].id == s.line[i];
        if m != j { assert AtWork(t.clerks[m]) && t.clerks[m].id == t.line[i]; }
      }
    }
  }

  /** The clerk keeps its id and its place among those at work. */
  lemma OtherGo(cfg: Config, s: State, k: Clerk)
    requires k.pc !in {TakeId, BumpOut, SayFinished}
    ensures var k' := ClerkGo(cfg, s, k);
      && k'.pc != BumpOut && k'.id == k.id && AtWork(k') == AtWork(k)
      && (KRank(k'.pc) >= 4 ==> KRank(k.pc) >= 4) && (AtWork(k') ==> KRank(k'.pc) >= 4)
  {
  }

  /** The waiting line stays as it is. */
  lemma OtherEffect(cfg: Config, s: State, j: nat)
    requires j < |s.clerks| && s.clerks[j].pc !in {BumpOut, SayFinished}
    ensures var t := Move(cfg, s, Clrk(j));
      && t.clerks == s.clerks[j := ClerkGo(cfg, s, s.clerks[j])] && t.line == s.line
      && t.queueIn == s.queueIn && t.queueOut == s.queueOut && t.served == s.served
  {
    hide ClerkGo;
  }

  lemma OtherHead(cfg: Config, s: State, j: nat)
    requires HeadInv(cfg, s) && j < |s.clerks| && s.clerks[j].pc !in {TakeId, BumpOut, SayFinished}
    requires Enabled(cfg, s, Clrk(j)) && WaitsOn(cfg, s, Clrk(j)) == []
    ensures HeadInv(cfg, Move(cfg, s, Clrk(j)))
  {
    hide Move, ClerkGo, Among, AtWork, KRank;
    var k := s.clerks[j];
    var t := Move(cfg, s, Clrk(j));
    OtherEffect(cfg, s, j);
    OtherGo(cfg, s, k);
    assert HeadOk(s, k) && HeadOk(t, t.clerks[j]);
    StaysSomeone(s, t, j);
    forall m | 0 <= m < |t.clerks| ensures HeadOk(t, t.clerks[m]) {
      assert HeadOk(s, s.clerks[m]);
    }
  }

  lemma ClerkMoveHead(cfg: Config, s: State, j: nat)
    requires SemInv(cfg, s) && TailInv(cfg, s) && HeadInv(cfg, s) && Mutex(s)
    requires Enabled(cfg, s, Clrk(j)) && WaitsOn(cfg, s, Clrk(j)) == []
    ensures HeadInv(cfg, Move(cfg, s, Clrk(j)))
  {
    hide TailInv, HeadInv, Mutex, SemInv;
    match s.clerks[j].pc
    case TakeId =>
      GrantedFindsId(cfg, s, j);
      TakeIdHead(cfg, s, j);
    case BumpOut => BumpOutHead(cfg, s, j);
    case SayFinished => SayFinishedHead(cfg, s, j);
    case _ => OtherHead(cfg, s, j);
  }

  // ---------------------------------------------------------------- all steps

  ghost predicate Line(cfg: Config, s: State) {
    IdInv(cfg, s) && TailInv(cfg, s) && HeadInv(cfg, s)
  }

  lemma CustMoveHead(cfg: Config, s: State, i: nat)
    requires Line(cfg, s) && i < |s.custs|
    requires Enabled(cfg, s, Cust(i)) && WaitsOn(cfg, s, Cust(i)) == []
    ensures HeadInv(cfg, Move(cfg, s, Cust(i)))
  {
    var t := Move(cfg, s, Cust(i));
    assert t.clerks == s.clerks && t.served == s.served && t.queueOut == s.queueOut
        && s.queueIn <= t.queueIn <= s.queueIn + 1;
    assert |t.line| == |s.line| && forall m :: 0 <= m < s.queueIn && m < |s.line| ==> t.line[m] == s.line[m];
    hide Move, Count, IdInv;
    forall id ensures Among(t.line, t.queueOut, id) <==> Among(s.line, s.queueOut, id) {
      AmongPrefix(s.line, t.line, s.queueOut, id);
    }
    forall id | SomeoneAt(s, id) ensures SomeoneAt(t, id) {
      var m :| 0 <= m < |s.clerks| && AtWork(s.clerks[m]) && s.clerks[m].id == id;
      assert t.clerks[m] == s.clerks[m];
    }
    forall m | 0 <= m < |t.clerks| ensures HeadOk(t, t.clerks[m]) {
      assert HeadOk(s, s.clerks[m]);
    }
  }

  lemma ClerkMoveIdsTail(cfg: Config, s: State, j: nat)
    requires IdInv(cfg, s) && TailInv(cfg, s) && j < |s.clerks|
    ensures IdInv(cfg, Move(cfg, s, Clrk(j))) && TailInv(cfg, Move(cfg, s, Clrk(j)))
  {
    hide Move, Count, Among;
    var t := Move(cfg, s, Clrk(j));
    ClerkLeavesTail(cfg, s, j);
    forall i | 0 <= i < |t.custs| ensures IdOk(t, t.custs[i]) && TailOk(t, t.custs[i]) {
      assert IdOk(s, s.custs[i]) && TailOk(s, s.custs[i]);
    }
  }

  lemma ClerkLeavesTail(cfg: Config, s: State, j: nat)
    ensures var t := Move(cfg, s, Clrk(j));
      t.custs == s.custs && t.line == s.line && t.custCounter == s.custCounter && t.queueIn == s.queueIn
  {
    hide ClerkGo;
  }

  lemma MoveLine(cfg: Config, s: State, p: Proc)
    requires SemInv(cfg, s) && Line(cfg, s) && Enabled(cfg, s, p) && WaitsOn(cfg, s, p) == []
    ensures Line(cfg, Move(cfg, s, p))
  {
    SemaphoresExclude(cfg, s);
    hide IdInv, TailInv, HeadInv, SemInv, Mutex;
    match p
    case Cust(i) =>
      CustMoveIds(cfg, s, i);
      CustMoveTail(cfg, s, i);
      CustMoveHead(cfg, s, i);
    case Clrk(j) =>
      ClerkMoveIdsTail(cfg, s, j);
      ClerkMoveHead(cfg, s, j);
    case Main =>
  }

  /** A process that only gets past a wait, or blocks at one, changes nothing about ids and queue. */
  lemma CustRewrite(cfg: Config, s: State, i: nat, c: Customer)
    requires Line(cfg, s) && i < |s.custs| && c.id == s.custs[i].id
    requires Counted(c) == Counted(s.custs[i]) && Queued(c) == Queued(s.custs[i])
    requires c.pc != BumpCounter && c.pc != BumpIn
    ensures Line(cfg, s.(custs := s.custs[i := c]))
  {
    var t := s.(custs := s.custs[i := c]);
    CountUpdate(s.custs, i, c, Counted);
    CountUpdate(s.custs, i, c, Queued);
    hide Count, Among, Counted, Queued;
    forall m | 0 <= m < |t.custs| ensures IdOk(t, t.custs[m]) && TailOk(t, t.custs[m]) {
      assert IdOk(s, s.custs[m]) && TailOk(s, s.custs[m]);
    }
    forall m | 0 <= m < |t.clerks| ensures HeadOk(t, t.clerks[m]) {
      assert HeadOk(s, s.clerks[m]);
    }
    forall id | SomeoneAt(s, id) ensures SomeoneAt(t, id) {
      var m :| 0 <= m < |s.clerks| && AtWork(s.clerks[m]) && s.clerks[m].id == id;
      assert t.clerks[m] == s.clerks[m];
    }
  }

  lemma ClerkRewrite(cfg: Config, s: State, j: nat, k: Clerk)
    requires Line(cfg, s) && j < |s.clerks| && k.id == s.clerks[j].id
    requires AtWork(k) == AtWork(s.clerks[j]) && (KRank(k.pc) >= 4 <==> KRank(s.clerks[j].pc) >= 4) && k.pc != BumpOut
    ensures Line(cfg, s.(clerks := s.clerks[j := k]))
  {
    var t := s.(clerks := s.clerks[j := k]);
    StaysSomeone(s, t, j);
    assert HeadOk(s, s.clerks[j]);
    hide Count, Among, KRank;
    forall m | 0 <= m < |t.custs| ensures IdOk(t, t.custs[m]) && TailOk(t, t.custs[m]) {
      assert IdOk(s, s.custs[m]) && TailOk(s, s.custs[m]);
    }
    forall m | 0 <= m < |t.clerks| ensures HeadOk(t, t.clerks[m]) {
      assert HeadOk(s, s.clerks[m]);
    }
  }

  lemma PassLine(cfg: Config, s: State, p: Proc)
    requires Line(cfg, s) && WaitsOn(cfg, s, p) != []
    ensures Line(cfg, Pass(s, p)) && Line(cfg, Block(s, p))
  {
    hide IdInv, TailInv, HeadInv;
    match p
    case Cust(i) =>
      CustRewrite(cfg, s, i, CustAfterWait(s.custs[i]));
      CustRewrite(cfg, s, i, s.custs[i].(blocked := true));
    case Clrk(j) =>
      ClerkRewrite(cfg, s, j, ClerkAfterWait(s.clerks[j]));
      ClerkRewrite(cfg, s, j, s.clerks[j].(blocked := true));
    case Main =>
      MainRewrite(cfg, s, s.mainWaits + 1, false);
      MainRewrite(cfg, s, s.mainWaits, true);
  }

  lemma MainRewrite(cfg: Config, s: State, waits: nat, blocked: bool)
    requires Line(cfg, s)
    ensures Line(cfg, s.(mainWaits := waits, mainBlocked := blocked))
  {
    LineReads(cfg, s, s.(mainWaits := waits, mainBlocked := blocked));
  }

  /** The fields the line invariant speaks of. */
  lemma LineReads(cfg: Config, s: State, t: State)
    requires Line(cfg, s)
    requires t.custs == s.custs && t.clerks == s.clerks && t.custCounter == s.custCounter && t.line == s.line
    requires t.queueIn == s.queueIn && t.queueOut == s.queueOut && t.served == s.served
    ensures Line(cfg, t)
  {
    hide Count, Among;
    forall m | 0 <= m < |t.custs| ensures IdOk(t, t.custs[m]) && TailOk(t, t.custs[m]) {
      assert IdOk(s, s.custs[m]) && TailOk(s, s.custs[m]);
    }
    forall m | 0 <= m < |t.clerks| ensures HeadOk(t, t.clerks[m]) {
      assert HeadOk(s, s.clerks[m]);
    }
    forall id | SomeoneAt(s, id) ensures SomeoneAt(t, id) {
      var m :| 0 <= m < |s.clerks| && AtWork(s.clerks[m]) && s.clerks[m].id == id;
      assert t.clerks[m] == s.clerks[m];
    }
  }

  lemma StepKeepsLine(cfg: Config, s: State, p: Proc)
    requires SemInv(cfg, s) && Local(cfg, s) && Line(cfg, s) && Enabled(cfg, s, p)
    ensures Line(cfg, Next(cfg, s, p))
  {
    hide Line, SemInv, Local, Move, Pass, Block, Next, Enabled, WaitsOn;
    var shape := NextShape(cfg, s, p);
    var t := Next(cfg, s, p);
    match shape
    case Blocks =>
      PassLine(cfg, s, p);
      LineReads(cfg, Block(s, p), t);
    case Passes =>
      PassLine(cfg, s, p);
      LineReads(cfg, Pass(s, p), t);
    case Moves =>
      MoveLine(cfg, s, p);
      LineReads(cfg, Move(cfg, s, p), t);
    case MovesAndReleases(q) =>
      MoveLine(cfg, s, p);
      PassLine(cfg, Move(cfg, s, p), q);
      LineReads(cfg, Pass(Move(cfg, s, p), q), t);
  }
}
