/**
 The air reservation protocol of user/tst_air.c, user/tst_air_clerk.c and user/tst_air_customer.c as a
 state machine: any number of customers and clerks, each semaphore call and each assignment to shared
 memory one atomic step, any interleaving.
 */
module Air {
  import opened Semaphores

  // ---------------------------------------------------------------- processes

  datatype Proc = Cust(i: nat) | Clrk(j: nat) | Main

  datatype CustPc =
    | WaitCounter | ReadCounter | BumpCounter | LeaveCounter
    | WaitClerk
    | WaitQueue | PutId | BumpIn | LeaveQueue
    | SayReady
    | WaitFinished
    | SayTerminated
    | Done

  datatype ClerkPc =
    | WaitReady
    | EnterQueue | TakeId | BumpOut | ExitQueue
    | Lock1 | Lock2 | Test
    | Dec1 | Mark1 | Put1 | Count1
    | Dec2 | Mark2 | Put2 | Count2
    | Release2 | Release1
    | SayFinished
    | ReturnToken

  /** How far a customer has come. */
  function CRank(pc: CustPc): nat {
    match pc
    case WaitCounter => 0 case ReadCounter => 1 case BumpCounter => 2 case LeaveCounter => 3
    case WaitClerk => 4
    case WaitQueue => 5 case PutId => 6 case BumpIn => 7 case LeaveQueue => 8
    case SayReady => 9
    case WaitFinished => 10
    case SayTerminated => 11
    case Done => 12
  }

  /** How far a clerk has come in one round of its loop. */
  function KRank(pc: ClerkPc): nat {
    match pc
    case WaitReady => 0
    case EnterQueue => 1 case TakeId => 2 case BumpOut => 3 case ExitQueue => 4
    case Lock1 => 5 case Lock2 => 6 case Test => 7
    case Dec1 => 8 case Mark1 => 9 case Put1 => 10 case Count1 => 11
    case Dec2 => 12 case Mark2 => 13 case Put2 => 14 case Count2 => 15
    case Release2 => 16 case Release1 => 17
    case SayFinished => 18
    case ReturnToken => 19
  }

  /** `id` is the local custId. */
  datatype Customer = Customer(pc: CustPc, id: nat, blocked: bool)

  /** `id` is the local custId, `kind` the local custFlightType. */
  datatype Clerk = Clerk(pc: ClerkPc, id: nat, kind: nat, blocked: bool)

  // ---------------------------------------------------------------- shared state

  datatype SemId =
    | CounterCS | QueueCS | Flight1CS | Flight2CS
    | ClerkToken | CustReady | Terminated | Finished(id: nat)

  datatype Config = Config(clerks: nat, tokens: nat, tickets1: nat, tickets2: nat, flight: seq<nat>) {
    predicate Valid() {
      && clerks > 0 && tokens > 0
      && forall i :: 0 <= i < |flight| ==> 1 <= flight[i] <= 3
    }

    function N(): nat { |flight| }
  }

  datatype State = State(
    sems: map<SemId, Sem<Proc>>,
    custs: seq<Customer>, clerks: seq<Clerk>, mainWaits: nat, mainBlocked: bool,
    custCounter: nat, line: seq<nat>, queueIn: nat, queueOut: nat,
    left1: int, left2: int, booked: seq<bool>,
    arr1: seq<nat>, cnt1: nat, arr2: seq<nat>, cnt2: nat,
    served: set<nat>)   // history: the ids whose cust_finished has been signalled

  /** A write to a shared array. */
  function Put<T>(a: seq<T>, i: nat, v: T): (b: seq<T>)
    ensures |b| == |a|
  {
    if i < |a| then a[i := v] else a
  }

  function Get(a: seq<nat>, i: nat): nat {
    if i < |a| then a[i] else 0
  }

  // ---------------------------------------------------------------- what a process does next

  /** The semaphore a process is about to wait on, if its next step is a wait. */
  function CustWait(c: Customer): seq<SemId> {
    match c.pc
    case WaitCounter => [CounterCS]
    case WaitClerk => [ClerkToken]
    case WaitQueue => [QueueCS]
    case WaitFinished => [Finished(c.id)]
    case _ => []
  }

  function ClerkWait(k: Clerk): seq<SemId> {
    match k.pc
    case WaitReady => [CustReady]
    case EnterQueue => [QueueCS]
    case Lock1 => [Flight1CS]
    case Lock2 => [Flight2CS]
    case _ => []
  }

  function WaitsOn(cfg: Config, s: State, p: Proc): seq<SemId> {
    match p
    case Cust(i) => if i < |s.custs| then CustWait(s.custs[i]) else []
    case Clrk(j) => if j < |s.clerks| then ClerkWait(s.clerks[j]) else []
    case Main => if s.mainWaits < cfg.N() then [Terminated] else []
  }

  /** The semaphore a process is about to signal, if its next step is a signal. */
  function CustSignal(c: Customer): seq<SemId> {
    match c.pc
    case LeaveCounter => [CounterCS]
    case LeaveQueue => [QueueCS]
    case SayReady => [CustReady]
    case SayTerminated => [Terminated]
    case _ => []
  }

  function ClerkSignal(k: Clerk): seq<SemId> {
    match k.pc
    case ExitQueue => [QueueCS]
    case Release2 => [Flight2CS]
    case Release1 => [Flight1CS]
    case SayFinished => [Finished(k.id)]
    case ReturnToken => [ClerkToken]
    case _ => []
  }

  function Signals(s: State, p: Proc): seq<SemId> {
    match p
    case Cust(i) => if i < |s.custs| then CustSignal(s.custs[i]) else []
    case Clrk(j) => if j < |s.clerks| then ClerkSignal(s.clerks[j]) else []
    case Main => []
  }

  predicate Blocked(s: State, p: Proc) {
    match p
    case Cust(i) => i < |s.custs| && s.custs[i].blocked
    case Clrk(j) => j < |s.clerks| && s.clerks[j].blocked
    case Main => s.mainBlocked
  }

  predicate Exists(s: State, p: Proc) {
    match p
    case Cust(i) => i < |s.custs|
    case Clrk(j) => j < |s.clerks|
    case Main => true
  }

  predicate Finished?(cfg: Config, s: State, p: Proc) {
    match p
    case Cust(i) => i < |s.custs| && s.custs[i].pc == Done
    case Clrk(_) => false
    case Main => s.mainWaits >= cfg.N()
  }

  /** Can process `p` take a step? */
  predicate Enabled(cfg: Config, s: State, p: Proc) {
    Exists(s, p) && !Blocked(s, p) && !Finished?(cfg, s, p)
  }

  // ---------------------------------------------------------------- moves

  function CustAfterWait(c: Customer): Customer {
    var pc := match c.pc
      case WaitCounter => ReadCounter
      case WaitClerk => WaitQueue
      case WaitQueue => PutId
      case WaitFinished => SayTerminated
      case other => other;
    c.(pc := pc, blocked := false)
  }

  function ClerkAfterWait(k: Clerk): Clerk {
    var pc := match k.pc
      case WaitReady => EnterQueue
      case EnterQueue => TakeId
      case Lock1 => (if k.kind == 3 then Lock2 else Test)
      case Lock2 => Test
      case other => other;
    k.(pc := pc, blocked := false)
  }

  /** Process `p` gets past the wait it is at. */
  function Pass(s: State, p: Proc): State {
    match p
    case Cust(i) => if i < |s.custs| then s.(custs := s.custs[i := CustAfterWait(s.custs[i])]) else s
    case Clrk(j) => if j < |s.clerks| then s.(clerks := s.clerks[j := ClerkAfterWait(s.clerks[j])]) else s
    case Main => s.(mainWaits := s.mainWaits + 1, mainBlocked := false)
  }

  function Block(s: State, p: Proc): State {
    match p
    case Cust(i) => if i < |s.custs| then s.(custs := s.custs[i := s.custs[i].(blocked := true)]) else s
    case Clrk(j) => if j < |s.clerks| then s.(clerks := s.clerks[j := s.clerks[j].(blocked := true)]) else s
    case Main => s.(mainBlocked := true)
  }

  /** Where a customer's step that is not a wait leads it, */
  function CustGo(s: State, c: Customer): Customer {
    match c.pc
    case ReadCounter => c.(pc := BumpCounter, id := s.custCounter)
    case BumpCounter => c.(pc := LeaveCounter)
    case LeaveCounter => c.(pc := WaitClerk)
    case PutId => c.(pc := BumpIn)
    case BumpIn => c.(pc := LeaveQueue)
    case LeaveQueue => c.(pc := SayReady)
    case SayReady => c.(pc := WaitFinished)
    case SayTerminated => c.(pc := Done)
    case _ => c
  }

  /** and what the step does to the shared memory. */
  function CustEffect(s: State, c: Customer): State {
    match c.pc
    case BumpCounter => s.(custCounter := s.custCounter + 1)
    case PutId => s.(line := Put(s.line, s.queueIn, c.id))
    case BumpIn => s.(queueIn := s.queueIn + 1)
    case _ => s
  }

  /** Where the switch on the flight type sends a clerk, and where its test does. */
  function AfterDequeue(kind: nat): ClerkPc {
    if kind == 2 then Lock2 else Lock1
  }

  function AfterTest(kind: nat, left1: int, left2: int): ClerkPc {
    if kind == 1 then (if left1 > 0 then Dec1 else Release1)
    else if kind == 2 then (if left2 > 0 then Dec2 else Release2)
    else if left1 > 0 && left2 > 0 then Dec1 else Release2
  }

  /** Where a clerk's step that is not a wait leads it, */
  function ClerkGo(cfg: Config, s: State, k: Clerk): Clerk {
    match k.pc
    case TakeId => k.(pc := BumpOut, id := Get(s.line, s.queueOut))
    case BumpOut => k.(pc := ExitQueue)
    case ExitQueue => k.(pc := AfterDequeue(Get(cfg.flight, k.id)), kind := Get(cfg.flight, k.id))
    case Test => k.(pc := AfterTest(k.kind, s.left1, s.left2))
    case Dec1 => k.(pc := Mark1)
    case Mark1 => k.(pc := Put1)
    case Put1 => k.(pc := Count1)
    case Count1 => k.(pc := if k.kind == 3 then Dec2 else Release1)
    case Dec2 => k.(pc := Mark2)
    case Mark2 => k.(pc := Put2)
    case Put2 => k.(pc := Count2)
    case Count2 => k.(pc := Release2)
    case Release2 => k.(pc := if k.kind == 3 then Release1 else SayFinished)
    case Release1 => k.(pc := SayFinished)
    case SayFinished => k.(pc := ReturnToken)
    case ReturnToken => k.(pc := WaitReady)
    case _ => k
  }

  /** and what the step does to the shared memory. */
  function ClerkEffect(s: State, k: Clerk): State {
    match k.pc
    case BumpOut => s.(queueOut := s.queueOut + 1)
    case Dec1 => s.(left1 := s.left1 - 1)
    case Mark1 => s.(booked := Put(s.booked, k.id, true))
    case Put1 => s.(arr1 := Put(s.arr1, s.cnt1, k.id))
    case Count1 => s.(cnt1 := s.cnt1 + 1)
    case Dec2 => s.(left2 := s.left2 - 1)
    case Mark2 => s.(booked := Put(s.booked, k.id, true))
    case Put2 => s.(arr2 := Put(s.arr2, s.cnt2, k.id))
    case Count2 => s.(cnt2 := s.cnt2 + 1)
    case SayFinished => s.(served := s.served + {k.id})
    case _ => s
  }

  function Move(cfg: Config, s: State, p: Proc): State {
    match p
    case Cust(i) =>
      if i < |s.custs| then CustEffect(s, s.custs[i]).(custs := s.custs[i := CustGo(s, s.custs[i])]) else s
    case Clrk(j) =>
      if j < |s.clerks| then ClerkEffect(s, s.clerks[j]).(clerks := s.clerks[j := ClerkGo(cfg, s, s.clerks[j])]) else s
    case Main => s
  }

  function SemOf(s: State, x: SemId): Sem<Proc> {
    if x in s.sems then s.sems[x] else Sem(0, [])
  }

  /** The step of process `p`. */
  function Next(cfg: Config, s: State, p: Proc): State {
    var w, g := WaitsOn(cfg, s, p), Signals(s, p);
    if w != [] then
      var m := SemOf(s, w[0]);
      var t := s.(sems := s.sems[w[0] := m.Wait(p)]);
      if m.Blocks() then Block(t, p) else Pass(t, p)
    else if g != [] then
      var t := Move(cfg, s, p);
      var m := SemOf(t, g[0]);
      if m.Releases() && m.queue != [] then
        Pass(t.(sems := t.sems[g[0] := m.Signal()]), m.queue[0])
      else t.(sems := t.sems[g[0] := Sem(m.value + 1, m.queue)])
    else Move(cfg, s, p)
  }

  ghost predicate Init(cfg: Config, s: State) {
    && (forall x :: x in s.sems <==> x.Finished? ==> x.id < cfg.N())
    && (forall x :: x in s.sems ==> s.sems[x] == Sem(
          match x
          case CustReady => 0 case Terminated => 0 case Finished(_) => 0
          case ClerkToken => cfg.tokens
          case _ => 1, []))
    && |s.custs| == cfg.N() && (forall i :: 0 <= i < |s.custs| ==> s.custs[i].pc == WaitCounter && !s.custs[i].blocked)
    && |s.clerks| == cfg.clerks
    && (forall j :: 0 <= j < |s.clerks| ==> s.clerks[j].pc == WaitReady && !s.clerks[j].blocked)
    && s.mainWaits == 0 && !s.mainBlocked
    && s.custCounter == 0 && |s.line| == cfg.N() && s.queueIn == 0 && s.queueOut == 0
    && s.left1 == cfg.tickets1 && s.left2 == cfg.tickets2
    && |s.booked| == cfg.N() && (forall i :: 0 <= i < |s.booked| ==> !s.booked[i])
    && |s.arr1| == cfg.tickets1 && s.cnt1 == 0
    && |s.arr2| == cfg.tickets2 && s.cnt2 == 0
    && s.served == {}
  }

  /** The state after the processes of `run` have stepped one after the other. */
  function Last(cfg: Config, s0: State, run: seq<Proc>): State
    decreases |run|
  {
    if run == [] then s0 else Next(cfg, Last(cfg, s0, run[..|run| - 1]), run[|run| - 1])
  }
}
