/**
 The bookings of the air reservation: tickets are neither lost nor sold twice, a customer is booked on
 exactly the flights it ordered or on none, and if the tickets suffice everybody is booked.
 */
module AirBooking {
  import opened Counting
  import opened Air
  import opened AirSemaphores
  import opened AirLine

  /** A ticket has been taken off the counter and is not yet in the booked array. */
  predicate Pending1(k: Clerk) { 9 <= KRank(k.pc) <= 11 }
  predicate Pending2(k: Clerk) { 13 <= KRank(k.pc) <= 15 }

  ghost predicate On1(s: State, id: nat) { Among(s.arr1, s.cnt1, id) }
  ghost predicate On2(s: State, id: nat) { Among(s.arr2, s.cnt2, id) }
  predicate IsBooked(s: State, id: nat) { id < |s.booked| && s.booked[id] }

  /** What the shared memory says of one customer. */
  datatype Status = Status(booked: bool, on1: bool, on2: bool)

  ghost function StatusOf(s: State, id: nat): Status {
    Status(IsBooked(s, id), On1(s, id), On2(s, id))
  }

  /** On exactly the ordered flights, or on none and told so. */
  predicate Settled(flight: nat, a: Status) {
    (a.on1 <==> a.booked && flight != 2) && (a.on2 <==> a.booked && flight != 1)
  }

  /** Enough seats for everybody who orders the flight. */
  ghost function Wanting(cfg: Config, other: nat): set<nat> {
    set i | 0 <= i < |cfg.flight| && cfg.flight[i] != other
  }

  ghost predicate Suffices(cfg: Config) {
    |Wanting(cfg, 2)| <= cfg.tickets1 && |Wanting(cfg, 1)| <= cfg.tickets2
  }

  /** The customer a clerk is working for, at each point of the booking. */
  ghost predicate StatusOk(cfg: Config, k: Clerk, a: Status) {
    var r := KRank(k.pc);
    && (r <= 9 || (k.kind == 2 && 12 <= r <= 13) ==> a == Status(false, false, false))
    && (10 <= r <= 11 ==> a == Status(true, false, false))
    && (k.kind == 3 && 12 <= r <= 15 ==> a == Status(true, true, false))
    && (k.kind == 2 && 14 <= r <= 15 ==> a == Status(true, false, false))
    && (r >= 16 ==> Settled(k.kind, a) && (Suffices(cfg) ==> a.booked))
  }

  /** The tickets and array slots a clerk inside the booking counts on. */
  predicate SlotOk(s: State, k: Clerk) {
    var r := KRank(k.pc);
    && (r == 8 ==> s.left1 > 0)
    && (r == 12 || (k.kind == 3 && 8 <= r <= 12) ==> s.left2 > 0)
    && (r == 11 ==> s.cnt1 < |s.arr1| && s.arr1[s.cnt1] == k.id)
    && (r == 15 ==> s.cnt2 < |s.arr2| && s.arr2[s.cnt2] == k.id)
  }

  /** Tickets left, tickets in the booked array and tickets in a clerk's hands add up. */
  ghost predicate Flight1Ok(cfg: Config, s: State) {
    && s.left1 >= 0 && |s.arr1| == cfg.tickets1
    && s.left1 + s.cnt1 + Count(s.clerks, Pending1) == cfg.tickets1
    && Distinct(s.arr1, s.cnt1)
    && (forall i :: 0 <= i < s.cnt1 && i < |s.arr1| ==> s.arr1[i] in Wanting(cfg, 2))
  }

  ghost predicate Flight2Ok(cfg: Config, s: State) {
    && s.left2 >= 0 && |s.arr2| == cfg.tickets2
    && s.left2 + s.cnt2 + Count(s.clerks, Pending2) == cfg.tickets2
    && Distinct(s.arr2, s.cnt2)
    && (forall i :: 0 <= i < s.cnt2 && i < |s.arr2| ==> s.arr2[i] in Wanting(cfg, 1))
  }

  ghost predicate ClerksOk(cfg: Config, s: State) {
    forall j :: 0 <= j < |s.clerks| ==> ClerkOk(cfg, s, s.clerks[j])
  }

  ghost predicate ClerkOk(cfg: Config, s: State, k: Clerk) {
    KindOk(cfg, k) && SlotOk(s, k) && (AtWork(k) ==> StatusOk(cfg, k, StatusOf(s, k.id)))
  }

  ghost predicate CustomersOk(cfg: Config, s: State) {
    && |s.booked| == cfg.N()
    && (forall id :: id in s.served ==>
          id < cfg.N() && Settled(cfg.flight[id], StatusOf(s, id)) && (Suffices(cfg) ==> IsBooked(s, id)))
    && (forall id: nat :: !Among(s.line, s.queueOut, id) ==> StatusOf(s, id) == Status(false, false, false))
  }

  ghost predicate Book(cfg: Config, s: State) {
    Flight1Ok(cfg, s) && Flight2Ok(cfg, s) && ClerksOk(cfg, s) && CustomersOk(cfg, s)
  }

  // ---------------------------------------------------------------- ids are in range

  lemma LineIds(cfg: Config, s: State, id: nat)
    requires Line(cfg, s) && Among(s.line, s.queueOut, id)
    ensures id < cfg.N()
  {
  }

  lemma IdsInRange(cfg: Config, s: State)
    requires Line(cfg, s) && ClerksOk(cfg, s)
    ensures Local(cfg, s)
  {
    hide StatusOk, SlotOk;
    forall i | 0 <= i < |s.custs| && CRank(s.custs[i].pc) >= 2 ensures s.custs[i].id < cfg.N() {
      assert IdOk(s, s.custs[i]);
      if !Counted(s.custs[i]) { RoomLeft(s.custs, Counted, i); }
    }
    forall j | 0 <= j < |s.clerks| && KRank(s.clerks[j].pc) >= 3 ensures s.clerks[j].id < cfg.N() {
      assert HeadOk(s, s.clerks[j]);
      if KRank(s.clerks[j].pc) >= 4 { LineIds(cfg, s, s.clerks[j].id); }
    }
    forall j | 0 <= j < |s.clerks|
      ensures KindOk(cfg, s.clerks[j]) && (AtWork(s.clerks[j]) ==> s.clerks[j].id !in s.served)
    {
      assert ClerkOk(cfg, s, s.clerks[j]) && HeadOk(s, s.clerks[j]);
    }
  }

  // ---------------------------------------------------------------- one clerk moves

  /** Nothing that the other clerks and the settled customers rely on changed. */
  ghost predicate OthersKept(s: State, t: State, j: nat)
    requires j < |s.clerks|
  {
    && (forall id: nat :: id != s.clerks[j].id ==> StatusOf(t, id) == StatusOf(s, id))
    && (forall m :: 0 <= m < |s.clerks| && m != j && SlotOk(s, s.clerks[m]) ==> SlotOk(t, s.clerks[m]))
  }

  lemma OneClerkMoves(cfg: Config, s: State, t: State, j: nat)
    requires Line(cfg, s) && Book(cfg, s) && j < |s.clerks| && AtWork(s.clerks[j])
    requires |t.clerks| == |s.clerks| && t.clerks == s.clerks[j := t.clerks[j]] && t.clerks[j].id == s.clerks[j].id
    requires OthersKept(s, t, j) && ClerkOk(cfg, t, t.clerks[j])
    requires t.line == s.line && t.queueOut == s.queueOut && t.served == s.served && |t.booked| == |s.booked|
    ensures ClerksOk(cfg, t) && CustomersOk(cfg, t)
  {
    hide StatusOk, SlotOk, StatusOf, Settled, KindOk, Among, KRank;
    assert HeadOk(s, s.clerks[j]);
    forall m | 0 <= m < |t.clerks| ensures ClerkOk(cfg, t, t.clerks[m]) {
      assert ClerkOk(cfg, s, s.clerks[m]);
      if m != j && AtWork(s.clerks[m]) {
        assert s.clerks[m].id != s.clerks[j].id;
        assert StatusOf(t, s.clerks[m].id) == StatusOf(s, s.clerks[m].id);
      }
    }
    forall id | id in t.served
      ensures id < cfg.N() && Settled(cfg.flight[id], StatusOf(t, id)) && (Suffices(cfg) ==> IsBooked(t, id))
    {
      assert id != s.clerks[j].id;
      assert StatusOf(t, id) == StatusOf(s, id);
      assert StatusOf(s, id).booked == IsBooked(s, id) && StatusOf(t, id).booked == IsBooked(t, id) by {
        BookedField(s, id);
        BookedField(t, id);
      }
    }
    forall id: nat | !Among(t.line, t.queueOut, id) ensures StatusOf(t, id) == Status(false, false, false) {
      assert id != s.clerks[j].id;
      assert StatusOf(t, id) == StatusOf(s, id);
    }
  }

  lemma BookedField(s: State, id: nat)
    ensures StatusOf(s, id).booked == IsBooked(s, id)
  {
  }

  /** The other clerk holding no lock of flight 1 leaves its counters alone, and so on. */
  lemma Alone1(s: State, j: nat, m: nat)
    requires Mutex(s) && j < |s.clerks| && m < |s.clerks| && m != j && Holds1(s.clerks[j])
    ensures !Holds1(s.clerks[m])
  {
  }

  lemma Alone2(s: State, j: nat, m: nat)
    requires Mutex(s) && j < |s.clerks| && m < |s.clerks| && m != j && Holds2(s.clerks[j])
    ensures !Holds2(s.clerks[m])
  {
  }

  /** While a clerk holds a flight and is not itself booking there, no ticket of it is in anybody's hands. */
  lemma NothingPending1(cfg: Config, s: State, j: nat)
    requires Mutex(s) && ClerksOk(cfg, s) && j < |s.clerks| && Holds1(s.clerks[j]) && !Pending1(s.clerks[j])
    ensures Count(s.clerks, Pending1) == 0
  {
    hide StatusOk, SlotOk;
    forall m | 0 <= m < |s.clerks| ensures !Pending1(s.clerks[m]) {
      assert ClerkOk(cfg, s, s.clerks[m]);
      if m != j { Alone1(s, j, m); }
    }
    CountNone(s.clerks, Pending1);
  }

  lemma NothingPending2(cfg: Config, s: State, j: nat)
    requires Mutex(s) && ClerksOk(cfg, s) && j < |s.clerks| && Holds2(s.clerks[j]) && !Pending2(s.clerks[j])
    ensures Count(s.clerks, Pending2) == 0
  {
    hide StatusOk, SlotOk;
    forall m | 0 <= m < |s.clerks| ensures !Pending2(s.clerks[m]) {
      assert ClerkOk(cfg, s, s.clerks[m]);
      if m != j { Alone2(s, j, m); }
    }
    CountNone(s.clerks, Pending2);
  }

  /** Distinct ids out of a set, one of which is missing, are fewer than the set. */
  lemma {:induction false} FewerThan(a: seq<nat>, n: nat, u: set<nat>, id: nat)
    requires n <= |a| && Distinct(a, n) && (forall i :: 0 <= i < n ==> a[i] in u) && id in u && !Among(a, n, id)
    ensures n < |u|
  {
    if n == 0 {
      assert u != {};
    } else {
      var last := a[n - 1];
      forall i | 0 <= i < n - 1 ensures a[i] in u - {last} { }
      AmongGrows(a, n - 1, id);
      FewerThan(a, n - 1, u - {last}, id);
    }
  }

  /** A customer that orders flight 1 and is not on it finds a ticket, if the tickets suffice. */
  lemma TicketLeft1(cfg: Config, s: State, j: nat)
    requires Mutex(s) && Book(cfg, s) && j < |s.clerks| && s.clerks[j].pc == Test && s.clerks[j].kind != 2
    requires s.clerks[j].id < cfg.N() && !On1(s, s.clerks[j].id) && Suffices(cfg)
    ensures s.left1 > 0
  {
    hide StatusOk, SlotOk, CustomersOk, Count, Among, Distinct;
    assert ClerkOk(cfg, s, s.clerks[j]);
    NothingPending1(cfg, s, j);
    FewerThan(s.arr1, s.cnt1, Wanting(cfg, 2), s.clerks[j].id);
  }

  lemma TicketLeft2(cfg: Config, s: State, j: nat)
    requires Mutex(s) && Book(cfg, s) && j < |s.clerks| && s.clerks[j].pc == Test && s.clerks[j].kind != 1
    requires s.clerks[j].id < cfg.N() && !On2(s, s.clerks[j].id) && Suffices(cfg)
    ensures s.left2 > 0
  {
    hide StatusOk, SlotOk, CustomersOk, Count, Among, Distinct;
    assert ClerkOk(cfg, s, s.clerks[j]);
    NothingPending2(cfg, s, j);
    FewerThan(s.arr2, s.cnt2, Wanting(cfg, 1), s.clerks[j].id);
  }

  // ---------------------------------------------------------------- the statements of a booking

  /** What every clerk's move in the middle of its work starts from. */
  ghost predicate Here(cfg: Config, s: State, j: nat, pc: ClerkPc) {
    && Line(cfg, s) && Book(cfg, s) && Mutex(s) && cfg.Valid()
    && j < |s.clerks| && s.clerks[j].pc == pc && ClerkWait(s.clerks[j]) == []
  }

  lemma HereFacts(cfg: Config, s: State, j: nat, pc: ClerkPc)
    requires Here(cfg, s, j, pc) && KRank(pc) >= 4
    ensures var k := s.clerks[j];
      && ClerkOk(cfg, s, k) && k.id < cfg.N() && |s.booked| == cfg.N()
      && (KRank(pc) >= 5 ==> k.kind == cfg.flight[k.id] && 1 <= k.kind <= 3)
      && (KRank(pc) <= 18 ==> AtWork(k) && StatusOk(cfg, k, StatusOf(s, k.id)))
  {
    hide StatusOk, SlotOk, StatusOf;
    assert ClerkOk(cfg, s, s.clerks[j]) && HeadOk(s, s.clerks[j]);
    LineIds(cfg, s, s.clerks[j].id);
  }

  /** Flight 2 as seen by a move that does not touch it, and the same for flight 1. */
  lemma SameFlight1(cfg: Config, s: State, t: State, j: nat)
    requires Flight1Ok(cfg, s) && t.left1 == s.left1 && t.arr1 == s.arr1 && t.cnt1 == s.cnt1
    requires j < |s.clerks| == |t.clerks| && t.clerks == s.clerks[j := t.clerks[j]]
    requires Pending1(t.clerks[j]) == Pending1(s.clerks[j])
    ensures Flight1Ok(cfg, t)
  {
    CountUpdate(s.clerks, j, t.clerks[j], Pending1);
  }

  lemma SameFlight2(cfg: Config, s: State, t: State, j: nat)
    requires Flight2Ok(cfg, s) && t.left2 == s.left2 && t.arr2 == s.arr2 && t.cnt2 == s.cnt2
    requires j < |s.clerks| == |t.clerks| && t.clerks == s.clerks[j := t.clerks[j]]
    requires Pending2(t.clerks[j]) == Pending2(s.clerks[j])
    ensures Flight2Ok(cfg, t)
  {
    CountUpdate(s.clerks, j, t.clerks[j], Pending2);
  }

  /** The tickets and slots of the other clerks, when the mover holds flight 1 and touches only that one. */
  lemma SlotsKept1(cfg: Config, s: State, t: State, j: nat)
    requires Mutex(s) && ClerksOk(cfg, s) && j < |s.clerks| && Holds1(s.clerks[j])
    requires t.left2 == s.left2 && t.arr2 == s.arr2 && t.cnt2 == s.cnt2
    ensures forall m :: 0 <= m < |s.clerks| && m != j && SlotOk(s, s.clerks[m]) ==> SlotOk(t, s.clerks[m])
  {
    hide StatusOk, StatusOf;
    forall m | 0 <= m < |s.clerks| && m != j && SlotOk(s, s.clerks[m]) ensures SlotOk(t, s.clerks[m]) {
      assert ClerkOk(cfg, s, s.clerks[m]);
      Alone1(s, j, m);
    }
  }

  lemma SlotsKept2(cfg: Config, s: State, t: State, j: nat)
    requires Mutex(s) && ClerksOk(cfg, s) && j < |s.clerks| && Holds2(s.clerks[j])
    requires t.left1 == s.left1 && t.arr1 == s.arr1 && t.cnt1 == s.cnt1
    ensures forall m :: 0 <= m < |s.clerks| && m != j && SlotOk(s, s.clerks[m]) ==> SlotOk(t, s.clerks[m])
  {
    hide StatusOk, StatusOf;
    forall m | 0 <= m < |s.clerks| && m != j && SlotOk(s, s.clerks[m]) ensures SlotOk(t, s.clerks[m]) {
      assert ClerkOk(cfg, s, s.clerks[m]);
      Alone2(s, j, m);
    }
  }

  lemma TestBook(cfg: Config, s: State, j: nat)
    requires Here(cfg, s, j, Test)
    ensures Book(cfg, Move(cfg, s, Clrk(j)))
  {
    hide Line, Mutex, ClerksOk, CustomersOk;
    HereFacts(cfg, s, j, Test);
    var k := s.clerks[j];
    var t := s.(clerks := s.clerks[j := k.(pc := AfterTest(k.kind, s.left1, s.left2))]);
    assert Move(cfg, s, Clrk(j)) == t;
    if Suffices(cfg) {
      if k.kind != 2 { TicketLeft1(cfg, s, j); }
      if k.kind != 1 { TicketLeft2(cfg, s, j); }
    }
    hide Move, Count, Among, Line, Mutex, Suffices;
    assert ClerkOk(cfg, t, t.clerks[j]) && OthersKept(s, t, j);
    hide Move, Count, Among, StatusOk, SlotOk, StatusOf, Suffices, Line, Mutex;
    OneClerkMoves(cfg, s, t, j);
    SameFlight1(cfg, s, t, j);
    SameFlight2(cfg, s, t, j);
  }

  lemma Dec1Book(cfg: Config, s: State, j: nat)
    requires Here(cfg, s, j, Dec1)
    ensures Book(cfg, Move(cfg, s, Clrk(j)))
  {
    hide Line, Mutex, ClerksOk, CustomersOk;
    HereFacts(cfg, s, j, Dec1);
    var k := s.clerks[j];
    var t := s.(clerks := s.clerks[j := k.(pc := Mark1)], left1 := s.left1 - 1);
    assert Move(cfg, s, Clrk(j)) == t;
    SlotsKept1(cfg, s, t, j);
    assert ClerkOk(cfg, t, t.clerks[j]) && OthersKept(s, t, j);
    CountUpdate(s.clerks, j, t.clerks[j], Pending1);
    hide Move, Count, Among, StatusOk, StatusOf, Suffices, Line, Mutex;
    OneClerkMoves(cfg, s, t, j);
    SameFlight2(cfg, s, t, j);
  }

  lemma Mark1Book(cfg: Config, s: State, j: nat)
    requires Here(cfg, s, j, Mark1)
    ensures Book(cfg, Move(cfg, s, Clrk(j)))
  {
    hide Line, Mutex, ClerksOk, CustomersOk;
    HereFacts(cfg, s, j, Mark1);
    var k := s.clerks[j];
    var t := s.(clerks := s.clerks[j := k.(pc := Put1)], booked := Put(s.booked, k.id, true));
    assert Move(cfg, s, Clrk(j)) == t;
    assert ClerkOk(cfg, t, t.clerks[j]) && OthersKept(s, t, j);
    hide Move, Count, Among, StatusOk, SlotOk, StatusOf, Suffices, Line, Mutex;
    OneClerkMoves(cfg, s, t, j);
    SameFlight1(cfg, s, t, j);
    SameFlight2(cfg, s, t, j);
  }

  /** The booked array has room for the write. */
  lemma Put1Book(cfg: Config, s: State, j: nat)
    requires Here(cfg, s, j, Put1)
    ensures s.cnt1 < |s.arr1| && Book(cfg, Move(cfg, s, Clrk(j)))
  {
    hide Line, Mutex, ClerksOk, CustomersOk;
    HereFacts(cfg, s, j, Put1);
    var k := s.clerks[j];
    CountSome(s.clerks, Pending1, j);
    assert s.cnt1 < |s.arr1|;
    var t := s.(clerks := s.clerks[j := k.(pc := Count1)], arr1 := s.arr1[s.cnt1 := k.id]);
    assert Move(cfg, s, Clrk(j)) == t;
    SlotWritten1(s, t);
    PutStatus(cfg, k, StatusOf(s, k.id));
    assert Holds1(k);
    hide Move, Count, Among, StatusOk, StatusOf, KindOk;
    SlotsKept1(cfg, s, t, j);
    assert ClerkOk(cfg, t, t.clerks[j]) && OthersKept(s, t, j);
    CountUpdate(s.clerks, j, t.clerks[j], Pending1);
    hide Move, Count, Among, StatusOk, StatusOf, Suffices, Line, Mutex;
    OneClerkMoves(cfg, s, t, j);
    SameFlight2(cfg, s, t, j);
  }

  lemma Count1Book(cfg: Config, s: State, j: nat)
    requires Here(cfg, s, j, Count1)
    ensures Book(cfg, Move(cfg, s, Clrk(j)))
  {
    hide Line, Mutex, ClerksOk, CustomersOk;
    HereFacts(cfg, s, j, Count1);
    var k := s.clerks[j];
    var t := s.(clerks := s.clerks[j := k.(pc := if k.kind == 3 then Dec2 else Release1)], cnt1 := s.cnt1 + 1);
    assert Move(cfg, s, Clrk(j)) == t;
    assert s.arr1[s.cnt1] == k.id && !On1(s, k.id);
    Count1Flight(cfg, s, t, j);
    forall id: nat ensures On1(t, id) <==> On1(s, id) || id == k.id { AmongGrows(s.arr1, s.cnt1, id); }
    hide Move, Count, Among;
    SlotsKept1(cfg, s, t, j);
    assert ClerkOk(cfg, t, t.clerks[j]);
    assert OthersKept(s, t, j);
    hide StatusOk, StatusOf, Suffices, Line, Mutex;
    OneClerkMoves(cfg, s, t, j);
    SameFlight2(cfg, s, t, j);
  }

  lemma DistinctGrows(a: seq<nat>, n: nat)
    requires n < |a| && Distinct(a, n) && !Among(a, n, a[n])
    ensures Distinct(a, n + 1)
  {
  }

  lemma Count1Flight(cfg: Config, s: State, t: State, j: nat)
    requires Flight1Ok(cfg, s) && j < |s.clerks| && Pending1(s.clerks[j])
    requires s.cnt1 < |s.arr1| && s.arr1[s.cnt1] in Wanting(cfg, 2) && !Among(s.arr1, s.cnt1, s.arr1[s.cnt1])
    requires t.left1 == s.left1 && t.arr1 == s.arr1 && t.cnt1 == s.cnt1 + 1
    requires |t.clerks| == |s.clerks| && t.clerks == s.clerks[j := t.clerks[j]] && !Pending1(t.clerks[j])
    ensures Flight1Ok(cfg, t)
  {
    CountUpdate(s.clerks, j, t.clerks[j], Pending1);
    DistinctGrows(s.arr1, s.cnt1);
    hide Count, Distinct, Among;
  }

  lemma Dec2Book(cfg: Config, s: State, j: nat)
    requires Here(cfg, s, j, Dec2)
    ensures Book(cfg, Move(cfg, s, Clrk(j)))
  {
    hide Line, Mutex, ClerksOk, CustomersOk;
    HereFacts(cfg, s, j, Dec2);
    var k := s.clerks[j];
    var t := s.(clerks := s.clerks[j := k.(pc := Mark2)], left2 := s.left2 - 1);
    assert Move(cfg, s, Clrk(j)) == t;
    SlotsKept2(cfg, s, t, j);
    assert ClerkOk(cfg, t, t.clerks[j]) && OthersKept(s, t, j);
    CountUpdate(s.clerks, j, t.clerks[j], Pending2);
    hide Move, Count, Among, StatusOk, StatusOf, Suffices, Line, Mutex;
    OneClerkMoves(cfg, s, t, j);
    SameFlight1(cfg, s, t, j);
  }

  lemma Mark2Book(cfg: Config, s: State, j: nat)
    requires Here(cfg, s, j, Mark2)
    ensures Book(cfg, Move(cfg, s, Clrk(j)))
  {
    hide Line, Mutex, ClerksOk, CustomersOk;
    HereFacts(cfg, s, j, Mark2);
    var k := s.clerks[j];
    var t := s.(clerks := s.clerks[j := k.(pc := Put2)], booked := Put(s.booked, k.id, true));
    assert Move(cfg, s, Clrk(j)) == t;
    assert ClerkOk(cfg, t, t.clerks[j]) && OthersKept(s, t, j);
    hide Move, Count, Among, StatusOk, SlotOk, StatusOf, Suffices, Line, Mutex;
    OneClerkMoves(cfg, s, t, j);
    SameFlight1(cfg, s, t, j);
    SameFlight2(cfg, s, t, j);
  }

  /** The booked array has room for the write. */
  lemma Put2Book(cfg: Config, s: State, j: nat)
    requires Here(cfg, s, j, Put2)
    ensures s.cnt2 < |s.arr2| && Book(cfg, Move(cfg, s, Clrk(j)))
  {
    hide Line, Mutex, ClerksOk, CustomersOk;
    HereFacts(cfg, s, j, Put2);
    var k := s.clerks[j];
    CountSome(s.clerks, Pending2, j);
    assert s.cnt2 < |s.arr2|;
    var t := s.(clerks := s.clerks[j := k.(pc := Count2)], arr2 := s.arr2[s.cnt2 := k.id]);
    assert Move(cfg, s, Clrk(j)) == t;
    SlotWritten2(s, t);
    PutStatus(cfg, k, StatusOf(s, k.id));
    assert Holds2(k);
    hide Move, Count, Among, StatusOk, StatusOf, KindOk;
    SlotsKept2(cfg, s, t, j);
    assert ClerkOk(cfg, t, t.clerks[j]) && OthersKept(s, t, j);
    CountUpdate(s.clerks, j, t.clerks[j], Pending2);
    hide Move, Count, Among, StatusOk, StatusOf, Suffices, Line, Mutex;
    OneClerkMoves(cfg, s, t, j);
    SameFlight1(cfg, s, t, j);
  }

  lemma Count2Book(cfg: Config, s: State, j: nat)
    requires Here(cfg, s, j, Count2)
    ensures Book(cfg, Move(cfg, s, Clrk(j)))
  {
    hide Line, Mutex, ClerksOk, CustomersOk;
    HereFacts(cfg, s, j, Count2);
    var k := s.clerks[j];
    var t := s.(clerks := s.clerks[j := k.(pc := Release2)], cnt2 := s.cnt2 + 1);
    assert Move(cfg, s, Clrk(j)) == t;
    assert s.arr2[s.cnt2] == k.id && !On2(s, k.id);
    Count2Flight(cfg, s, t, j);
    forall id: nat ensures On2(t, id) <==> On2(s, id) || id == k.id { AmongGrows(s.arr2, s.cnt2, id); }
    hide Move, Count, Among;
    SlotsKept2(cfg, s, t, j);
    assert ClerkOk(cfg, t, t.clerks[j]);
    assert OthersKept(s, t, j);
    hide StatusOk, StatusOf, Suffices, Line, Mutex;
    OneClerkMoves(cfg, s, t, j);
    SameFlight1(cfg, s, t, j);
  }

  lemma Count2Flight(cfg: Config, s: State, t: State, j: nat)
    requires Flight2Ok(cfg, s) && j < |s.clerks| && Pending2(s.clerks[j])
    requires s.cnt2 < |s.arr2| && s.arr2[s.cnt2] in Wanting(cfg, 1) && !Among(s.arr2, s.cnt2, s.arr2[s.cnt2])
    requires t.left2 == s.left2 && t.arr2 == s.arr2 && t.cnt2 == s.cnt2 + 1
    requires |t.clerks| == |s.clerks| && t.clerks == s.clerks[j := t.clerks[j]] && !Pending2(t.clerks[j])
    ensures Flight2Ok(cfg, t)
  {
    CountUpdate(s.clerks, j, t.clerks[j], Pending2);
    DistinctGrows(s.arr2, s.cnt2);
    hide Count, Distinct, Among;
  }

  lemma PutStatus(cfg: Config, k: Clerk, a: Status)
    requires (k.pc == Put1 || k.pc == Put2) && KindOk(cfg, k) && StatusOk(cfg, k, a)
    ensures var k' := k.(pc := if k.pc == Put1 then Count1 else Count2);
      KindOk(cfg, k') && StatusOk(cfg, k', a)
  {
  }

  /** Writing the slot behind the booked ones changes nobody's status. */
  lemma SlotWritten1(s: State, t: State)
    requires t.cnt1 == s.cnt1 < |s.arr1| == |t.arr1| && t.arr1 == s.arr1[s.cnt1 := t.arr1[s.cnt1]]
    requires t.booked == s.booked && t.arr2 == s.arr2 && t.cnt2 == s.cnt2
    ensures forall id: nat :: StatusOf(t, id) == StatusOf(s, id)
  {
    forall id: nat ensures StatusOf(t, id) == StatusOf(s, id) { AmongPrefix(s.arr1, t.arr1, s.cnt1, id); }
  }

  lemma SlotWritten2(s: State, t: State)
    requires t.cnt2 == s.cnt2 < |s.arr2| == |t.arr2| && t.arr2 == s.arr2[s.cnt2 := t.arr2[s.cnt2]]
    requires t.booked == s.booked && t.arr1 == s.arr1 && t.cnt1 == s.cnt1
    ensures forall id: nat :: StatusOf(t, id) == StatusOf(s, id)
  {
    forall id: nat ensures StatusOf(t, id) == StatusOf(s, id) { AmongPrefix(s.arr2, t.arr2, s.cnt2, id); }
  }

  // ---------------------------------------------------------------- the other moves of a clerk

  /** Moves that touch nothing of the bookings but the clerk's own place. */
  lemma QuietBook(cfg: Config, s: State, j: nat, k': Clerk)
    requires Line(cfg, s) && Book(cfg, s) && j < |s.clerks| && AtWork(s.clerks[j]) && k'.id == s.clerks[j].id
    requires ClerkOk(cfg, s.(clerks := s.clerks[j := k']), k')
    requires Pending1(k') == Pending1(s.clerks[j]) && Pending2(k') == Pending2(s.clerks[j])
    ensures Book(cfg, s.(clerks := s.clerks[j := k']))
  {
    hide Line, Flight1Ok, Flight2Ok, ClerksOk, CustomersOk, ClerkOk, Pending1, Pending2;
    var t := s.(clerks := s.clerks[j := k']);
    assert OthersKept(s, t, j);
    OneClerkMoves(cfg, s, t, j);
    SameFlight1(cfg, s, t, j);
    SameFlight2(cfg, s, t, j);
  }

  lemma ReleaseBook(cfg: Config, s: State, j: nat, pc: ClerkPc)
    requires Here(cfg, s, j, pc) && pc in {ExitQueue, Release2, Release1}
    ensures Book(cfg, Move(cfg, s, Clrk(j)))
  {
    hide Line, Mutex, ClerksOk, CustomersOk;
    HereFacts(cfg, s, j, pc);
    var k := s.clerks[j];
    var k' := ClerkGo(cfg, s, k);
    assert Move(cfg, s, Clrk(j)) == s.(clerks := s.clerks[j := k']);
    assert Get(cfg.flight, k.id) == cfg.flight[k.id];
    assert StatusOk(cfg, k', StatusOf(s, k.id));
    QuietBook(cfg, s, j, k');
  }

  lemma SayFinishedBook(cfg: Config, s: State, j: nat)
    requires Here(cfg, s, j, SayFinished)
    ensures Book(cfg, Move(cfg, s, Clrk(j)))
  {
    hide Line, Mutex;
    HereFacts(cfg, s, j, SayFinished);
    var k := s.clerks[j];
    var t := s.(clerks := s.clerks[j := k.(pc := ReturnToken)], served := s.served + {k.id});
    assert Move(cfg, s, Clrk(j)) == t;
    assert Settled(cfg.flight[k.id], StatusOf(t, k.id)) && (Suffices(cfg) ==> IsBooked(t, k.id));
    SameFlight1(cfg, s, t, j);
    SameFlight2(cfg, s, t, j);
    hide Move, Settled, Among, KRank, Suffices, Flight1Ok, Flight2Ok;
    forall id: nat ensures StatusOf(t, id) == StatusOf(s, id) { }
    OwnClerkDone(cfg, s, t, j);
    forall id: nat | !Among(t.line, t.queueOut, id) ensures StatusOf(t, id) == Status(false, false, false) {
      assert StatusOf(t, id) == StatusOf(s, id);
    }
    forall id | id in t.served
      ensures id < cfg.N() && Settled(cfg.flight[id], StatusOf(t, id)) && (Suffices(cfg) ==> IsBooked(t, id))
    {
      assert StatusOf(t, id) == StatusOf(s, id) && IsBooked(t, id) == IsBooked(s, id);
    }
  }

  /** A clerk that is not at work has nothing to answer for. */
  lemma OwnClerkDone(cfg: Config, s: State, t: State, j: nat)
    requires ClerksOk(cfg, s) && j < |s.clerks| == |t.clerks| && t.clerks == s.clerks[j := t.clerks[j]]
    requires !AtWork(t.clerks[j]) && KindOk(cfg, t.clerks[j])
    requires forall id: nat :: StatusOf(t, id) == StatusOf(s, id)
    requires t.left1 == s.left1 && t.left2 == s.left2 && t.arr1 == s.arr1 && t.arr2 == s.arr2 && t.cnt1 == s.cnt1
        && t.cnt2 == s.cnt2
    ensures ClerksOk(cfg, t)
  {
    hide StatusOk, StatusOf, KindOk;
    forall m | 0 <= m < |t.clerks| ensures ClerkOk(cfg, t, t.clerks[m]) {
      assert ClerkOk(cfg, s, s.clerks[m]);
    }
  }

  lemma IdleBook(cfg: Config, s: State, j: nat, pc: ClerkPc)
    requires Here(cfg, s, j, pc) && pc in {TakeId, ReturnToken}
    ensures Book(cfg, Move(cfg, s, Clrk(j)))
  {
    hide Line, Mutex;
    var k := s.clerks[j];
    var k' := ClerkGo(cfg, s, k);
    var t := s.(clerks := s.clerks[j := k']);
    assert Move(cfg, s, Clrk(j)) == t;
    assert KindOk(cfg, k') && !AtWork(k');
    SameFlight1(cfg, s, t, j);
    SameFlight2(cfg, s, t, j);
    hide Move, Settled, Among, KRank, Suffices, Flight1Ok, Flight2Ok, KindOk, ClerkGo;
    forall id: nat ensures StatusOf(t, id) == StatusOf(s, id) { }
    OwnClerkDone(cfg, s, t, j);
    SameCustomers(cfg, s, t);
  }

  lemma SameCustomers(cfg: Config, s: State, t: State)
    requires CustomersOk(cfg, s) && t.served == s.served && |t.booked| == |s.booked|
    requires forall id: nat :: StatusOf(t, id) == StatusOf(s, id)
    requires forall id: nat :: Among(s.line, s.queueOut, id) ==> Among(t.line, t.queueOut, id)
    ensures CustomersOk(cfg, t)
  {
    hide Settled, Among, On1, On2, Suffices;
    forall id | id in t.served
      ensures id < cfg.N() && Settled(cfg.flight[id], StatusOf(t, id)) && (Suffices(cfg) ==> IsBooked(t, id))
    {
      assert StatusOf(t, id) == StatusOf(s, id);
    }
    forall id: nat | !Among(t.line, t.queueOut, id) ensures StatusOf(t, id) == Status(false, false, false) {
      assert StatusOf(t, id) == StatusOf(s, id);
    }
  }

  /** A customer that has just been dequeued is on no flight yet. */
  lemma BumpOutBook(cfg: Config, s: State, j: nat)
    requires Here(cfg, s, j, BumpOut)
    ensures Book(cfg, Move(cfg, s, Clrk(j)))
  {
    hide Mutex;
    var k := s.clerks[j];
    var t := s.(clerks := s.clerks[j := k.(pc := ExitQueue)], queueOut := s.queueOut + 1);
    assert Move(cfg, s, Clrk(j)) == t;
    assert HeadOk(s, k) && s.queueOut < |s.line| && k.id == s.line[s.queueOut];
    assert !Among(s.line, s.queueOut, k.id);
    forall id: nat ensures Among(s.line, s.queueOut, id) ==> Among(t.line, t.queueOut, id) {
      AmongGrows(s.line, s.queueOut, id);
    }
    SameFlight1(cfg, s, t, j);
    SameFlight2(cfg, s, t, j);
    hide Move, Settled, Among, Suffices, Flight1Ok, Flight2Ok, Line;
    forall id: nat ensures StatusOf(t, id) == StatusOf(s, id) { }
    SameCustomers(cfg, s, t);
    forall m | 0 <= m < |t.clerks| ensures ClerkOk(cfg, t, t.clerks[m]) {
      assert ClerkOk(cfg, s, s.clerks[m]);
    }
  }

  lemma ClerkMoveBook(cfg: Config, s: State, j: nat)
    requires cfg.Valid() && Line(cfg, s) && Book(cfg, s) && Mutex(s)
    requires Enabled(cfg, s, Clrk(j)) && WaitsOn(cfg, s, Clrk(j)) == []
    ensures Book(cfg, Move(cfg, s, Clrk(j)))
  {
    hide Line, Book, Mutex, Move;
    var at := s.clerks[j].pc;
    match at
    case Test => TestBook(cfg, s, j);
    case Dec1 => Dec1Book(cfg, s, j);
    case Mark1 => Mark1Book(cfg, s, j);
    case Put1 => Put1Book(cfg, s, j);
    case Count1 => Count1Book(cfg, s, j);
    case Dec2 => Dec2Book(cfg, s, j);
    case Mark2 => Mark2Book(cfg, s, j);
    case Put2 => Put2Book(cfg, s, j);
    case Count2 => Count2Book(cfg, s, j);
    case SayFinished => SayFinishedBook(cfg, s, j);
    case BumpOut => BumpOutBook(cfg, s, j);
    case TakeId => IdleBook(cfg, s, j, TakeId);
    case ReturnToken => IdleBook(cfg, s, j, ReturnToken);
    case _ => ReleaseBook(cfg, s, j, at);
  }

  // ---------------------------------------------------------------- all steps

  lemma CustMoveBook(cfg: Config, s: State, i: nat)
    requires Line(cfg, s) && Book(cfg, s) && i < |s.custs|
    ensures Book(cfg, Move(cfg, s, Cust(i)))
  {
    hide Move, Book;
    var t := Move(cfg, s, Cust(i));
    CustLeavesBook(cfg, s, i);
    forall id: nat ensures Among(t.line, t.queueOut, id) <==> Among(s.line, s.queueOut, id) {
      AmongPrefix(s.line, t.line, s.queueOut, id);
    }
    BookReads(cfg, s, t);
  }

  /** A customer writes at the tail of the waiting line only. */
  lemma CustLeavesBook(cfg: Config, s: State, i: nat)
    requires Line(cfg, s) && i < |s.custs|
    ensures var t := Move(cfg, s, Cust(i));
      && t.clerks == s.clerks && t.served == s.served && t.queueOut == s.queueOut && t.booked == s.booked
      && t.left1 == s.left1 && t.arr1 == s.arr1 && t.cnt1 == s.cnt1
      && t.left2 == s.left2 && t.arr2 == s.arr2 && t.cnt2 == s.cnt2
      && |t.line| == |s.line| && (forall m :: 0 <= m < s.queueOut && m < |s.line| ==> t.line[m] == s.line[m])
  {
    hide IdInv, TailInv, CustGo;
  }

  /** The fields the booking invariant speaks of. */
  lemma BookReads(cfg: Config, s: State, t: State)
    requires Book(cfg, s)
    requires t.clerks == s.clerks && t.served == s.served && t.booked == s.booked
    requires t.left1 == s.left1 && t.arr1 == s.arr1 && t.cnt1 == s.cnt1
    requires t.left2 == s.left2 && t.arr2 == s.arr2 && t.cnt2 == s.cnt2
    requires forall id: nat :: Among(t.line, t.queueOut, id) <==> Among(s.line, s.queueOut, id)
    ensures Book(cfg, t)
  {
    hide Settled, StatusOk, KindOk, Among, Suffices;
    forall id: nat ensures StatusOf(t, id) == StatusOf(s, id) { }
    SameCustomers(cfg, s, t);
    hide StatusOf;
    forall m | 0 <= m < |t.clerks| ensures ClerkOk(cfg, t, t.clerks[m]) {
      assert ClerkOk(cfg, s, s.clerks[m]);
    }
  }

  lemma MoveBook(cfg: Config, s: State, p: Proc)
    requires cfg.Valid() && SemInv(cfg, s) && Line(cfg, s) && Book(cfg, s)
    requires Enabled(cfg, s, p) && WaitsOn(cfg, s, p) == []
    ensures Book(cfg, Move(cfg, s, p))
  {
    hide Line, Book, SemInv, Mutex;
    match p
    case Cust(i) => CustMoveBook(cfg, s, i);
    case Clrk(j) =>
      SemaphoresExclude(cfg, s);
      ClerkMoveBook(cfg, s, j);
    case Main =>
  }

  /** A clerk that only gets past a wait, or blocks at one. */
  lemma ClerkWaitBook(cfg: Config, s: State, j: nat, k': Clerk)
    requires Line(cfg, s) && Book(cfg, s) && j < |s.clerks| && ClerkWait(s.clerks[j]) != []
    requires k' == ClerkAfterWait(s.clerks[j]) || k' == s.clerks[j].(blocked := true)
    ensures Book(cfg, s.(clerks := s.clerks[j := k']))
  {
    hide Line;
    var k, t := s.clerks[j], s.(clerks := s.clerks[j := k']);
    assert ClerkOk(cfg, s, k);
    if AtWork(k) {
      assert ClerkOk(cfg, t, k');
      QuietBook(cfg, s, j, k');
    } else {
      assert KindOk(cfg, k') && !AtWork(k');
      SameFlight1(cfg, s, t, j);
      SameFlight2(cfg, s, t, j);
      hide Settled, Among, KRank, Suffices, Flight1Ok, Flight2Ok, KindOk, ClerkAfterWait;
      forall id: nat ensures StatusOf(t, id) == StatusOf(s, id) { }
      OwnClerkDone(cfg, s, t, j);
      SameCustomers(cfg, s, t);
    }
  }

  lemma PassBook(cfg: Config, s: State, p: Proc)
    requires Line(cfg, s) && Book(cfg, s) && WaitsOn(cfg, s, p) != []
    ensures Book(cfg, Pass(s, p)) && Book(cfg, Block(s, p))
  {
    hide Line, Book, Among;
    match p
    case Cust(i) =>
      BookReads(cfg, s, Pass(s, p));
      BookReads(cfg, s, Block(s, p));
    case Clrk(j) =>
      ClerkWaitBook(cfg, s, j, ClerkAfterWait(s.clerks[j]));
      ClerkWaitBook(cfg, s, j, s.clerks[j].(blocked := true));
    case Main =>
      BookReads(cfg, s, Pass(s, p));
      BookReads(cfg, s, Block(s, p));
  }

  lemma StepKeepsBook(cfg: Config, s: State, p: Proc)
    requires cfg.Valid() && SemInv(cfg, s) && Line(cfg, s) && Book(cfg, s) && Enabled(cfg, s, p)
    ensures Book(cfg, Next(cfg, s, p))
  {
    IdsInRange(cfg, s);
    hide Line, Book, SemInv, Local, Move, Pass, Block, Next, Enabled, WaitsOn, Among;
    var shape := NextShape(cfg, s, p);
    var t := Next(cfg, s, p);
    match shape
    case Blocks =>
      PassBook(cfg, s, p);
      BookReads(cfg, Block(s, p), t);
    case Passes =>
      PassBook(cfg, s, p);
      BookReads(cfg, Pass(s, p), t);
    case Moves =>
      MoveBook(cfg, s, p);
      BookReads(cfg, Move(cfg, s, p), t);
    case MovesAndReleases(q) =>
      MoveBook(cfg, s, p);
      MoveLine(cfg, s, p);
      PassBook(cfg, Move(cfg, s, p), q);
      BookReads(cfg, Pass(Move(cfg, s, p), q), t);
  }
}
