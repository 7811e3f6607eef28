/**
 The air reservation on the kernel: its processes are environments, its semaphores slots of the kernel's array, and who
 runs is decided by the scheduler.  Every such run, with other environments and clock interrupts in between, is a run of
 the state machine in Air, so what AirTheorems and AirEnd say of every interleaving holds of what the kernel does.
 */
module AirOnKernel {
  import opened Semaphores
  import opened Air
  import opened AirSemaphores
  import opened AirLine
  import opened AirBooking
  import opened AirTheorems
  import K = Scheduling

  /** Which environment is which process, and where each semaphore lies. */
  datatype Loading = Loading(procs: map<nat, Proc>, slots: map<SemId, nat>) {
    ghost predicate Valid() {
      && (forall e, f :: e in procs && f in procs && procs[e] == procs[f] ==> e == f)
      && (forall x, y :: x in slots && y in slots && slots[x] == slots[y] ==> x == y)
    }
  }

  /** The same value, and the same processes queued in the same order. */
  ghost predicate Mirrors(l: Loading, m: Sem<nat>, n: Sem<Proc>) {
    && m.value == n.value && |m.queue| == |n.queue|
    && forall k :: 0 <= k < |m.queue| ==> m.queue[k] in l.procs && l.procs[m.queue[k]] == n.queue[k]
  }

  /** Semaphore `x` of the reservation is in its slot. */
  ghost predicate InSlot(l: Loading, s: K.State, a: State, x: SemId) {
    && x in l.slots && x in a.sems && l.slots[x] < |s.sems| && !s.sems[l.slots[x]].empty
    && Mirrors(l, K.Plain(s.sems[l.slots[x]]), a.sems[x])
  }

  ghost predicate Linked(cfg: Config, l: Loading, s: K.State, a: State) {
    forall x :: Known(cfg, x) ==> InSlot(l, s, a, x)
  }

  // ---------------------------------------------------------------- events

  /** Something that is not the reservation's, a semaphore call of the running process, or one of its other steps. */
  datatype Event = Elsewhere(op: K.Op) | Call(op: K.Op) | Compute

  predicate Uses(s: K.State, op: K.Op, i: nat) {
    K.WaitsOn(s, op, i) || K.SignalsOn(s, op, i)
  }

  /** The process that runs, which has not finished. */
  ghost predicate Runs(cfg: Config, l: Loading, s: K.State, a: State, p: Proc) {
    s.cur.Some? && s.cur.value in l.procs && l.procs[s.cur.value] == p && Exists(a, p) && !Finished?(cfg, a, p)
  }

  /** Nobody else uses the reservation's semaphores; a process makes the call its program has come to. */
  ghost predicate Happens(cfg: Config, l: Loading, s: K.State, a: State, event: Event, p: Proc) {
    match event
    case Elsewhere(op) => K.Allowed(s, op) && forall x :: x in l.slots ==> !Uses(s, op, l.slots[x])
    case Compute => Runs(cfg, l, s, a, p) && WaitsOn(cfg, a, p) == [] && Signals(a, p) == []
    case Call(op) =>
      && Runs(cfg, l, s, a, p) && K.Allowed(s, op)
      && if WaitsOn(cfg, a, p) != [] then
           var x := WaitsOn(cfg, a, p)[0]; x in l.slots && K.WaitsOn(s, op, l.slots[x])
         else
           Signals(a, p) != [] && var x := Signals(a, p)[0]; x in l.slots && K.SignalsOn(s, op, l.slots[x])
  }

  function KernelStep(s: K.State, event: Event): K.State
    requires !event.Compute? ==> K.Allowed(s, event.op)
  {
    if event.Compute? then s else K.Step(s, event.op)
  }

  function ProcessStep(cfg: Config, a: State, event: Event, p: Proc): State {
    if event.Elsewhere? then a else Next(cfg, a, p)
  }

  // ---------------------------------------------------------------- one event

  lemma MirrorWait(l: Loading, m: Sem<nat>, n: Sem<Proc>, e: nat)
    requires Mirrors(l, m, n) && e in l.procs
    ensures Mirrors(l, m.Wait(e), n.Wait(l.procs[e])) && m.Blocks() == n.Blocks()
  {
  }

  lemma MirrorSignal(l: Loading, m: Sem<nat>, n: Sem<Proc>)
    requires Mirrors(l, m, n) && m.Ok()
    ensures n.Ok() && Mirrors(l, m.Signal(), n.Signal())
  {
  }

  /** The scheduler runs nobody who is blocked: the step it grants is one that the state machine allows. */
  lemma RunnerEnabled(cfg: Config, l: Loading, s: K.State, a: State, p: Proc)
    requires l.Valid() && K.Sound(s) && Linked(cfg, l, s, a) && SemInv(cfg, a) && Runs(cfg, l, s, a, p)
    ensures Enabled(cfg, a, p)
  {
    hide K.Sound, QueueOk;
    if Blocked(a, p) {
      assert BlockedOk(cfg, a, p);
      var x := WaitsOn(cfg, a, p)[0];
      assert InSlot(l, s, a, x);
      var q := K.Plain(s.sems[l.slots[x]]).queue;
      var k :| 0 <= k < |a.sems[x].queue| && a.sems[x].queue[k] == p;
      assert q[k] == s.cur.value;
      assert s.sems[l.slots[x]].queue[|q| - 1 - k] == s.cur.value;
      K.RunnerNotQueued(s, l.slots[x]);
    }
  }

  /** A slot that the call does not use is as before. */
  lemma SlotKept(l: Loading, s: K.State, a: State, op: K.Op, x: SemId)
    requires K.Allowed(s, op) && InSlot(l, s, a, x) && !Uses(s, op, l.slots[x])
    ensures InSlot(l, K.Step(s, op), a, x)
  {
    hide K.Step;
    K.OtherSemKept(s, op, l.slots[x]);
  }

  lemma SameSems(l: Loading, s: K.State, a: State, b: State, x: SemId)
    requires InSlot(l, s, a, x) && x in b.sems && b.sems[x] == a.sems[x]
    ensures InSlot(l, s, b, x)
  {
  }

  /** The call of the running process does to its slot what the state machine's step does to its semaphore. */
  lemma SlotUsed(cfg: Config, l: Loading, s: K.State, a: State, op: K.Op, p: Proc, x: SemId)
    requires K.Sound(s) && InSlot(l, s, a, x) && s.cur.Some? && s.cur.value in l.procs && l.procs[s.cur.value] == p
    requires K.Allowed(s, op) && Uses(s, op, l.slots[x])
    ensures l.slots[x] < |K.Step(s, op).sems| && !K.Step(s, op).sems[l.slots[x]].empty && a.sems[x].Ok()
    ensures Mirrors(l, K.Plain(K.Step(s, op).sems[l.slots[x]]),
                    if op.OpWait? then a.sems[x].Wait(p) else a.sems[x].Signal())
  {
    hide K.Sound, Mirrors, K.Plain;
    var i := l.slots[x];
    K.SemaphoresRefine(s, i);
    MirrorWait(l, K.Plain(s.sems[i]), a.sems[x], s.cur.value);
    MirrorSignal(l, K.Plain(s.sems[i]), a.sems[x]);
  }

  /** What a step of the state machine does to the semaphores. */
  lemma NextSems(cfg: Config, a: State, p: Proc)
    requires Enabled(cfg, a, p)
    requires forall x :: x in WaitsOn(cfg, a, p) + Signals(a, p) ==> x in a.sems && a.sems[x].Ok()
    ensures var b, w, g := Next(cfg, a, p), WaitsOn(cfg, a, p), Signals(a, p);
      if w != [] then w[0] in a.sems && b.sems == a.sems[w[0] := a.sems[w[0]].Wait(p)]
      else if g != [] then g[0] in a.sems && a.sems[g[0]].Ok() && b.sems == a.sems[g[0] := a.sems[g[0]].Signal()]
      else b.sems == a.sems
  {
    var w, g := WaitsOn(cfg, a, p), Signals(a, p);
    if w != [] {
      assert w[0] in w + g;
    } else {
      MoveFacts(cfg, a, p);
      if g != [] { assert g[0] in w + g; }
    }
  }

  /** The semaphores a process calls exist. */
  lemma CallsKnown(cfg: Config, a: State, p: Proc)
    requires Inv(cfg, a)
    ensures forall x :: x in WaitsOn(cfg, a, p) + Signals(a, p) ==> Known(cfg, x) && x in a.sems && a.sems[x].Ok()
  {
    hide Line;
    IdsInRange(cfg, a);
    forall x | x in WaitsOn(cfg, a, p) + Signals(a, p) ensures Known(cfg, x) && x in a.sems && a.sems[x].Ok() {
      assert Known(cfg, x) by { LocalCalls(cfg, a, p, x); }
      assert QueueOk(cfg, a, x);
    }
  }

  lemma LocalCalls(cfg: Config, a: State, p: Proc, x: SemId)
    requires Local(cfg, a) && x in WaitsOn(cfg, a, p) + Signals(a, p)
    ensures Known(cfg, x)
  {
  }

  /** Events that are not the reservation's. */
  lemma ElsewhereKeeps(cfg: Config, l: Loading, s: K.State, a: State, op: K.Op)
    requires Linked(cfg, l, s, a) && K.Allowed(s, op) && forall x :: x in l.slots ==> !Uses(s, op, l.slots[x])
    ensures Linked(cfg, l, K.Step(s, op), a)
  {
    hide K.Step, InSlot, Uses;
    forall x | Known(cfg, x) ensures InSlot(l, K.Step(s, op), a, x) {
      assert InSlot(l, s, a, x);
      LoadedSlot(l, s, a, x);
      SlotKept(l, s, a, op, x);
    }
  }

  lemma LoadedSlot(l: Loading, s: K.State, a: State, x: SemId)
    requires InSlot(l, s, a, x)
    ensures x in l.slots && x in a.sems
  {
  }

  /** A semaphore call of the running process: `y` is the semaphore it is for. */
  lemma CallKeeps(cfg: Config, l: Loading, s: K.State, a: State, op: K.Op, p: Proc, y: SemId)
    requires l.Valid() && K.Sound(s) && Linked(cfg, l, s, a) && Inv(cfg, a) && Enabled(cfg, a, p)
    requires s.cur.Some? && s.cur.value in l.procs && l.procs[s.cur.value] == p && K.Allowed(s, op)
    requires y in l.slots && Uses(s, op, l.slots[y]) && Known(cfg, y)
    requires if op.OpWait? then WaitsOn(cfg, a, p) != [] && y == WaitsOn(cfg, a, p)[0]
             else WaitsOn(cfg, a, p) == [] && Signals(a, p) != [] && y == Signals(a, p)[0]
    ensures Linked(cfg, l, K.Step(s, op), Next(cfg, a, p))
  {
    hide K.Step, K.Sound, Inv, Mirrors, Enabled, WaitsOn, Signals, Next;
    var t, b := K.Step(s, op), Next(cfg, a, p);
    CallsKnown(cfg, a, p);
    NextSems(cfg, a, p);
    forall x | Known(cfg, x) ensures InSlot(l, t, b, x) {
      assert InSlot(l, s, a, x);
      if x == y {
        SlotUsed(cfg, l, s, a, op, p, x);
      } else {
        SlotKept(l, s, a, op, x);
        SameSems(l, t, a, b, x);
      }
    }
  }

  /** Every event keeps the two machines together, and every step of a process is one that Air allows. */
  lemma EventKeeps(cfg: Config, l: Loading, s: K.State, a: State, event: Event, p: Proc)
    requires l.Valid() && K.Sound(s) && Linked(cfg, l, s, a) && Inv(cfg, a) && Happens(cfg, l, s, a, event, p)
    ensures !event.Elsewhere? ==> Enabled(cfg, a, p)
    ensures var t, b := KernelStep(s, event), ProcessStep(cfg, a, event, p);
      K.Sound(t) && Linked(cfg, l, t, b) && Inv(cfg, b)
  {
    hide K.Sound, K.Step, Linked, Inv, Enabled, WaitsOn, Signals, Next;
    if !event.Compute? { K.StepKeepsSound(s, event.op); }
    if event.Elsewhere? {
      ElsewhereKeeps(cfg, l, s, a, event.op);
    } else {
      InvSems(cfg, a);
      RunnerEnabled(cfg, l, s, a, p);
      StepKeepsInv(cfg, a, p);
      if event.Compute? {
        ComputeKeeps(cfg, l, s, a, p);
      } else {
        var w := WaitsOn(cfg, a, p);
        var y := if w != [] then w[0] else Signals(a, p)[0];
        CallsKnown(cfg, a, p);
        assert y in w + Signals(a, p);
        CallKeeps(cfg, l, s, a, event.op, p, y);
      }
    }
  }

  lemma InvSems(cfg: Config, a: State)
    requires Inv(cfg, a)
    ensures SemInv(cfg, a)
  {
  }

  lemma ComputeKeeps(cfg: Config, l: Loading, s: K.State, a: State, p: Proc)
    requires Linked(cfg, l, s, a) && Enabled(cfg, a, p) && WaitsOn(cfg, a, p) == [] && Signals(a, p) == []
    ensures Linked(cfg, l, s, Next(cfg, a, p))
  {
    hide Enabled, Next, Mirrors;
    NextSems(cfg, a, p);
    forall x | Known(cfg, x) ensures InSlot(l, s, Next(cfg, a, p), x) {
      assert InSlot(l, s, a, x);
      SameSems(l, s, a, Next(cfg, a, p), x);
    }
  }

  /** As long as semaphore names are unique, a running process that is not through can always go on. */
  lemma RunnerCanGo(cfg: Config, l: Loading, s: K.State, a: State, p: Proc) returns (event: Event)
    requires l.Valid() && K.Sound(s) && Linked(cfg, l, s, a) && Inv(cfg, a) && Runs(cfg, l, s, a, p)
    requires K.NamesUnique(s.sems)
    ensures !event.Elsewhere? && Happens(cfg, l, s, a, event, p)
  {
    hide K.Sound, Inv, Mirrors, WaitsOn, Signals;
    var w, g := WaitsOn(cfg, a, p), Signals(a, p);
    if w == [] && g == [] {
      return Compute;
    }
    CallsKnown(cfg, a, p);
    var x := if w != [] then w[0] else g[0];
    assert x in w + g;
    assert InSlot(l, s, a, x);
    var m := s.sems[l.slots[x]];
    var j := K.FindSem(s.sems, m.owner, m.name, 0);
    assert K.Named(m, m.owner, m.name);
    assert j == l.slots[x] by { assert j <= l.slots[x]; }
    event := Call(if w != [] then K.OpWait(m.owner, m.name) else K.OpSignal(m.owner, m.name));
  }

  // ---------------------------------------------------------------- every run

  /** The process whose environment runs. */
  function Running(l: Loading, s: K.State): Proc {
    if s.cur.Some? && s.cur.value in l.procs then l.procs[s.cur.value] else Main
  }

  ghost predicate AllHappen(cfg: Config, l: Loading, s: K.State, a: State, events: seq<Event>)
    decreases |events|
  {
    events == [] ||
    (var e, p := events[0], Running(l, s);
     Happens(cfg, l, s, a, e, p) && AllHappen(cfg, l, KernelStep(s, e), ProcessStep(cfg, a, e, p), events[1..]))
  }

  /** The calls the kernel serves, */
  function Calls(events: seq<Event>): seq<K.Op>
    decreases |events|
  {
    if events == [] then [] else (if events[0].Compute? then [] else [events[0].op]) + Calls(events[1..])
  }

  /** the processes that step, in this order, */
  ghost function Steppers(cfg: Config, l: Loading, s: K.State, a: State, events: seq<Event>): seq<Proc>
    requires AllHappen(cfg, l, s, a, events)
    decreases |events|
  {
    if events == [] then [] else
      var e, p := events[0], Running(l, s);
      (if e.Elsewhere? then [] else [p]) + Steppers(cfg, l, KernelStep(s, e), ProcessStep(cfg, a, e, p), events[1..])
  }

  /** The kernel has the reservation's semaphores, with the values the master creates them with. */
  ghost predicate Loaded(cfg: Config, l: Loading, s: K.State, a: State) {
    && l.Valid() && K.Sound(s)
    && forall x :: Known(cfg, x) ==>
        && x in l.slots && x in a.sems && l.slots[x] < |s.sems| && !s.sems[l.slots[x]].empty
        && s.sems[l.slots[x]].value == a.sems[x].value && s.sems[l.slots[x]].queue == []
  }

  lemma LoadedLinked(cfg: Config, l: Loading, s: K.State, a: State)
    requires Init(cfg, a) && Loaded(cfg, l, s, a)
    ensures Linked(cfg, l, s, a)
  {
    hide K.Sound;
  }

  lemma NothingHappens(cfg: Config, l: Loading, s: K.State, a: State)
    requires AllHappen(cfg, l, s, a, [])
    ensures Calls([]) == [] && K.RunOk(s, []) && K.After(s, []) == s && Steppers(cfg, l, s, a, []) == []
  {
    hide K.Step, K.Allowed;
  }

  lemma FirstHappens(cfg: Config, l: Loading, s: K.State, a: State, events: seq<Event>)
    requires events != [] && AllHappen(cfg, l, s, a, events)
    ensures var e, p := events[0], Running(l, s);
      && Happens(cfg, l, s, a, e, p) && (!e.Compute? ==> K.Allowed(s, e.op))
      && AllHappen(cfg, l, KernelStep(s, e), ProcessStep(cfg, a, e, p), events[1..])
      && Steppers(cfg, l, s, a, events) == (if e.Elsewhere? then [] else [p])
           + Steppers(cfg, l, KernelStep(s, e), ProcessStep(cfg, a, e, p), events[1..])
  {
    hide K.Step, K.Allowed, Next, Runs, Uses, WaitsOn, Signals;
  }

  lemma RunExtended(cfg: Config, a0: State, run: seq<Proc>, p: Proc)
    requires IsRun(cfg, a0, run) && Enabled(cfg, Last(cfg, a0, run), p)
    ensures IsRun(cfg, a0, run + [p]) && Last(cfg, a0, run + [p]) == Next(cfg, Last(cfg, a0, run), p)
  {
    hide Enabled, Next;
    assert (run + [p])[..|run|] == run;
  }

  /** What the processes do from here on continues a run of the state machine, and the kernel serves their calls. */
  lemma {:induction false} RunsOn(cfg: Config, l: Loading, s: K.State, a0: State, run: seq<Proc>, events: seq<Event>)
    requires var a := Last(cfg, a0, run);
      && l.Valid() && K.Sound(s) && Linked(cfg, l, s, a) && Inv(cfg, a) && IsRun(cfg, a0, run)
      && AllHappen(cfg, l, s, a, events)
    ensures K.RunOk(s, Calls(events)) && K.Sound(K.After(s, Calls(events)))
    ensures var all := run + Steppers(cfg, l, s, Last(cfg, a0, run), events);
      IsRun(cfg, a0, all) && Linked(cfg, l, K.After(s, Calls(events)), Last(cfg, a0, all))
    decreases |events|
  {
    hide K.Sound, K.Step, K.Allowed, K.RunOk, K.After, Linked, Inv, Enabled, Happens, Next, IsRun, Last, AllHappen,
         Steppers, Calls, KernelStep, ProcessStep;
    var a := Last(cfg, a0, run);
    if events == [] {
      NothingHappens(cfg, l, s, a);
      assert run + [] == run;
    } else {
      var e, p := events[0], Running(l, s);
      FirstHappens(cfg, l, s, a, events);
      EventKeeps(cfg, l, s, a, e, p);
      var run' := RunOn(cfg, a0, run, e, p);
      RunsOn(cfg, l, KernelStep(s, e), a0, run', events[1..]);
      CallsOn(s, e, events);
      var rest := Steppers(cfg, l, KernelStep(s, e), ProcessStep(cfg, a, e, p), events[1..]);
      assert run + ((if e.Elsewhere? then [] else [p]) + rest) == run' + rest;
    }
  }

  lemma RunOn(cfg: Config, a0: State, run: seq<Proc>, e: Event, p: Proc) returns (run': seq<Proc>)
    requires IsRun(cfg, a0, run) && (!e.Elsewhere? ==> Enabled(cfg, Last(cfg, a0, run), p))
    ensures run' == run + (if e.Elsewhere? then [] else [p])
    ensures IsRun(cfg, a0, run') && Last(cfg, a0, run') == ProcessStep(cfg, Last(cfg, a0, run), e, p)
  {
    hide Enabled, Next, IsRun, Last;
    run' := run + (if e.Elsewhere? then [] else [p]);
    if e.Elsewhere? {
      assert run' == run;
    } else {
      RunExtended(cfg, a0, run, p);
    }
  }

  lemma CallsOn(s: K.State, e: Event, events: seq<Event>)
    requires events != [] && events[0] == e && (!e.Compute? ==> K.Allowed(s, e.op))
    requires K.RunOk(KernelStep(s, e), Calls(events[1..]))
    ensures K.RunOk(s, Calls(events)) && K.After(s, Calls(events)) == K.After(KernelStep(s, e), Calls(events[1..]))
  {
    hide K.Step, K.Allowed;
    if e.Compute? {
      assert Calls(events) == Calls(events[1..]);
    } else {
      assert Calls(events)[1..] == Calls(events[1..]);
    }
  }

  /** Whatever the scheduler decides and whatever others do, the processes step as in some run of the state machine, and
      the kernel's semaphores are the ones that run leads to. */
  lemma Simulates(cfg: Config, l: Loading, s0: K.State, a0: State, events: seq<Event>)
    requires cfg.Valid() && Init(cfg, a0) && Loaded(cfg, l, s0, a0) && AllHappen(cfg, l, s0, a0, events)
    ensures K.RunOk(s0, Calls(events)) && K.Sound(K.After(s0, Calls(events)))
    ensures var run := Steppers(cfg, l, s0, a0, events);
      IsRun(cfg, a0, run) && Linked(cfg, l, K.After(s0, Calls(events)), Last(cfg, a0, run))
  {
    hide K.Sound, Linked, Inv, Init, AllHappen, Steppers, Calls;
    LoadedLinked(cfg, l, s0, a0);
    RunKeepsInv(cfg, a0, []);
    RunsOn(cfg, l, s0, a0, [], events);
    assert [] + Steppers(cfg, l, s0, a0, events) == Steppers(cfg, l, s0, a0, events);
  }

  // ---------------------------------------------------------------- what it means for the kernel

  /** Is the environment queued at one of the reservation's semaphores? */
  ghost predicate Queued(cfg: Config, l: Loading, s: K.State, e: nat) {
    exists x :: Known(cfg, x) && x in l.slots && l.slots[x] < |s.sems| && e in s.sems[l.slots[x]].queue
  }

  lemma QueuedIffBlocked(cfg: Config, l: Loading, s: K.State, a: State, e: nat)
    requires l.Valid() && Linked(cfg, l, s, a) && SemInv(cfg, a) && e in l.procs && Exists(a, l.procs[e])
    ensures Queued(cfg, l, s, e) <==> Blocked(a, l.procs[e])
  {
    hide WaitsOn, Blocked, Exists, QueueOk, SemInv;
    if Queued(cfg, l, s, e) {
      var x :| Known(cfg, x) && x in l.slots && l.slots[x] < |s.sems| && e in s.sems[l.slots[x]].queue;
      assert InSlot(l, s, a, x);
      QueuedThere(cfg, l, s, a, e, x);
    }
    if Blocked(a, l.procs[e]) {
      var x := BlockedThere(cfg, a, l.procs[e]);
      assert InSlot(l, s, a, x);
      var q := K.Plain(s.sems[l.slots[x]]).queue;
      var k :| 0 <= k < |a.sems[x].queue| && a.sems[x].queue[k] == l.procs[e];
      assert q[k] == e;
      assert s.sems[l.slots[x]].queue[|q| - 1 - k] == e;
    }
  }

  lemma BlockedThere(cfg: Config, a: State, p: Proc) returns (x: SemId)
    requires SemInv(cfg, a) && Exists(a, p) && Blocked(a, p)
    ensures Known(cfg, x) && x in a.sems && p in a.sems[x].queue
  {
    hide WaitsOn, QueueOk;
    assert BlockedOk(cfg, a, p);
    x := WaitsOn(cfg, a, p)[0];
  }

  lemma QueuedThere(cfg: Config, l: Loading, s: K.State, a: State, e: nat, x: SemId)
    requires SemInv(cfg, a) && InSlot(l, s, a, x) && e in l.procs && e in s.sems[l.slots[x]].queue
    ensures Blocked(a, l.procs[e])
  {
    hide WaitsOn, Blocked, Exists, Avail;
    var q := s.sems[l.slots[x]].queue;
    var k :| 0 <= k < |q| && q[k] == e;
    assert K.Plain(s.sems[l.slots[x]]).queue[|q| - 1 - k] == e;
    assert a.sems[x].queue[|q| - 1 - k] == l.procs[e];
    assert QueueOk(cfg, a, x);
  }

  /** As long as a customer is not through or the master has not collected them all, the environment of some process
      that is not through is queued at none of the reservation's semaphores. */
  lemma NeverStuck(cfg: Config, l: Loading, s0: K.State, a0: State, events: seq<Event>) returns (p: Proc)
    requires cfg.Valid() && Init(cfg, a0) && Loaded(cfg, l, s0, a0) && AllHappen(cfg, l, s0, a0, events)
    requires var a := Last(cfg, a0, Steppers(cfg, l, s0, a0, events));
      (exists i :: 0 <= i < |a.custs| && a.custs[i].pc != Done) || a.mainWaits < cfg.N()
    ensures K.RunOk(s0, Calls(events))
    ensures !Finished?(cfg, Last(cfg, a0, Steppers(cfg, l, s0, a0, events)), p)
    ensures forall e :: e in l.procs && l.procs[e] == p ==> !Queued(cfg, l, K.After(s0, Calls(events)), e)
  {
    hide Linked, Inv, Init, AllHappen, Steppers, Calls, IsRun, Queued, K.Sound;
    Simulates(cfg, l, s0, a0, events);
    var run := Steppers(cfg, l, s0, a0, events);
    NoDeadlock(cfg, a0, run);
    p :| Enabled(cfg, Last(cfg, a0, run), p);
    RunKeepsInv(cfg, a0, run);
    InvSems(cfg, Last(cfg, a0, run));
    forall e | e in l.procs && l.procs[e] == p ensures !Queued(cfg, l, K.After(s0, Calls(events)), e) {
      QueuedIffBlocked(cfg, l, K.After(s0, Calls(events)), Last(cfg, a0, run), e);
    }
  }

  /** Whenever the kernel's semaphore of flight 1 is free, that flight's tickets and bookings add up. */
  lemma Flight1AddsUp(cfg: Config, l: Loading, s0: K.State, a0: State, events: seq<Event>)
    requires cfg.Valid() && Init(cfg, a0) && Loaded(cfg, l, s0, a0) && AllHappen(cfg, l, s0, a0, events)
    requires K.RunOk(s0, Calls(events)) && Flight1CS in l.slots
    requires var t := K.After(s0, Calls(events)); l.slots[Flight1CS] < |t.sems| && t.sems[l.slots[Flight1CS]].value == 1
    ensures var a := Last(cfg, a0, Steppers(cfg, l, s0, a0, events));
      && a.left1 + a.cnt1 == cfg.tickets1 && 0 <= a.cnt1 <= |a.arr1|
      && forall i, j :: 0 <= i < j < a.cnt1 ==> a.arr1[i] != a.arr1[j]
  {
    hide Inv, Init, AllHappen, Steppers, Calls, IsRun, K.Sound;
    Simulates(cfg, l, s0, a0, events);
    var run := Steppers(cfg, l, s0, a0, events);
    assert InSlot(l, K.After(s0, Calls(events)), Last(cfg, a0, run), Flight1CS);
    Flight1Conserved(cfg, a0, run);
  }
}
