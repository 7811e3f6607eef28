/**
 Every run of the kernel's memory operations from boot: kmalloc, kfree, new page directories, allocate_frame, map_frame,
 unmap_frame, the chunk operations, the temporary mapping of pf_update_env_page and the two calls on shared objects, in
 any order and each with the placement strategy then in force.  The theorems say what holds in every state reached.
 */
module KernelRuns {
  import opened Basics
  import opened Blocks
  import opened Paging
  import opened KernelHeap
  import opened PageTables
  import opened Chunks
  import opened UserMemory
  import opened WorkingSet
  import S = Shares
  import H = Heap

  datatype MemoryOp =
    | OpKmalloc(size: nat)
    | OpKfree(va: nat)
    | OpDirectory(d: nat)
    | OpTakeFrame
    | OpMap(d: nat, f: nat, p: nat, perms: set<Flag>)
    | OpUnmap(d: nat, p: nat)
    | OpTemporary(f: nat)
    | OpAllocate(d: nat, p: nat, n: nat, perms: set<Flag>)
    | OpCutPaste(d: nat, a: nat, b: nat, n: nat)
    | OpShare(d: nat, a: nat, b: nat, n: nat, perms: set<Flag>)
    | OpFreeUser(d: nat, ws: seq<WsEntry>, p: nat, n: nat)

  datatype Op =
    | OnMemory(op: MemoryOp)
    | CreateObject(d: nat, owner: int, name: string, size: nat, isWritable: nat, p: nat, sd: nat)
    | GetObject(d: nat, owner: int, name: string, p: nat)

  /** A call, with the placement strategy in force and what the unassigned locals of alloc_block_BF then held. */
  datatype Call = Call(op: Op, strategy: Strategy)

  /** What each operation demands of its caller. */
  ghost predicate MayDo(k: Kernel, op: MemoryOp, strategy: Strategy) {
    match op
    case OpKmalloc(size) => size > 0 && Defined(k.heap.free, H.RoundUp(size), strategy)
    case OpKfree(va) => NotATable(k, va)
    case OpDirectory(d) => d !in k.mem.dirs && HeapOk(k.heap)
    case OpTakeFrame => true
    case OpMap(d, f, p, _) => Ready(k, d, p) && d !in k.mem.storages && Mappable(k.mem, f)
    case OpUnmap(d, p) => Ready(k, d, p) && d !in k.mem.storages
    case OpTemporary(f) => CanMapTemporarily(k.mem, f)
    case OpAllocate(d, p, n, _) => UserRange(k, d, p, n)
    case OpCutPaste(d, a, b, n) =>
      UserRange(k, d, a, n) && UserRange(k, d, b, n) && RangeMapped(k.mem, d, a, n) && CountersHaveRoom(k.mem, d, a, n)
    case OpShare(d, a, b, n, _) =>
      UserRange(k, d, a, n) && UserRange(k, d, b, n) && RangeMapped(k.mem, d, a, n) && CountersTake(k.mem, d, a, n)
    case OpFreeUser(d, _, p, n) => UserRange(k, d, p, n)
  }

  /** A frame whose counter is not full and that is in nobody's hand; the temporary page has an entry since boot. */
  predicate CanMapTemporarily(m: Mem, f: nat) {
    f < |m.frames| && f !in m.hand && m.frames[f].references < COUNTER - 1
    && KernelPage(TEMP) in m.pte && m.pte[KernelPage(TEMP)] == Unmapped
  }

  /** The object's frames are still in use and their counters have room; the caller's range is its own and empty. */
  ghost predicate MayGet(sys: S.System, d: nat, owner: int, name: string, p: nat) {
    forall i :: 0 <= i < |sys.shares| && S.Named(sys.shares[i], owner, name) ==>
      S.Target(sys, d, p, S.Pages(sys.shares[i].size)) && S.CountersFree(sys.kernel.mem, sys.shares[i].frames)
  }

  ghost predicate Allowed(sys: S.System, call: Call) {
    match call.op
    case OnMemory(op) => MayDo(sys.kernel, op, call.strategy)
    case CreateObject(d, _, _, size, _, p, sd) =>
      S.Target(sys, d, p, S.Pages(size)) && sd !in sys.kernel.mem.dirs && HeapOk(sys.kernel.heap)
    case GetObject(d, owner, name, p) => MayGet(sys, d, owner, name, p)
  }

  ghost function First<S, T>(r: Outcome<(S, T)>): Outcome<S> {
    match r
    case Panic => Panic
    case Done((s, _)) => Done(s)
  }

  function TakeFrame(k: Kernel): Outcome<Kernel> {
    match AllocateFrame(k.mem)
    case None => Panic
    case Some((m, _)) => Done(k.(mem := m))
  }

  ghost function MemoryStep(k: Kernel, op: MemoryOp, strategy: Strategy): Outcome<Kernel>
    requires MayDo(k, op, strategy)
  {
    match op
    case OpKmalloc(size) => First(Kmalloc(k, size, strategy))
    case OpKfree(va) => Done(Kfree(k, va))
    case OpDirectory(d) => S.CreateDirectory(k, d, strategy)
    case OpTakeFrame => TakeFrame(k)
    case OpMap(d, f, p, perms) => MapFrame(k, d, f, p, perms, strategy)
    case OpUnmap(d, p) => Done(UnmapFrame(k, d, p))
    case OpTemporary(f) => Done(k.(mem := TempMapping(k.mem, KernelPage(TEMP), f)))
    case OpAllocate(d, p, n, perms) => First(AllocateChunk(k, d, p, n, perms, strategy))
    case OpCutPaste(d, a, b, n) => First(CutPastePages(k, d, a, b, n, strategy))
    case OpShare(d, a, b, n, perms) => First(ShareChunk(k, d, a, b, n, perms, strategy))
    case OpFreeUser(d, ws, p, n) => Done(FreeUserMem(k, d, ws, p, n).0)
  }

  ghost function Step(sys: S.System, call: Call): Outcome<S.System>
    requires Allowed(sys, call)
  {
    match call.op
    case OnMemory(op) =>
      (match MemoryStep(sys.kernel, op, call.strategy)
       case Panic => Panic
       case Done(k) => Done(S.System(k, sys.shares)))
    case CreateObject(d, owner, name, size, isWritable, p, sd) =>
      First(S.CreateSharedObject(sys, d, owner, name, size, isWritable, p, sd, call.strategy))
    case GetObject(d, owner, name, p) => First(S.GetSharedObject(sys, d, owner, name, p, call.strategy))
  }

  // ---------------------------------------------------------------- one step

  /** Pages `p` to `p + n - 1` and `q` to `q + n - 1` of directory `d`. */
  datatype Where = Where(d: nat, p: nat, q: nat, n: nat) {
    predicate Has(e: nat, x: nat) {
      e == d && (p <= x < p + n || q <= x < q + n)
    }
  }

  const NOWHERE := Where(0, 0, 0, 0)

  /** The pages an operation may change. */
  function TouchedBy(op: MemoryOp): Where {
    match op
    case OpMap(d, _, p, _) => Where(d, p, p, 1)
    case OpUnmap(d, p) => Where(d, p, p, 1)
    case OpAllocate(d, p, n, _) => Where(d, p, p, n)
    case OpCutPaste(d, a, b, n) => Where(d, a, b, n)
    case OpShare(d, _, b, n, _) => Where(d, b, b, n)
    case OpFreeUser(d, _, p, n) => Where(d, p, p, n)
    case _ => NOWHERE
  }

  function Touched(sys: S.System, op: Op): Where {
    match op
    case OnMemory(m) => TouchedBy(m)
    case CreateObject(d, _, _, size, _, p, _) => Where(d, p, p, S.Pages(size))
    case GetObject(d, owner, name, p) =>
      var i := S.FindFrom(sys.shares, owner, name, 0);
      if i < |sys.shares| then Where(d, p, p, S.Pages(sys.shares[i].size)) else NOWHERE
  }

  /** All pages but those in `w` read as before, and environments' directories and storages stay what they are. */
  ghost predicate PagesKept(m: Mem, m': Mem, w: Where) {
    && (forall e :: e in m.dirs ==> e in m'.dirs && (e in m'.storages <==> e in m.storages))
    && (forall e, x: nat :: e in m.dirs && UserPage(x) && !w.Has(e, x) ==> Lookup(m', e, x) == Lookup(m, e, x))
  }

  lemma RangeKept(m: Mem, m': Mem, d: nat, p: nat, n: nat)
    requires S.Keeps(m, m', d, p, n)
    ensures PagesKept(m, m', Where(d, p, p, n))
    ensures n == 0 ==> PagesKept(m, m', NOWHERE)
  {
    hide Lookup;
  }

  /** What is filed in a storage is still there. */
  ghost predicate StoragesKept(m: Mem, m': Mem) {
    && (forall e :: e in m.storages && e in m.dirs ==> e in m'.storages && e in m'.dirs)
    && (forall e, i: nat :: e in m.storages && e in m.dirs && UserPage(i) ==> Lookup(m', e, i) == Lookup(m, e, i))
  }

  /** What changes pages of an environment only changes no storage. */
  lemma OthersKeepStorages(m: Mem, m': Mem, w: Where)
    requires PagesKept(m, m', w) && (w.d !in m.storages || w.n == 0)
    ensures StoragesKept(m, m')
  {
    hide Lookup;
  }

  lemma SameButKeeps(m: Mem, m': Mem, d: nat, p: nat, n: nat)
    requires SameBut(m, m', d, p, n)
    ensures S.Keeps(m, m', d, p, n)
  {
    hide Lookup;
  }

  lemma MemoryStepValid(k: Kernel, op: MemoryOp, strategy: Strategy)
    requires Valid(k) && MayDo(k, op, strategy)
    ensures MemoryStep(k, op, strategy).Done? ==> Valid(MemoryStep(k, op, strategy).value)
  {
    hide Valid, Kmalloc, Kmalloced, Kfree, S.CreateDirectory, MapFrame, UnmapFrame, AllocPages, MovePages, SharePages,
         SweepTables, UnmapWs, Lookup, ChunkAllocated, PagesMoved, PagesShared, Enough, RoomForTables, Resident,
         NothingUnder, TempMapping;
    match op
    case OpKmalloc(size) => KmallocKeeps(k, size, strategy);
    case OpKfree(va) => KfreeKeeps(k, va);
    case OpDirectory(d) => S.CreateDirectoryKeeps(k, d, strategy);
    case OpTakeFrame => TakeFrameKeeps(k);
    case OpMap(d, f, p, perms) => MapFrameAnywhere(k, d, f, p, perms, strategy);
    case OpUnmap(d, p) =>
      UnmapFrameKeeps(k, d, p);
      ReadyValid(UnmapFrame(k, d, p), d, p);
    case OpTemporary(f) => TempMappingLeavesNoTrace(k.mem, KernelPage(TEMP), f);
    case OpAllocate(d, p, n, perms) =>
      if RangeUnmapped(k.mem, d, p, n) { AllocPagesKeeps(k, d, p, n, perms, strategy); }
    case OpCutPaste(d, a, b, n) => CutPasteMoves(k, d, a, b, n, strategy);
    case OpShare(d, a, b, n, perms) => ShareChunkAliases(k, d, a, b, n, perms, strategy);
    case OpFreeUser(d, ws, p, n) => FreeUserMemFrees(k, d, ws, p, n);
  }

  lemma KmallocKeepsPages(k: Kernel, size: nat, strategy: Strategy)
    requires Valid(k) && size > 0 && Defined(k.heap.free, H.RoundUp(size), strategy)
    ensures var r := Kmalloc(k, size, strategy); r.Done? ==> PagesKept(k.mem, r.value.0.mem, NOWHERE)
  {
    hide Valid, Lookup, Kmalloc, Defined;
    KmallocEntries(k, size, strategy);
    if Kmalloc(k, size, strategy).Done? {
      var k' := Kmalloc(k, size, strategy).value.0;
      forall e, i: nat | e in k.mem.dirs && UserPage(i) ensures Lookup(k'.mem, e, i) == Lookup(k.mem, e, i) {
        SameEntriesSeen(k, k', e, i);
      }
    }
  }

  /** kmalloc writes entries of the kernel's own tables only. */
  lemma KmallocEntries(k: Kernel, size: nat, strategy: Strategy)
    requires Valid(k) && size > 0 && Defined(k.heap.free, H.RoundUp(size), strategy)
    ensures var r := Kmalloc(k, size, strategy);
      r.Done? ==>
        var m, k' := k.mem, r.value.0;
        && Valid(k') && k'.mem.dirs == m.dirs && k'.mem.storages == m.storages
        && (forall s :: s in m.pte && s.InTable? ==> s in k'.mem.pte && k'.mem.pte[s] == m.pte[s])
  {
    hide Valid, Kmalloc, KmallocHeap;
    KmallocKeeps(k, size, strategy);
  }

  lemma KfreeKeepsPages(k: Kernel, va: nat)
    requires Valid(k) && NotATable(k, va)
    ensures PagesKept(k.mem, Kfree(k, va).mem, NOWHERE)
  {
    hide Valid, Lookup, Kfree, NotATable;
    KfreeEntries(k, va);
    KfreeValid(k, va);
    forall e, i: nat | e in k.mem.dirs && UserPage(i)
      ensures Lookup(Kfree(k, va).mem, e, i) == Lookup(k.mem, e, i) {
      SameEntriesSeen(k, Kfree(k, va), e, i);
    }
  }

  lemma KfreeValid(k: Kernel, va: nat)
    requires Valid(k) && NotATable(k, va)
    ensures Valid(Kfree(k, va))
  {
    hide Valid, Kfree, NotATable, BlockFreed, RunUnmapped;
    KfreeKeeps(k, va);
  }

  /** kfree clears entries of the kernel's own tables only. */
  lemma KfreeEntries(k: Kernel, va: nat)
    requires Valid(k) && NotATable(k, va)
    ensures var m, m' := k.mem, Kfree(k, va).mem;
      && m'.dirs == m.dirs && m'.storages == m.storages
      && (forall s :: s in m.pte && s.InTable? ==> s in m'.pte && m'.pte[s] == m.pte[s])
  {
    hide Valid, Kfree, NotATable, BlockFreed;
    KfreeKeeps(k, va);
  }

  lemma AllocateKeepsPages(k: Kernel, d: nat, p: nat, n: nat, perms: set<Flag>, strategy: Strategy)
    requires UserRange(k, d, p, n)
    ensures var r := AllocateChunk(k, d, p, n, perms, strategy); r.Done? ==>
      PagesKept(k.mem, r.value.0.mem, Where(d, p, p, n))
  {
    hide Valid, Lookup, AllocPages, Enough, HasTable, Total, Fresh, UsedFramesKept;
    if RangeUnmapped(k.mem, d, p, n) {
      AllocPagesKeeps(k, d, p, n, perms, strategy);
    }
  }

  lemma CutPasteKeepsPages(k: Kernel, d: nat, a: nat, b: nat, n: nat, strategy: Strategy)
    requires UserRange(k, d, a, n) && UserRange(k, d, b, n) && RangeMapped(k.mem, d, a, n)
    requires CountersHaveRoom(k.mem, d, a, n)
    ensures var r := CutPastePages(k, d, a, b, n, strategy); r.Done? ==>
      PagesKept(k.mem, r.value.0.mem, Where(d, a, b, n))
  {
    hide Valid, Lookup, MovePages, RoomForTables, HasTable, Total, References, RangeMapped, CountersHaveRoom;
    CutPasteMoves(k, d, a, b, n, strategy);
  }

  lemma ShareKeepsPages(k: Kernel, d: nat, a: nat, b: nat, n: nat, perms: set<Flag>, strategy: Strategy)
    requires UserRange(k, d, a, n) && UserRange(k, d, b, n) && RangeMapped(k.mem, d, a, n)
    requires CountersTake(k.mem, d, a, n)
    ensures var r := ShareChunk(k, d, a, b, n, perms, strategy); r.Done? ==>
      PagesKept(k.mem, r.value.0.mem, Where(d, b, b, n))
  {
    hide Valid, Lookup, SharePages, RoomForTables, HasTable, Total, References, RangeMapped, CountersTake;
    ShareChunkAliases(k, d, a, b, n, perms, strategy);
  }

  lemma FreeUserKeepsPages(k: Kernel, d: nat, ws: seq<WsEntry>, p: nat, n: nat)
    requires UserRange(k, d, p, n)
    ensures PagesKept(k.mem, FreeUserMem(k, d, ws, p, n).0.mem, Where(d, p, p, n))
  {
    hide Valid, Lookup, FreeUserMem, Resident, NothingUnder, HasTable, TablesReturned;
    FreeUserMemFrees(k, d, ws, p, n);
    forall x: nat | !(p <= x < p + n) ensures !Resident(ws, p, n, |ws|, x) { NotResident(ws, p, n, x); }
  }

  lemma NotResident(ws: seq<WsEntry>, p: nat, n: nat, x: nat)
    requires !(p <= x < p + n)
    ensures !Resident(ws, p, n, |ws|, x)
  {
  }

  lemma MemoryStepKeepsPages(k: Kernel, op: MemoryOp, strategy: Strategy)
    requires Valid(k) && MayDo(k, op, strategy)
    ensures MemoryStep(k, op, strategy).Done? ==> PagesKept(k.mem, MemoryStep(k, op, strategy).value.mem, TouchedBy(op))
  {
    hide Valid, Lookup, Kmalloc, Kfree, S.CreateDirectory, MapFrame, UnmapFrame, TempMapping, AllocateChunk,
         CutPastePages, ShareChunk, FreeUserMem, References;
    match op
    case OpKmalloc(size) => KmallocKeepsPages(k, size, strategy);
    case OpKfree(va) => KfreeKeepsPages(k, va);
    case OpDirectory(d) => S.CreateDirectoryKeeps(k, d, strategy);
    case OpTakeFrame => TakeFrameKeeps(k);
    case OpMap(d, f, p, perms) => MapFrameAnywhere(k, d, f, p, perms, strategy);
    case OpUnmap(d, p) => UnmapFrameKeeps(k, d, p);
    case OpTemporary(f) => TempMappingLeavesNoTrace(k.mem, KernelPage(TEMP), f);
    case OpFreeUser(d, ws, p, n) => FreeUserKeepsPages(k, d, ws, p, n);
    case OpAllocate(d, p, n, perms) => AllocateKeepsPages(k, d, p, n, perms, strategy);
    case OpCutPaste(d, a, b, n) => CutPasteKeepsPages(k, d, a, b, n, strategy);
    case OpShare(d, a, b, n, perms) => ShareKeepsPages(k, d, a, b, n, perms, strategy);
  }

  /** The memory is sound, and every live object's storage holds its frames in order. */
  ghost predicate Inv(sys: S.System) {
    && Valid(sys.kernel)
    && forall i :: 0 <= i < |sys.shares| && !sys.shares[i].empty ==> S.Filed(sys.kernel.mem, sys.shares[i])
  }

  lemma StillFiled(m: Mem, m': Mem, s: S.Share)
    requires S.Filed(m, s) && StoragesKept(m, m')
    ensures S.Filed(m', s)
  {
    hide Lookup;
    forall q: nat | 0 <= q < 0 + |s.frames| ensures Lookup(m', s.storage, q) == Mapped(s.frames[q - 0], {}) {
      assert Lookup(m, s.storage, q) == Mapped(s.frames[q - 0], {});
      assert UserPage(q);
    }
  }

  /** Live objects stay what they are, but for who maps them. */
  ghost predicate ObjectsStay(a: seq<S.Share>, b: seq<S.Share>) {
    |b| == |a| && forall j :: 0 <= j < |a| && !a[j].empty ==>
      b[j] == a[j].(references := b[j].references, maps := b[j].maps)
  }

  /** What every step keeps and leaves alone. */
  ghost predicate StepOk(sys: S.System, w: Where, sys': S.System) {
    && Inv(sys') && ObjectsStay(sys.shares, sys'.shares)
    && PagesKept(sys.kernel.mem, sys'.kernel.mem, w) && StoragesKept(sys.kernel.mem, sys'.kernel.mem)
  }

  /** The range at which the caller now sees object `j` shows its frames. */
  ghost predicate ShowsObject(sys: S.System, j: nat, d: nat, p: nat, perms: set<Flag>) {
    j < |sys.shares| && !sys.shares[j].empty && S.Shows(sys.kernel.mem, d, p, sys.shares[j].frames, perms)
  }

  lemma CreateStepKeeps(sys: S.System, call: Call)
    requires Inv(sys) && call.op.CreateObject? && Allowed(sys, call) && Step(sys, call).Done?
    ensures StepOk(sys, Touched(sys, call.op), Step(sys, call).value)
    ensures var j := S.EmptyFrom(sys.shares, 0);
      S.FindFrom(sys.shares, call.op.owner, call.op.name, 0) == |sys.shares| && j < |sys.shares| ==>
        ShowsObject(Step(sys, call).value, j, call.op.d, call.op.p, {User, Writeable})
        && Step(sys, call).value.shares[j].size == call.op.size
  {
    hide Valid, Lookup, S.Backed, S.Filed, S.Keeps, S.CountsKept, S.FreshFrames, RangeUnmapped, S.RoomForObject,
         S.Shows, PagesKept, StoragesKept;
    var op, k, n := call.op, sys.kernel, S.Pages(call.op.size);
    S.ObjectBacked(k, op.d, op.p, n, op.sd, call.strategy);
    NothingChanged(k.mem, Touched(sys, op));
    if S.Backed(k, op.d, op.p, n, op.sd, call.strategy).Done? {
      var (k2, fs) := S.Backed(k, op.d, op.p, n, op.sd, call.strategy).value;
      RangeKept(k.mem, k2.mem, op.d, op.p, n);
      OthersKeepStorages(k.mem, k2.mem, Touched(sys, op));
      NewFiled(k.mem, k2.mem, op, fs);
      forall i | 0 <= i < |sys.shares| && !sys.shares[i].empty ensures S.Filed(k2.mem, sys.shares[i]) {
        StillFiled(k.mem, k2.mem, sys.shares[i]);
      }
    }
  }

  lemma NewFiled(m: Mem, m2: Mem, op: Op, fs: seq<nat>)
    requires op.CreateObject? && S.NewObject(m, m2, op.d, op.p, op.sd, fs) && |fs| == S.Pages(op.size)
    ensures var maps := [S.Mapping(op.d, op.p, {User, Writeable})];
      S.Filed(m2, S.Share(false, op.owner, op.name, op.size, op.isWritable, 1, op.sd, fs, maps))
  {
    hide Lookup;
  }

  lemma GetStepKeeps(sys: S.System, call: Call)
    requires Inv(sys) && call.op.GetObject? && Allowed(sys, call) && Step(sys, call).Done?
    ensures StepOk(sys, Touched(sys, call.op), Step(sys, call).value)
    ensures var j := S.FindFrom(sys.shares, call.op.owner, call.op.name, 0);
      j < |sys.shares| ==>
        ShowsObject(Step(sys, call).value, j, call.op.d, call.op.p, S.GetterPerms(sys.shares[j].isWritable))
  {
    hide Valid, Lookup, S.MapFrames, S.CountersFree, HasTable, Total, References, RangeUnmapped, S.Shows, SameBut,
         StoragesKept, PagesKept;
    var op, k := call.op, sys.kernel;
    var i := S.FindFrom(sys.shares, op.owner, op.name, 0);
    NothingChanged(k.mem, Touched(sys, op));
    if i < |sys.shares| {
      var s := sys.shares[i];
      var n, perms := S.Pages(s.size), S.GetterPerms(s.isWritable);
      S.MapFramesKeeps(k, op.d, op.p, s.storage, s.frames, n, perms, call.strategy);
      assert s.frames[..n] == s.frames;
      var k' := S.MapFrames(k, op.d, op.p, s.storage, n, perms, call.strategy).value;
      SameButKeeps(k.mem, k'.mem, op.d, op.p, n);
      RangeKept(k.mem, k'.mem, op.d, op.p, n);
      OthersKeepStorages(k.mem, k'.mem, Touched(sys, op));
      forall j | 0 <= j < |sys.shares| && !sys.shares[j].empty ensures S.Filed(k'.mem, sys.shares[j]) {
        StillFiled(k.mem, k'.mem, sys.shares[j]);
      }
    }
  }

  lemma NothingChanged(m: Mem, w: Where)
    ensures StoragesKept(m, m) && PagesKept(m, m, w)
  {
  }

  /** No operation on memory is allowed to touch a storage. */
  lemma TouchesNoStorage(k: Kernel, op: MemoryOp, strategy: Strategy)
    requires MayDo(k, op, strategy)
    ensures TouchedBy(op).d !in k.mem.storages || TouchedBy(op).n == 0
  {
    hide Valid, Lookup, Defined, RangeMapped, CountersTake, CountersHaveRoom;
  }

  lemma MemoryStepOk(sys: S.System, op: MemoryOp, strategy: Strategy)
    requires Inv(sys) && MayDo(sys.kernel, op, strategy) && MemoryStep(sys.kernel, op, strategy).Done?
    ensures StepOk(sys, TouchedBy(op), S.System(MemoryStep(sys.kernel, op, strategy).value, sys.shares))
  {
    hide Valid, MayDo, MemoryStep, S.Filed, StoragesKept, PagesKept;
    MemoryStepValid(sys.kernel, op, strategy);
    MemoryStepKeepsPages(sys.kernel, op, strategy);
    TouchesNoStorage(sys.kernel, op, strategy);
    var k' := MemoryStep(sys.kernel, op, strategy).value;
    OthersKeepStorages(sys.kernel.mem, k'.mem, TouchedBy(op));
    forall i | 0 <= i < |sys.shares| && !sys.shares[i].empty ensures S.Filed(k'.mem, sys.shares[i]) {
      StillFiled(sys.kernel.mem, k'.mem, sys.shares[i]);
    }
  }

  /** Every step that does not panic keeps the invariant, every page but those its arguments name, what is filed in any
      storage, and the objects there are. */
  lemma StepKeeps(sys: S.System, call: Call)
    requires Inv(sys) && Allowed(sys, call)
    ensures Step(sys, call).Done? ==> StepOk(sys, Touched(sys, call.op), Step(sys, call).value)
  {
    hide Inv, MayDo, MemoryStep, S.CreateSharedObject, S.GetSharedObject, StepOk;
    if Step(sys, call).Done? {
      match call.op
      case OnMemory(op) => MemoryStepOk(sys, op, call.strategy);
      case CreateObject(_, _, _, _, _, _, _) => CreateStepKeeps(sys, call);
      case GetObject(_, _, _, _) => GetStepKeeps(sys, call);
    }
  }

  // ---------------------------------------------------------------- every run

  ghost predicate StepsTo(mid: S.System, call: Call, sys: S.System) {
    Allowed(mid, call) && Step(mid, call) == Done(sys)
  }

  /** `sys` is reached from `start` by the calls of `calls`. */
  ghost predicate Runs(start: S.System, calls: seq<Call>, sys: S.System)
    decreases |calls|
  {
    if calls == [] then sys == start
    else
      var last := calls[|calls| - 1];
      exists mid: S.System :: Runs(start, calls[..|calls| - 1], mid) && StepsTo(mid, last, sys)
  }

  /** The same, and none of the calls names page `x` of directory `e`. */
  ghost predicate RunsPast(start: S.System, calls: seq<Call>, sys: S.System, e: nat, x: nat)
    decreases |calls|
  {
    if calls == [] then sys == start
    else
      var last := calls[|calls| - 1];
      exists mid: S.System :: RunsPast(start, calls[..|calls| - 1], mid, e, x) && StepsTo(mid, last, sys)
                              && !Touched(mid, last.op).Has(e, x)
  }

  /** What initialize_dyn_block_system leaves of boot memory `m`, and no object.  A run of the kernel itself begins with
      the kmalloc of the block in which create_shares_array puts the array of objects. */
  ghost predicate Started(m: Mem, start: S.System) {
    Booted(m) && Initialize(m) == Done(start.kernel) && forall i :: 0 <= i < |start.shares| ==> start.shares[i].empty
  }

  /** `sys` is reached from boot memory `m` by the calls of `calls`. */
  ghost predicate Reaches(m: Mem, calls: seq<Call>, sys: S.System) {
    exists start: S.System :: Started(m, start) && Runs(start, calls, sys)
  }

  lemma {:induction false} RunKeeps(start: S.System, calls: seq<Call>, sys: S.System)
    requires Inv(start) && Runs(start, calls, sys)
    ensures Inv(sys) && StoragesKept(start.kernel.mem, sys.kernel.mem) && ObjectsStay(start.shares, sys.shares)
    decreases |calls|
  {
    hide Inv, StoragesKept, PagesKept, Step, Allowed;
    if calls == [] {
      NothingChanged(start.kernel.mem, NOWHERE);
    } else {
      var call := calls[|calls| - 1];
      var mid :| Runs(start, calls[..|calls| - 1], mid) && StepsTo(mid, call, sys);
      RunKeeps(start, calls[..|calls| - 1], mid);
      StepKeeps(mid, call);
      KeptTwice(start.kernel.mem, mid.kernel.mem, sys.kernel.mem);
    }
  }

  lemma KeptTwice(m: Mem, m1: Mem, m2: Mem)
    requires StoragesKept(m, m1) && StoragesKept(m1, m2)
    ensures StoragesKept(m, m2)
  {
    hide Lookup;
    forall e, i: nat | e in m.storages && e in m.dirs && UserPage(i) ensures Lookup(m2, e, i) == Lookup(m, e, i) {
      assert Lookup(m1, e, i) == Lookup(m, e, i);
    }
  }

  /** A page that no call names shows what it showed. */
  lemma {:induction false} RunKeepsPage(start: S.System, calls: seq<Call>, sys: S.System, e: nat, x: nat)
    requires Inv(start) && RunsPast(start, calls, sys, e, x) && e in start.kernel.mem.dirs && UserPage(x)
    ensures Runs(start, calls, sys) && e in sys.kernel.mem.dirs
    ensures Lookup(sys.kernel.mem, e, x) == Lookup(start.kernel.mem, e, x)
    decreases |calls|
  {
    hide Inv, StoragesKept, Step, Allowed, Lookup;
    if calls != [] {
      var call := calls[|calls| - 1];
      var mid :|
        RunsPast(start, calls[..|calls| - 1], mid, e, x) && StepsTo(mid, call, sys) && !Touched(mid, call.op).Has(e, x);
      RunKeepsPage(start, calls[..|calls| - 1], mid, e, x);
      RunKeeps(start, calls[..|calls| - 1], mid);
      StepKeeps(mid, call);
    }
  }

  lemma EveryRunInv(m: Mem, calls: seq<Call>, sys: S.System)
    requires Reaches(m, calls, sys)
    ensures Inv(sys)
  {
    hide Valid, Booted, Initialize, Runs;
    var start: S.System :| Started(m, start) && Runs(start, calls, sys);
    InitializeValid(m);
    RunKeeps(start, calls, sys);
  }

  /** In every reachable state each frame's counter is the number of entries that map it, those of storages aside (one
      more for a frame reserved at boot), and the free list holds, each once, exactly the unreferenced frames but those
      that allocate_frame has given out and nobody has mapped yet. */
  lemma EveryRunCounts(m: Mem, calls: seq<Call>, sys: S.System, f: nat)
    requires Reaches(m, calls, sys) && f < |sys.kernel.mem.frames|
    ensures var n := sys.kernel.mem;
      && n.frames[f].references == |set s | s in n.pte && On(n.pte[s], f) && Counts(n, s)| + Bit(f in n.reserved)
      && (f in n.free <==> n.frames[f].references == 0 && f !in n.hand)
      && (f in n.hand ==> n.frames[f].references == 0)
      && (forall i, j :: 0 <= i < j < |n.free| ==> n.free[i] != n.free[j])
  {
    EveryRunInv(m, calls, sys);
    hide HeapOk, Linked;
    assert CountOk(sys.kernel.mem, f);
    assert f in sys.kernel.mem.free <==> IsFree(sys.kernel.mem, f) && f !in sys.kernel.mem.hand;
  }

  /** In every reachable state a page of the kernel heap is mapped iff it holds descriptors or lies in an allocated
      block, its two address conversions are inverse there, and get_page_table finds for a user page exactly the
      table that hangs on its directory entry. */
  lemma EveryRunFinds(m: Mem, calls: seq<Call>, sys: S.System, page: nat, d: nat, p: nat)
    requires Reaches(m, calls, sys) && HeapPage(page) && d in sys.kernel.mem.dirs && UserPage(p)
    ensures var k := sys.kernel;
      && (IsMapped(k.mem, KernelPage(page)) <==> InUse(k.heap, page))
      && (InUse(k.heap, page) ==>
            var pa := KheapPhysicalAddress(k.mem, page * H.PAGE);
            pa / H.PAGE < |k.mem.frames| && KheapVirtualAddress(k.mem, pa) == page * H.PAGE)
      && (match Entry(k.mem, d, p / ENTRIES)
          case NoTable => GetPageTable(k.mem, d, p) == Missing
          case Table(t) => GetPageTable(k.mem, d, p) == At(t))
  {
    EveryRunInv(m, calls, sys);
    hide Counted, HeapOk, TablesOk, DirsOk, InUse;
    var k := sys.kernel;
    assert IsMapped(k.mem, KernelPage(page)) <==> InUse(k.heap, page);
    assert page * H.PAGE / H.PAGE == page && RoundDown(page * H.PAGE) == page * H.PAGE;
    if InUse(k.heap, page) {
      AddressRoundTrip(k, page * H.PAGE);
    }
    GetPageTableFinds(k, d, p);
  }

  /** Whatever happens after an object was created, get_frame_from_storage reads at index `i` the i-th frame that was
      filed, also if its pages have been unmapped since. */
  lemma EveryRunFiles(m: Mem, calls: seq<Call>, mid: S.System, more: seq<Call>, sys: S.System, j: nat, i: nat)
    requires Reaches(m, calls, mid) && Runs(mid, more, sys)
    requires j < |mid.shares| && !mid.shares[j].empty && i < S.Pages(mid.shares[j].size)
    ensures var s := mid.shares[j];
      && i < |s.frames|
      && Lookup(mid.kernel.mem, s.storage, i) == Mapped(s.frames[i], {}) == Lookup(sys.kernel.mem, s.storage, i)
  {
    hide Valid, Lookup, Reaches, Runs;
    EveryRunInv(m, calls, mid);
    RunKeeps(mid, more, sys);
    var s := mid.shares[j];
    assert S.Filed(mid.kernel.mem, s);
    assert Lookup(mid.kernel.mem, s.storage, i) == Mapped(s.frames[i - 0], {});
    assert UserPage(i);
  }

  /** The call makes an object, or maps one, whose slot is then `j`. */
  ghost predicate MapsObject(mid: S.System, call: Call, j: nat) {
    j < |mid.shares| &&
    match call.op
    case OnMemory(_) => false
    case CreateObject(_, owner, name, _, _, _, _) =>
      S.FindFrom(mid.shares, owner, name, 0) == |mid.shares| && j == S.EmptyFrom(mid.shares, 0)
    case GetObject(_, owner, name, _) => j == S.FindFrom(mid.shares, owner, name, 0)
  }

  /** The caller's range shows the frames of object `j`, with the permissions that are due. */
  ghost predicate SeesObject(sys: S.System, op: Op, j: nat)
    requires !op.OnMemory?
  {
    && j < |sys.shares| && !sys.shares[j].empty && op.d in sys.kernel.mem.dirs
    && op.p + |sys.shares[j].frames| <= USER_END && |sys.shares[j].frames| == S.Pages(sys.shares[j].size)
    && ShowsObject(sys, j, op.d, op.p,
                   if op.CreateObject? then {User, Writeable} else S.GetterPerms(sys.shares[j].isWritable))
  }

  lemma ObjectCreated(mid: S.System, call: Call, sys: S.System, j: nat)
    requires Inv(mid) && call.op.CreateObject? && MapsObject(mid, call, j) && StepsTo(mid, call, sys)
    ensures Inv(sys) && SeesObject(sys, call.op, j)
  {
    hide Valid, Step, Lookup, RangeUnmapped, StoragesKept, S.Shows, HeapOk;
    CreateStepKeeps(mid, call);
    assert j < |sys.shares| && !sys.shares[j].empty;
    assert S.Filed(sys.kernel.mem, sys.shares[j]);
  }

  lemma ObjectGot(mid: S.System, call: Call, sys: S.System, j: nat)
    requires Inv(mid) && call.op.GetObject? && MapsObject(mid, call, j) && StepsTo(mid, call, sys)
    ensures Inv(sys) && SeesObject(sys, call.op, j)
  {
    hide Valid, Step, Lookup, RangeUnmapped, StoragesKept, S.Shows;
    GetStepKeeps(mid, call);
    assert !mid.shares[j].empty && !sys.shares[j].empty;
    assert S.Filed(sys.kernel.mem, sys.shares[j]);
  }

  lemma PageSeen(sys: S.System, op: Op, j: nat, c: nat)
    requires !op.OnMemory? && SeesObject(sys, op, j) && c < S.Pages(sys.shares[j].size)
    ensures c < |sys.shares[j].frames| && UserPage(op.p + c)
    ensures var e := Lookup(sys.kernel.mem, op.d, op.p + c);
      e.Mapped? && e.frame == sys.shares[j].frames[c]
      && (Writeable in e.perms <==> op.CreateObject? || sys.shares[j].isWritable == 1)
  {
    hide Lookup;
    var fs := sys.shares[j].frames;
    assert fs[op.p + c - op.p] == fs[c];
  }

  /** Over all runs: whoever created or got an object and whose page `c` of it no later call names still sees there
      the frame that the object's storage files at index `c`, so any two of them see the same frame. */
  lemma EveryRunAliases(m: Mem, before: seq<Call>, mid: S.System, call: Call, sys1: S.System, after: seq<Call>,
                        sys: S.System, j: nat, c: nat)
    requires Reaches(m, before, mid) && MapsObject(mid, call, j) && StepsTo(mid, call, sys1)
    requires j < |sys1.shares| && c * H.PAGE < sys1.shares[j].size
    requires RunsPast(sys1, after, sys, call.op.d, call.op.p + c)
    ensures j < |sys.shares| && c < |sys.shares[j].frames|
    ensures var e, s := Lookup(sys.kernel.mem, call.op.d, call.op.p + c), sys.shares[j];
      && e.Mapped? && e.frame == s.frames[c] && Lookup(sys.kernel.mem, s.storage, c) == Mapped(s.frames[c], {})
      && (Writeable in e.perms <==> call.op.CreateObject? || s.isWritable == 1)
  {
    hide Inv, Lookup, Reaches, RunsPast, StepsTo, SeesObject;
    EveryRunInv(m, before, mid);
    S.PagesHold(sys1.shares[j].size, S.Pages(sys1.shares[j].size));
    if call.op.CreateObject? { ObjectCreated(mid, call, sys1, j); } else { ObjectGot(mid, call, sys1, j); }
    PageSeen(sys1, call.op, j, c);
    DirectoryThere(sys1, call.op, j);
    RunKeepsPage(sys1, after, sys, call.op.d, call.op.p + c);
    RunKeeps(sys1, after, sys);
    StorageShows(sys, j, c);
  }

  lemma DirectoryThere(sys: S.System, op: Op, j: nat)
    requires !op.OnMemory? && SeesObject(sys, op, j)
    ensures op.d in sys.kernel.mem.dirs && j < |sys.shares| && !sys.shares[j].empty
  {
  }

  lemma StorageShows(sys: S.System, j: nat, c: nat)
    requires Inv(sys) && j < |sys.shares| && !sys.shares[j].empty && c < |sys.shares[j].frames|
    ensures Lookup(sys.kernel.mem, sys.shares[j].storage, c) == Mapped(sys.shares[j].frames[c], {})
  {
    hide Valid, Lookup;
    assert S.Filed(sys.kernel.mem, sys.shares[j]);
    assert UserPage(c);
    assert Lookup(sys.kernel.mem, sys.shares[j].storage, c) == Mapped(sys.shares[j].frames[c - 0], {});
  }

  // ---------------------------------------------------------------- an object whose frame has been freed

  /** Slot `j` holds an object of one page, frame `f`, which page `p` shows and nothing else maps. */
  ghost predicate OnePage(sys: S.System, j: nat, d: nat, owner: int, name: string, p: nat, f: nat) {
    && j < |sys.shares| && var s := sys.shares[j];
    && j == S.FindFrom(sys.shares, owner, name, 0) && !s.empty && S.Pages(s.size) == 1
    && Lookup(sys.kernel.mem, s.storage, 0) == Mapped(f, {})
    && s.storage in sys.kernel.mem.dirs && s.storage in sys.kernel.mem.storages
    && Lookup(sys.kernel.mem, d, p) == Mapped(f, {User, Writeable}) && References(sys.kernel.mem, f) == 1
    && d in sys.kernel.mem.dirs && d !in sys.kernel.mem.storages && UserPage(p)
  }

  lemma OnePageMade(sys: S.System, d: nat, owner: int, name: string, p: nat, sd: nat, strategy: Strategy)
    returns (sys1: S.System, f: nat)
    requires Inv(sys) && !S.Taken(sys.shares, owner, name) && !S.Full(sys.shares)
    requires S.Target(sys, d, p, 1) && sd !in sys.kernel.mem.dirs && S.RoomForObject(sys.kernel, d, p, 1, strategy)
    ensures StepsTo(sys, Call(CreateObject(d, owner, name, H.PAGE, 1, p, sd), strategy), sys1)
    ensures Inv(sys1) && OnePage(sys1, S.EmptyFrom(sys.shares, 0), d, owner, name, p, f)
  {
    hide Valid, Lookup, S.Backed, S.RoomForObject, RangeUnmapped, References, S.Filed, StepOk;
    var call := Call(CreateObject(d, owner, name, H.PAGE, 1, p, sd), strategy);
    var k := sys.kernel;
    S.ObjectBacked(k, d, p, 1, sd, strategy);
    var (k1, fs) := S.Backed(k, d, p, 1, sd, strategy).value;
    sys1 := Step(sys, call).value;
    CreateStepKeeps(sys, call);
    assert Inv(sys1) by { StepOkInv(sys, Touched(sys, call.op), sys1); }
    f := fs[0];
    OneFrame(k.mem, k1.mem, d, p, sd, f, fs);
    var j := S.EmptyFrom(sys.shares, 0);
    var share := S.Share(false, owner, name, H.PAGE, 1, 1, sd, fs, [S.Mapping(d, p, {User, Writeable})]);
    assert sys1 == S.System(k1, sys.shares[j := share]);
    FoundAgain(sys.shares, j, share);
  }

  lemma StepOkInv(sys: S.System, w: Where, sys': S.System)
    requires StepOk(sys, w, sys')
    ensures Inv(sys')
  {
  }

  lemma OneFrame(m: Mem, m1: Mem, d: nat, p: nat, sd: nat, f: nat, fs: seq<nat>)
    requires S.NewObject(m, m1, d, p, sd, fs) && fs == [f] && d in m.dirs && d !in m.storages
    ensures Lookup(m1, sd, 0) == Mapped(f, {}) && sd in m1.dirs && sd in m1.storages
    ensures Lookup(m1, d, p) == Mapped(f, {User, Writeable}) && References(m1, f) == 1
    ensures d in m1.dirs && d !in m1.storages
  {
    hide Lookup, References;
    assert fs[p - p] == f && fs[0 - 0] == f && f in fs;
  }

  /** The new object is found under its name. */
  lemma FoundAgain(shares: seq<S.Share>, j: nat, share: S.Share)
    requires j < |shares| && !share.empty && !S.Taken(shares, share.owner, share.name)
    ensures S.FindFrom(shares[j := share], share.owner, share.name, 0) == j
  {
    var k := S.FindFrom(shares[j := share], share.owner, share.name, 0);
    assert forall i :: 0 <= i < |shares| ==> !S.Named(shares[i], share.owner, share.name);
    assert S.Named(shares[j := share][j], share.owner, share.name);
  }

  lemma OnePageUnmapped(sys1: S.System, j: nat, d: nat, owner: int, name: string, p: nat, f: nat, strategy: Strategy)
    returns (sys2: S.System)
    requires Inv(sys1) && OnePage(sys1, j, d, owner, name, p, f)
    ensures StepsTo(sys1, Call(OnMemory(OpUnmap(d, p)), strategy), sys2) && Inv(sys2) && sys2.shares == sys1.shares
    ensures var m := sys2.kernel.mem;
      && f in m.free && f < |m.frames| && Lookup(m, sys1.shares[j].storage, 0) == Mapped(f, {})
      && Ready(sys2.kernel, d, p) && d !in m.storages && Lookup(m, d, p) == Unmapped && HasTable(m, d, p / ENTRIES)
  {
    hide Valid, Lookup, UnmapFrame, HasTable, StepOk, Inv;
    var k, call := sys1.kernel, Call(OnMemory(OpUnmap(d, p)), strategy);
    InvValid(sys1);
    IsReady(k, d, p);
    UnmapFrameKeeps(k, d, p);
    SlotOfMapped(k, d, p);
    sys2 := S.System(UnmapFrame(k, d, p), sys1.shares);
    StepKeeps(sys1, call);
    StepOkInv(sys1, Touched(sys1, call.op), sys2);
    SameDirs(k.mem, sys2.kernel.mem);
  }

  lemma InvValid(sys: S.System)
    requires Inv(sys)
    ensures Valid(sys.kernel)
  {
  }

  /** Nothing keeps an object's frame in use: its creator maps one page, unmaps it, and the frame is free although it is
      still filed.  Whoever gets the object then is answered as if nothing had happened, and the free list is wrong. */
  lemma FreedObjectBreaks(sys: S.System, d: nat, owner: int, name: string, p: nat, sd: nat, strategy: Strategy)
    returns (sys1: S.System, sys2: S.System, f: nat)
    requires Inv(sys) && !S.Taken(sys.shares, owner, name) && !S.Full(sys.shares)
    requires S.Target(sys, d, p, 1) && sd !in sys.kernel.mem.dirs && S.RoomForObject(sys.kernel, d, p, 1, strategy)
    ensures StepsTo(sys, Call(CreateObject(d, owner, name, H.PAGE, 1, p, sd), strategy), sys1)
    ensures StepsTo(sys1, Call(OnMemory(OpUnmap(d, p)), strategy), sys2)
    ensures Inv(sys2) && f in sys2.kernel.mem.free
    ensures var j := S.FindFrom(sys2.shares, owner, name, 0);
      j < |sys2.shares| && Lookup(sys2.kernel.mem, sys2.shares[j].storage, 0) == Mapped(f, {})
    ensures var r := S.GetSharedObject(sys2, d, owner, name, p, strategy);
      r.Done? && r.value.1 >= 0 && !Valid(r.value.0.kernel)
  {
    hide Valid, Lookup, StepsTo, S.RoomForObject, HasTable, S.MapStored, S.Target, S.Taken, S.Full, Inv;
    sys1, f := OnePageMade(sys, d, owner, name, p, sd, strategy);
    var j := S.EmptyFrom(sys.shares, 0);
    sys2 := OnePageUnmapped(sys1, j, d, owner, name, p, f, strategy);
    var s := sys2.shares[j];
    var perms := S.GetterPerms(s.isWritable);
    S.GetTurnIff(sys2.kernel, d, p, s.storage, 0, f, perms, strategy);
    OneTurn(sys2.kernel, d, p, s.storage, perms, strategy);
  }

  lemma OneTurn(k: Kernel, d: nat, p: nat, sd: nat, perms: set<Flag>, strategy: Strategy)
    ensures S.MapFrames(k, d, p, sd, 1, perms, strategy) == S.MapStored(k, d, p, sd, 0, perms, strategy)
  {
    hide S.MapStored;
    assert S.MapFrames(k, d, p, sd, 0, perms, strategy) == Done(k);
  }

  const NO_OBJECT := S.Share(true, 0, "", 0, 0, 0, 0, [], [])

  /** What is left when the descriptors have been mapped. */
  lemma BootRoom(m: Mem)
    requires Booted(m) && m.dirs == map[] && |m.free| >= DESCRIPTOR_PAGES
    ensures Initialize(m).Done?
    ensures var k := Initialize(m).value;
      && |k.mem.free| == |m.free| - DESCRIPTOR_PAGES && k.mem.dirs == map[] && k.mem.storages == {}
      && Total(k.heap.free) >= 4 * H.PAGE && k.heap.free != []
  {
    BootedRun(m);
    hide Booted, Counted, MapRun;
    MapRunFacts(m, HEAP_FIRST, DESCRIPTOR_PAGES);
    BootStorages(m);
    TotalOne(Region().Whole());
  }

  lemma BootStorages(m: Mem)
    requires Booted(m)
    ensures m.storages == {}
  {
  }

  lemma NewDirectory(start: S.System, d: nat) returns (sys: S.System)
    requires Inv(start) && d !in start.kernel.mem.dirs && start.kernel.mem.free != [] && start.kernel.heap.free != []
    ensures StepsTo(start, Call(OnMemory(OpDirectory(d)), UseFirstFit), sys) && Inv(sys)
    ensures sys.shares == start.shares && S.DirectoryAdded(start.kernel, sys.kernel, d)
    ensures sys.kernel.mem.storages == start.kernel.mem.storages
  {
    hide Valid, Inv, S.CreateDirectory, StepOk, S.DirectoryAdded, S.Keeps;
    var call := Call(OnMemory(OpDirectory(d)), UseFirstFit);
    InvValid(start);
    S.CreateDirectoryKeeps(start.kernel, d, UseFirstFit);
    sys := S.System(S.CreateDirectory(start.kernel, d, UseFirstFit).value, start.shares);
    StepKeeps(start, call);
    StepOkInv(start, NOWHERE, sys);
  }

  lemma RoomForOne(sys: S.System)
    requires sys.kernel.mem.dirs == map[0 := NoTables()] && sys.kernel.mem.storages == {}
    requires |sys.kernel.mem.free| >= 4 && Total(sys.kernel.heap.free) >= 3 * H.PAGE
    ensures S.Target(sys, 0, 0, 1) && S.RoomForObject(sys.kernel, 0, 0, 1, UseFirstFit)
  {
    hide Total;
    assert Covering(0, 0) == {} && Covering(0, 1) == {0};
    assert MissingTables(sys.kernel.mem, 0, 0, 1) == {0};
  }

  /** So from every boot memory with a few frames more than the descriptors need, a run leads to such a state. */
  lemma FreedObjectFromBoot(m: Mem) returns (calls: seq<Call>, sys: S.System)
    requires Booted(m) && m.dirs == map[] && |m.free| >= DESCRIPTOR_PAGES + 5
    ensures Reaches(m, calls, sys)
    ensures var r := S.GetSharedObject(sys, 0, 1, "x", 0, UseFirstFit);
      r.Done? && r.value.1 >= 0 && !Valid(r.value.0.kernel)
  {
    hide Valid, Booted, Initialize, Inv, StepsTo, S.Target, S.RoomForObject, Total;
    BootRoom(m);
    InitializeValid(m);
    var start := S.System(Initialize(m).value, [NO_OBJECT]);
    assert Inv(start) by { StartInv(start); }
    var sys0 := NewDirectory(start, 0);
    assert sys0.kernel.mem.dirs == map[0 := NoTables()];
    RoomForOne(sys0);
    assert !S.Full(sys0.shares) by { assert sys0.shares[0].empty; }
    var sys1, sys2, f := FreedObjectBreaks(sys0, 0, 1, "x", 0, 1, UseFirstFit);
    var a := Call(OnMemory(OpDirectory(0)), UseFirstFit);
    var b := Call(CreateObject(0, 1, "x", H.PAGE, 1, 0, 1), UseFirstFit);
    var c := Call(OnMemory(OpUnmap(0, 0)), UseFirstFit);
    calls, sys := [a, b, c], sys2;
    ThreeSteps(start, a, b, c, sys0, sys1, sys2);
    assert Started(m, start);
  }

  lemma StartInv(start: S.System)
    requires Valid(start.kernel) && start.shares == [NO_OBJECT]
    ensures Inv(start)
  {
    hide Valid;
  }

  lemma ThreeSteps(start: S.System, a: Call, b: Call, c: Call, sys0: S.System, sys1: S.System, sys2: S.System)
    requires StepsTo(start, a, sys0) && StepsTo(sys0, b, sys1) && StepsTo(sys1, c, sys2)
    ensures Runs(start, [a, b, c], sys2)
  {
    hide StepsTo;
    hide Runs;
    assert Runs(start, [], start) by { NoStep(start); }
    OneStepMore(start, [], start, a, sys0);
    OneStepMore(start, [] + [a], sys0, b, sys1);
    OneStepMore(start, [] + [a] + [b], sys1, c, sys2);
    assert [] + [a] + [b] + [c] == [a, b, c];
  }

  lemma NoStep(start: S.System)
    ensures Runs(start, [], start)
  {
  }

  lemma OneStepMore(start: S.System, calls: seq<Call>, mid: S.System, call: Call, sys: S.System)
    requires Runs(start, calls, mid) && StepsTo(mid, call, sys)
    ensures Runs(start, calls + [call], sys)
  {
    hide StepsTo;
    var longer := calls + [call];
    assert longer[..|longer| - 1] == calls && longer[|longer| - 1] == call;
    assert Runs(start, longer[..|longer| - 1], mid);
  }
}
