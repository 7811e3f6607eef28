/**
 Shared memory objects (kern/mem/shared_memory_manager.c): createSharedObject backs a range of the caller
 with fresh frames and files them in the object's storage, getSharedObject maps the same frames for others.
 The storage is a page directory of its own: entry `i` of its tables holds the i-th frame, present but not counted
 as a reference, and get_frame_from_storage reads it back like the page of an environment.
 */
module Shares {
  import opened Basics
  import opened Blocks
  import opened Paging
  import opened KernelHeap
  import opened PageTables
  import opened Chunks
  import H = Heap

  const E_NO_SHARE := -14
  const E_SHARED_MEM_EXISTS := -15
  const E_SHARED_MEM_NOT_EXISTS := -16

  /** A range at which an environment sees the object. */
  datatype Mapping = Mapping(dir: nat, page: nat, perms: set<Flag>)

  /** One slot of the `shares` array.  `frames` and `maps` are history: the frames that were filed, and who mapped the
      object, its creator first; no operation reads them. */
  datatype Share = Share(
    empty: bool, owner: int, name: string, size: nat, isWritable: nat, references: nat,
    storage: nat, frames: seq<nat>, maps: seq<Mapping>)

  datatype System = System(kernel: Kernel, shares: seq<Share>)

  function Pages(size: nat): nat { (size + H.PAGE - 1) / H.PAGE }

  predicate Named(s: Share, owner: int, name: string) {
    !s.empty && s.owner == owner && s.name == name
  }

  /** get_share_object_ID from slot `i` on; the number of slots if there is no such object */
  function FindFrom(shares: seq<Share>, owner: int, name: string, i: nat): (r: nat)
    requires i <= |shares|
    ensures i <= r <= |shares| && (r < |shares| ==> Named(shares[r], owner, name))
    ensures forall j :: i <= j < r ==> !Named(shares[j], owner, name)
    decreases |shares| - i
  {
    if i == |shares| || Named(shares[i], owner, name) then i else FindFrom(shares, owner, name, i + 1)
  }

  /** The slot allocate_share_object takes. */
  function EmptyFrom(shares: seq<Share>, i: nat): (r: nat)
    requires i <= |shares|
    ensures i <= r <= |shares| && (r < |shares| ==> shares[r].empty)
    ensures forall j :: i <= j < r ==> !shares[j].empty
    decreases |shares| - i
  {
    if i == |shares| || shares[i].empty then i else EmptyFrom(shares, i + 1)
  }

  // ---------------------------------------------------------------- frames storage

  /** One page of kernel heap, cleared, becomes directory `sd`. */
  ghost function CreateDirectory(k: Kernel, sd: nat, strategy: Strategy): Outcome<Kernel>
    requires HeapOk(k.heap)
  {
    PageFits(k, strategy);
    match Kmalloc(k, H.PAGE, strategy)
    case Panic => Panic
    case Done((k', va)) => if va.None? then Panic else Done(k'.(mem := k'.mem.(dirs := k'.mem.dirs[sd := NoTables()])))
  }

  /** Directory `sd` only files frames from now on. */
  function Mark(k: Kernel, sd: nat): Kernel {
    k.(mem := k.mem.(storages := k.mem.storages + {sd}))
  }

  /** create_frames_storage */
  ghost function CreateStorage(k: Kernel, sd: nat, strategy: Strategy): Outcome<Kernel>
    requires HeapOk(k.heap)
  {
    match CreateDirectory(k, sd, strategy)
    case Panic => Panic
    case Done(k') => Done(Mark(k', sd))
  }

  /** What the user saw is still there, but for `n` pages from page `p` of directory `d`. */
  ghost predicate Keeps(m: Mem, m': Mem, d: nat, p: nat, n: nat) {
    && m.dirs.Keys <= m'.dirs.Keys && (forall e :: e in m.dirs ==> (e in m'.storages <==> e in m.storages))
    && (forall e, q: nat :: e in m.dirs && UserPage(q) && !(e == d && p <= q < p + n) ==>
        Lookup(m', e, q) == Lookup(m, e, q))
  }

  lemma NewDirectoryKeeps(k: Kernel, sd: nat)
    requires Valid(k) && sd !in k.mem.dirs
    ensures var k' := k.(mem := k.mem.(dirs := k.mem.dirs[sd := NoTables()]));
      Valid(k') && Keeps(k.mem, k'.mem, 0, 0, 0)
  {
    hide Valid, Lookup;
    var k' := k.(mem := k.mem.(dirs := k.mem.dirs[sd := NoTables()]));
    NewDirectoryValid(k, sd);
    forall e, q: nat | e in k.mem.dirs && UserPage(q) ensures Lookup(k'.mem, e, q) == Lookup(k.mem, e, q) {
      SameTableSeen(k, k', e, q);
    }
  }

  lemma SameTableSeen(k: Kernel, k': Kernel, e: nat, q: nat)
    requires Valid(k) && Valid(k') && e in k.mem.dirs && UserPage(q)
    requires e in k'.mem.dirs && k'.mem.dirs[e] == k.mem.dirs[e] && k'.mem.pte == k.mem.pte
    ensures Lookup(k'.mem, e, q) == Lookup(k.mem, e, q)
  {
    hide Valid, GetPageTable;
    GetPageTableFinds(k, e, q);
    GetPageTableFinds(k', e, q);
  }

  lemma NewDirectoryValid(k: Kernel, sd: nat)
    requires Valid(k) && sd !in k.mem.dirs
    ensures Valid(k.(mem := k.mem.(dirs := k.mem.dirs[sd := NoTables()])))
  {
    hide Counted, HeapOk, InUse;
    var k' := k.(mem := k.mem.(dirs := k.mem.dirs[sd := NoTables()]));
    EmptySlotsKeep(k.mem, k'.mem);
    hide EntriesOk;
    forall e: nat, y: nat, u: nat | HangsOn(k'.mem, u, e, y) ensures HangsOn(k.mem, u, e, y) { }
    forall e: nat, y: nat, u: nat | HangsOn(k.mem, u, e, y) ensures HangsOn(k'.mem, u, e, y) { }
    forall u | u in k.mem.owner ensures TableOk(k', u) { assert TableOk(k, u); }
    forall s ensures IsSlot(k'.mem, s) <==> IsSlot(k.mem, s) { }
    forall p: nat | HeapPage(p) ensures IsMapped(k'.mem, KernelPage(p)) == IsMapped(k.mem, KernelPage(p))
        && Records(k'.mem, p) { assert Records(k.mem, p); }
  }

  /** A directory without tables may become a storage. */
  lemma MarkKeeps(k: Kernel, sd: nat)
    requires Valid(k) && sd in k.mem.dirs && k.mem.dirs[sd] == NoTables()
    ensures Valid(Mark(k, sd))
    ensures forall e, q: nat :: e in k.mem.dirs && UserPage(q) ==> Lookup(Mark(k, sd).mem, e, q) == Lookup(k.mem, e, q)
  {
    MarkValid(k, sd);
    hide Valid, Lookup;
    forall e, q: nat | e in k.mem.dirs && UserPage(q) ensures Lookup(Mark(k, sd).mem, e, q) == Lookup(k.mem, e, q) {
      SameTableSeen(k, Mark(k, sd), e, q);
    }
  }

  lemma MarkValid(k: Kernel, sd: nat)
    requires Valid(k) && sd in k.mem.dirs && k.mem.dirs[sd] == NoTables()
    ensures Valid(Mark(k, sd))
  {
    hide Counted, HeapOk, InUse;
    var m, m' := k.mem, Mark(k, sd).mem;
    forall t | t in m.owner ensures m.owner[t].0 != sd { assert HangsOn(m, t, m.owner[t].0, m.owner[t].1); }
    EmptySlotsKeep(m, m');
    hide EntriesOk;
    forall t: nat, e: nat, y: nat | HangsOn(m', t, e, y) ensures HangsOn(m, t, e, y) { }
    forall t | t in m.owner ensures TableOk(Mark(k, sd), t) && HangsOn(m', t, m.owner[t].0, m.owner[t].1) {
      assert TableOk(k, t) && HangsOn(m, t, m.owner[t].0, m.owner[t].1);
    }
    forall s ensures IsSlot(m', s) <==> IsSlot(m, s) { }
    forall p: nat | HeapPage(p) ensures IsMapped(m', KernelPage(p)) == IsMapped(m, KernelPage(p))
        && Records(m', p) { assert Records(m, p); }
  }

  /** One frame and one heap page are taken for a directory without tables. */
  ghost predicate DirectoryAdded(k: Kernel, k': Kernel, sd: nat) {
    && UsedFramesKept(k.mem, k'.mem) && k'.mem.hand == k.mem.hand
    && k'.mem.dirs == k.mem.dirs[sd := NoTables()]
    && |k'.mem.free| == |k.mem.free| - 1 && Total(k'.heap.free) == Total(k.heap.free) - H.PAGE
  }

  lemma CreateStorageKeeps(k: Kernel, sd: nat, strategy: Strategy)
    requires Valid(k) && sd !in k.mem.dirs
    ensures HeapOk(k.heap)
    ensures var r := CreateStorage(k, sd, strategy);
      && (r.Panic? <==> NoRoom(k, strategy))
      && (r.Done? ==> Valid(r.value) && Keeps(k.mem, r.value.mem, 0, 0, 0) && DirectoryAdded(k, r.value, sd)
                      && r.value.mem.storages == k.mem.storages + {sd})
  {
    hide Valid, CreateDirectory, Lookup, Total;
    CreateDirectoryKeeps(k, sd, strategy);
    if CreateDirectory(k, sd, strategy).Done? {
      MarkKeeps(CreateDirectory(k, sd, strategy).value, sd);
    }
  }

  lemma CreateDirectoryKeeps(k: Kernel, sd: nat, strategy: Strategy)
    requires Valid(k) && sd !in k.mem.dirs
    ensures HeapOk(k.heap)
    ensures var r := CreateDirectory(k, sd, strategy);
      && (r.Panic? <==> NoRoom(k, strategy))
      && (r.Done? ==> Valid(r.value) && Keeps(k.mem, r.value.mem, 0, 0, 0) && DirectoryAdded(k, r.value, sd)
                      && r.value.mem.storages == k.mem.storages)
  {
    hide Valid, Kmalloced, GetPageTable, Lookup, Hole, Total, Keeps;
    ValidHeap(k);
    PageFits(k, strategy);
    KmallocKeeps(k, H.PAGE, strategy);
    if !NoRoom(k, strategy) {
      var (k1, va) := Kmalloc(k, H.PAGE, strategy).value;
      KmallocUnseen(k, k1, Hole(k.heap.free, H.PAGE, strategy));
      NewDirectoryKeeps(k1, sd);
      assert Keeps(k.mem, CreateDirectory(k, sd, strategy).value.mem, 0, 0, 0) by {
        hide Kmalloc;
        KeepsAlso(k.mem, k1.mem, sd);
      }
    }
  }

  lemma KeepsAlso(m: Mem, m1: Mem, sd: nat)
    requires Keeps(m, m1, 0, 0, 0) && Keeps(m1, m1.(dirs := m1.dirs[sd := NoTables()]), 0, 0, 0)
    ensures Keeps(m, m1.(dirs := m1.dirs[sd := NoTables()]), 0, 0, 0)
  {
    hide Lookup;
  }

  lemma KmallocUnseen(k: Kernel, k': Kernel, i: nat)
    requires Valid(k) && Valid(k') && i < |k.heap.free| && H.PAGE <= k.heap.free[i].size && k.mem.free != []
    requires Kmalloced(k, k', i, H.PAGE)
    ensures k'.mem.dirs == k.mem.dirs && Keeps(k.mem, k'.mem, 0, 0, 0) && UsedFramesKept(k.mem, k'.mem)
    ensures k'.mem.hand == k.mem.hand && k'.mem.storages == k.mem.storages && |k'.mem.free| == |k.mem.free| - 1
    ensures Total(k'.heap.free) == Total(k.heap.free) - H.PAGE
  {
    hide Valid, Kmalloced, Lookup, KmallocHeap;
    KmallocedMem(k, k', i);
    CutTotal(k.heap, i);
    forall s | s in k.mem.pte && s.InTable? ensures s in k'.mem.pte { }
    forall e, q: nat | e in k.mem.dirs && UserPage(q) ensures Lookup(k'.mem, e, q) == Lookup(k.mem, e, q) {
      SameEntriesSeen(k, k', e, q);
    }
  }

  // ---------------------------------------------------------------- the loop of createSharedObject

  /** The end of add_frame_to_storage, once the table exists: entry `i` of the storage is overwritten, and no counter
      changes. */
  function FileFrame(k: Kernel, sd: nat, i: nat, f: nat): Kernel {
    match EntrySlot(k.mem, sd, i)
    case None => k
    case Some(s) => k.(mem := k.mem.(pte := k.mem.pte[s := Mapped(f, {})]))
  }

  /** Entry `i` reads as filed; every page and every other entry reads as before, and no frame is touched. */
  lemma FileFrameKeeps(k: Kernel, sd: nat, i: nat, f: nat)
    requires Ready(k, sd, i) && sd in k.mem.storages && EntrySlot(k.mem, sd, i).Some? && f < |k.mem.frames|
    ensures var k' := FileFrame(k, sd, i, f);
      && Ready(k', sd, i) && SameBut(k.mem, k'.mem, sd, i, 1) && Lookup(k'.mem, sd, i) == Mapped(f, {})
      && k'.heap == k.heap && k'.mem == k.mem.(pte := k'.mem.pte)
  {
    hide HeapOk, Linked, GetPageTable, SameBut, Lookup;
    var s := EntrySlot(k.mem, sd, i).value;
    ReadyValid(k, sd, i);
    StorageEntry(k, sd, i);
    UncountedKeeps(k.mem, s, f);
    UserEntryWritten(k, FileFrame(k, sd, i, f), s, Mapped(f, {}));
    WrittenSeen(k, FileFrame(k, sd, i, f), sd, i, Mapped(f, {}));
  }

  lemma StorageEntry(k: Kernel, sd: nat, i: nat)
    requires Ready(k, sd, i) && sd in k.mem.storages && EntrySlot(k.mem, sd, i).Some?
    ensures var s := EntrySlot(k.mem, sd, i).value; s in k.mem.pte && s.InTable? && !Counts(k.mem, s)
  {
    hide Valid, GetPageTable;
    ReadyValid(k, sd, i);
    GetPageTableFinds(k, sd, i);
  }

  /** Whatever is written into an entry that does not count. */
  lemma UncountedKeeps(m: Mem, s: Slot, f: nat)
    requires Counted(m) && s in m.pte && !Counts(m, s) && f < |m.frames|
    ensures Counted(m.(pte := m.pte[s := Mapped(f, {})]))
  {
    hide NoRepeats, Users;
    var m' := m.(pte := m.pte[s := Mapped(f, {})]);
    forall g | 0 <= g < |m'.frames| ensures CountOk(m', g) {
      assert CountOk(m, g);
      WriteUsers(m, m', s, Mapped(f, {}), g);
    }
  }

  /** add_frame_to_storage: the table is created if it is missing. */
  ghost function AddFrameToStorage(k: Kernel, sd: nat, i: nat, f: nat, strategy: Strategy): Outcome<Kernel>
    requires Ready(k, sd, i)
  {
    match EnsureTable(k, sd, i, strategy)
    case Panic => Panic
    case Done(k1) => Done(FileFrame(k1, sd, i, f))
  }

  /** But for one entry of the storage, and the frame and the heap page of its table if that was missing, all is as
      before: no other page or entry, no counter, no frame in use. */
  ghost predicate FrameAdded(k: Kernel, k': Kernel, sd: nat, i: nat, f: nat) {
    var m, m', missing := k.mem, k'.mem, !HasTable(k.mem, sd, i / ENTRIES);
    && SameBut(m, m', sd, i, 1) && Lookup(m', sd, i) == Mapped(f, {})
    && UsedFramesKept(m, m') && m'.hand == m.hand && |m'.free| == |m.free| - Bit(missing)
    && (forall x: nat :: x < TABLES ==> (HasTable(m', sd, x) <==> x == i / ENTRIES || HasTable(m, sd, x)))
    && OtherTablesKept(m, m', sd)
    && Total(k'.heap.free) == Total(k.heap.free) - H.PAGE * Bit(missing)
  }

  /** add_frame_to_storage panics only for want of a table; otherwise get_frame_from_storage reads frame `f` back at
      index `i`, and at every other index what it read before. */
  lemma AddFrameKeeps(k: Kernel, sd: nat, i: nat, f: nat, strategy: Strategy)
    requires Ready(k, sd, i) && sd in k.mem.storages && f < |k.mem.frames|
    ensures var r := AddFrameToStorage(k, sd, i, f, strategy);
      && (r.Panic? <==> !HasTable(k.mem, sd, i / ENTRIES) && NoRoom(k, strategy))
      && (r.Done? ==> Ready(r.value, sd, i) && FrameAdded(k, r.value, sd, i, f))
  {
    hide Valid, Lookup, EnsureTable, HasTable, GetPageTable, Total, Ready, FileFrame;
    EnsureTableFacts(k, sd, i, strategy);
    if EnsureTable(k, sd, i, strategy).Done? {
      var k1 := EnsureTable(k, sd, i, strategy).value;
      TableCounts(k, k1, sd, i, strategy);
      FileFrameKeeps(k1, sd, i, f);
      SameDirs(k1.mem, FileFrame(k1, sd, i, f).mem);
    }
  }

  /** One turn: a frame is taken and mapped at page `p`, then filed as entry `i` of the storage, whose table is
      created if it is missing; the result names the frame. */
  ghost function CreatePage(k: Kernel, d: nat, p: nat, sd: nat, i: nat, strategy: Strategy): Outcome<(Kernel, nat)> {
    match AllocateFrame(k.mem)
    case None => Panic
    case Some((m, f)) => MapAndFile(k.(mem := m), d, f, p, sd, i, strategy)
  }

  ghost function MapAndFile(k: Kernel, d: nat, f: nat, p: nat, sd: nat, i: nat,
                            strategy: Strategy): Outcome<(Kernel, nat)>
  {
    if !Ready(k, d, p) then Panic   // outside the domain of the operation
    else match MapFrame(k, d, f, p, {User, Writeable}, strategy)
      case Panic => Panic
      case Done(k1) =>
        if !Ready(k1, sd, i) then Panic
        else match AddFrameToStorage(k1, sd, i, f, strategy)
          case Panic => Panic
          case Done(k2) => Done((k2, f))
  }

  /** The loop after `n` pages, with the frames filed so far. */
  ghost function CreatePages(k: Kernel, d: nat, p: nat, n: nat, sd: nat,
                             strategy: Strategy): Outcome<(Kernel, seq<nat>)>
  {
    if n == 0 then Done((k, []))
    else match CreatePages(k, d, p, n - 1, sd, strategy)
      case Panic => Panic
      case Done((k1, fs)) => FilePage(CreatePage(k1, d, p + n - 1, sd, n - 1, strategy), fs)
  }

  /** The frame of one more turn is the next entry of the storage. */
  function FilePage(r: Outcome<(Kernel, nat)>, fs: seq<nat>): Outcome<(Kernel, seq<nat>)> {
    match r
    case Panic => Panic
    case Done((k, f)) => Done((k, fs + [f]))
  }

  /** The range shows the frames `fs`. */
  ghost predicate Shows(m: Mem, d: nat, p: nat, fs: seq<nat>, perms: set<Flag>) {
    forall q: nat :: p <= q < p + |fs| ==> Lookup(m, d, q) == Mapped(fs[q - p], perms)
  }

  ghost predicate FreshFrames(m: Mem, m': Mem, fs: seq<nat>) {
    && NoRepeats(fs)
    && (forall f :: f in fs ==> f < |m.frames| && References(m, f) == 0 && References(m', f) == 1)
  }

  /** The references of every frame in use are as before. */
  ghost predicate CountsKept(m: Mem, m': Mem) {
    |m'.frames| == |m.frames| && forall g: nat :: References(m, g) > 0 ==> References(m', g) == References(m, g)
  }

  /** Every page reads as before but `n` pages from page `p` of `d` and `n` entries from entry `i` of the storage. */
  ghost predicate KeepsBoth(m: Mem, m': Mem, d: nat, p: nat, sd: nat, i: nat, n: nat) {
    && m'.dirs.Keys == m.dirs.Keys && m'.storages == m.storages
    && (forall e, q: nat ::
          e in m.dirs && UserPage(q) && !(e == d && p <= q < p + n) && !(e == sd && i <= q < i + n) ==>
          Lookup(m', e, q) == Lookup(m, e, q))
  }

  ghost predicate PageCreated(k: Kernel, k': Kernel, d: nat, p: nat, sd: nat, i: nat, f: nat) {
    var m, m' := k.mem, k'.mem;
    && KeepsBoth(m, m', d, p, sd, i, 1) && CountsKept(m, m') && m'.hand == m.hand
    && Lookup(m', d, p) == Mapped(f, {User, Writeable}) && Lookup(m', sd, i) == Mapped(f, {})
    && f < |m.frames| && References(m, f) == 0 && References(m', f) == 1
    && TwoTables(k, k', d, p / ENTRIES, sd, i / ENTRIES)
  }

  /** One frame was taken, and one more, with a heap page, for each of the two tables that was missing. */
  ghost predicate TwoTables(k: Kernel, k': Kernel, d: nat, y: nat, sd: nat, z: nat) {
    var m, m', tables := k.mem, k'.mem, Bit(!HasTable(k.mem, d, y)) + Bit(!HasTable(k.mem, sd, z));
    && |m'.free| == |m.free| - 1 - tables && Total(k'.heap.free) == Total(k.heap.free) - H.PAGE * tables
    && (forall x: nat :: x < TABLES ==> (HasTable(m', d, x) <==> x == y || HasTable(m, d, x)))
    && (forall x: nat :: x < TABLES ==> (HasTable(m', sd, x) <==> x == z || HasTable(m, sd, x)))
  }

  /** Frames for `n` pages and `tables` tables, and heap pages for the tables. */
  ghost predicate RoomFor(k: Kernel, n: nat, tables: nat, strategy: Strategy) {
    n + tables <= |k.mem.free| && H.PAGE * tables <= Total(k.heap.free) && (strategy.UseOther? ==> tables == 0)
  }

  ghost predicate PagesCreated(k: Kernel, k': Kernel, d: nat, p: nat, sd: nat, fs: seq<nat>) {
    && KeepsBoth(k.mem, k'.mem, d, p, sd, 0, |fs|) && CountsKept(k.mem, k'.mem) && k'.mem.hand == k.mem.hand
    && Shows(k'.mem, d, p, fs, {User, Writeable}) && Shows(k'.mem, sd, 0, fs, {}) && FreshFrames(k.mem, k'.mem, fs)
    && TablesTaken(k, k', d, p, sd, |fs|)
  }

  /** `n` frames were taken, and one more, with a heap page, for each missing table of the range and of the storage. */
  ghost predicate TablesTaken(k: Kernel, k': Kernel, d: nat, p: nat, sd: nat, n: nat) {
    var tables := |MissingTables(k.mem, d, p, n)| + |MissingTables(k.mem, sd, 0, n)|;
    && |k'.mem.free| == |k.mem.free| - n - tables
    && Total(k'.heap.free) == Total(k.heap.free) - H.PAGE * tables
    && (forall x: nat :: x < TABLES ==> (HasTable(k'.mem, d, x) <==> HasTable(k.mem, d, x) || x in Covering(p, n)))
    && (forall x: nat :: x < TABLES ==> (HasTable(k'.mem, sd, x) <==> HasTable(k.mem, sd, x) || x in Covering(0, n)))
  }

  lemma CreatePageKeeps(k: Kernel, d: nat, p: nat, sd: nat, i: nat, strategy: Strategy)
    requires Ready(k, d, p) && d !in k.mem.storages && Lookup(k.mem, d, p) == Unmapped
    requires sd in k.mem.dirs && sd in k.mem.storages && UserPage(i)
    ensures var r, tables := CreatePage(k, d, p, sd, i, strategy),
                             Bit(!HasTable(k.mem, d, p / ENTRIES)) + Bit(!HasTable(k.mem, sd, i / ENTRIES));
      && (r.Done? <==> RoomFor(k, 1, tables, strategy))
      && (r.Done? ==> Ready(r.value.0, d, p) && PageCreated(k, r.value.0, d, p, sd, i, r.value.1))
  {
    hide Valid, Lookup, MapFrame, EnsureTable, HasTable, GetPageTable, AllocateFrame, Total, References, FrameMapped;
    ReadyValid(k, d, p);
    TakeFrameKeeps(k);
    HeapRoom(k);
    if k.mem.free != [] {
      var (m, f) := AllocateFrame(k.mem).value;
      var k1 := k.(mem := m);
      IsReady(k1, d, p);
      SameDirs(k.mem, m);
      MapFrameKeeps(k1, d, f, p, {User, Writeable}, strategy);
      if MapFrame(k1, d, f, p, {User, Writeable}, strategy).Done? {
        MappedAndFiled(k, k1, MapFrame(k1, d, f, p, {User, Writeable}, strategy).value, d, f, p, sd, i, strategy);
      }
    }
  }

  /** The storage comes last. */
  lemma MappedAndFiled(k: Kernel, k1: Kernel, k2: Kernel, d: nat, f: nat, p: nat, sd: nat, i: nat, strategy: Strategy)
    requires Valid(k) && k.mem.free != [] && sd in k.mem.dirs && sd in k.mem.storages && UserPage(i) && UserPage(p)
    requires d in k.mem.dirs && d !in k.mem.storages
    requires k1.heap == k.heap && SameBut(k.mem, k1.mem, 0, 0, 0) && k1.mem.dirs == k.mem.dirs
    requires UsedFramesKept(k.mem, k1.mem) && References(k.mem, f) == 0 && f < |k.mem.frames| && f !in k.mem.hand
    requires k1.mem.hand == k.mem.hand + {f} && References(k1.mem, f) == 0
    requires k1.mem.free == k.mem.free[1..]
    requires Ready(k2, d, p) && FrameMapped(k1, k2, d, f, p, {User, Writeable})
    requires HasTable(k.mem, d, p / ENTRIES) || !strategy.UseOther?
    ensures Ready(k2, sd, i)
    ensures var r, tables := AddFrameToStorage(k2, sd, i, f, strategy),
                             Bit(!HasTable(k.mem, d, p / ENTRIES)) + Bit(!HasTable(k.mem, sd, i / ENTRIES));
      && (r.Done? <==> RoomFor(k, 1, tables, strategy))
      && (r.Done? ==> Ready(r.value, d, p) && PageCreated(k, r.value, d, p, sd, i, f))
  {
    hide Valid, Lookup, AddFrameToStorage, HasTable, GetPageTable, Total, References, Ready, PageCreated;
    ReadyValid(k2, d, p);
    IsReady(k2, sd, i);
    HeapRoom(k);
    HeapRoom(k2);
    SameDirs(k.mem, k1.mem);
    AddFrameKeeps(k2, sd, i, f, strategy);
    assert HasTable(k2.mem, sd, i / ENTRIES) == HasTable(k.mem, sd, i / ENTRIES);
    var r := AddFrameToStorage(k2, sd, i, f, strategy);
    if r.Done? {
      ReadyValid(r.value, sd, i);
      IsReady(r.value, d, p);
      PutTogether(k, k1, k2, r.value, d, f, p, sd, i);
    }
  }

  lemma PutTogether(k: Kernel, k1: Kernel, k2: Kernel, k3: Kernel, d: nat, f: nat, p: nat, sd: nat, i: nat)
    requires sd != d && UserPage(p) && UserPage(i) && d in k.mem.dirs && sd in k.mem.dirs && k.mem.free != []
    requires k1.heap == k.heap && SameBut(k.mem, k1.mem, 0, 0, 0) && k1.mem.dirs == k.mem.dirs
    requires UsedFramesKept(k.mem, k1.mem) && References(k.mem, f) == 0 && f < |k.mem.frames| && f !in k.mem.hand
    requires k1.mem.hand == k.mem.hand + {f} && References(k1.mem, f) == 0
    requires k1.mem.free == k.mem.free[1..]
    requires FrameMapped(k1, k2, d, f, p, {User, Writeable}) && FrameAdded(k2, k3, sd, i, f)
    ensures PageCreated(k, k3, d, p, sd, i, f)
  {
    hide Lookup, HasTable, Total;
    SameDirs(k.mem, k1.mem);
    forall g: nat | References(k.mem, g) > 0 ensures References(k3.mem, g) == References(k.mem, g) {
      assert k1.mem.frames[g] == k.mem.frames[g];
      assert References(k2.mem, g) == References(k1.mem, g) + Bit(g == f);
    }
    assert KeepsBoth(k.mem, k3.mem, d, p, sd, i, 1);
  }

  lemma {:induction false} CreatePagesKeeps(k: Kernel, d: nat, p: nat, n: nat, sd: nat, strategy: Strategy)
    requires UserRange(k, d, p, n) && RangeUnmapped(k.mem, d, p, n) && sd in k.mem.dirs && sd in k.mem.storages
    ensures var r, tables := CreatePages(k, d, p, n, sd, strategy),
                             |MissingTables(k.mem, d, p, n)| + |MissingTables(k.mem, sd, 0, n)|;
      && (r.Done? <==> RoomFor(k, n, tables, strategy))
      && (r.Done? ==> Valid(r.value.0) && |r.value.1| == n && PagesCreated(k, r.value.0, d, p, sd, r.value.1))
  {
    hide Valid, Lookup, CreatePage, HasTable, Total, PagesCreated, MissingTables, RangeUnmapped;
    if n == 0 {
      NothingCreated(k, d, p, sd);
    } else {
      FewerUnmapped(k.mem, d, p, n);
      CreatePagesKeeps(k, d, p, n - 1, sd, strategy);
      MissingStep(k.mem, d, p, n);
      MissingStep(k.mem, sd, 0, n);
      if CreatePages(k, d, p, n - 1, sd, strategy).Done? {
        var (k1, fs) := CreatePages(k, d, p, n - 1, sd, strategy).value;
        NextCreated(k, k1, d, p, sd, fs, strategy);
      }
    }
  }

  lemma NothingCreated(k: Kernel, d: nat, p: nat, sd: nat)
    ensures MissingTables(k.mem, d, p, 0) == {} && MissingTables(k.mem, sd, 0, 0) == {}
    ensures PagesCreated(k, k, d, p, sd, [])
  {
    hide Lookup, HasTable, Total, References;
    assert MissingTables(k.mem, d, p, 0) == {} && MissingTables(k.mem, sd, 0, 0) == {};
  }

  lemma NextCreated(k: Kernel, k1: Kernel, d: nat, p: nat, sd: nat, fs: seq<nat>, strategy: Strategy)
    requires UserRange(k, d, p, |fs| + 1) && RangeUnmapped(k.mem, d, p, |fs| + 1) && sd in k.mem.dirs
    requires sd in k.mem.storages
    requires Valid(k1) && PagesCreated(k, k1, d, p, sd, fs)
    requires RoomFor(k, |fs|, |MissingTables(k.mem, d, p, |fs|)| + |MissingTables(k.mem, sd, 0, |fs|)|, strategy)
    ensures var r, n := CreatePage(k1, d, p + |fs|, sd, |fs|, strategy), |fs| + 1;
      && (r.Done? <==> RoomFor(k, n, |MissingTables(k.mem, d, p, n)| + |MissingTables(k.mem, sd, 0, n)|, strategy))
      && (r.Done? ==> Valid(r.value.0) && PagesCreated(k, r.value.0, d, p, sd, fs + [r.value.1]))
  {
    hide Valid, Lookup, CreatePage, HasTable, PagesCreated, PageCreated, Ready, RoomFor, RangeUnmapped, MissingTables,
         Total, References;
    NextReady(k, k1, d, p, sd, fs);
    RoomForNext(k, k1, d, p, sd, fs, strategy);
    CreatePageKeeps(k1, d, p + |fs|, sd, |fs|, strategy);
    var r := CreatePage(k1, d, p + |fs|, sd, |fs|, strategy);
    if r.Done? {
      ReadyValid(r.value.0, d, p + |fs|);
      OneMoreCreated(k, k1, r.value.0, d, p, sd, fs, r.value.1);
    }
  }

  lemma NextReady(k: Kernel, k1: Kernel, d: nat, p: nat, sd: nat, fs: seq<nat>)
    requires UserRange(k, d, p, |fs| + 1) && RangeUnmapped(k.mem, d, p, |fs| + 1) && sd in k.mem.dirs
    requires sd in k.mem.storages
    requires Valid(k1) && PagesCreated(k, k1, d, p, sd, fs)
    ensures Ready(k1, d, p + |fs|) && d !in k1.mem.storages && Lookup(k1.mem, d, p + |fs|) == Unmapped
    ensures sd in k1.mem.dirs && sd in k1.mem.storages && UserPage(|fs|)
  {
    hide Valid, Lookup, CountsKept, FreshFrames, Shows, TablesTaken;
    IsReady(k1, d, p + |fs|);
  }

  lemma RoomForNext(k: Kernel, k1: Kernel, d: nat, p: nat, sd: nat, fs: seq<nat>, strategy: Strategy)
    requires PagesCreated(k, k1, d, p, sd, fs) && p + |fs| < USER_END
    requires RoomFor(k, |fs|, |MissingTables(k.mem, d, p, |fs|)| + |MissingTables(k.mem, sd, 0, |fs|)|, strategy)
    ensures var n := |fs|;
      RoomFor(k1, 1, Bit(!HasTable(k1.mem, d, (p + n) / ENTRIES)) + Bit(!HasTable(k1.mem, sd, n / ENTRIES)), strategy)
      <==> RoomFor(k, n + 1, |MissingTables(k.mem, d, p, n + 1)| + |MissingTables(k.mem, sd, 0, n + 1)|, strategy)
  {
    hide HasTable, Total, MissingTables, KeepsBoth, Shows, FreshFrames, CountsKept;
    var n := |fs|;
    MissingStep(k.mem, d, p, n + 1);
    MissingStep(k.mem, sd, 0, n + 1);
  }

  lemma OneMoreCreated(k: Kernel, k1: Kernel, k': Kernel, d: nat, p: nat, sd: nat, fs: seq<nat>, f: nat)
    requires PagesCreated(k, k1, d, p, sd, fs) && PageCreated(k1, k', d, p + |fs|, sd, |fs|, f)
    requires d in k.mem.dirs && sd in k.mem.dirs && p + |fs| < USER_END && sd != d
    ensures PagesCreated(k, k', d, p, sd, fs + [f])
  {
    hide Lookup, HasTable, Total, KeepsBoth, Shows, FreshFrames, CountsKept, References, TablesTaken, TwoTables;
    OneMoreSeen(k.mem, k1.mem, k'.mem, d, p, sd, fs, f);
    OneMoreFresh(k, k1, k', fs, f);
    OneMoreTables(k, k1, k', d, p, sd, |fs|);
  }

  lemma OneMoreTables(k: Kernel, k1: Kernel, k': Kernel, d: nat, p: nat, sd: nat, n: nat)
    requires TablesTaken(k, k1, d, p, sd, n) && TwoTables(k1, k', d, (p + n) / ENTRIES, sd, n / ENTRIES)
    requires p + n < USER_END
    ensures TablesTaken(k, k', d, p, sd, n + 1)
  {
    hide HasTable, Total, MissingTables;
    MissingStep(k.mem, d, p, n + 1);
    MissingStep(k.mem, sd, 0, n + 1);
  }

  lemma OneMoreSeen(m: Mem, m1: Mem, m': Mem, d: nat, p: nat, sd: nat, fs: seq<nat>, f: nat)
    requires d in m.dirs && sd in m.dirs && sd != d && p + |fs| < USER_END && KeepsBoth(m, m1, d, p, sd, 0, |fs|)
    requires Shows(m1, d, p, fs, {User, Writeable}) && Shows(m1, sd, 0, fs, {})
    requires KeepsBoth(m1, m', d, p + |fs|, sd, |fs|, 1)
    requires Lookup(m', d, p + |fs|) == Mapped(f, {User, Writeable}) && Lookup(m', sd, |fs|) == Mapped(f, {})
    ensures KeepsBoth(m, m', d, p, sd, 0, |fs| + 1)
    ensures Shows(m', d, p, fs + [f], {User, Writeable}) && Shows(m', sd, 0, fs + [f], {})
  {
    hide Lookup;
    ShowsOneMore(m1, m', d, p, fs, f, {User, Writeable});
    ShowsOneMore(m1, m', sd, 0, fs, f, {});
  }

  lemma ShowsOneMore(m: Mem, m': Mem, d: nat, p: nat, fs: seq<nat>, f: nat, perms: set<Flag>)
    requires Shows(m, d, p, fs, perms) && Lookup(m', d, p + |fs|) == Mapped(f, perms)
    requires forall q: nat :: p <= q < p + |fs| ==> Lookup(m', d, q) == Lookup(m, d, q)
    ensures Shows(m', d, p, fs + [f], perms)
  {
    hide Lookup;
    forall q: nat | p <= q < p + |fs + [f]| ensures Lookup(m', d, q) == Mapped((fs + [f])[q - p], perms) {
      if q < p + |fs| {
        assert Lookup(m', d, q) == Lookup(m, d, q);
      }
    }
  }

  lemma OneMoreFresh(k: Kernel, k1: Kernel, k': Kernel, fs: seq<nat>, f: nat)
    requires CountsKept(k.mem, k1.mem) && CountsKept(k1.mem, k'.mem) && FreshFrames(k.mem, k1.mem, fs)
    requires f < |k1.mem.frames| && References(k1.mem, f) == 0 && References(k'.mem, f) == 1
    ensures CountsKept(k.mem, k'.mem) && FreshFrames(k.mem, k'.mem, fs + [f])
  {
    hide References;
    forall g | g in fs + [f] ensures g < |k.mem.frames| && References(k.mem, g) == 0 && References(k'.mem, g) == 1 {
      if g in fs { assert References(k1.mem, g) == 1; }
    }
    assert f !in fs;
  }

  // ---------------------------------------------------------------- the loop of getSharedObject

  /** One turn: get_frame_from_storage reads entry `i`, and its frame is mapped at page `p`. */
  ghost function MapStored(k: Kernel, d: nat, p: nat, sd: nat, i: nat, perms: set<Flag>,
                           strategy: Strategy): Outcome<Kernel>
  {
    if !Ready(k, d, p) || Lookup(k.mem, sd, i).Unmapped? then Panic   // outside the domain of the operation
    else MapFrame(k, d, Lookup(k.mem, sd, i).frame, p, perms, strategy)
  }

  /** The loop after `n` pages. */
  ghost function MapFrames(k: Kernel, d: nat, p: nat, sd: nat, n: nat, perms: set<Flag>,
                           strategy: Strategy): Outcome<Kernel>
  {
    if n == 0 then Done(k)
    else match MapFrames(k, d, p, sd, n - 1, perms, strategy)
      case Panic => Panic
      case Done(k1) => MapStored(k1, d, p + n - 1, sd, n - 1, perms, strategy)
  }

  /** Nothing keeps an object's frames in use once those who mapped it have unmapped it.  A turn whose table exists
      keeps the invariant if and only if the filed frame is not on the free list and its counter has room. */
  lemma GetTurnIff(k: Kernel, d: nat, p: nat, sd: nat, i: nat, f: nat, perms: set<Flag>, strategy: Strategy)
    requires Ready(k, d, p) && d !in k.mem.storages && Lookup(k.mem, d, p) == Unmapped
    requires HasTable(k.mem, d, p / ENTRIES)
    requires Lookup(k.mem, sd, i) == Mapped(f, {}) && f < |k.mem.frames|
    ensures var r := MapStored(k, d, p, sd, i, perms, strategy);
      r.Done? && (Valid(r.value) <==> f !in k.mem.free && References(k.mem, f) < COUNTER - 1)
  {
    hide HeapOk, Linked, CountsOk, NoRepeats, GetPageTable, EnsureTable, EntrySlot, MapSlot;
    ReadyValid(k, d, p);
    EnsureTableFacts(k, d, p, strategy);
    var s := EntrySlot(k.mem, d, p).value;
    Writable(k.mem, s);
    SlotEmpty(k, d, p);
    CountsAt(k, d, p);
    MapCountsIff(k.mem, s, f, perms);
    if f !in k.mem.free && References(k.mem, f) < COUNTER - 1 {
      MapEmptyFacts(k.mem, s, f, perms);
      UserEntryWritten(k, k.(mem := MapSlot(k.mem, s, f, perms)), s, Mapped(f, perms));
    }
  }

  ghost predicate FramesMapped(k: Kernel, k': Kernel, d: nat, p: nat, fs: seq<nat>, perms: set<Flag>) {
    && SameBut(k.mem, k'.mem, d, p, |fs|) && Shows(k'.mem, d, p, fs, perms) && k'.mem.hand == k.mem.hand
    && |k'.mem.free| == |k.mem.free| - |MissingTables(k.mem, d, p, |fs|)|
    && Total(k'.heap.free) == Total(k.heap.free) - H.PAGE * |MissingTables(k.mem, d, p, |fs|)|
    && (forall x: nat :: x < TABLES ==> (HasTable(k'.mem, d, x) <==> HasTable(k.mem, d, x) || x in Covering(p, |fs|)))
    && (forall g: nat :: References(k.mem, g) > 0 ==> References(k'.mem, g) == References(k.mem, g) + Bit(g in fs))
  }

  ghost predicate CountersFree(m: Mem, fs: seq<nat>) {
    forall f :: f in fs ==> 0 < References(m, f) < COUNTER - 1
  }

  /** The storage holds the frames `fs`. */
  ghost predicate Holds(m: Mem, sd: nat, fs: seq<nat>) {
    sd in m.dirs && sd in m.storages && |fs| <= USER_END && Shows(m, sd, 0, fs, {})
  }

  lemma {:induction false} MapFramesKeeps(k: Kernel, d: nat, p: nat, sd: nat, fs: seq<nat>, n: nat, perms: set<Flag>,
                                          strategy: Strategy)
    requires n <= |fs| && UserRange(k, d, p, |fs|) && RangeUnmapped(k.mem, d, p, |fs|)
    requires NoRepeats(fs) && CountersFree(k.mem, fs) && Holds(k.mem, sd, fs)
    ensures var r := MapFrames(k, d, p, sd, n, perms, strategy);
      && (r.Done? <==> RoomFor(k, 0, |MissingTables(k.mem, d, p, n)|, strategy))
      && (r.Done? ==> Valid(r.value) && FramesMapped(k, r.value, d, p, fs[..n], perms))
  {
    hide Valid, Lookup, MapStored, References, CountersFree, HasTable, Total, FramesMapped, Holds;
    if n == 0 {
      NothingMapped(k, d, p, perms);
      assert fs[..0] == [];
    } else {
      MapFramesKeeps(k, d, p, sd, fs, n - 1, perms, strategy);
      MissingStep(k.mem, d, p, n);
      if MapFrames(k, d, p, sd, n - 1, perms, strategy).Done? {
        NextFrame(k, MapFrames(k, d, p, sd, n - 1, perms, strategy).value, d, p, sd, fs, n, perms, strategy);
      }
    }
  }

  lemma NothingMapped(k: Kernel, d: nat, p: nat, perms: set<Flag>)
    requires Valid(k)
    ensures MissingTables(k.mem, d, p, 0) == {} && FramesMapped(k, k, d, p, [], perms)
  {
    hide Valid, Lookup, HasTable, Total, References;
    SameAsBefore(k, d, p);
    assert SameBut(k.mem, k.mem, d, p, 0);
    assert MissingTables(k.mem, d, p, 0) == {};
  }

  lemma NextFrame(k: Kernel, k1: Kernel, d: nat, p: nat, sd: nat, fs: seq<nat>, n: nat, perms: set<Flag>,
                  strategy: Strategy)
    requires 0 < n <= |fs| && UserRange(k, d, p, |fs|) && RangeUnmapped(k.mem, d, p, |fs|)
    requires NoRepeats(fs) && CountersFree(k.mem, fs) && Holds(k.mem, sd, fs)
    requires Valid(k1) && FramesMapped(k, k1, d, p, fs[..n - 1], perms)
    requires RoomFor(k, 0, |MissingTables(k.mem, d, p, n - 1)|, strategy)
    ensures Ready(k1, d, p + n - 1) && d !in k1.mem.storages && Lookup(k1.mem, sd, n - 1) == Mapped(fs[n - 1], {})
    ensures Mappable(k1.mem, fs[n - 1]) && Lookup(k1.mem, d, p + n - 1) == Unmapped
    ensures var r := MapStored(k1, d, p + n - 1, sd, n - 1, perms, strategy);
      && (r.Done? <==> RoomFor(k, 0, |MissingTables(k.mem, d, p, n)|, strategy))
      && (r.Done? ==> Valid(r.value) && FramesMapped(k, r.value, d, p, fs[..n], perms))
  {
    hide Valid, Lookup, MapFrame, References, CountersFree, HasTable, Total, FrameMapped, Ready, Shows;
    var q, f := p + n - 1, fs[n - 1];
    IsReady(k1, d, q);
    assert Lookup(k1.mem, d, q) == Unmapped;
    EntryStays(k.mem, k1.mem, d, p, sd, fs, n - 1);
    CounterOf(k.mem, fs, n - 1);
    assert f !in fs[..n - 1];
    assert References(k1.mem, f) == References(k.mem, f);
    MissingStep(k.mem, d, p, n);
    HeapRoom(k1);
    MapFrameKeeps(k1, d, f, q, perms, strategy);
    var r := MapFrame(k1, d, f, q, perms, strategy);
    if r.Done? {
      ReadyValid(r.value, d, q);
      OneMoreFrame(k, k1, r.value, d, p, fs, n, perms);
    }
  }

  /** Mapping into an environment leaves the storage alone. */
  lemma EntryStays(m: Mem, m1: Mem, d: nat, p: nat, sd: nat, fs: seq<nat>, n: nat)
    requires Holds(m, sd, fs) && n < |fs| && d !in m.storages && SameBut(m, m1, d, p, n)
    ensures Lookup(m1, sd, n) == Mapped(fs[n], {})
  {
    hide Lookup;
    assert Lookup(m, sd, n) == Mapped(fs[n - 0], {});
    assert UserPage(n);
  }

  lemma CounterOf(m: Mem, fs: seq<nat>, i: nat)
    requires i < |fs| && CountersFree(m, fs)
    ensures 0 < References(m, fs[i]) < COUNTER - 1
  {
  }

  lemma OneMoreShown(k: Kernel, k1: Kernel, k': Kernel, d: nat, p: nat, fs: seq<nat>, n: nat, perms: set<Flag>)
    requires 0 < n <= |fs| && d in k.mem.dirs && p + n <= USER_END
    requires FramesMapped(k, k1, d, p, fs[..n - 1], perms) && FrameMapped(k1, k', d, fs[n - 1], p + n - 1, perms)
    ensures Shows(k'.mem, d, p, fs[..n], perms)
  {
    hide Lookup, HasTable, Total, References;
    forall q: nat | p <= q < p + n ensures Lookup(k'.mem, d, q) == Mapped(fs[..n][q - p], perms) {
      if q < p + n - 1 {
        assert Lookup(k1.mem, d, q) == Mapped(fs[..n - 1][q - p], perms);
        assert Lookup(k'.mem, d, q) == Lookup(k1.mem, d, q);
      }
    }
  }

  lemma OneMoreFrame(k: Kernel, k1: Kernel, k': Kernel, d: nat, p: nat, fs: seq<nat>, n: nat, perms: set<Flag>)
    requires 0 < n <= |fs| && NoRepeats(fs) && d in k.mem.dirs && p + n <= USER_END
    requires FramesMapped(k, k1, d, p, fs[..n - 1], perms) && FrameMapped(k1, k', d, fs[n - 1], p + n - 1, perms)
    requires References(k1.mem, fs[n - 1]) > 0
    ensures FramesMapped(k, k', d, p, fs[..n], perms)
  {
    hide Lookup, HasTable, Total, References, Shows;
    OneMoreShown(k, k1, k', d, p, fs, n, perms);
    MissingStep(k.mem, d, p, n);
    assert fs[..n] == fs[..n - 1] + [fs[n - 1]];
    assert fs[n - 1] !in fs[..n - 1];
    forall g: nat | References(k.mem, g) > 0
      ensures References(k'.mem, g) == References(k.mem, g) + Bit(g in fs[..n]) {
      assert References(k1.mem, g) == References(k.mem, g) + Bit(g in fs[..n - 1]);
    }
  }

  // ---------------------------------------------------------------- the two calls

  /** createSharedObject by an environment whose directory is `d`, at page `p`, with its return value */
  ghost function CreateSharedObject(sys: System, d: nat, owner: int, name: string, size: nat, isWritable: nat, p: nat,
                                    sd: nat, strategy: Strategy): Outcome<(System, int)>
    requires HeapOk(sys.kernel.heap)
  {
    var i := EmptyFrom(sys.shares, 0);
    if FindFrom(sys.shares, owner, name, 0) < |sys.shares| then Done((sys, E_SHARED_MEM_EXISTS))
    else if i == |sys.shares| then Done((sys, E_NO_SHARE))
    else match Filled(sys, i, d, owner, name, size, isWritable, p, sd, strategy)
      case Panic => Panic
      case Done(sys') => Done((sys', i))
  }

  /** The storage and the frames of a new object of `n` pages. */
  ghost function Backed(k: Kernel, d: nat, p: nat, n: nat, sd: nat, strategy: Strategy): Outcome<(Kernel, seq<nat>)>
    requires HeapOk(k.heap)
  {
    match CreateStorage(k, sd, strategy)
    case Panic => Panic
    case Done(k1) => CreatePages(k1, d, p, n, sd, strategy)
  }

  /** Slot `i` filled with a new object. */
  ghost function Filled(sys: System, i: nat, d: nat, owner: int, name: string, size: nat, isWritable: nat, p: nat,
                        sd: nat, strategy: Strategy): Outcome<System>
    requires HeapOk(sys.kernel.heap) && i < |sys.shares|
  {
    match Backed(sys.kernel, d, p, Pages(size), sd, strategy)
    case Panic => Panic
    case Done((k2, fs)) =>
      var share := Share(false, owner, name, size, isWritable, 1, sd, fs, [Mapping(d, p, {User, Writeable})]);
      Done(System(k2, sys.shares[i := share]))
  }

  /** The permissions a getter gets. */
  function GetterPerms(isWritable: nat): set<Flag> {
    if isWritable == 1 then {User, Writeable} else {User}
  }

  /** getSharedObject, with its return value */
  ghost function GetSharedObject(sys: System, d: nat, owner: int, name: string, p: nat,
                                 strategy: Strategy): Outcome<(System, int)>
  {
    var i := FindFrom(sys.shares, owner, name, 0);
    if i == |sys.shares| then Done((sys, E_SHARED_MEM_NOT_EXISTS))
    else
      var share := sys.shares[i];
      match MapFrames(sys.kernel, d, p, share.storage, Pages(share.size), GetterPerms(share.isWritable), strategy)
      case Panic => Panic
      case Done(k1) =>
        var maps := share.maps + [Mapping(d, p, GetterPerms(share.isWritable))];
        Done((System(k1, sys.shares[i := share.(references := share.references + 1, maps := maps)]), i))
  }

  // ---------------------------------------------------------------- the invariant

  /** Every environment that mapped the object sees its frames, page for page. */
  ghost predicate SeenBy(m: Mem, s: Share, a: Mapping) {
    a.dir in m.dirs && a.page + |s.frames| <= USER_END && Shows(m, a.dir, a.page, s.frames, a.perms)
  }

  /** Entry `i` of the storage is the i-th frame filed, and no frame was filed twice. */
  ghost predicate Filed(m: Mem, s: Share) {
    |s.frames| == Pages(s.size) && NoRepeats(s.frames) && Holds(m, s.storage, s.frames)
  }

  ghost predicate ShareOk(m: Mem, s: Share) {
    && Filed(m, s) && s.references == |s.maps| > 0
    && (forall f :: f in s.frames ==> References(m, f) == s.references)
    && (forall j :: 0 <= j < |s.maps| ==> SeenBy(m, s, s.maps[j]))
    && s.maps[0].perms == {User, Writeable}
    && (forall j :: 1 <= j < |s.maps| ==> s.maps[j].perms == GetterPerms(s.isWritable))
  }

  ghost predicate Apart(a: seq<nat>, b: seq<nat>) {
    forall f :: f in a ==> f !in b
  }

  ghost predicate SharesOk(m: Mem, shares: seq<Share>) {
    && (forall i :: 0 <= i < |shares| && !shares[i].empty ==> ShareOk(m, shares[i]))
    && (forall i, j :: 0 <= i < j < |shares| && !shares[i].empty && !shares[j].empty ==>
          Apart(shares[i].frames, shares[j].frames)
          && !(shares[i].owner == shares[j].owner && shares[i].name == shares[j].name))
  }

  ghost predicate Inv(sys: System) {
    Valid(sys.kernel) && SharesOk(sys.kernel.mem, sys.shares)
  }

  lemma ShareUntouched(m: Mem, m': Mem, s: Share, d: nat, p: nat, n: nat)
    requires ShareOk(m, s) && Keeps(m, m', d, p, n) && RangeUnmapped(m, d, p, n)
    requires d !in m.storages || n == 0
    requires forall f :: f in s.frames ==> References(m', f) == References(m, f)
    ensures ShareOk(m', s)
  {
    hide Lookup, References;
    FiledStill(m, m', s, d, p, n);
    forall j | 0 <= j < |s.maps| ensures SeenBy(m', s, s.maps[j]) {
      SeenStill(m, m', s, s.maps[j], d, p, n);
    }
  }

  lemma FiledStill(m: Mem, m': Mem, s: Share, d: nat, p: nat, n: nat)
    requires Filed(m, s) && Keeps(m, m', d, p, n) && (d !in m.storages || n == 0)
    ensures Filed(m', s)
  {
    hide Lookup;
    forall q: nat | 0 <= q < 0 + |s.frames| ensures Lookup(m', s.storage, q) == Mapped(s.frames[q - 0], {}) {
      assert Lookup(m, s.storage, q) == Mapped(s.frames[q - 0], {});
      assert UserPage(q);
    }
  }

  /** A range that was empty holds no page of the object. */
  lemma SeenStill(m: Mem, m': Mem, s: Share, a: Mapping, d: nat, p: nat, n: nat)
    requires SeenBy(m, s, a) && Keeps(m, m', d, p, n) && RangeUnmapped(m, d, p, n)
    ensures SeenBy(m', s, a)
  {
    hide Lookup;
    forall q: nat | a.page <= q < a.page + |s.frames|
      ensures Lookup(m', a.dir, q) == Mapped(s.frames[q - a.page], a.perms)
    {
      assert Lookup(m, a.dir, q) == Mapped(s.frames[q - a.page], a.perms);
      assert UserPage(q);
    }
  }

  /** The caller names a directory of its own and a range it has not mapped. */
  ghost predicate Target(sys: System, d: nat, p: nat, n: nat) {
    && d in sys.kernel.mem.dirs && d !in sys.kernel.mem.storages && p + n <= USER_END
    && RangeUnmapped(sys.kernel.mem, d, p, n)
  }

  ghost predicate Taken(shares: seq<Share>, owner: int, name: string) {
    exists i :: 0 <= i < |shares| && Named(shares[i], owner, name)
  }

  ghost predicate Full(shares: seq<Share>) {
    forall i :: 0 <= i < |shares| ==> !shares[i].empty
  }

  /** Frames for the pages, the storage and its tables and the missing user tables; heap pages for all but the pages. */
  ghost predicate RoomForObject(k: Kernel, d: nat, p: nat, n: nat, strategy: Strategy) {
    RoomFor(k, n, 1 + |MissingTables(k.mem, d, p, n)| + |Covering(0, n)|, strategy)
  }

  /** The first empty slot `i` holds the new object, its range shows frames nobody used, its storage holds them in
      order, and nothing else changed. */
  ghost predicate Created(sys: System, sys': System, i: nat, d: nat, owner: int, name: string, size: nat,
                          isWritable: nat, p: nat, sd: nat)
  {
    && i < |sys.shares| == |sys'.shares| && sys.shares[i].empty && Full(sys.shares[..i])
    && var fs := sys'.shares[i].frames;
    && sys'.shares == sys.shares[i :=
         Share(false, owner, name, size, isWritable, 1, sd, fs, [Mapping(d, p, {User, Writeable})])]
    && |fs| == Pages(size) && Shows(sys'.kernel.mem, d, p, fs, {User, Writeable}) && Holds(sys'.kernel.mem, sd, fs)
    && FreshFrames(sys.kernel.mem, sys'.kernel.mem, fs) && CountsKept(sys.kernel.mem, sys'.kernel.mem)
    && Keeps(sys.kernel.mem, sys'.kernel.mem, d, p, |fs|)
  }

  /** createSharedObject: refuses a name that is taken or a full array without changing anything; otherwise it panics
      exactly when frames or heap pages run out, and else the new object's range shows fresh frames, each referenced
      once, and every other object is as before. */
  lemma CreateKeeps(sys: System, d: nat, owner: int, name: string, size: nat, isWritable: nat, p: nat, sd: nat,
                    strategy: Strategy)
    requires Inv(sys) && Target(sys, d, p, Pages(size)) && sd !in sys.kernel.mem.dirs
    ensures HeapOk(sys.kernel.heap)
    ensures var r := CreateSharedObject(sys, d, owner, name, size, isWritable, p, sd, strategy);
      if Taken(sys.shares, owner, name) then r == Done((sys, E_SHARED_MEM_EXISTS))
      else if Full(sys.shares) then r == Done((sys, E_NO_SHARE))
      else
        && (r.Done? <==> RoomForObject(sys.kernel, d, p, Pages(size), strategy))
        && (r.Done? ==> r.value.1 >= 0 && Inv(r.value.0)
                        && Created(sys, r.value.0, r.value.1, d, owner, name, size, isWritable, p, sd))
  {
    hide Valid, ShareOk, Filled, Created, RoomForObject;
    ValidHeap(sys.kernel);
    var i := EmptyFrom(sys.shares, 0);
    if !Taken(sys.shares, owner, name) && i < |sys.shares| {
      FilledKeeps(sys, i, d, owner, name, size, isWritable, p, sd, strategy);
    }
  }

  lemma FilledKeeps(sys: System, i: nat, d: nat, owner: int, name: string, size: nat, isWritable: nat, p: nat,
                    sd: nat, strategy: Strategy)
    requires Inv(sys) && Target(sys, d, p, Pages(size)) && sd !in sys.kernel.mem.dirs
    requires i < |sys.shares| && sys.shares[i].empty && Full(sys.shares[..i]) && !Taken(sys.shares, owner, name)
    ensures HeapOk(sys.kernel.heap)
    ensures var r := Filled(sys, i, d, owner, name, size, isWritable, p, sd, strategy);
      && (r.Done? <==> RoomForObject(sys.kernel, d, p, Pages(size), strategy))
      && (r.Done? ==> Inv(r.value) && Created(sys, r.value, i, d, owner, name, size, isWritable, p, sd))
  {
    hide Valid, ShareOk, Backed, Lookup, HasTable, Total, CountsKept, Keeps, FreshFrames, Shows, Holds, RoomForObject,
         RangeUnmapped;
    var k, n := sys.kernel, Pages(size);
    ObjectBacked(k, d, p, n, sd, strategy);
    if Backed(k, d, p, n, sd, strategy).Done? {
      var (k2, fs) := Backed(k, d, p, n, sd, strategy).value;
      NewShareOk(k.mem, k2.mem, d, owner, name, size, isWritable, p, sd, fs);
      forall j | 0 <= j < |sys.shares| && !sys.shares[j].empty
        ensures ShareOk(k2.mem, sys.shares[j]) && Apart(sys.shares[j].frames, fs) && Apart(fs, sys.shares[j].frames) {
        OldShareOk(k.mem, k2.mem, sys.shares[j], d, p, fs);
      }
    }
  }

  /** What the frames of a new object are, whatever else the system holds. */
  ghost predicate NewObject(m: Mem, m2: Mem, d: nat, p: nat, sd: nat, fs: seq<nat>) {
    && Keeps(m, m2, d, p, |fs|) && CountsKept(m, m2) && FreshFrames(m, m2, fs)
    && Shows(m2, d, p, fs, {User, Writeable}) && Holds(m2, sd, fs)
  }

  lemma ObjectBacked(k: Kernel, d: nat, p: nat, n: nat, sd: nat, strategy: Strategy)
    requires UserRange(k, d, p, n) && RangeUnmapped(k.mem, d, p, n) && sd !in k.mem.dirs
    ensures HeapOk(k.heap)
    ensures var r := Backed(k, d, p, n, sd, strategy);
      && (r.Done? <==> RoomForObject(k, d, p, n, strategy))
      && (r.Done? ==> Valid(r.value.0) && |r.value.1| == n && NewObject(k.mem, r.value.0.mem, d, p, sd, r.value.1))
  {
    hide Valid, CreateStorage, CreatePages, Lookup, HasTable, Total, PagesCreated, CountsKept, Keeps, FreshFrames,
         Shows;
    ValidHeap(k);
    CreateStorageKeeps(k, sd, strategy);
    HeapRoom(k);
    if CreateStorage(k, sd, strategy).Done? {
      var k1 := CreateStorage(k, sd, strategy).value;
      StorageTables(k, k1, sd, d, p, n);
      CreatePagesKeeps(k1, d, p, n, sd, strategy);
      if CreatePages(k1, d, p, n, sd, strategy).Done? {
        var (k2, fs) := CreatePages(k1, d, p, n, sd, strategy).value;
        CreatedInTwo(k, k1, k2, d, p, sd, fs);
      }
    }
  }

  /** A new storage has no tables, and everybody else the tables they had. */
  lemma StorageTables(k: Kernel, k1: Kernel, sd: nat, d: nat, p: nat, n: nat)
    requires DirectoryAdded(k, k1, sd) && k1.mem.storages == k.mem.storages + {sd} && Keeps(k.mem, k1.mem, 0, 0, 0)
    requires sd !in k.mem.dirs && d in k.mem.dirs && d !in k.mem.storages
    requires RangeUnmapped(k.mem, d, p, n) && p + n <= USER_END
    ensures d in k1.mem.dirs && d !in k1.mem.storages && sd in k1.mem.dirs && sd in k1.mem.storages
        && RangeUnmapped(k1.mem, d, p, n)
    ensures MissingTables(k1.mem, d, p, n) == MissingTables(k.mem, d, p, n)
    ensures MissingTables(k1.mem, sd, 0, n) == Covering(0, n)
  {
    hide Lookup;
  }

  lemma CreatedInTwo(k: Kernel, k1: Kernel, k2: Kernel, d: nat, p: nat, sd: nat, fs: seq<nat>)
    requires DirectoryAdded(k, k1, sd) && Keeps(k.mem, k1.mem, 0, 0, 0) && PagesCreated(k1, k2, d, p, sd, fs)
    requires sd !in k.mem.dirs && sd in k1.mem.storages && p + |fs| <= USER_END
    ensures NewObject(k.mem, k2.mem, d, p, sd, fs)
  {
    hide Lookup, HasTable, Total;
    forall f | f in fs ensures References(k.mem, f) == 0 { }
  }

  lemma NewShareOk(m: Mem, m2: Mem, d: nat, owner: int, name: string, size: nat, isWritable: nat, p: nat, sd: nat,
                   fs: seq<nat>)
    requires NewObject(m, m2, d, p, sd, fs) && |fs| == Pages(size) && d in m.dirs && p + |fs| <= USER_END
    ensures ShareOk(m2, Share(false, owner, name, size, isWritable, 1, sd, fs, [Mapping(d, p, {User, Writeable})]))
  {
    hide Lookup, HasTable, Total;
  }

  lemma OldShareOk(m: Mem, m2: Mem, s: Share, d: nat, p: nat, fs: seq<nat>)
    requires ShareOk(m, s) && Keeps(m, m2, d, p, |fs|) && RangeUnmapped(m, d, p, |fs|)
    requires CountsKept(m, m2) && FreshFrames(m, m2, fs) && d !in m.storages
    ensures ShareOk(m2, s) && Apart(s.frames, fs) && Apart(fs, s.frames)
  {
    hide Lookup;
    forall f | f in s.frames ensures References(m2, f) == References(m, f) > 0 { }
    ShareUntouched(m, m2, s, d, p, |fs|);
  }

  /** The range shows the object's frames, each with one reference more, the getter is on record, and no other
      object and no other page changed. */
  ghost predicate Got(sys: System, sys': System, i: nat, d: nat, p: nat) {
    && i < |sys.shares|
    && var s := sys.shares[i];
    var perms := GetterPerms(s.isWritable);
    && sys'.shares == sys.shares[i := s.(references := s.references + 1, maps := s.maps + [Mapping(d, p, perms)])]
    && Shows(sys'.kernel.mem, d, p, s.frames, perms) && SameBut(sys.kernel.mem, sys'.kernel.mem, d, p, |s.frames|)
    && (forall g: nat :: References(sys.kernel.mem, g) > 0 ==>
          References(sys'.kernel.mem, g) == References(sys.kernel.mem, g) + Bit(g in s.frames))
  }

  /** getSharedObject: refuses a name nobody created; otherwise it panics exactly when there is no room for missing
      page tables, and else the caller's range shows the object's very frames, writable iff the object was created
      with isWritable 1, and each of its frames gains one reference. */
  lemma GetKeeps(sys: System, d: nat, owner: int, name: string, p: nat, strategy: Strategy)
    requires Inv(sys)
    requires forall i :: 0 <= i < |sys.shares| && Named(sys.shares[i], owner, name) ==>
               Target(sys, d, p, |sys.shares[i].frames|) && sys.shares[i].references < COUNTER - 1
    ensures var r := GetSharedObject(sys, d, owner, name, p, strategy);
      if !Taken(sys.shares, owner, name) then r == Done((sys, E_SHARED_MEM_NOT_EXISTS))
      else
        exists i: nat :: i < |sys.shares| && Named(sys.shares[i], owner, name)
          && (r.Done? <==> RoomForTables(sys.kernel, d, p, |sys.shares[i].frames|, strategy))
          && (r.Done? ==> r.value.1 == i && Inv(r.value.0) && Got(sys, r.value.0, i, d, p))
  {
    hide Inv, GetSharedObject, RoomForTables, Got;
    var i := FindFrom(sys.shares, owner, name, 0);
    if i < |sys.shares| {
      ObjectGot(sys, i, d, owner, name, p, strategy);
    } else {
      NotGot(sys, d, owner, name, p, strategy);
    }
  }

  lemma NotGot(sys: System, d: nat, owner: int, name: string, p: nat, strategy: Strategy)
    requires FindFrom(sys.shares, owner, name, 0) == |sys.shares|
    ensures GetSharedObject(sys, d, owner, name, p, strategy) == Done((sys, E_SHARED_MEM_NOT_EXISTS))
  {
  }

  lemma ObjectGot(sys: System, i: nat, d: nat, owner: int, name: string, p: nat, strategy: Strategy)
    requires Inv(sys) && i == FindFrom(sys.shares, owner, name, 0) < |sys.shares|
    requires Target(sys, d, p, |sys.shares[i].frames|) && sys.shares[i].references < COUNTER - 1
    ensures var r := GetSharedObject(sys, d, owner, name, p, strategy);
      && (r.Done? <==> RoomForTables(sys.kernel, d, p, |sys.shares[i].frames|, strategy))
      && (r.Done? ==> r.value.1 == i && Inv(r.value.0) && Got(sys, r.value.0, i, d, p))
  {
    hide Valid, Lookup, MapFrames, Shows, HasTable, Total, References, SameBut, ShareOk, Apart;
    var k, s := sys.kernel, sys.shares[i];
    var perms := GetterPerms(s.isWritable);
    CountersHaveRoomFor(k.mem, s);
    MapFramesKeeps(k, d, p, s.storage, s.frames, |s.frames|, perms, strategy);
    assert s.frames[..|s.frames|] == s.frames;
    if MapFrames(k, d, p, s.storage, |s.frames|, perms, strategy).Done? {
      var k1 := MapFrames(k, d, p, s.storage, |s.frames|, perms, strategy).value;
      GotShareOk(k, k1, s, d, p, perms);
      forall j | 0 <= j < |sys.shares| && j != i && !sys.shares[j].empty ensures ShareOk(k1.mem, sys.shares[j]) {
        OtherShareOk(k, k1, sys.shares[j], s.frames, d, p, perms);
      }
    }
  }

  lemma CountersHaveRoomFor(m: Mem, s: Share)
    requires ShareOk(m, s) && s.references < COUNTER - 1
    ensures Filed(m, s) && CountersFree(m, s.frames)
  {
    hide Lookup;
  }

  lemma GotShareOk(k: Kernel, k1: Kernel, s: Share, d: nat, p: nat, perms: set<Flag>)
    requires ShareOk(k.mem, s) && FramesMapped(k, k1, d, p, s.frames, perms) && perms == GetterPerms(s.isWritable)
    requires RangeUnmapped(k.mem, d, p, |s.frames|) && d in k.mem.dirs && d !in k.mem.storages
    requires p + |s.frames| <= USER_END
    ensures ShareOk(k1.mem, s.(references := s.references + 1, maps := s.maps + [Mapping(d, p, perms)]))
  {
    hide Lookup, References, Shows;
    var s' := s.(references := s.references + 1, maps := s.maps + [Mapping(d, p, perms)]);
    FiledStill(k.mem, k1.mem, s, d, p, |s.frames|);
    forall j | 0 <= j < |s'.maps| ensures SeenBy(k1.mem, s', s'.maps[j]) {
      if j < |s.maps| {
        SeenStill(k.mem, k1.mem, s, s.maps[j], d, p, |s.frames|);
      }
    }
  }

  lemma OtherShareOk(k: Kernel, k1: Kernel, s: Share, fs: seq<nat>, d: nat, p: nat, perms: set<Flag>)
    requires Apart(s.frames, fs) || Apart(fs, s.frames)
    requires ShareOk(k.mem, s) && FramesMapped(k, k1, d, p, fs, perms) && RangeUnmapped(k.mem, d, p, |fs|)
    requires d !in k.mem.storages
    ensures ShareOk(k1.mem, s)
  {
    hide Lookup, Shows;
    forall f | f in s.frames ensures References(k1.mem, f) == References(k.mem, f) { assert f !in fs; }
    hide References;
    ShareUntouched(k.mem, k1.mem, s, d, p, |fs|);
  }

  // ---------------------------------------------------------------- every run

  /** All who mapped a live object see the same frame at the same page, as many as its frames have references;
      and no two live objects carry one name of one owner. */
  lemma ObjectsAlias(sys: System, i: nat, a: nat, b: nat, c: nat)
    requires Inv(sys) && i < |sys.shares| && !sys.shares[i].empty
    requires a < |sys.shares[i].maps| && b < |sys.shares[i].maps| && c < Pages(sys.shares[i].size)
    ensures var s, m := sys.shares[i], sys.kernel.mem;
      var x, y := Lookup(m, s.maps[a].dir, s.maps[a].page + c), Lookup(m, s.maps[b].dir, s.maps[b].page + c);
      && x.Mapped? && y.Mapped? && x.frame == y.frame && References(m, x.frame) == |s.maps| == s.references
      && (Writeable in x.perms <==> a == 0 || s.isWritable == 1)
    ensures forall j :: 0 <= j < |sys.shares| && j != i ==>
      !Named(sys.shares[j], sys.shares[i].owner, sys.shares[i].name)
  {
    hide Valid, Lookup, References;
    var s, m := sys.shares[i], sys.kernel.mem;
    assert ShareOk(m, s) && SeenBy(m, s, s.maps[a]) && SeenBy(m, s, s.maps[b]);
    assert Lookup(m, s.maps[a].dir, s.maps[a].page + c) == Mapped(s.frames[c], s.maps[a].perms);
    assert Lookup(m, s.maps[b].dir, s.maps[b].page + c) == Mapped(s.frames[c], s.maps[b].perms);
    assert s.frames[c] in s.frames;
    forall j | 0 <= j < |sys.shares| && j != i ensures !Named(sys.shares[j], s.owner, s.name) {
      if j < i { assert Apart(sys.shares[j].frames, s.frames) || sys.shares[j].empty; }
    }
  }

  datatype Op =
    | Create(d: nat, owner: int, name: string, size: nat, isWritable: nat, p: nat, sd: nat)
    | Get(d: nat, owner: int, name: string, p: nat)
    | Directory(d: nat)                                         // a page directory for a new environment
    | Allocate(d: nat, p: nat, n: nat, perms: set<Flag>)        // allocate_chunk by anybody

  ghost predicate Allowed(sys: System, op: Op) {
    match op
    case Create(d, _, _, size, _, p, sd) => Target(sys, d, p, Pages(size)) && sd !in sys.kernel.mem.dirs
        && HeapOk(sys.kernel.heap)
    case Get(d, owner, name, p) =>
      forall i :: 0 <= i < |sys.shares| && Named(sys.shares[i], owner, name) ==>
        Target(sys, d, p, |sys.shares[i].frames|) && sys.shares[i].references < COUNTER - 1
    case Directory(d) => d !in sys.kernel.mem.dirs && HeapOk(sys.kernel.heap)
    case Allocate(d, p, n, _) => d in sys.kernel.mem.dirs && d !in sys.kernel.mem.storages && p + n <= USER_END
  }

  ghost function Step(sys: System, op: Op, strategy: Strategy): Outcome<(System, int)>
    requires Allowed(sys, op)
  {
    match op
    case Create(d, owner, name, size, isWritable, p, sd) =>
      CreateSharedObject(sys, d, owner, name, size, isWritable, p, sd, strategy)
    case Get(d, owner, name, p) => GetSharedObject(sys, d, owner, name, p, strategy)
    case Directory(d) =>
      (match CreateDirectory(sys.kernel, d, strategy)
       case Panic => Panic
       case Done(k) => Done((System(k, sys.shares), 0)))
    case Allocate(d, p, n, perms) =>
      match AllocateChunk(sys.kernel, d, p, n, perms, strategy)
      case Panic => Panic
      case Done((k, answer)) => Done((System(k, sys.shares), answer))
  }

  /** What leaves frames in use and mapped pages alone leaves the objects alone. */
  lemma OthersKeepShares(sys: System, k: Kernel, d: nat, p: nat, n: nat)
    requires Inv(sys) && Valid(k) && Keeps(sys.kernel.mem, k.mem, d, p, n) && CountsKept(sys.kernel.mem, k.mem)
    requires RangeUnmapped(sys.kernel.mem, d, p, n) && (d !in sys.kernel.mem.storages || n == 0)
    ensures Inv(System(k, sys.shares))
  {
    hide Valid, Lookup, References, ShareOk;
    forall j | 0 <= j < |sys.shares| && !sys.shares[j].empty ensures ShareOk(k.mem, sys.shares[j]) {
      var s := sys.shares[j];
      forall f | f in s.frames ensures References(k.mem, f) == References(sys.kernel.mem, f) {
        UsedByShare(sys.kernel.mem, s, f);
      }
      ShareUntouched(sys.kernel.mem, k.mem, s, d, p, n);
    }
  }

  lemma UsedByShare(m: Mem, s: Share, f: nat)
    requires ShareOk(m, s) && f in s.frames
    ensures References(m, f) > 0
  {
    hide Lookup;
  }

  lemma UsedFramesCounts(m: Mem, m': Mem)
    requires UsedFramesKept(m, m')
    ensures CountsKept(m, m')
  {
  }

  lemma NothingUnmapped(m: Mem)
    ensures RangeUnmapped(m, 0, 0, 0)
  {
  }

  lemma AllocatedKeeps(k: Kernel, k': Kernel, d: nat, p: nat, n: nat, perms: set<Flag>)
    requires ChunkAllocated(k, k', d, p, n, perms)
    ensures Keeps(k.mem, k'.mem, d, p, n) && CountsKept(k.mem, k'.mem)
  {
    hide Lookup, HasTable, Total, Fresh;
  }

  lemma OtherStepKeeps(sys: System, op: Op, strategy: Strategy)
    requires Inv(sys) && Allowed(sys, op) && (op.Directory? || op.Allocate?) && Step(sys, op, strategy).Done?
    ensures Inv(Step(sys, op, strategy).value.0)
  {
    hide Valid, Lookup, SharesOk, CreateDirectory, HasTable, Total, AllocPages, ChunkAllocated, Keeps, CountsKept,
         Enough, RangeUnmapped;
    var k := sys.kernel;
    match op
    case Directory(d) =>
      CreateDirectoryKeeps(k, d, strategy);
      NothingUnmapped(k.mem);
      UsedFramesCounts(k.mem, CreateDirectory(k, d, strategy).value.mem);
      OthersKeepShares(sys, CreateDirectory(k, d, strategy).value, 0, 0, 0);
    case Allocate(d, p, n, perms) =>
      if RangeUnmapped(k.mem, d, p, n) {
        AllocPagesKeeps(k, d, p, n, perms, strategy);
        AllocatedKeeps(k, AllocPages(k, d, p, n, perms, strategy).value, d, p, n, perms);
        OthersKeepShares(sys, AllocPages(k, d, p, n, perms, strategy).value, d, p, n);
      }
  }

  /** A call, with the placement strategy in force and what the unassigned locals of alloc_block_BF then held. */
  datatype Call = Call(op: Op, strategy: Strategy)

  /** `sys` is reached from `start` by the calls of `calls`, each of them allowed and none of them panicking. */
  ghost predicate Reaches(start: System, calls: seq<Call>, sys: System)
    decreases |calls|
  {
    if calls == [] then sys == start
    else
      var last := calls[|calls| - 1];
      exists mid: System :: Reaches(start, calls[..|calls| - 1], mid) && StepsTo(mid, last, sys)
  }

  ghost predicate StepsTo(mid: System, call: Call, sys: System) {
    Allowed(mid, call.op) && Step(mid, call.op, call.strategy).Done? && Step(mid, call.op, call.strategy).value.0 == sys
  }

  /** So aliasing, exact counts and unique names hold after every run that starts with no object, whatever
      environments are set up and whatever memory anybody allocates in between. */
  lemma {:induction false} EveryRunAliases(start: System, calls: seq<Call>, sys: System)
    requires Valid(start.kernel) && (forall i :: 0 <= i < |start.shares| ==> start.shares[i].empty)
    requires Reaches(start, calls, sys)
    ensures Inv(sys)
    decreases |calls|
  {
    hide Valid, ShareOk, CreateSharedObject, GetSharedObject;
    if calls != [] {
      var op, strategy := calls[|calls| - 1].op, calls[|calls| - 1].strategy;
      var mid :| Reaches(start, calls[..|calls| - 1], mid) && StepsTo(mid, calls[|calls| - 1], sys);
      EveryRunAliases(start, calls[..|calls| - 1], mid);
      match op
      case Create(d, owner, name, size, isWritable, p, sd) =>
        CreateKeeps(mid, d, owner, name, size, isWritable, p, sd, strategy);
      case Get(d, owner, name, p) => GetKeeps(mid, d, owner, name, p, strategy);
      case Directory(_) => OtherStepKeeps(mid, op, strategy);
      case Allocate(_, _, _, _) => OtherStepKeeps(mid, op, strategy);
    }
  }

  // ---------------------------------------------------------------- sizes in bytes

  /** Page `q` holds a byte of the `size` bytes from page `p` on. */
  predicate HasByte(p: nat, size: nat, q: nat) {
    p * H.PAGE <= q * H.PAGE < p * H.PAGE + size
  }

  /** `n` pages hold `size` bytes with less than a page to spare. */
  predicate HoldsBytes(n: nat, size: nat) {
    size <= n * H.PAGE < size + H.PAGE
  }

  lemma PagesHold(size: nat, n: nat)
    ensures HoldsBytes(n, size) <==> n == Pages(size)
  {
  }

  lemma BytesAreRange(p: nat, size: nat, n: nat)
    requires HoldsBytes(n, size)
    ensures forall q: nat :: HasByte(p, size, q) <==> p <= q < p + n
  {
  }

  /** Every page with a byte of the object shows the frame that the storage files at its index. */
  ghost predicate ShowsBytes(m: Mem, d: nat, p: nat, s: Share, perms: set<Flag>) {
    forall q: nat :: HasByte(p, s.size, q) ==>
      && q - p < |s.frames| && Lookup(m, d, q) == Mapped(s.frames[q - p], perms)
      && Lookup(m, s.storage, q - p) == Mapped(s.frames[q - p], {})
  }

  /** No page of directory `d` changed that holds no byte of the range. */
  ghost predicate RestKept(m: Mem, m': Mem, d: nat, p: nat, size: nat) {
    forall q: nat :: UserPage(q) && !HasByte(p, size, q) ==> Lookup(m', d, q) == Lookup(m, d, q)
  }

  /** createSharedObject in bytes, said without its rounding: after a success every page with one of the `size` bytes
      from page `p` on shows its frame of the object, writable, the storage files just these frames, and no page beyond
      the last byte is touched. */
  lemma CreateShowsBytes(sys: System, d: nat, owner: int, name: string, size: nat, isWritable: nat, p: nat, sd: nat,
                         strategy: Strategy, n: nat)
    requires Inv(sys) && HoldsBytes(n, size) && Target(sys, d, p, n) && sd !in sys.kernel.mem.dirs
    ensures HeapOk(sys.kernel.heap)
    ensures var r := CreateSharedObject(sys, d, owner, name, size, isWritable, p, sd, strategy);
      r.Done? && r.value.1 >= 0 ==>
        var m', j := r.value.0.kernel.mem, r.value.1;
        && j < |r.value.0.shares| && var s := r.value.0.shares[j];
        && Named(s, owner, name) && s.size == size && s.isWritable == isWritable && s.references == 1
        && HoldsBytes(|s.frames|, size) && ShowsBytes(m', d, p, s, {User, Writeable})
        && RestKept(sys.kernel.mem, m', d, p, size)
  {
    hide Inv, Lookup, CreateSharedObject, RoomForObject, Pages, Valid, CountsKept, FreshFrames;
    PagesHold(size, n);
    BytesAreRange(p, size, n);
    CreateKeeps(sys, d, owner, name, size, isWritable, p, sd, strategy);
  }

  /** getSharedObject likewise, with write permission iff the object was created with isWritable 1. */
  lemma GetShowsBytes(sys: System, d: nat, owner: int, name: string, p: nat, strategy: Strategy)
    requires Inv(sys)
    requires forall i :: 0 <= i < |sys.shares| && Named(sys.shares[i], owner, name) ==>
               Target(sys, d, p, |sys.shares[i].frames|) && sys.shares[i].references < COUNTER - 1
    ensures var r := GetSharedObject(sys, d, owner, name, p, strategy);
      r.Done? && r.value.1 >= 0 ==>
        var m', j := r.value.0.kernel.mem, r.value.1;
        && j < |sys.shares| == |r.value.0.shares| && var s := sys.shares[j];
        && Named(s, owner, name) && r.value.0.shares[j].references == s.references + 1
        && HoldsBytes(|s.frames|, s.size)
        && ShowsBytes(m', d, p, s, if s.isWritable == 1 then {User, Writeable} else {User})
        && RestKept(sys.kernel.mem, m', d, p, s.size)
  {
    hide Inv, Lookup, GetSharedObject, RoomForTables, References;
    GetKeeps(sys, d, owner, name, p, strategy);
    var r := GetSharedObject(sys, d, owner, name, p, strategy);
    if r.Done? && r.value.1 >= 0 {
      var j: nat := r.value.1;
      StorageFiles(sys, j);
      StorageFiles(r.value.0, j);
      BytesAreRange(p, sys.shares[j].size, |sys.shares[j].frames|);
    }
  }

  lemma StorageFiles(sys: System, j: nat)
    requires Inv(sys) && j < |sys.shares| && !sys.shares[j].empty
    ensures var s := sys.shares[j];
      && HoldsBytes(|s.frames|, s.size)
      && forall c: nat :: c < |s.frames| ==> Lookup(sys.kernel.mem, s.storage, c) == Mapped(s.frames[c], {})
  {
    hide Valid, Lookup, References;
    var s := sys.shares[j];
    assert Filed(sys.kernel.mem, s);
    PagesHold(s.size, |s.frames|);
    forall c: nat | c < |s.frames| ensures Lookup(sys.kernel.mem, s.storage, c) == Mapped(s.frames[c], {}) {
      assert s.frames[c - 0] == s.frames[c];
    }
  }
}
