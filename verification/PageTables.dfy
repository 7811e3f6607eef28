/**
 User page tables (get_page_table, create_page_table, map_frame, get_frame_info and unmap_frame of
 kern/mem/memory_manager.c).  A table is reached through the kernel-heap address that its frame records;
 the theorems show that this always finds the very table that create_page_table installed, and describe
 every operation by the entries the user sees.
 */
module PageTables {
  import opened Basics
  import opened Blocks
  import opened Paging
  import opened KernelHeap
  import H = Heap

  datatype TableRef = Missing | At(table: nat) | Lost

  /** Entry `x` of directory `d`. */
  function Entry(m: Mem, d: nat, x: nat): Pde {
    if d in m.dirs && x < |m.dirs[d]| then m.dirs[d][x] else NoTable
  }

  /** get_page_table for a user page; Lost where following the recorded address would fault */
  function GetPageTable(m: Mem, d: nat, p: nat): TableRef {
    match Entry(m, d, p / ENTRIES)
    case NoTable => Missing
    case Table(t) =>
      if t >= |m.frames| then Lost
      else
        var s := KernelPage(KheapVirtualAddress(m, t * H.PAGE) / H.PAGE);
        if s in m.pte && m.pte[s].Mapped? then At(m.pte[s].frame) else Lost
  }

  /** The entry of a user page, if its table exists. */
  function EntrySlot(m: Mem, d: nat, p: nat): Option<Slot> {
    match GetPageTable(m, d, p)
    case At(t) => Some(InTable(t, p % ENTRIES))
    case _ => None
  }

  /** get_frame_info, with the entry's permissions: what is mapped at a user page */
  function Lookup(m: Mem, d: nat, p: nat): Pte {
    match EntrySlot(m, d, p)
    case Some(s) => if s in m.pte then m.pte[s] else Unmapped
    case None => Unmapped
  }

  predicate HasTable(m: Mem, d: nat, x: nat) {
    Entry(m, d, x).Table?
  }

  /** get_page_table returns exactly the table that hangs on the directory entry. */
  lemma GetPageTableFinds(k: Kernel, d: nat, p: nat)
    requires Valid(k) && d in k.mem.dirs && UserPage(p)
    ensures |k.mem.dirs[d]| == TABLES && p / ENTRIES < TABLES
    ensures GetPageTable(k.mem, d, p) ==
            match k.mem.dirs[d][p / ENTRIES] { case NoTable => Missing case Table(t) => At(t) }
    ensures forall t :: k.mem.dirs[d][p / ENTRIES] == Table(t) ==>
              t in k.mem.owner && k.mem.owner[t] == (d, p / ENTRIES) && InTable(t, p % ENTRIES) in k.mem.pte
  {
    hide Counted, HeapOk, HeapMapped;
    match k.mem.dirs[d][p / ENTRIES]
    case NoTable =>
    case Table(t) =>
      assert HangsOn(k.mem, t, d, p / ENTRIES);
      assert TableOk(k, t);
      assert IsSlot(k.mem, InTable(t, p % ENTRIES));
  }

  /** What the processor finds at an address: the upper ten bits index the directory, the next ten its page table. */
  function Walk(m: Mem, d: nat, va: nat): Pte
    requires d in m.dirs && va / 0x40_0000 < |m.dirs[d]|
  {
    match m.dirs[d][va / 0x40_0000]
    case NoTable => Unmapped
    case Table(t) =>
      var s := InTable(t, va / 0x1000 % 0x400);
      if s in m.pte then m.pte[s] else Unmapped
  }

  /** The kernel, going through its heap, finds at every user address what the processor finds. */
  lemma LookupIsWalk(k: Kernel, d: nat, va: nat)
    requires Valid(k) && d in k.mem.dirs && UserPage(va / H.PAGE)
    ensures va / 0x40_0000 < |k.mem.dirs[d]| && Lookup(k.mem, d, va / H.PAGE) == Walk(k.mem, d, va)
  {
    hide Valid, GetPageTable;
    GetPageTableFinds(k, d, va / H.PAGE);
    assert va / H.PAGE / ENTRIES == va / 0x40_0000;
  }

  /** The user sees nothing but the directories and the entries of the user tables. */
  lemma SameEntriesSeen(k: Kernel, k': Kernel, d: nat, p: nat)
    requires Valid(k) && Valid(k') && d in k.mem.dirs && UserPage(p) && k'.mem.dirs == k.mem.dirs
    requires forall s :: s in k.mem.pte && s.InTable? ==> s in k'.mem.pte && k'.mem.pte[s] == k.mem.pte[s]
    ensures Lookup(k'.mem, d, p) == Lookup(k.mem, d, p)
  {
    hide Valid, GetPageTable;
    GetPageTableFinds(k, d, p);
    GetPageTableFinds(k', d, p);
  }

  /** No two directory entries share a table, so writing one user page's entry changes no other page's. */
  lemma EntriesApart(k: Kernel, d: nat, p: nat, e: nat, q: nat)
    requires Valid(k) && d in k.mem.dirs && e in k.mem.dirs && UserPage(p) && UserPage(q) && (d, p) != (e, q)
    requires |k.mem.dirs[d]| == TABLES && |k.mem.dirs[e]| == TABLES
    ensures EntrySlot(k.mem, d, p).Some? ==> EntrySlot(k.mem, d, p) != EntrySlot(k.mem, e, q)
  {
    hide Valid, GetPageTable;
    GetPageTableFinds(k, d, p);
    GetPageTableFinds(k, e, q);
  }

  // ---------------------------------------------------------------- create_page_table

  function TableSlots(t: nat): set<Slot> {
    set j | 0 <= j < ENTRIES :: InTable(t, j)
  }

  /** The table in frame `t`, all zero, hung on entry `x` of directory `d`. */
  function HangTable(m: Mem, t: nat, d: nat, x: nat): Mem
    requires d in m.dirs && x < |m.dirs[d]|
  {
    m.(pte := m.pte + (map s | s in TableSlots(t) :: Unmapped),
       dirs := m.dirs[d := m.dirs[d][x := Table(t)]],
       owner := m.owner[t := (d, x)])
  }

  /** create_page_table for a user page */
  ghost function CreatePageTable(k: Kernel, d: nat, p: nat, strategy: Strategy): Outcome<Kernel>
    requires d in k.mem.dirs && p / ENTRIES < |k.mem.dirs[d]| && Defined(k.heap.free, H.RoundUp(H.PAGE), strategy)
  {
    match Kmalloc(k, H.PAGE, strategy)
    case Panic => Panic
    case Done((k', va)) =>
      if va.None? || KernelPage(va.value / H.PAGE) !in k'.mem.pte
         || d !in k'.mem.dirs || p / ENTRIES >= |k'.mem.dirs[d]| then Panic
      else Done(k'.(mem := HangTable(k'.mem, KheapPhysicalAddress(k'.mem, va.value) / H.PAGE, d, p / ENTRIES)))
  }

  /** A page always fits while the heap has any hole, so best fit is defined. */
  lemma PageFits(k: Kernel, strategy: Strategy)
    requires HeapOk(k.heap)
    ensures H.RoundUp(H.PAGE) == H.PAGE
    ensures Fits(k.heap.free, H.PAGE) <==> k.heap.free != []
    ensures Defined(k.heap.free, H.PAGE, strategy)
  {
    if k.heap.free != [] {
      FreePaged(k.heap, 0);
    }
  }

  /** One frame is taken and becomes the table; every user entry reads as before. */
  ghost predicate TableAdded(k: Kernel, k': Kernel, d: nat, x: nat)
    requires d in k.mem.dirs && x < |k.mem.dirs[d]| && k.mem.free != []
  {
    var m, m', t := k.mem, k'.mem, k.mem.free[0];
    && t !in m.owner && t < |m.frames| && m.frames[t].references == 0
    && m'.free == m.free[1..] && |m'.frames| == |m.frames| && m'.reserved == m.reserved && m'.hand == m.hand
       && m'.storages == m.storages
    && m'.dirs == m.dirs[d := m.dirs[d][x := Table(t)]] && m'.owner == m.owner[t := (d, x)]
    && (forall s :: s in m.pte && s.InTable? ==> s in m'.pte && m'.pte[s] == m.pte[s])
    && (forall s :: s in m'.pte && s.InTable? && s !in m.pte ==> s.table == t && m'.pte[s] == Unmapped)
    && (forall f :: 0 <= f < |m.frames| && m.frames[f].references > 0 ==> m'.frames[f] == m.frames[f])
    && Total(k'.heap.free) == Total(k.heap.free) - H.PAGE
    && (forall c :: c in k.heap.alloc ==> c in k'.heap.alloc)
  }

  lemma NewTableFrame(k: Kernel, k': Kernel, i: nat)
    requires Valid(k) && Valid(k') && i < |k.heap.free| && H.PAGE <= k.heap.free[i].size && k.mem.free != []
    requires Kmalloced(k, k', i, H.PAGE)
    ensures var va, t := k.heap.free[i].sva, k.mem.free[0];
      && KernelPage(va / H.PAGE) in k'.mem.pte && k'.mem.pte[KernelPage(va / H.PAGE)] == Mapped(t, {Writeable})
      && KheapPhysicalAddress(k'.mem, va) == t * H.PAGE
      && t < |k.mem.frames| && k.mem.frames[t].references == 0 && k'.mem.frames[t] == Frame(1, va)
      && t !in k.mem.owner
  {
    hide HeapOk, HeapMapped, DirsOk, SlotsOk, CountsOk, EntriesOk, KmallocHeap;
    var va, t := k.heap.free[i].sva, k.mem.free[0];
    assert InRun(KernelPage(va / H.PAGE), va / H.PAGE, 1) && KernelPage(va / H.PAGE) in k.mem.pte;
    assert k'.mem.frames[k.mem.free[0]] == Frame(1, (va / H.PAGE + 0) * H.PAGE);
    assert t in k.mem.free;
    if t in k.mem.owner {
      assert TableOk(k, t);
      MappedHasReference(k.mem, KernelPage(k.mem.frames[t].va / H.PAGE), t);
    }
  }

  /** Hanging a fresh one-page block on an empty directory entry keeps everything tied together. */
  lemma HangTableKeeps(k: Kernel, t: nat, d: nat, x: nat)
    requires Valid(k) && d in k.mem.dirs && x < TABLES && |k.mem.dirs[d]| == TABLES && k.mem.dirs[d][x] == NoTable
    requires t !in k.mem.owner && TableOk(k, t)
    ensures Valid(k.(mem := HangTable(k.mem, t, d, x)))
    ensures var m, m' := k.mem, HangTable(k.mem, t, d, x);
      && (forall s :: s in m.pte ==> s in m'.pte && m'.pte[s] == m.pte[s])
      && (forall s :: s in m'.pte && s !in m.pte ==> s.InTable? && s.table == t && m'.pte[s] == Unmapped)
  {
    hide Counted, HeapOk, InUse;
    var m, m' := k.mem, HangTable(k.mem, t, d, x);
    var k' := k.(mem := m');
    forall s | s in TableSlots(t) ensures s !in m.pte { assert !IsSlot(m, s); }
    EmptySlotsKeep(m, m');
    hide EntriesOk;
    HangDirs(m, t, d, x);
    HangSlots(m, t, d, x);
    TablesStillOk(k, t, d, x);
    hide TablesOk, DirsOk;
    forall q: nat | HeapPage(q) ensures (IsMapped(m', KernelPage(q)) <==> InUse(k.heap, q)) && Records(m', q) {
      assert IsSlot(m, KernelPage(q));
    }
  }

  lemma HangDirs(m: Mem, t: nat, d: nat, x: nat)
    requires DirsOk(m) && d in m.dirs && x < |m.dirs[d]| && m.dirs[d][x] == NoTable && t !in m.owner
    ensures DirsOk(HangTable(m, t, d, x))
  {
    var m' := HangTable(m, t, d, x);
    forall e: nat, y: nat, u: nat | HangsOn(m', u, e, y) ensures u in m'.owner && m'.owner[u] == (e, y) {
      if e != d || y != x { assert HangsOn(m, u, e, y); }
    }
  }

  lemma HangSlots(m: Mem, t: nat, d: nat, x: nat)
    requires SlotsOk(m) && d in m.dirs && x < |m.dirs[d]|
    ensures SlotsOk(HangTable(m, t, d, x))
  {
    var m' := HangTable(m, t, d, x);
    forall s ensures s in m'.pte <==> IsSlot(m', s) { assert s in m.pte <==> IsSlot(m, s); }
  }

  lemma TablesStillOk(k: Kernel, t: nat, d: nat, x: nat)
    requires TablesOk(k) && d in k.mem.dirs && x < |k.mem.dirs[d]| && k.mem.dirs[d][x] == NoTable
    requires t !in k.mem.owner && TableOk(k, t)
    requires forall s :: s in TableSlots(t) ==> s !in k.mem.pte
    ensures TablesOk(k.(mem := HangTable(k.mem, t, d, x)))
  {
    var m, m' := k.mem, HangTable(k.mem, t, d, x);
    assert m'.frames == m.frames && m'.dirs == m.dirs[d := m.dirs[d][x := Table(t)]]
      && m'.owner == m.owner[t := (d, x)];
    assert forall s :: s in m.pte ==> s in m'.pte && m'.pte[s] == m.pte[s];
    hide HangTable, TableSlots;
    forall u | u in m'.owner ensures TableOk(k.(mem := m'), u) && HangsOn(m', u, m'.owner[u].0, m'.owner[u].1) {
      if u != t { assert TableOk(k, u) && HangsOn(m, u, m.owner[u].0, m.owner[u].1); }
    }
  }

  /** create_page_table panics only when no frame or no heap page is left. */
  lemma CreatePageTableKeeps(k: Kernel, d: nat, p: nat, strategy: Strategy)
    requires Valid(k) && d in k.mem.dirs && UserPage(p)
    requires |k.mem.dirs[d]| == TABLES && !HasTable(k.mem, d, p / ENTRIES)
    ensures Defined(k.heap.free, H.RoundUp(H.PAGE), strategy)
    ensures var r := CreatePageTable(k, d, p, strategy);
      && (r.Panic? <==> k.mem.free == [] || k.heap.free == [] || strategy.UseOther?)
      && (r.Done? ==> Valid(r.value) && TableAdded(k, r.value, d, p / ENTRIES))
  {
    hide Valid, Kmalloced, HangTable, Hole, TableOk;
    ValidHeap(k);
    PageFits(k, strategy);
    KmallocKeeps(k, H.PAGE, strategy);
    if k.mem.free != [] && k.heap.free != [] && !strategy.UseOther? {
      var i := Hole(k.heap.free, H.PAGE, strategy);
      var (k1, va) := Kmalloc(k, H.PAGE, strategy).value;
      FreshTableHung(k, k1, i, d, p / ENTRIES);
      assert KheapPhysicalAddress(k1.mem, va.value) / H.PAGE == k.mem.free[0] by {
        NewTableFrame(k, k1, i);
        PageOf(k.mem.free[0]);
      }
    }
  }

  lemma PageOf(t: nat)
    ensures t * H.PAGE / H.PAGE == t
  {
  }

  lemma FreshTableHung(k: Kernel, k1: Kernel, i: nat, d: nat, x: nat)
    requires Valid(k) && Valid(k1) && i < |k.heap.free| && H.PAGE <= k.heap.free[i].size && k.mem.free != []
    requires Kmalloced(k, k1, i, H.PAGE)
    requires d in k.mem.dirs && x < TABLES && |k.mem.dirs[d]| == TABLES && k.mem.dirs[d][x] == NoTable
    ensures d in k1.mem.dirs && |k1.mem.dirs[d]| == TABLES
    ensures KernelPage(k.heap.free[i].sva / H.PAGE) in k1.mem.pte
    ensures var k' := k1.(mem := HangTable(k1.mem, k.mem.free[0], d, x)); Valid(k') && TableAdded(k, k', d, x)
  {
    hide Valid, Kmalloced, HangTable, KmallocHeap;
    var t := k.mem.free[0];
    NewTableFrame(k, k1, i);
    KmallocedMem(k, k1, i);
    NewTableOk(k1, t, k.heap.free[i].sva);
    hide TableOk;
    HangTableKeeps(k1, t, d, x);
    CutTotal(k.heap, i);
    Hung(k1.mem, t, d, x);
  }

  lemma Hung(m: Mem, t: nat, d: nat, x: nat)
    requires d in m.dirs && x < |m.dirs[d]|
    ensures var m' := HangTable(m, t, d, x);
      && m'.dirs == m.dirs[d := m.dirs[d][x := Table(t)]] && m'.owner == m.owner[t := (d, x)]
      && m'.free == m.free && m'.frames == m.frames && m'.reserved == m.reserved && m'.hand == m.hand
         && m'.storages == m.storages
  {
  }

  lemma NewTableOk(k: Kernel, t: nat, va: nat)
    requires t < |k.mem.frames| && k.mem.frames[t].va == va && HeapPage(va / H.PAGE)
    requires KernelPage(va / H.PAGE) in k.mem.pte && On(k.mem.pte[KernelPage(va / H.PAGE)], t)
    requires Block(va, H.PAGE) in k.heap.alloc
    ensures TableOk(k, t)
  {
  }

  lemma KmallocedMem(k: Kernel, k': Kernel, i: nat)
    requires i < |k.heap.free| && H.PAGE <= k.heap.free[i].size && k.mem.free != [] && Kmalloced(k, k', i, H.PAGE)
    ensures var m, m', va := k.mem, k'.mem, k.heap.free[i].sva;
      && m'.free == m.free[1..] && |m'.frames| == |m.frames| && m'.dirs == m.dirs && m'.owner == m.owner
      && m'.reserved == m.reserved && m'.hand == m.hand && m'.storages == m.storages && m'.pte.Keys == m.pte.Keys
      && (forall s :: s in m.pte && s.InTable? ==> m'.pte[s] == m.pte[s])
      && (forall f :: 0 <= f < |m.frames| && m.frames[f].references > 0 ==> m'.frames[f] == m.frames[f])
      && k'.heap == KmallocHeap(k.heap, i, H.PAGE)
      && HeapPage(va / H.PAGE) && Block(va, H.PAGE) in k'.heap.alloc
      && (forall c :: c in k.heap.alloc ==> c in k'.heap.alloc)
  {
    hide KmallocHeap, RunFree;
  }

  lemma CutTotal(h: H.Heap, i: nat)
    requires i < |h.free| && H.PAGE <= h.free[i].size
    ensures Total(KmallocHeap(h, i, H.PAGE).free) == Total(h.free) - H.PAGE
  {
    CarveTotal(h.free, i, H.PAGE);
  }

  // ---------------------------------------------------------------- what the user sees

  ghost predicate Ready(k: Kernel, d: nat, p: nat) {
    Valid(k) && d in k.mem.dirs && UserPage(p) && |k.mem.dirs[d]| == TABLES
  }

  lemma IsReady(k: Kernel, d: nat, p: nat)
    requires Valid(k) && d in k.mem.dirs && UserPage(p)
    ensures Ready(k, d, p)
  {
    hide Counted, HeapOk, HeapMapped, TablesOk, SlotsOk;
  }

  /** Every user page but those in `except` reads the same. */
  ghost predicate SameBut(m: Mem, m': Mem, d: nat, p: nat, n: nat) {
    && m'.dirs.Keys == m.dirs.Keys && m'.storages == m.storages
    && (forall e :: e in m.dirs ==> |m.dirs[e]| == TABLES && |m'.dirs[e]| == TABLES)
    && (forall e, q: nat :: e in m.dirs && UserPage(q) && !(e == d && p <= q < p + n) ==>
        Lookup(m', e, q) == Lookup(m, e, q))
  }

  /** A new table changes nothing the user sees. */
  lemma TableAddedUnseen(k: Kernel, k': Kernel, d: nat, p: nat)
    requires Ready(k, d, p) && Valid(k') && k.mem.free != [] && TableAdded(k, k', d, p / ENTRIES)
    requires !HasTable(k.mem, d, p / ENTRIES)
    ensures SameBut(k.mem, k'.mem, d, p, 0)
    ensures Ready(k', d, p) && Lookup(k'.mem, d, p) == Unmapped
  {
    hide Valid, TableAdded, GetPageTable;
    var m, m', x := k.mem, k'.mem, p / ENTRIES;
    TableAddedDirs(k, k', d, x);
    forall e | e in m.dirs ensures |m.dirs[e]| == TABLES && |m'.dirs[e]| == TABLES {
      IsReady(k, e, 0);
      IsReady(k', e, 0);
    }
    forall e, q: nat | e in m.dirs && UserPage(q) ensures Lookup(m', e, q) == Lookup(m, e, q) {
      GetPageTableFinds(k, e, q);
      GetPageTableFinds(k', e, q);
      TableAddedSlots(k, k', d, x);
    }
    IsReady(k', d, p);
    GetPageTableFinds(k, d, p);
  }

  lemma TableAddedDirs(k: Kernel, k': Kernel, d: nat, x: nat)
    requires d in k.mem.dirs && x < |k.mem.dirs[d]| && k.mem.free != [] && TableAdded(k, k', d, x)
    ensures k'.mem.dirs == k.mem.dirs[d := k.mem.dirs[d][x := Table(k.mem.free[0])]]
    ensures k'.mem.storages == k.mem.storages
  {
  }

  lemma TableAddedSlots(k: Kernel, k': Kernel, d: nat, x: nat)
    requires Valid(k) && d in k.mem.dirs && x < |k.mem.dirs[d]| && k.mem.free != [] && TableAdded(k, k', d, x)
    ensures forall s :: s in k.mem.pte && s.InTable? ==> s in k'.mem.pte && k'.mem.pte[s] == k.mem.pte[s]
    ensures forall j: nat :: InTable(k.mem.free[0], j) in k'.mem.pte ==>
      k'.mem.pte[InTable(k.mem.free[0], j)] == Unmapped
  {
    hide Counted, HeapOk, HeapMapped, TablesOk, DirsOk;
    forall j: nat ensures InTable(k.mem.free[0], j) !in k.mem.pte { assert !IsSlot(k.mem, InTable(k.mem.free[0], j)); }
  }

  /** Rewriting one user entry, and nothing that a page in use records, keeps everything tied together. */
  lemma UserEntryWritten(k: Kernel, k': Kernel, s: Slot, e: Pte)
    requires Valid(k) && Counted(k'.mem) && k'.heap == k.heap
    requires s.InTable? && s in k.mem.pte && k'.mem.pte == k.mem.pte[s := e]
    requires k'.mem.dirs == k.mem.dirs && k'.mem.owner == k.mem.owner && |k'.mem.frames| == |k.mem.frames|
    requires forall f ::
      0 <= f < |k.mem.frames| && k.mem.frames[f].references > 0 && k'.mem.frames[f].references > 0 ==>
        k'.mem.frames[f].va == k.mem.frames[f].va
    ensures Valid(k')
  {
    hide Counted, HeapOk, InUse;
    var m, m' := k.mem, k'.mem;
    assert SlotsOk(m') by { hide HeapMapped, TablesOk; assert forall s :: IsSlot(m', s) <==> IsSlot(m, s); }
    assert DirsOk(m') by {
      hide HeapMapped, TablesOk, SlotsOk;
      assert forall t, d, x :: HangsOn(m', t, d, x) <==> HangsOn(m, t, d, x);
    }
    forall q: nat | HeapPage(q) ensures (IsMapped(m', KernelPage(q)) <==> InUse(k.heap, q)) && Records(m', q) {
      hide TablesOk, DirsOk;
      assert IsSlot(m, KernelPage(q));
      BothUsed(k, k', q);
    }
    TablesStillRead(k, k', s, e);
  }

  lemma TablesStillRead(k: Kernel, k': Kernel, s: Slot, e: Pte)
    requires TablesOk(k) && Counted(k.mem) && Counted(k'.mem) && k'.heap == k.heap
    requires s.InTable? && s in k.mem.pte && k'.mem.pte == k.mem.pte[s := e]
    requires k'.mem.dirs == k.mem.dirs && k'.mem.owner == k.mem.owner && |k'.mem.frames| == |k.mem.frames|
    requires forall f ::
      0 <= f < |k.mem.frames| && k.mem.frames[f].references > 0 && k'.mem.frames[f].references > 0 ==>
        k'.mem.frames[f].va == k.mem.frames[f].va
    ensures TablesOk(k')
  {
    hide Counted;
    var m, m' := k.mem, k'.mem;
    forall t | t in m'.owner ensures TableOk(k', t) && HangsOn(m', t, m'.owner[t].0, m'.owner[t].1) {
      assert TableOk(k, t);
      BothUsed(k, k', m.frames[t].va / H.PAGE);
    }
  }

  lemma BothUsed(k: Kernel, k': Kernel, q: nat)
    requires Counted(k.mem) && Counted(k'.mem) && KernelPage(q) in k.mem.pte && KernelPage(q) in k'.mem.pte
    requires k'.mem.pte[KernelPage(q)] == k.mem.pte[KernelPage(q)]
    ensures k.mem.pte[KernelPage(q)].Mapped? ==>
      var f := k.mem.pte[KernelPage(q)].frame;
      f < |k.mem.frames| && f < |k'.mem.frames| && k.mem.frames[f].references > 0 && k'.mem.frames[f].references > 0
  {
    hide Counted;
    if k.mem.pte[KernelPage(q)].Mapped? {
      MappedHasReference(k.mem, KernelPage(q), k.mem.pte[KernelPage(q)].frame);
      MappedHasReference(k'.mem, KernelPage(q), k.mem.pte[KernelPage(q)].frame);
    }
  }

  /** After writing the entry of page `p`, that page reads as written and every other page as before. */
  lemma WrittenSeen(k: Kernel, k': Kernel, d: nat, p: nat, e: Pte)
    requires Ready(k, d, p) && Valid(k') && EntrySlot(k.mem, d, p).Some?
    requires k'.mem.dirs == k.mem.dirs && k'.mem.pte == k.mem.pte[EntrySlot(k.mem, d, p).value := e]
    requires k'.mem.storages == k.mem.storages
    ensures Ready(k', d, p) && Lookup(k'.mem, d, p) == e && SameBut(k.mem, k'.mem, d, p, 1)
  {
    hide Valid, GetPageTable;
    var m, m' := k.mem, k'.mem;
    IsReady(k', d, p);
    GetPageTableFinds(k, d, p);
    GetPageTableFinds(k', d, p);
    forall a | a in m.dirs ensures |m.dirs[a]| == TABLES { IsReady(k, a, 0); }
    forall a, q: nat | a in m.dirs && UserPage(q) && !(a == d
        && p <= q < p + 1) ensures Lookup(m', a, q) == Lookup(m, a, q) {
      GetPageTableFinds(k, a, q);
      GetPageTableFinds(k', a, q);
      EntriesApart(k, d, p, a, q);
    }
  }

  // ---------------------------------------------------------------- one page

  /** The table of page `p`, created if there is none. */
  ghost function EnsureTable(k: Kernel, d: nat, p: nat, strategy: Strategy): (r: Outcome<Kernel>)
    requires Ready(k, d, p)
    ensures r.Done? ==> Ready(r.value, d, p) && EntrySlot(r.value.mem, d, p).Some?
                        && EntrySlot(r.value.mem, d, p).value in r.value.mem.pte
                        && EntrySlot(r.value.mem, d, p).value.InTable?
  {
    GetPageTableFinds(k, d, p);
    if GetPageTable(k.mem, d, p) == Missing then
      CreatedReady(k, d, p, strategy);
      CreatePageTable(k, d, p, strategy)
    else Done(k)
  }

  lemma CreatedReady(k: Kernel, d: nat, p: nat, strategy: Strategy)
    requires Ready(k, d, p) && !HasTable(k.mem, d, p / ENTRIES)
    ensures Defined(k.heap.free, H.RoundUp(H.PAGE), strategy)
    ensures var r := CreatePageTable(k, d, p, strategy);
      r.Done? ==> Ready(r.value, d, p) && EntrySlot(r.value.mem, d, p).Some?
                  && EntrySlot(r.value.mem, d, p).value in r.value.mem.pte
                  && EntrySlot(r.value.mem, d, p).value.InTable?
  {
    hide Valid, GetPageTable, TableAdded, CreatePageTable;
    CreatePageTableKeeps(k, d, p, strategy);
    var r := CreatePageTable(k, d, p, strategy);
    if r.Done? {
      TableAddedUnseen(k, r.value, d, p);
      GetPageTableFinds(r.value, d, p);
      TableAddedDirs(k, r.value, d, p / ENTRIES);
    }
  }

  /** A table is needed and cannot be had. */
  ghost predicate NoRoom(k: Kernel, strategy: Strategy) {
    k.mem.free == [] || k.heap.free == [] || strategy.UseOther?
  }

  lemma EnsureTableFacts(k: Kernel, d: nat, p: nat, strategy: Strategy)
    requires Ready(k, d, p)
    ensures var r := EnsureTable(k, d, p, strategy);
      && (r.Panic? <==> !HasTable(k.mem, d, p / ENTRIES) && NoRoom(k, strategy))
      && (HasTable(k.mem, d, p / ENTRIES) ==> r == Done(k))
      && (r.Done? && !HasTable(k.mem, d, p / ENTRIES) ==>
            k.mem.free != [] && TableAdded(k, r.value, d, p / ENTRIES))
      && (r.Done? ==> SameBut(k.mem, r.value.mem, d, p, 0) && Lookup(r.value.mem, d, p) == Lookup(k.mem, d, p))
  {
    GetPageTableFinds(k, d, p);
    hide Valid, GetPageTable, TableAdded;
    if !HasTable(k.mem, d, p / ENTRIES) {
      CreatePageTableKeeps(k, d, p, strategy);
      if EnsureTable(k, d, p, strategy).Done? {
        TableAddedUnseen(k, EnsureTable(k, d, p, strategy).value, d, p);
      }
    } else {
      forall e | e in k.mem.dirs ensures |k.mem.dirs[e]| == TABLES { IsReady(k, e, 0); }
    }
  }

  /** allocate_chunk's work on one page: the table, a frame, the mapping, the address `va` the frame records */
  ghost function AllocPage(k: Kernel, d: nat, p: nat, perms: set<Flag>, va: nat, strategy: Strategy): Outcome<Kernel>
    requires Ready(k, d, p)
  {
    match EnsureTable(k, d, p, strategy)
    case Panic => Panic
    case Done(k1) =>
      if !CanWrite(k1.mem, EntrySlot(k1.mem, d, p).value) then Panic
      else match MapNew(k1.mem, EntrySlot(k1.mem, d, p).value, perms, va)
        case None => Panic
        case Some(m) => Done(k1.(mem := m))
  }

  /** The frames one more page takes: one for itself, and one for its table if that is missing. */
  function Needs(m: Mem, d: nat, p: nat): nat {
    1 + Bit(!HasTable(m, d, p / ENTRIES))
  }

  ghost predicate UsedFramesKept(m: Mem, m': Mem) {
    |m'.frames| == |m.frames|
    && forall g :: 0 <= g < |m.frames| && m.frames[g].references > 0 ==> m'.frames[g] == m.frames[g]
  }

  /** Page `p` now has a frame from the free list, its table exists, and nothing else changed. */
  ghost predicate PageAllocated(k: Kernel, k': Kernel, d: nat, p: nat, perms: set<Flag>, va: nat)
    requires Needs(k.mem, d, p) <= |k.mem.free|
  {
    var m, m', f := k.mem, k'.mem, k.mem.free[Needs(k.mem, d, p) - 1];
    && SameBut(m, m', d, p, 1) && Lookup(m', d, p) == Mapped(f, perms)
    && f < |m'.frames| && m'.frames[f] == Frame(1, va)
    && m'.free == m.free[Needs(m, d, p)..] && m'.hand == m.hand
    && UsedFramesKept(m, m')
    && (forall x :: 0 <= x < TABLES ==> (HasTable(m', d, x) <==> x == p / ENTRIES || HasTable(m, d, x)))
    && Total(k'.heap.free) == Total(k.heap.free) - (if HasTable(m, d, p / ENTRIES) then 0 else H.PAGE)
  }

  lemma AllocPageKeeps(k: Kernel, d: nat, p: nat, perms: set<Flag>, va: nat, strategy: Strategy)
    requires Ready(k, d, p) && d !in k.mem.storages && Lookup(k.mem, d, p) == Unmapped
    ensures var r, missing := AllocPage(k, d, p, perms, va, strategy), !HasTable(k.mem, d, p / ENTRIES);
      && (r.Panic? <==> |k.mem.free| < Needs(k.mem, d, p) || (missing && NoRoom(k, strategy)))
      && (r.Done? ==>
            Ready(r.value, d, p) && Needs(k.mem, d, p) <= |k.mem.free| && PageAllocated(k, r.value, d, p, perms, va))
  {
    hide Valid, GetPageTable, EnsureTable, TableAdded, CanWrite, MapNew, Lookup;
    EnsureTableFacts(k, d, p, strategy);
    if EnsureTable(k, d, p, strategy).Done? {
      var k1 := EnsureTable(k, d, p, strategy).value;
      var s := EntrySlot(k1.mem, d, p).value;
      TableCounts(k, k1, d, p, strategy);
      SlotEmpty(k1, d, p);
      MapOnePage(k1, d, p, s, perms, va);
      if k1.mem.free != [] {
        var k' := AllocPage(k, d, p, perms, va, strategy).value;
        assert forall x :: 0 <= x < TABLES ==> HasTable(k'.mem, d, x) == HasTable(k1.mem, d, x);
      }
    }
  }

  lemma SlotEmpty(k: Kernel, d: nat, p: nat)
    requires Ready(k, d, p) && Lookup(k.mem, d, p) == Unmapped && EntrySlot(k.mem, d, p).Some?
    requires EntrySlot(k.mem, d, p).value in k.mem.pte
    ensures k.mem.pte[EntrySlot(k.mem, d, p).value] == Unmapped
  {
    hide Valid;
  }

  /** No other directory gained or lost a table. */
  ghost predicate OtherTablesKept(m: Mem, m': Mem, d: nat) {
    forall e: nat, x: nat :: e != d ==> HasTable(m', e, x) == HasTable(m, e, x)
  }

  lemma TableCounts(k: Kernel, k1: Kernel, d: nat, p: nat, strategy: Strategy)
    requires Ready(k, d, p) && EnsureTable(k, d, p, strategy) == Done(k1)
    ensures d in k1.mem.dirs && |k1.mem.dirs[d]| == TABLES && |k1.mem.frames| == |k.mem.frames|
        && k1.mem.hand == k.mem.hand && k1.mem.storages == k.mem.storages
    ensures var missing := !HasTable(k.mem, d, p / ENTRIES);
      && (missing ==> k.mem.free != [])
      && k1.mem.free == (if missing then k.mem.free[1..] else k.mem.free)
      && UsedFramesKept(k.mem, k1.mem)
      && Total(k1.heap.free) == Total(k.heap.free) - (if missing then H.PAGE else 0)
      && (forall x :: 0 <= x < TABLES ==> (HasTable(k1.mem, d, x) <==> x == p / ENTRIES || HasTable(k.mem, d, x)))
      && OtherTablesKept(k.mem, k1.mem, d)
  {
    hide Valid, GetPageTable, EnsureTable, Lookup, SameBut;
    EnsureTableFacts(k, d, p, strategy);
  }

  /** The entries of an environment's pages count as references. */
  lemma CountsAt(k: Kernel, d: nat, p: nat)
    requires Ready(k, d, p) && d !in k.mem.storages && EntrySlot(k.mem, d, p).Some?
    ensures Counts(k.mem, EntrySlot(k.mem, d, p).value)
  {
    hide Valid, GetPageTable;
    ReadyValid(k, d, p);
    GetPageTableFinds(k, d, p);
  }

  lemma MapOnePage(k: Kernel, d: nat, p: nat, s: Slot, perms: set<Flag>, va: nat)
    requires Ready(k, d, p) && EntrySlot(k.mem, d, p) == Some(s) && s in k.mem.pte && s.InTable?
    requires k.mem.pte[s] == Unmapped
    requires d !in k.mem.storages
    ensures CanWrite(k.mem, s) && (MapNew(k.mem, s, perms, va).None? <==> k.mem.free == [])
    ensures k.mem.free != [] ==>
      var k', f := k.(mem := MapNew(k.mem, s, perms, va).value), k.mem.free[0];
      && Ready(k', d, p) && SameBut(k.mem, k'.mem, d, p, 1) && Lookup(k'.mem, d, p) == Mapped(f, perms)
      && f < |k'.mem.frames| && k'.mem.frames[f] == Frame(1, va)
      && k'.mem.free == k.mem.free[1..] && k'.mem.dirs == k.mem.dirs && k'.mem.hand == k.mem.hand
         && k'.mem.storages == k.mem.storages
      && UsedFramesKept(k.mem, k'.mem)
  {
    hide HeapOk, Linked, CountsOk, NoRepeats, GetPageTable, Lookup, SameBut, EntrySlot, Ready, MapNew;
    assert Valid(k) by { ReadyValid(k, d, p); }
    Writable(k.mem, s);
    CountsAt(k, d, p);
    MapNewFacts(k.mem, s, perms, va);
    if k.mem.free != [] {
      var k' := k.(mem := MapNew(k.mem, s, perms, va).value);
      UserEntryWritten(k, k', s, Mapped(k.mem.free[0], perms));
      WrittenSeen(k, k', d, p, Mapped(k.mem.free[0], perms));
    }
  }

  lemma ReadyValid(k: Kernel, d: nat, p: nat)
    requires Ready(k, d, p)
    ensures Valid(k)
  {
  }

  /** allocate_frame takes the first free frame into the caller's hand; nobody notices. */
  lemma TakeFrameKeeps(k: Kernel)
    requires Valid(k)
    ensures AllocateFrame(k.mem).None? <==> k.mem.free == []
    ensures k.mem.free != [] ==>
      var (m, f) := AllocateFrame(k.mem).value;
      && Valid(k.(mem := m)) && SameBut(k.mem, m, 0, 0, 0) && m.dirs == k.mem.dirs && UsedFramesKept(k.mem, m)
      && f == k.mem.free[0] && f < |k.mem.frames| && f !in k.mem.hand
      && References(k.mem, f) == 0 == References(m, f) && m.hand == k.mem.hand + {f} && m.free == k.mem.free[1..]
  {
    if k.mem.free != [] {
      var (m, f) := AllocateFrame(k.mem).value;
      FreeIsUnused(k, 0);
      AllocateFrameKeeps(k.mem);
      FrameTaken(k, k.(mem := m), f);
      SameAsBefore(k, 0, 0);
      hide Valid, Lookup;
      forall e, q: nat | e in k.mem.dirs && UserPage(q) ensures Lookup(m, e, q) == Lookup(k.mem, e, q) {
        SameEntriesSeen(k, k.(mem := m), e, q);
      }
    }
  }

  /** What an unused frame records is never read. */
  lemma FrameTaken(k: Kernel, k': Kernel, f: nat)
    requires Valid(k) && f < |k.mem.frames| && k.mem.frames[f].references == 0
    requires Counted(k'.mem) && k'.heap == k.heap && k'.mem.frames == k.mem.frames[f := Frame(0, 0)]
    requires k'.mem.pte == k.mem.pte && k'.mem.dirs == k.mem.dirs && k'.mem.owner == k.mem.owner
    ensures Valid(k')
  {
    hide Counted, HeapOk, InUse;
    var m, m' := k.mem, k'.mem;
    assert SlotsOk(m') by { hide HeapMapped, TablesOk; assert forall s :: IsSlot(m', s) <==> IsSlot(m, s); }
    assert DirsOk(m') by {
      hide HeapMapped, TablesOk, SlotsOk;
      assert forall t, d, x :: HangsOn(m', t, d, x) <==> HangsOn(m, t, d, x);
    }
    forall q: nat | HeapPage(q) ensures (IsMapped(m', KernelPage(q)) <==> InUse(k.heap, q)) && Records(m', q) {
      hide TablesOk, DirsOk;
      assert IsSlot(m, KernelPage(q));
      BothUsed(k, k', q);
    }
    forall t | t in m'.owner ensures TableOk(k', t) && HangsOn(m', t, m'.owner[t].0, m'.owner[t].1) {
      assert TableOk(k, t);
      BothUsed(k, k', m.frames[t].va / H.PAGE);
    }
  }

  lemma FreeIsUnused(k: Kernel, i: nat)
    requires Valid(k) && i < |k.mem.free|
    ensures k.mem.free[i] < |k.mem.frames| && k.mem.frames[k.mem.free[i]].references == 0
  {
    hide HeapOk, Linked, CountsOk, EntriesOk, NoRepeats;
    assert k.mem.free[i] in k.mem.free;
  }

  /** map_frame, of a frame in use or in the caller's hand */
  ghost function MapFrame(k: Kernel, d: nat, f: nat, p: nat, perms: set<Flag>, strategy: Strategy): Outcome<Kernel>
    requires Ready(k, d, p)
  {
    match EnsureTable(k, d, p, strategy)
    case Panic => Panic
    case Done(k1) =>
      if !CanWrite(k1.mem, EntrySlot(k1.mem, d, p).value) || f >= |k1.mem.frames| then Panic
      else Done(k1.(mem := MapSlot(k1.mem, EntrySlot(k1.mem, d, p).value, f, perms)))
  }

  /** unmap_frame */
  function UnmapFrame(k: Kernel, d: nat, p: nat): Kernel {
    match EntrySlot(k.mem, d, p)
    case None => k
    case Some(s) => if CanWrite(k.mem, s) then k.(mem := UnmapSlot(k.mem, s)) else k
  }

  /** The references of frame `f`. */
  function References(m: Mem, f: nat): nat {
    if f < |m.frames| then m.frames[f].references else 0
  }

  /** The frame is in use and its 16-bit counter has room, or it is in the caller's hand. */
  predicate Mappable(m: Mem, f: nat) {
    f in m.hand || 0 < References(m, f) < COUNTER - 1
  }

  /** The page shows the frame, whose count went up by one; but for a new table nothing else changed. */
  ghost predicate FrameMapped(k: Kernel, k': Kernel, d: nat, f: nat, p: nat, perms: set<Flag>) {
    var m, m', missing := k.mem, k'.mem, !HasTable(k.mem, d, p / ENTRIES);
    && SameBut(m, m', d, p, 1) && Lookup(m', d, p) == Mapped(f, perms)
    && |m'.frames| == |m.frames| && m'.hand == m.hand - {f} && References(m', f) == References(m, f) + 1
    && (forall g: nat :: References(m, g) > 0 ==> References(m', g) == References(m, g) + Bit(g == f))
    && (References(m, f) > 0 ==> m'.hand == m.hand)
    && (missing ==> m.free != []) && m'.free == (if missing then m.free[1..] else m.free)
    && (forall x: nat :: x < TABLES ==> (HasTable(m', d, x) <==> x == p / ENTRIES || HasTable(m, d, x)))
    && OtherTablesKept(m, m', d)
    && Total(k'.heap.free) == Total(k.heap.free) - (if missing then H.PAGE else 0)
  }

  /** map_frame at an empty page */
  lemma MapFrameKeeps(k: Kernel, d: nat, f: nat, p: nat, perms: set<Flag>, strategy: Strategy)
    requires Ready(k, d, p) && d !in k.mem.storages && Lookup(k.mem, d, p) == Unmapped && Mappable(k.mem, f)
    ensures var r := MapFrame(k, d, f, p, perms, strategy);
      && (r.Panic? <==> !HasTable(k.mem, d, p / ENTRIES) && NoRoom(k, strategy))
      && (r.Done? ==> Ready(r.value, d, p) && FrameMapped(k, r.value, d, f, p, perms))
  {
    hide Valid, GetPageTable, EnsureTable, TableAdded, CanWrite, MapSlot, Lookup, FrameMapped, Mappable, SameBut, Ready;
    EnsureTableFacts(k, d, p, strategy);
    if EnsureTable(k, d, p, strategy).Done? {
      MappedInTable(k, EnsureTable(k, d, p, strategy).value, d, f, p, perms, strategy);
    }
  }

  /** Its table is there, and the entry is written. */
  lemma MappedInTable(k: Kernel, k1: Kernel, d: nat, f: nat, p: nat, perms: set<Flag>, strategy: Strategy)
    requires Ready(k, d, p) && d !in k.mem.storages && Lookup(k.mem, d, p) == Unmapped && Mappable(k.mem, f)
    requires EnsureTable(k, d, p, strategy) == Done(k1)
    ensures CanWrite(k1.mem, EntrySlot(k1.mem, d, p).value) && f < |k1.mem.frames|
    ensures var k' := k1.(mem := MapSlot(k1.mem, EntrySlot(k1.mem, d, p).value, f, perms));
      Ready(k', d, p) && FrameMapped(k, k', d, f, p, perms)
  {
    hide Valid, GetPageTable, EnsureTable, TableAdded, CanWrite, MapSlot, Lookup, HasTable, Total;
    EnsureTableFacts(k, d, p, strategy);
    TableCounts(k, k1, d, p, strategy);
    SlotEmpty(k1, d, p);
    ReadyValid(k, d, p);
    ReadyValid(k1, d, p);
    StillMappable(k, k1, f);
    if References(k.mem, f) > 0 { UsedIsNotHeld(k, f); }
    MapUsedFrame(k1, d, f, p, EntrySlot(k1.mem, d, p).value, perms);
    SameDirs(k1.mem, MapSlot(k1.mem, EntrySlot(k1.mem, d, p).value, f, perms));
  }

  lemma SameDirs(m: Mem, m': Mem)
    requires m'.dirs == m.dirs
    ensures forall e: nat, x: nat :: HasTable(m', e, x) == HasTable(m, e, x)
  {
  }

  lemma MappableFrame(m: Mem, f: nat)
    requires Counted(m) && Mappable(m, f)
    ensures f < |m.frames| && f !in m.free && m.frames[f].references < COUNTER - 1
  {
    hide CountsOk, EntriesOk, NoRepeats;
    if f in m.hand { assert IsFree(m, f); }
  }

  /** A new table takes no frame from anybody's hand. */
  lemma StillMappable(k: Kernel, k1: Kernel, f: nat)
    requires Valid(k) && Valid(k1) && Mappable(k.mem, f) && UsedFramesKept(k.mem, k1.mem)
        && k1.mem.hand == k.mem.hand && k1.mem.storages == k.mem.storages
    ensures Mappable(k1.mem, f) && References(k1.mem, f) == References(k.mem, f)
  {
    hide HeapOk, Linked, CountsOk, EntriesOk, NoRepeats;
    if f in k.mem.hand { assert IsFree(k.mem, f) && IsFree(k1.mem, f); }
  }

  lemma UsedIsNotHeld(k: Kernel, f: nat)
    requires Valid(k) && References(k.mem, f) > 0
    ensures k.mem.hand - {f} == k.mem.hand
  {
    hide HeapOk, Linked, CountsOk, EntriesOk, NoRepeats;
    UsedNotInHand(k.mem, f);
  }

  lemma MapUsedFrame(k: Kernel, d: nat, f: nat, p: nat, s: Slot, perms: set<Flag>)
    requires Ready(k, d, p) && EntrySlot(k.mem, d, p) == Some(s) && s in k.mem.pte && s.InTable?
    requires k.mem.pte[s] == Unmapped
    requires Mappable(k.mem, f) && d !in k.mem.storages
    ensures CanWrite(k.mem, s) && f < |k.mem.frames| && k.mem.frames[f].references < COUNTER - 1
    ensures var k' := k.(mem := MapSlot(k.mem, s, f, perms));
      && Ready(k', d, p) && SameBut(k.mem, k'.mem, d, p, 1) && Lookup(k'.mem, d, p) == Mapped(f, perms)
      && k'.mem.frames == k.mem.frames[f := k.mem.frames[f].(references := k.mem.frames[f].references + 1)]
      && k'.mem.free == k.mem.free && k'.mem.dirs == k.mem.dirs && k'.mem.hand == k.mem.hand - {f}
         && k'.mem.storages == k.mem.storages
  {
    hide HeapOk, Linked, CountsOk, NoRepeats, GetPageTable, Lookup, SameBut, EntrySlot, Ready, MapSlot;
    assert Valid(k) by { ReadyValid(k, d, p); }
    Writable(k.mem, s);
    MappableFrame(k.mem, f);
    var k' := k.(mem := MapSlot(k.mem, s, f, perms));
    CountsAt(k, d, p);
    MapEmptyKeeps(k.mem, s, f, perms);
    MapEmptyFacts(k.mem, s, f, perms);
    UserEntryWritten(k, k', s, Mapped(f, perms));
    WrittenSeen(k, k', d, p, Mapped(f, perms));
  }

  /** unmap_frame of a mapped page: the page is empty, its frame has one reference less and is free if that was
      the last; nothing else changes. */
  lemma UnmapFrameKeeps(k: Kernel, d: nat, p: nat)
    requires Ready(k, d, p) && d !in k.mem.storages
    ensures var k', e := UnmapFrame(k, d, p), Lookup(k.mem, d, p);
      && Ready(k', d, p) && SameBut(k.mem, k'.mem, d, p, 1) && Lookup(k'.mem, d, p) == Unmapped
      && k'.heap == k.heap && k'.mem.dirs == k.mem.dirs && k'.mem.owner == k.mem.owner && k'.mem.hand == k.mem.hand
         && k'.mem.storages == k.mem.storages
      && |k'.mem.frames| == |k.mem.frames|
      && (e.Unmapped? ==> k' == k)
      && (e.Mapped? ==>
            && References(k.mem, e.frame) > 0
            && (forall g :: References(k'.mem, g) == References(k.mem, g) - Bit(g == e.frame))
            && (References(k.mem, e.frame) > 1 ==> k'.mem.free == k.mem.free)
            && (References(k.mem, e.frame) == 1 ==> k'.mem.free == [e.frame] + k.mem.free))
  {
    hide HeapOk, Linked, CountsOk, NoRepeats, GetPageTable, SameBut, UnmapSlot;
    ReadyValid(k, d, p);
    GetPageTableFinds(k, d, p);
    match EntrySlot(k.mem, d, p)
    case None => SameAsBefore(k, d, p);
    case Some(s) =>
      Writable(k.mem, s);
      CountsAt(k, d, p);
      if k.mem.pte[s].Mapped? {
        var k', f := UnmapFrame(k, d, p), k.mem.pte[s].frame;
        MappedHasReference(k.mem, s, f);
        UnmapSlotFacts(k.mem, s);
        UnmapSlotKeeps(k.mem, s);
        UserEntryWritten(k, k', s, Unmapped);
        WrittenSeen(k, k', d, p, Unmapped);
      } else {
        UnmapNothing(k.mem, s);
        SameAsBefore(k, d, p);
      }
  }

  lemma SameAsBefore(k: Kernel, d: nat, p: nat)
    requires Valid(k)
    ensures SameBut(k.mem, k.mem, d, p, 1)
  {
    hide Counted, HeapOk, HeapMapped, TablesOk, SlotsOk, Lookup;
  }

  /** Page `p`, which showed `e`, now shows frame `f`: on the same frame nothing changed, not even the permissions;
      otherwise the frame shown before lost one reference and `f` gained one. */
  ghost predicate Remapped(m: Mem, m': Mem, d: nat, f: nat, p: nat, perms: set<Flag>) {
    var e := Lookup(m, d, p);
    && SameBut(m, m', d, p, 1) && Lookup(m', d, p) == (if On(e, f) then e else Mapped(f, perms))
    && References(m', f) == References(m, f) + Bit(!On(e, f))
    && (forall g: nat :: g != f && References(m, g) > 0 ==> References(m', g) == References(m, g) - Bit(On(e, g)))
  }

  /** map_frame at any page, mapped or not: it panics only for want of a table, and keeps the invariant. */
  lemma MapFrameAnywhere(k: Kernel, d: nat, f: nat, p: nat, perms: set<Flag>, strategy: Strategy)
    requires Ready(k, d, p) && d !in k.mem.storages && Mappable(k.mem, f)
    ensures var r := MapFrame(k, d, f, p, perms, strategy);
      && (r.Panic? <==> !HasTable(k.mem, d, p / ENTRIES) && NoRoom(k, strategy))
      && (r.Done? ==> Valid(r.value) && Remapped(k.mem, r.value.mem, d, f, p, perms))
  {
    hide Valid, GetPageTable, EnsureTable, CanWrite, MapSlot, Lookup, EntrySlot, References, Mappable;
    if Lookup(k.mem, d, p) == Unmapped {
      MapFrameKeeps(k, d, f, p, perms, strategy);
      if MapFrame(k, d, f, p, perms, strategy).Done? {
        ReadyValid(MapFrame(k, d, f, p, perms, strategy).value, d, p);
      }
    } else {
      SlotOfMapped(k, d, p);
      EnsureTableFacts(k, d, p, strategy);
      ReadyValid(k, d, p);
      RemapSeen(k, d, p, EntrySlot(k.mem, d, p).value, f, perms);
    }
  }

  lemma SlotOfMapped(k: Kernel, d: nat, p: nat)
    requires Ready(k, d, p) && Lookup(k.mem, d, p).Mapped?
    ensures HasTable(k.mem, d, p / ENTRIES) && EntrySlot(k.mem, d, p).Some?
    ensures var s := EntrySlot(k.mem, d, p).value; s in k.mem.pte && s.InTable? && k.mem.pte[s] == Lookup(k.mem, d, p)
  {
    hide Valid;
  }

  lemma RemapSeen(k: Kernel, d: nat, p: nat, s: Slot, f: nat, perms: set<Flag>)
    requires Ready(k, d, p) && d !in k.mem.storages && Mappable(k.mem, f) && EntrySlot(k.mem, d, p) == Some(s)
    requires s in k.mem.pte && s.InTable? && k.mem.pte[s] == Lookup(k.mem, d, p) && k.mem.pte[s].Mapped?
    ensures f < |k.mem.frames| && CanWrite(k.mem, s)
    ensures var k' := k.(mem := MapSlot(k.mem, s, f, perms)); Valid(k') && Remapped(k.mem, k'.mem, d, f, p, perms)
  {
    hide HeapOk, Linked, CountsOk, NoRepeats, Lookup, SameBut, EntrySlot, GetPageTable, MapSlot, UnmapSlot;
    ReadyValid(k, d, p);
    Writable(k.mem, s);
    MappableFrame(k.mem, f);
    CountsAt(k, d, p);
    MapSlotKeeps(k.mem, s, f, perms);
    var g := k.mem.pte[s].frame;
    MappedHasReference(k.mem, s, g);
    UnmapSlotFacts(k.mem, s);
    if f == g {
      MapSame(k.mem, s, f, perms);
      SameAsBefore(k, d, p);
    } else {
      MapAfterUnmap(k.mem, s, f, perms);
      MapEmptyFacts(UnmapSlot(k.mem, s), s, f, perms);
      var k' := k.(mem := MapSlot(k.mem, s, f, perms));
      assert k'.mem.pte == k.mem.pte[s := Mapped(f, perms)];
      UserEntryWritten(k, k', s, Mapped(f, perms));
      WrittenSeen(k, k', d, p, Mapped(f, perms));
    }
  }
}
