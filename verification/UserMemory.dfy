/**
 free_user_mem of kern/mem/chunk_operations.c: the working set gives up the pages of a range, and the page
 tables of the range that are then empty go back to the kernel heap.
 */
module UserMemory {
  import opened Blocks
  import opened Paging
  import opened KernelHeap
  import opened PageTables
  import opened Chunks
  import opened WorkingSet
  import H = Heap

  predicate Hit(w: WsEntry, p: nat, n: nat) {
    !w.empty && p <= w.page < p + n
  }

  // ---------------------------------------------------------------- the working set

  /** The first loop after `j` entries: the pages of the range are unmapped. */
  function UnmapWs(k: Kernel, d: nat, ws: seq<WsEntry>, p: nat, n: nat, j: nat): Kernel
    requires j <= |ws|
  {
    if j == 0 then k
    else
      var k1 := UnmapWs(k, d, ws, p, n, j - 1);
      if Hit(ws[j - 1], p, n) then UnmapFrame(k1, d, ws[j - 1].page) else k1
  }

  function ClearWs(ws: seq<WsEntry>, p: nat, n: nat): (r: seq<WsEntry>)
    ensures |r| == |ws|
  {
    seq(|ws|, i requires 0 <= i < |ws| => if Hit(ws[i], p, n) then CLEARED else ws[i])
  }

  /** The last of the first `j` entries that is hit, or `last0` if none is: page_last_WS_index. */
  ghost predicate IsLastHit(ws: seq<WsEntry>, p: nat, n: nat, j: nat, last0: nat, last: nat) {
    if forall i :: 0 <= i < j && i < |ws| ==> !Hit(ws[i], p, n) then last == last0
    else last < j && last < |ws| && Hit(ws[last], p, n) && forall i :: last < i < j && i < |ws| ==> !Hit(ws[i], p, n)
  }

  /** A page of the range that one of the first `j` entries holds. */
  ghost predicate Resident(ws: seq<WsEntry>, p: nat, n: nat, j: nat, q: nat) {
    exists i :: 0 <= i < j && i < |ws| && Hit(ws[i], p, n) && ws[i].page == q
  }

  /** Resident pages of the range are unmapped; all else reads as before. */
  ghost predicate WsUnmapped(m: Mem, m': Mem, d: nat, ws: seq<WsEntry>, p: nat, n: nat, j: nat) {
    && m'.dirs == m.dirs && m'.owner == m.owner && m'.hand == m.hand && m'.storages == m.storages
    && (forall e, q: nat :: e in m.dirs && UserPage(q) ==>
          Lookup(m', e, q) == if e == d && Resident(ws, p, n, j, q) then Unmapped else Lookup(m, e, q))
  }

  lemma {:induction false} UnmapWsKeeps(k: Kernel, d: nat, ws: seq<WsEntry>, p: nat, n: nat, j: nat)
    requires UserRange(k, d, p, n) && j <= |ws|
    ensures var k' := UnmapWs(k, d, ws, p, n, j);
      UserRange(k', d, p, n) && k'.heap == k.heap && WsUnmapped(k.mem, k'.mem, d, ws, p, n, j)
  {
    hide Valid, Lookup, UnmapFrame;
    if j > 0 {
      UnmapWsKeeps(k, d, ws, p, n, j - 1);
      var k1, k', w := UnmapWs(k, d, ws, p, n, j - 1), UnmapWs(k, d, ws, p, n, j), ws[j - 1];
      if Hit(w, p, n) {
        IsReady(k1, d, w.page);
        UnmapFrameKeeps(k1, d, w.page);
        ReadyValid(k', d, w.page);
        forall e, q: nat | e in k.mem.dirs && UserPage(q)
          ensures Lookup(k'.mem, e, q) == if e == d && Resident(ws, p, n, j, q) then Unmapped else Lookup(k.mem, e, q) {
          if e == d && q == w.page {
            assert Resident(ws, p, n, j, q);
          } else {
            assert Lookup(k'.mem, e, q) == Lookup(k1.mem, e, q);
            assert q != w.page ==> (Resident(ws, p, n, j, q) <==> Resident(ws, p, n, j - 1, q));
          }
        }
      } else {
        forall q: nat ensures Resident(ws, p, n, j, q) <==> Resident(ws, p, n, j - 1, q) {
          if Resident(ws, p, n, j, q) {
            var i :| 0 <= i < j && i < |ws| && Hit(ws[i], p, n) && ws[i].page == q;
            assert i < j - 1;
          }
        }
      }
    }
  }

  // ---------------------------------------------------------------- empty page tables

  /** No entry of the table on directory entry `x` maps anything. */
  ghost predicate TableEmpty(m: Mem, t: nat) {
    forall j: nat :: j < ENTRIES && InTable(t, j) in m.pte ==> m.pte[InTable(t, j)] == Unmapped
  }

  /** Clearing directory entry `x`, whose table is `t`. */
  function UnhangTable(m: Mem, t: nat, d: nat, x: nat): Mem
    requires d in m.dirs && x < |m.dirs[d]|
  {
    m.(pte := m.pte - TableSlots(t), dirs := m.dirs[d := m.dirs[d][x := NoTable]], owner := m.owner - {t})
  }

  lemma UnhangKeeps(k: Kernel, t: nat, d: nat, x: nat)
    requires Valid(k) && d in k.mem.dirs && x < TABLES && |k.mem.dirs[d]| == TABLES && k.mem.dirs[d][x] == Table(t)
    requires TableEmpty(k.mem, t)
    ensures Valid(k.(mem := UnhangTable(k.mem, t, d, x)))
  {
    hide Counted, HeapOk, InUse;
    var m, m' := k.mem, UnhangTable(k.mem, t, d, x);
    assert HangsOn(m, t, d, x);
    forall s | s in m.pte && s in TableSlots(t) ensures m.pte[s] == Unmapped { assert s == InTable(t, s.index); }
    EmptySlotsKeep(m, m');
    hide EntriesOk;
    UnhangDirs(m, t, d, x);
    UnhangSlots(m, t, d, x);
    UnhangTables(k, t, d, x);
    hide TablesOk, DirsOk;
    forall q: nat | HeapPage(q) ensures (IsMapped(m', KernelPage(q)) <==> InUse(k.heap, q)) && Records(m', q) {
      assert IsSlot(m, KernelPage(q));
      assert KernelPage(q) !in TableSlots(t);
    }
  }

  lemma UnhangDirs(m: Mem, t: nat, d: nat, x: nat)
    requires DirsOk(m) && d in m.dirs && x < |m.dirs[d]| && m.dirs[d][x] == Table(t)
    ensures DirsOk(UnhangTable(m, t, d, x))
  {
    var m' := UnhangTable(m, t, d, x);
    assert HangsOn(m, t, d, x);
    forall e: nat, y: nat, u: nat | HangsOn(m', u, e, y) ensures u in m'.owner && m'.owner[u] == (e, y) {
      assert HangsOn(m, u, e, y);
    }
  }

  lemma UnhangSlots(m: Mem, t: nat, d: nat, x: nat)
    requires SlotsOk(m) && d in m.dirs && x < |m.dirs[d]|
    ensures SlotsOk(UnhangTable(m, t, d, x))
  {
    var m' := UnhangTable(m, t, d, x);
    forall s ensures s in m'.pte <==> IsSlot(m', s) {
      assert s in m.pte <==> IsSlot(m, s);
      assert s in TableSlots(t) <==> s.InTable? && s.table == t && s.index < ENTRIES;
    }
  }

  lemma UnhangTables(k: Kernel, t: nat, d: nat, x: nat)
    requires TablesOk(k) && DirsOk(k.mem) && d in k.mem.dirs && x < |k.mem.dirs[d]| && k.mem.dirs[d][x] == Table(t)
    ensures TablesOk(k.(mem := UnhangTable(k.mem, t, d, x)))
  {
    var m, m' := k.mem, UnhangTable(k.mem, t, d, x);
    assert HangsOn(m, t, d, x);
    forall u | u in m'.owner ensures TableOk(k.(mem := m'), u) && HangsOn(m', u, m'.owner[u].0, m'.owner[u].1) {
      assert TableOk(k, u) && HangsOn(m, u, m.owner[u].0, m.owner[u].1);
      assert KernelPage(m.frames[u].va / H.PAGE) !in TableSlots(t);
    }
  }

  // ---------------------------------------------------------------- what goes back

  /** Frames only lose references and only gain freedom, and what a frame still in use records stays. */
  ghost predicate FramesReleased(m: Mem, m': Mem) {
    && |m'.frames| == |m.frames| && (forall g: nat :: References(m', g) <= References(m, g))
    && (forall g: nat :: References(m', g) > 0 ==> m'.frames[g].va == m.frames[g].va)
    && (forall f :: f in m.free ==> f in m'.free)
  }

  lemma ReleasedTwice(m: Mem, m1: Mem, m2: Mem)
    requires FramesReleased(m, m1) && FramesReleased(m1, m2)
    ensures FramesReleased(m, m2)
  {
    forall g: nat ensures References(m2, g) <= References(m, g) {
      assert References(m1, g) <= References(m, g) && References(m2, g) <= References(m1, g);
    }
  }

  lemma UnmapReleases(m: Mem, s: Slot)
    requires Counted(m) && s in m.pte && Counts(m, s)
    ensures (m.pte[s].Mapped? ==> m.pte[s].frame < |m.frames|) && FramesReleased(m, UnmapSlot(m, s))
    ensures m.pte[s].Mapped? ==>
      var m', f := UnmapSlot(m, s), m.pte[s].frame;
      References(m', f) == References(m, f) - 1 && (References(m, f) == 1 ==> f in m'.free)
  {
    hide FreeOk, CountsOk, UnmapSlot;
    if m.pte[s].Mapped? {
      MappedHasReference(m, s, m.pte[s].frame);
      UnmapSlotFacts(m, s);
    } else {
      UnmapNothing(m, s);
    }
  }

  lemma {:induction false} RunReleases(m: Mem, p: nat, n: nat)
    requires Counted(m) && forall q: nat :: p <= q < p + n ==> KernelPage(q) in m.pte
    ensures FramesReleased(m, UnmapRun(m, p, n))
  {
    hide Counted, FramesReleased, UnmapSlot;
    if n == 0 {
      NothingReleased(m);
    } else {
      RunReleases(m, p, n - 1);
      UnmapRunFacts(m, p, n - 1);
      var m1, s := UnmapRun(m, p, n - 1), KernelPage(p + n - 1);
      assert s in m.pte.Keys;
      Writable(m1, s);
      UnmapReleases(m1, s);
      ReleasedTwice(m, m1, UnmapSlot(m1, s));
    }
  }

  /** The block is not allocated any more, the others are, and the heap has its bytes back. */
  ghost predicate BlockReturned(h: H.Heap, h': H.Heap, b: Block) {
    && b in h.alloc && (forall c :: c in h'.alloc <==> c in h.alloc && c != b)
    && Total(h'.free) == Total(h.free) + b.size
  }

  lemma FreeReturns(h: H.Heap, a: nat)
    requires HeapOk(h) && H.Allocated(h, a)
    ensures BlockReturned(h, H.Free(h, a), h.alloc[H.FindFrom(h.alloc, a, 0)])
  {
    var i := H.FindFrom(h.alloc, a, 0);
    var b, rest := h.alloc[i], Splice(h.alloc, i, i + 1, []);
    MergedTotal(h.free, b);
    forall c | c in h.alloc && c != b ensures c in rest { OthersStay(h, i, c); }
    forall c | c in rest ensures c in h.alloc && c != b { RestIsOther(h, i, c); }
  }

  lemma RestIsOther(h: H.Heap, i: nat, c: Block)
    requires HeapOk(h) && i < |h.alloc| && c in Splice(h.alloc, i, i + 1, [])
    ensures c in h.alloc && c != h.alloc[i]
  {
    hide Coalesced, Total, Space, H.Paged, Splice, Ordered;
    OthersOf(h.alloc, i, c);
  }

  lemma OthersOf(bs: seq<Block>, i: nat, c: Block)
    requires Ordered(bs) && i < |bs| && c in Splice(bs, i, i + 1, [])
    ensures c in bs && c != bs[i]
  {
    var rest := Splice(bs, i, i + 1, []);
    var j :| 0 <= j < |rest| && rest[j] == c;
    var k := if j < i then j else j + 1;
    assert bs[k] == c;
    assert if k < i then bs[k].End() <= bs[i].sva else bs[i].End() <= bs[k].sva;
  }

  /** kfree of a block of one page, whose frame is `t`. */
  ghost predicate PageReturned(k: Kernel, k': Kernel, va: nat, t: nat) {
    && BlockReturned(k.heap, k'.heap, Block(va, H.PAGE)) && FramesReleased(k.mem, k'.mem)
    && References(k'.mem, t) == References(k.mem, t) - 1 && (References(k.mem, t) == 1 ==> t in k'.mem.free)
  }

  lemma KfreeReturns(k: Kernel, va: nat, t: nat)
    requires Valid(k) && NotATable(k, va) && Block(va, H.PAGE) in k.heap.alloc && RoundDown(va) == va
    requires KernelPage(va / H.PAGE) in k.mem.pte && On(k.mem.pte[KernelPage(va / H.PAGE)], t)
    ensures PageReturned(k, Kfree(k, va), va, t)
  {
    hide Valid, H.Free, NotATable, BlockReturned, FramesReleased, UnmapSlot, HeapOk;
    ValidHeap(k);
    BlockFound(k.heap, Block(va, H.PAGE));
    FreeReturns(k.heap, va);
    ValidCounted(k);
    UnmapReleases(k.mem, KernelPage(va / H.PAGE));
    Writable(k.mem, KernelPage(va / H.PAGE));
    assert UnmapRun(k.mem, va / H.PAGE, 1) == UnmapSlot(k.mem, KernelPage(va / H.PAGE)) by {
      OnePage(k.mem, va / H.PAGE);
    }
  }

  lemma ValidCounted(k: Kernel)
    requires Valid(k)
    ensures Counted(k.mem)
  {
  }

  lemma OnePage(m: Mem, p: nat)
    requires CanWrite(m, KernelPage(p))
    ensures UnmapRun(m, p, 1) == UnmapSlot(m, KernelPage(p))
  {
    assert UnmapRun(m, p, 0) == m;
  }

  lemma BlockFound(h: H.Heap, b: Block)
    requires HeapOk(h) && b in h.alloc
    ensures H.Allocated(h, b.sva) && h.alloc[H.FindFrom(h.alloc, b.sva, 0)] == b
  {
    hide Coalesced, Total, Space, H.Paged;
    var i :| 0 <= i < |h.alloc| && h.alloc[i] == b;
    var j := H.FindFrom(h.alloc, b.sva, 0);
    assert j <= i;
  }

  /** One turn of the second loop, the page file aside: a table without entries is freed and its directory entry
      cleared.  (The source clears the entry just after kfree, which does not read it.) */
  ghost function RemoveIfEmpty(k: Kernel, d: nat, q: nat): Kernel {
    var r, x := GetPageTable(k.mem, d, q), q / ENTRIES;
    if r.At? && r.table < |k.mem.frames| && d in k.mem.dirs && x < |k.mem.dirs[d]| && TableEmpty(k.mem, r.table)
    then Kfree(k.(mem := UnhangTable(k.mem, r.table, d, x)), k.mem.frames[r.table].va)
    else k
  }

  ghost predicate SameTables(m: Mem, m': Mem, d: nat, x: nat) {
    m'.dirs.Keys == m.dirs.Keys && m'.hand == m.hand && m'.storages == m.storages
    && forall e, y: nat :: e in m.dirs && !(e == d && y == x) ==> Entry(m', e, y) == Entry(m, e, y)
  }

  /** All pages under directory entry `x` are unmapped. */
  ghost predicate NothingUnder(m: Mem, d: nat, x: nat) {
    forall q: nat :: q / ENTRIES == x ==> Lookup(m, d, q) == Unmapped
  }

  lemma EmptyMeansNothing(k: Kernel, d: nat, x: nat, t: nat)
    requires Valid(k) && d in k.mem.dirs && |k.mem.dirs[d]| == TABLES && x < TABLES && k.mem.dirs[d][x] == Table(t)
    ensures TableEmpty(k.mem, t) <==> NothingUnder(k.mem, d, x)
  {
    hide Valid, GetPageTable;
    forall q: nat | q / ENTRIES == x ensures UserPage(q) && EntrySlot(k.mem, d, q) == Some(InTable(t, q % ENTRIES)) {
      GetPageTableFinds(k, d, q);
    }
    if TableEmpty(k.mem, t) {
      assert NothingUnder(k.mem, d, x);
    }
    if NothingUnder(k.mem, d, x) {
      forall j: nat | j < ENTRIES && InTable(t, j) in k.mem.pte ensures k.mem.pte[InTable(t, j)] == Unmapped {
        var q := x * ENTRIES + j;
        assert q / ENTRIES == x && q % ENTRIES == j;
        assert Lookup(k.mem, d, q) == Unmapped;
      }
    }
  }

  lemma UnhangUnseen(k: Kernel, k': Kernel, t: nat, d: nat, x: nat)
    requires Valid(k) && Valid(k') && d in k.mem.dirs && x < TABLES && |k.mem.dirs[d]| == TABLES
    requires k.mem.dirs[d][x] == Table(t) && TableEmpty(k.mem, t)
    requires k'.mem == UnhangTable(k.mem, t, d, x)
    ensures SameBut(k.mem, k'.mem, d, 0, 0)
    ensures SameTables(k.mem, k'.mem, d, x) && !HasTable(k'.mem, d, x)
  {
    hide Valid, GetPageTable;
    var m, m' := k.mem, k'.mem;
    forall e | e in m.dirs ensures |m.dirs[e]| == TABLES && |m'.dirs[e]| == TABLES {
      IsReady(k, e, 0);
      IsReady(k', e, 0);
    }
    forall e, q: nat | e in m.dirs && UserPage(q) ensures Lookup(m', e, q) == Lookup(m, e, q) {
      GetPageTableFinds(k, e, q);
      GetPageTableFinds(k', e, q);
      GetPageTableFinds(k, d, x * ENTRIES);
      assert x * ENTRIES / ENTRIES == x;
    }
  }

  /** Freeing a block of the kernel heap changes nothing the user sees. */
  lemma KfreeUnseen(k: Kernel, va: nat, d: nat)
    requires Valid(k) && NotATable(k, va)
    ensures Valid(Kfree(k, va)) && SameBut(k.mem, Kfree(k, va).mem, d, 0, 0)
    ensures Kfree(k, va).mem.dirs == k.mem.dirs && Kfree(k, va).mem.hand == k.mem.hand
  {
    hide Valid, Kfree, Lookup, NotATable;
    KfreeMem(k, va);
    var k' := Kfree(k, va);
    forall e | e in k.mem.dirs ensures |k.mem.dirs[e]| == TABLES { IsReady(k, e, 0); }
    forall e, q: nat | e in k.mem.dirs && UserPage(q) ensures Lookup(k'.mem, e, q) == Lookup(k.mem, e, q) {
      SameEntriesSeen(k, k', e, q);
    }
  }

  lemma KfreeMem(k: Kernel, va: nat)
    requires Valid(k) && NotATable(k, va)
    ensures var k' := Kfree(k, va);
      && Valid(k') && k'.mem.dirs == k.mem.dirs && k'.mem.hand == k.mem.hand && k'.mem.storages == k.mem.storages
      && forall s :: s in k.mem.pte && s.InTable? ==> s in k'.mem.pte && k'.mem.pte[s] == k.mem.pte[s]
  {
    hide Valid, Kfree, NotATable, BlockFreed;
    KfreeKeeps(k, va);
    var k' := Kfree(k, va);
    forall s | s in k.mem.pte && s.InTable? ensures s in k'.mem.pte && k'.mem.pte[s] == k.mem.pte[s] {
      assert s in k.mem.pte.Keys;
    }
  }

  /** The heap block of the table on directory entry `x`. */
  function TableBlock(m: Mem, d: nat, x: nat): Block {
    match Entry(m, d, x)
    case NoTable => Block(0, 0)
    case Table(t) => if t < |m.frames| then Block(m.frames[t].va, H.PAGE) else Block(0, 0)
  }

  /** The table on directory entry `x` has given back its heap block and its frame. */
  ghost predicate TableReturned(k: Kernel, k': Kernel, d: nat, x: nat) {
    match Entry(k.mem, d, x)
    case NoTable => false
    case Table(t) => t < |k.mem.frames| && PageReturned(k, k', k.mem.frames[t].va, t)
  }

  /** A table is removed exactly if nothing is mapped under its directory entry; then its heap block and its frame go
      back, and nobody notices.  Otherwise nothing changes. */
  lemma RemoveIfEmptyKeeps(k: Kernel, d: nat, q: nat)
    requires Ready(k, d, q)
    ensures var k', x := RemoveIfEmpty(k, d, q), q / ENTRIES;
      && Ready(k', d, q) && SameBut(k.mem, k'.mem, d, 0, 0) && SameTables(k.mem, k'.mem, d, x)
      && (HasTable(k'.mem, d, x) <==> HasTable(k.mem, d, x) && !NothingUnder(k.mem, d, x))
      && (if HasTable(k.mem, d, x) && NothingUnder(k.mem, d, x) then TableReturned(k, k', d, x) else k' == k)
  {
    hide Valid, GetPageTable, Kfree, UnhangTable, PageReturned, NothingUnder;
    ReadyValid(k, d, q);
    GetPageTableFinds(k, d, q);
    var x := q / ENTRIES;
    match k.mem.dirs[d][x]
    case NoTable => SameAsBefore(k, d, 0);
    case Table(t) =>
      EmptyMeansNothing(k, d, x, t);
      TableFrame(k, t);
      if TableEmpty(k.mem, t) {
        EmptyTableFreed(k, d, x, t);
        IsReady(RemoveIfEmpty(k, d, q), d, q);
      } else {
        SameAsBefore(k, d, 0);
      }
  }

  lemma TableFrame(k: Kernel, t: nat)
    requires Valid(k)
    ensures t in k.mem.owner ==> t < |k.mem.frames|
  {
    hide Counted, HeapOk, HeapMapped, DirsOk, SlotsOk;
    if t in k.mem.owner { assert TableOk(k, t); }
  }

  lemma EmptyTableFreed(k: Kernel, d: nat, x: nat, t: nat)
    requires Valid(k) && d in k.mem.dirs && |k.mem.dirs[d]| == TABLES && x < TABLES && k.mem.dirs[d][x] == Table(t)
    requires t < |k.mem.frames| && t in k.mem.owner && TableEmpty(k.mem, t)
    ensures var k' := Kfree(k.(mem := UnhangTable(k.mem, t, d, x)), k.mem.frames[t].va);
      && Valid(k') && SameBut(k.mem, k'.mem, d, 0, 0) && SameTables(k.mem, k'.mem, d, x) && !HasTable(k'.mem, d, x)
      && PageReturned(k, k', k.mem.frames[t].va, t)
  {
    hide PageReturned, NotATable;
    hide Valid, Kfree, UnhangTable, Lookup, TableEmpty;
    UnhangFields(k.mem, t, d, x);
    var k1 := k.(mem := UnhangTable(k.mem, t, d, x));
    UnhangKeeps(k, t, d, x);
    UnhangUnseen(k, k1, t, d, x);
    TablesOwnAddresses(k, t, d, x);
    KfreeUnseen(k1, k.mem.frames[t].va, d);
    var k' := Kfree(k1, k.mem.frames[t].va);
    assert SameBut(k.mem, k'.mem, d, 0, 0);
    forall e, y: nat ensures Entry(k'.mem, e, y) == Entry(k1.mem, e, y) { }
    UnhungTableMapped(k, k1, t, d, x);
    KfreeReturns(k1, k.mem.frames[t].va, t);
    ReturnedAlso(k, k1, k', k.mem.frames[t].va, t);
  }

  /** A table taken off its directory is still an allocated page. */
  lemma UnhungTableMapped(k: Kernel, k1: Kernel, t: nat, d: nat, x: nat)
    requires Valid(k) && t in k.mem.owner && t < |k.mem.frames| && d in k.mem.dirs && x < |k.mem.dirs[d]|
    requires k1 == k.(mem := UnhangTable(k.mem, t, d, x))
    ensures var va := k.mem.frames[t].va;
      && Block(va, H.PAGE) in k1.heap.alloc && RoundDown(va) == va
      && KernelPage(va / H.PAGE) in k1.mem.pte && On(k1.mem.pte[KernelPage(va / H.PAGE)], t)
  {
    hide Counted, HeapMapped, DirsOk, SlotsOk, TableEmpty;
    assert TableOk(k, t);
    InRegionAligned(k, k.mem.frames[t].va);
    assert KernelPage(k.mem.frames[t].va / H.PAGE) !in TableSlots(t);
  }

  lemma ReturnedAlso(k: Kernel, k1: Kernel, k': Kernel, va: nat, t: nat)
    requires PageReturned(k1, k', va, t) && k1.heap == k.heap && k1.mem.frames == k.mem.frames
    requires k1.mem.free == k.mem.free
    ensures PageReturned(k, k', va, t)
  {
    hide BlockReturned;
  }

  lemma UnhangFields(m: Mem, t: nat, d: nat, x: nat)
    requires d in m.dirs && x < |m.dirs[d]|
    ensures UnhangTable(m, t, d, x).frames == m.frames && UnhangTable(m, t, d, x).owner == m.owner - {t}
    ensures UnhangTable(m, t, d, x).hand == m.hand && UnhangTable(m, t, d, x).free == m.free
  {
  }

  /** No other table lies at the address of table `t`. */
  lemma TablesOwnAddresses(k: Kernel, t: nat, d: nat, x: nat)
    requires Valid(k) && t in k.mem.owner && t < |k.mem.frames| && d in k.mem.dirs && x < |k.mem.dirs[d]|
    ensures NotATable(k.(mem := UnhangTable(k.mem, t, d, x)), k.mem.frames[t].va)
  {
    hide Counted, HeapMapped, DirsOk, SlotsOk, TableEmpty;
    UnhangFields(k.mem, t, d, x);
    hide UnhangTable;
    assert TableOk(k, t);
    InRegionAligned(k, k.mem.frames[t].va);
    forall u | u in k.mem.owner && u != t ensures u < |k.mem.frames| && k.mem.frames[u].va != k.mem.frames[t].va {
      assert TableOk(k, u);
    }
  }

  lemma InRegionAligned(k: Kernel, va: nat)
    requires HeapOk(k.heap) && Block(va, H.PAGE) in k.heap.alloc
    ensures RoundDown(va) == va
  {
    InRegion(k.heap, Block(va, H.PAGE));
  }

  // ---------------------------------------------------------------- free_user_mem

  /** The second loop after `n` pages. */
  ghost function SweepTables(k: Kernel, d: nat, p: nat, n: nat): Kernel {
    if n == 0 then k else RemoveIfEmpty(SweepTables(k, d, p, n - 1), d, p + n - 1)
  }

  /** Exactly the tables of the range that map nothing are gone, and nobody notices. */
  ghost predicate Swept(m: Mem, m': Mem, d: nat, p: nat, n: nat) {
    && SameBut(m, m', d, 0, 0) && m'.hand == m.hand
    && (forall e, x: nat :: e in m.dirs && x < TABLES ==>
          (HasTable(m', e, x) <==> HasTable(m, e, x) && !(e == d && x in Covering(p, n) && NothingUnder(m, d, x))))
  }

  /** The directory entries of the range whose tables are gone. */
  ghost function Gone(m: Mem, m': Mem, d: nat, p: nat, n: nat): set<nat> {
    set x | x in Covering(p, n) && HasTable(m, d, x) && !HasTable(m', d, x)
  }

  /** The heap has a page more for each table that is gone: its block is not allocated any more and all other blocks
      are; and the table's frame is free unless something else maps it too. */
  ghost predicate TablesReturned(k: Kernel, k': Kernel, d: nat, p: nat, n: nat) {
    var gone := Gone(k.mem, k'.mem, d, p, n);
    && Total(k'.heap.free) == Total(k.heap.free) + H.PAGE * |gone|
    && (forall x :: x in gone ==>
          && TableBlock(k.mem, d, x) in k.heap.alloc && TableBlock(k.mem, d, x) !in k'.heap.alloc
          && (References(k.mem, Entry(k.mem, d, x).frame) == 1 ==> Entry(k.mem, d, x).frame in k'.mem.free))
    && (forall c :: c in k'.heap.alloc ==> c in k.heap.alloc)
    && (forall c :: c in k.heap.alloc && c !in k'.heap.alloc ==> exists x :: x in gone && c == TableBlock(k.mem, d, x))
  }

  /** No table moved: what the directories still show they showed before. */
  ghost predicate TablesStay(m: Mem, m': Mem) {
    forall e: nat, x: nat :: HasTable(m', e, x) ==> Entry(m', e, x) == Entry(m, e, x)
  }

  lemma {:induction false} SweepTablesKeeps(k: Kernel, d: nat, p: nat, n: nat)
    requires UserRange(k, d, p, n)
    ensures var k' := SweepTables(k, d, p, n); UserRange(k', d, p, n) && Swept(k.mem, k'.mem, d, p, n)
    ensures var k' := SweepTables(k, d, p, n);
      FramesReleased(k.mem, k'.mem) && TablesStay(k.mem, k'.mem) && TablesReturned(k, k', d, p, n)
  {
    hide Valid, Lookup, HasTable, RemoveIfEmpty, Total, FramesReleased, TableReturned, NothingUnder;
    if n == 0 {
      SameAsBefore(k, d, 0);
      assert SameBut(k.mem, k.mem, d, 0, 0);
      assert FramesReleased(k.mem, k.mem) by { NothingReleased(k.mem); }
      assert Gone(k.mem, k.mem, d, p, 0) == {};
    } else {
      SweepTablesKeeps(k, d, p, n - 1);
      var k1 := SweepTables(k, d, p, n - 1);
      IsReady(k1, d, p + n - 1);
      RemoveIfEmptyKeeps(k1, d, p + n - 1);
      ReadyValid(RemoveIfEmpty(k1, d, p + n - 1), d, p + n - 1);
      OneMoreSwept(k.mem, k1.mem, RemoveIfEmpty(k1, d, p + n - 1).mem, d, p, n);
      OneMoreReturned(k, k1, RemoveIfEmpty(k1, d, p + n - 1), d, p, n);
    }
  }

  lemma NothingReleased(m: Mem)
    ensures FramesReleased(m, m)
  {
  }

  lemma OneMoreReturned(k: Kernel, k1: Kernel, k': Kernel, d: nat, p: nat, n: nat)
    requires n > 0 && Valid(k1) && d in k.mem.dirs && p + n <= USER_END
    requires FramesReleased(k.mem, k1.mem) && TablesStay(k.mem, k1.mem)
    requires Swept(k.mem, k1.mem, d, p, n - 1) && TablesReturned(k, k1, d, p, n - 1)
    requires var x := (p + n - 1) / ENTRIES;
      && SameTables(k1.mem, k'.mem, d, x)
      && (HasTable(k'.mem, d, x) <==> HasTable(k1.mem, d, x) && !NothingUnder(k1.mem, d, x))
      && (if HasTable(k1.mem, d, x) && NothingUnder(k1.mem, d, x) then TableReturned(k1, k', d, x) else k' == k1)
    ensures FramesReleased(k.mem, k'.mem) && TablesStay(k.mem, k'.mem) && TablesReturned(k, k', d, p, n)
  {
    hide Valid, Lookup, HasTable, Total, FramesReleased, NothingUnder, TablesReturned, TableReturned, Swept;
    var z := (p + n - 1) / ENTRIES;
    if HasTable(k1.mem, d, z) && NothingUnder(k1.mem, d, z) {
      GoneGrows(k.mem, k1.mem, k'.mem, d, p, n);
      SameBlock(k, k1, d, z);
      OneMoreBack(k, k1, k', d, p, n);
      StayTwice(k.mem, k1.mem, k'.mem, d, z);
    } else {
      GoneSame(k.mem, k1.mem, d, p, n);
      StillReturned(k, k1, d, p, n);
    }
  }

  lemma StayTwice(m: Mem, m1: Mem, m': Mem, d: nat, z: nat)
    requires TablesStay(m, m1) && SameTables(m1, m', d, z) && !HasTable(m', d, z)
    ensures TablesStay(m, m')
  {
    forall e: nat, x: nat | HasTable(m', e, x) ensures Entry(m', e, x) == Entry(m, e, x) {
      assert Entry(m', e, x) == Entry(m1, e, x);
    }
  }

  lemma GoneSame(m: Mem, m1: Mem, d: nat, p: nat, n: nat)
    requires n > 0 && Swept(m, m1, d, p, n - 1) && d in m.dirs && p + n <= USER_END
    ensures Gone(m, m1, d, p, n) == Gone(m, m1, d, p, n - 1)
  {
    hide Lookup, HasTable;
  }

  lemma GoneGrows(m: Mem, m1: Mem, m': Mem, d: nat, p: nat, n: nat)
    requires n > 0 && Swept(m, m1, d, p, n - 1) && d in m.dirs && p + n <= USER_END
    requires var z := (p + n - 1) / ENTRIES; SameTables(m1, m', d, z) && HasTable(m1, d, z) && !HasTable(m', d, z)
    ensures var z := (p + n - 1) / ENTRIES;
      z !in Gone(m, m1, d, p, n - 1) && Gone(m, m', d, p, n) == Gone(m, m1, d, p, n - 1) + {z}
  {
    hide Lookup, NothingUnder;
    var z := (p + n - 1) / ENTRIES;
    forall x: nat | x != z ensures HasTable(m', d, x) == HasTable(m1, d, x) {
      assert Entry(m', d, x) == Entry(m1, d, x);
    }
    hide HasTable;
  }

  /** A table that is still there lies in the block where it lay. */
  lemma SameBlock(k: Kernel, k1: Kernel, d: nat, z: nat)
    requires Valid(k1) && HasTable(k1.mem, d, z) && FramesReleased(k.mem, k1.mem) && TablesStay(k.mem, k1.mem)
    ensures Entry(k.mem, d, z) == Entry(k1.mem, d, z) && TableBlock(k.mem, d, z) == TableBlock(k1.mem, d, z)
    ensures var t := Entry(k.mem, d, z).frame;
      t < |k.mem.frames| == |k1.mem.frames| && 0 < References(k1.mem, t) <= References(k.mem, t)
  {
    hide HeapOk, HeapMapped, SlotsOk;
    var t := Entry(k1.mem, d, z).frame;
    assert HangsOn(k1.mem, t, d, z);
    assert TableOk(k1, t);
    hide Counted;
    MappedHasReference(k1.mem, KernelPage(k1.mem.frames[t].va / H.PAGE), t);
  }

  lemma StillReturned(k: Kernel, k1: Kernel, d: nat, p: nat, n: nat)
    requires n > 0 && TablesReturned(k, k1, d, p, n - 1)
    requires Gone(k.mem, k1.mem, d, p, n) == Gone(k.mem, k1.mem, d, p, n - 1)
    ensures TablesReturned(k, k1, d, p, n)
  {
    hide Total, HasTable, References, Gone;
  }

  lemma OneMoreBack(k: Kernel, k1: Kernel, k': Kernel, d: nat, p: nat, n: nat)
    requires n > 0 && TablesReturned(k, k1, d, p, n - 1) && FramesReleased(k.mem, k1.mem)
    requires var z := (p + n - 1) / ENTRIES;
      && z !in Gone(k.mem, k1.mem, d, p, n - 1)
      && Gone(k.mem, k'.mem, d, p, n) == Gone(k.mem, k1.mem, d, p, n - 1) + {z}
      && TableReturned(k1, k', d, z) && Entry(k.mem, d, z) == Entry(k1.mem, d, z)
      && TableBlock(k.mem, d, z) == TableBlock(k1.mem, d, z)
      && 0 < References(k1.mem, Entry(k.mem, d, z).frame) <= References(k.mem, Entry(k.mem, d, z).frame)
    ensures FramesReleased(k.mem, k'.mem) && TablesReturned(k, k', d, p, n)
  {
    hide Total, HasTable, References, Gone;
    var z, gone := (p + n - 1) / ENTRIES, Gone(k.mem, k1.mem, d, p, n - 1);
    ReleasedTwice(k.mem, k1.mem, k'.mem);
    assert |gone + {z}| == |gone| + 1;
    forall c | c in k.heap.alloc && c !in k'.heap.alloc
      ensures exists x :: x in gone + {z} && c == TableBlock(k.mem, d, x)
    {
      if c in k1.heap.alloc {
        assert c == TableBlock(k.mem, d, z) && z in gone + {z};
      } else {
        var x :| x in gone && c == TableBlock(k.mem, d, x);
        assert x in gone + {z};
      }
    }
  }

  lemma OneMoreSwept(m: Mem, m1: Mem, m': Mem, d: nat, p: nat, n: nat)
    requires n > 0 && p + n <= USER_END && d in m.dirs && Swept(m, m1, d, p, n - 1)
    requires SameBut(m1, m', d, 0, 0)
    requires var x := (p + n - 1) / ENTRIES;
      SameTables(m1, m', d, x) && (HasTable(m', d, x) <==> HasTable(m1, d, x) && !NothingUnder(m1, d, x))
    ensures Swept(m, m', d, p, n)
  {
    hide Lookup;
    var z := (p + n - 1) / ENTRIES;
    forall q: nat | q / ENTRIES == z ensures Lookup(m1, d, q) == Lookup(m, d, q) { assert UserPage(q); }
    assert NothingUnder(m1, d, z) <==> NothingUnder(m, d, z);
    hide NothingUnder;
    assert SameBut(m, m', d, 0, 0);
    forall e, x: nat | e in m.dirs && x < TABLES
      ensures HasTable(m', e, x) <==> HasTable(m, e, x) && !(e == d && x in Covering(p, n) && NothingUnder(m, d, x)) {
      if !(e == d && x == z) {
        assert Entry(m', e, x) == Entry(m1, e, x);
      }
    }
  }

  /** free_user_mem, the page file aside */
  ghost function FreeUserMem(k: Kernel, d: nat, ws: seq<WsEntry>, p: nat, n: nat): (Kernel, seq<WsEntry>) {
    (SweepTables(UnmapWs(k, d, ws, p, n, |ws|), d, p, n), ClearWs(ws, p, n))
  }

  lemma {:induction false} WsReleases(k: Kernel, d: nat, ws: seq<WsEntry>, p: nat, n: nat, j: nat)
    requires UserRange(k, d, p, n) && j <= |ws|
    ensures FramesReleased(k.mem, UnmapWs(k, d, ws, p, n, j).mem)
  {
    if j == 0 {
      NothingReleased(k.mem);
    } else {
      hide Valid, UnmapFrame, FramesReleased, WsUnmapped;
      WsReleases(k, d, ws, p, n, j - 1);
      UnmapWsKeeps(k, d, ws, p, n, j - 1);
      var k1, w := UnmapWs(k, d, ws, p, n, j - 1), ws[j - 1];
      if Hit(w, p, n) {
        IsReady(k1, d, w.page);
        FrameReleases(k1, d, w.page);
        ReleasedTwice(k.mem, k1.mem, UnmapFrame(k1, d, w.page).mem);
      }
    }
  }

  lemma FrameReleases(k: Kernel, d: nat, q: nat)
    requires Ready(k, d, q) && d !in k.mem.storages
    ensures FramesReleased(k.mem, UnmapFrame(k, d, q).mem)
  {
    hide HeapOk, Linked, Counted, FramesReleased, UnmapSlot;
    NothingReleased(k.mem);
    ReadyValid(k, d, q);
    match EntrySlot(k.mem, d, q)
    case None =>
    case Some(s) =>
      CountsAt(k, d, q);
      if CanWrite(k.mem, s) { UnmapReleases(k.mem, s); }
  }

  /** What the working set gave up before does not matter for the tables. */
  lemma ReturnedSinceStart(k: Kernel, k1: Kernel, k': Kernel, d: nat, p: nat, n: nat)
    requires Valid(k1) && k1.heap == k.heap && k1.mem.dirs == k.mem.dirs && FramesReleased(k.mem, k1.mem)
    requires TablesReturned(k1, k', d, p, n)
    ensures TablesReturned(k, k', d, p, n)
  {
    hide Valid, Total, References, FramesReleased;
    assert forall e: nat, x: nat :: Entry(k1.mem, e, x) == Entry(k.mem, e, x);
    hide Entry;
    assert Gone(k.mem, k'.mem, d, p, n) == Gone(k1.mem, k'.mem, d, p, n);
    forall x | x in Gone(k.mem, k'.mem, d, p, n)
      ensures TableBlock(k.mem, d, x) == TableBlock(k1.mem, d, x)
      ensures 0 < References(k1.mem, Entry(k.mem, d, x).frame) <= References(k.mem, Entry(k.mem, d, x).frame) {
      SameBlock(k, k1, d, x);
    }
  }

  /** free_user_mem leaves no working-set entry in the range, unmaps exactly the pages of the range that were in
      the working set, removes exactly the tables of the range that are then empty and gives back the heap block and
      the frame of each, and touches nothing else. */
  lemma FreeUserMemFrees(k: Kernel, d: nat, ws: seq<WsEntry>, p: nat, n: nat)
    requires UserRange(k, d, p, n)
    ensures var (k', ws') := FreeUserMem(k, d, ws, p, n);
      && Valid(k') && k'.mem.hand == k.mem.hand && k'.mem.storages == k.mem.storages
      && k'.mem.dirs.Keys == k.mem.dirs.Keys
      && (forall i :: 0 <= i < |ws'| ==> !Hit(ws'[i], p, n))
      && (forall i :: 0 <= i < |ws| && !Hit(ws[i], p, n) ==> ws'[i] == ws[i])
      && (forall e, q: nat :: e in k.mem.dirs && UserPage(q) ==>
            Lookup(k'.mem, e, q) == if e == d && Resident(ws, p, n, |ws|, q) then Unmapped else Lookup(k.mem, e, q))
      && (forall e, x: nat :: e in k.mem.dirs && x < TABLES ==>
            (HasTable(k'.mem, e, x) <==>
             HasTable(k.mem, e, x) && !(e == d && x in Covering(p, n) && NothingUnder(k'.mem, d, x))))
      && TablesReturned(k, k', d, p, n)
  {
    hide Valid, Lookup, RemoveIfEmpty, Resident, Hit, NothingUnder, SweepTables, UnmapWs, TablesReturned,
         FramesReleased;
    UnmapWsKeeps(k, d, ws, p, n, |ws|);
    WsReleases(k, d, ws, p, n, |ws|);
    var k1 := UnmapWs(k, d, ws, p, n, |ws|);
    SweepTablesKeeps(k1, d, p, n);
    var k' := SweepTables(k1, d, p, n);
    ReturnedSinceStart(k, k1, k', d, p, n);
    forall i | 0 <= i < |ws| ensures !Hit(ClearWs(ws, p, n)[i], p, n) { HitCleared(p, n); }
    forall x: nat | x < TABLES ensures NothingUnder(k'.mem, d, x) <==> NothingUnder(k1.mem, d, x) {
      SameUnder(k1.mem, k'.mem, d, x);
    }
    forall e, x: nat ensures HasTable(k1.mem, e, x) == HasTable(k.mem, e, x) { }
  }

  /** The same in so many words: an entry in use whose page lies in the range is cleared and no other entry changes, and
      a page of the range that some entry in use holds is unmapped and no other page of anybody changes. */
  lemma FreeUserMemPages(k: Kernel, d: nat, ws: seq<WsEntry>, p: nat, n: nat)
    requires UserRange(k, d, p, n)
    ensures var (k', ws') := FreeUserMem(k, d, ws, p, n);
      && |ws'| == |ws|
      && (forall i :: 0 <= i < |ws| ==>
            ws'[i] == if !ws[i].empty && p <= ws[i].page < p + n then WsEntry(0, true, 0) else ws[i])
      && forall e, q: nat :: e in k.mem.dirs && UserPage(q) ==>
           Lookup(k'.mem, e, q) ==
           if e == d && p <= q < p + n && exists i :: 0 <= i < |ws| && !ws[i].empty && ws[i].page == q then Unmapped
           else Lookup(k.mem, e, q)
  {
    FreeUserMemFrees(k, d, ws, p, n);
    hide Valid, Lookup, SweepTables, UnmapWs, TablesReturned, NothingUnder;
  }

  lemma HitCleared(p: nat, n: nat)
    ensures !Hit(CLEARED, p, n)
  {
  }

  lemma SameUnder(m: Mem, m': Mem, d: nat, x: nat)
    requires SameBut(m, m', d, 0, 0) && d in m.dirs && x < TABLES
    ensures NothingUnder(m', d, x) <==> NothingUnder(m, d, x)
  {
    hide Lookup;
    forall q: nat | q / ENTRIES == x ensures Lookup(m', d, q) == Lookup(m, d, q) { assert UserPage(q); }
  }
}
