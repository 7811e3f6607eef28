/**
 The kernel heap (kern/mem/kheap.c) on top of paging: kmalloc cuts a block from the heap and maps a frame
 at each of its pages, kfree undoes both.  User page tables are themselves one-page heap blocks, found
 again through the address their frame records, so the heap's invariant and the paging invariant need
 each other.  `Valid` states both.
 */
module KernelHeap {
  import opened Basics
  import opened Blocks
  import opened Paging
  import Layout
  import H = Heap

  const HEAP_FIRST: nat := 0xF6000           // KERNEL_HEAP_START / PAGE_SIZE
  const HEAP_END: nat := 0xFFFFF             // KERNEL_HEAP_MAX / PAGE_SIZE
  const HEAP_PAGES: nat := HEAP_END - HEAP_FIRST
  const DESCRIPTOR_SIZE: nat := 16           // sizeof(struct MemBlock)
  const DESCRIPTOR_PAGES: nat := H.RoundUp(DESCRIPTOR_SIZE * HEAP_PAGES) / H.PAGE
  const TABLES: nat := Layout.TABLES
  const USER_END: nat := Layout.USER_END
  const TEMP: nat := 0xEF800                 // USER_LIMIT / PAGE_SIZE

  datatype Kernel = Kernel(mem: Mem, heap: H.Heap)

  function Region(): H.Region {
    H.Region((HEAP_FIRST + DESCRIPTOR_PAGES) * H.PAGE, HEAP_END * H.PAGE, HEAP_PAGES)
  }

  predicate HeapPage(p: nat) { HEAP_FIRST <= p < HEAP_END }
  predicate UserPage(p: nat) { p < USER_END }

  // ---------------------------------------------------------------- the invariant

  /** A page of the heap that holds block descriptors or belongs to an allocated block. */
  ghost predicate InUse(h: H.Heap, p: nat) {
    p < HEAP_FIRST + DESCRIPTOR_PAGES || Covers(h.alloc, p * H.PAGE)
  }

  /** The frame mapped at heap page `p` records that address. */
  predicate Records(m: Mem, p: nat) {
    var s := KernelPage(p);
    s in m.pte && m.pte[s].Mapped? ==> m.pte[s].frame < |m.frames| && m.frames[m.pte[s].frame].va == p * H.PAGE
  }

  predicate IsMapped(m: Mem, s: Slot) {
    s in m.pte && m.pte[s].Mapped?
  }

  /** A heap page is mapped iff it is in use. */
  ghost predicate HeapMapped(k: Kernel) {
    forall p: nat :: HeapPage(p) ==> (IsMapped(k.mem, KernelPage(p)) <==> InUse(k.heap, p)) && Records(k.mem, p)
  }

  /** A user page table occupies a heap block of one page, which its frame records. */
  ghost predicate TableOk(k: Kernel, t: nat) {
    && t < |k.mem.frames|
    && var va := k.mem.frames[t].va;
    && HeapPage(va / H.PAGE) && KernelPage(va / H.PAGE) in k.mem.pte && On(k.mem.pte[KernelPage(va / H.PAGE)], t)
    && Block(va, H.PAGE) in k.heap.alloc
  }

  predicate HangsOn(m: Mem, t: nat, d: nat, x: nat) {
    d in m.dirs && x < |m.dirs[d]| && m.dirs[d][x] == Table(t)
  }

  ghost predicate TablesOk(k: Kernel) {
    forall t :: t in k.mem.owner ==> TableOk(k, t) && HangsOn(k.mem, t, k.mem.owner[t].0, k.mem.owner[t].1)
  }

  ghost predicate DirsOk(m: Mem) {
    && (forall d :: d in m.dirs ==> |m.dirs[d]| == TABLES)
    && (forall d: nat, x: nat, t: nat :: HangsOn(m, t, d, x) ==> t in m.owner && m.owner[t] == (d, x))
  }

  /** The entries there are: those of the kernel's own pages and all those of every live table. */
  ghost predicate IsSlot(m: Mem, s: Slot) {
    match s
    case KernelPage(p) => HeapPage(p) || p == TEMP
    case InTable(t, j) => t in m.owner && j < ENTRIES
  }

  ghost predicate SlotsOk(m: Mem) {
    && (forall s :: s in m.pte <==> IsSlot(m, s))
    && m.pte[KernelPage(TEMP)] == Unmapped
  }

  ghost predicate Linked(k: Kernel) {
    HeapMapped(k) && TablesOk(k) && DirsOk(k.mem) && SlotsOk(k.mem)
  }

  ghost predicate HeapOk(h: H.Heap) {
    H.Inv(h, Region()) && h.shared == []
  }

  ghost predicate Valid(k: Kernel) {
    Counted(k.mem) && HeapOk(k.heap) && Linked(k)
  }

  // ---------------------------------------------------------------- mapping a run of kernel pages

  /** allocate_chunk on `n` kernel pages from page `p`, none of them mapped; None where allocate_frame panics */
  function MapRun(m: Mem, p: nat, n: nat): Option<Mem> {
    if n == 0 then Some(m)
    else match MapRun(m, p, n - 1)
      case None => None
      case Some(m1) =>
        var s := KernelPage(p + n - 1);
        if !CanWrite(m1, s) then None
        else MapNew(m1, s, {Writeable}, (p + n - 1) * H.PAGE)
  }

  predicate CanWrite(m: Mem, s: Slot) {
    && s in m.pte && (m.pte[s].Mapped? ==> m.pte[s].frame < |m.frames|)
    && forall f :: f in m.free ==> f < |m.frames|
  }

  predicate InRun(s: Slot, p: nat, n: nat) {
    s.KernelPage? && p <= s.page < p + n
  }

  ghost predicate RunFree(m: Mem, p: nat, n: nat) {
    forall q: nat :: p <= q < p + n ==> KernelPage(q) in m.pte && m.pte[KernelPage(q)] == Unmapped
  }

  /** What `m'` is when the first `n` free frames of `m` have been mapped at the pages from `p`. */
  ghost predicate RunMapped(m: Mem, m': Mem, p: nat, n: nat)
    requires n <= |m.free|
  {
    && m'.free == m.free[n..] && |m'.frames| == |m.frames|
    && m'.dirs == m.dirs && m'.owner == m.owner && m'.reserved == m.reserved && m'.hand == m.hand
       && m'.storages == m.storages && m'.pte.Keys == m.pte.Keys
    && (forall s :: s in m.pte ==>
          m'.pte[s] == if InRun(s, p, n) then Mapped(m.free[s.page - p], {Writeable}) else m.pte[s])
    && (forall i :: 0 <= i < n ==> m.free[i] < |m.frames| && m'.frames[m.free[i]] == Frame(1, (p + i) * H.PAGE))
    && (forall f :: 0 <= f < |m.frames| && m.frames[f].references > 0 ==> m'.frames[f] == m.frames[f])
  }

  /** It succeeds if and only if there are frames enough, and takes them from the front of the free list. */
  lemma {:induction false} MapRunFacts(m: Mem, p: nat, n: nat)
    requires Counted(m) && RunFree(m, p, n)
    ensures MapRun(m, p, n).Some? <==> n <= |m.free|
    ensures n <= |m.free| ==> var m' := MapRun(m, p, n).value; Counted(m') && RunMapped(m, m', p, n)
  {
    hide CountsOk, MapNew, NoRepeats;
    if n > 0 {
      assert RunFree(m, p, n - 1);
      MapRunFacts(m, p, n - 1);
      if n - 1 <= |m.free| {
        var m1, s := MapRun(m, p, n - 1).value, KernelPage(p + n - 1);
        assert s in m.pte && m1.pte[s] == Unmapped;
        MapNewFacts(m1, s, {Writeable}, (p + n - 1) * H.PAGE);
        if n <= |m.free| {
          OneMoreMapped(m, m1, MapNew(m1, s, {Writeable}, (p + n - 1) * H.PAGE).value, p, n);
        }
      }
    }
  }

  lemma OneMoreMapped(m: Mem, m1: Mem, m': Mem, p: nat, n: nat)
    requires Counted(m) && 0 < n <= |m.free| && RunMapped(m, m1, p, n - 1) && KernelPage(p + n - 1) in m.pte
    requires m1.free != [] && m1.free[0] < |m1.frames|
    requires m' == m1.(free := m1.free[1..], frames := m1.frames[m1.free[0] := Frame(1, (p + n - 1) * H.PAGE)],
                       pte := m1.pte[KernelPage(p + n - 1) := Mapped(m1.free[0], {Writeable})])
    ensures RunMapped(m, m', p, n)
  {
    hide CountsOk, EntriesOk;
    assert m1.free[0] == m.free[n - 1] && m1.free[1..] == m.free[n..];
    assert m.free[n - 1] in m.free;
  }

  // ---------------------------------------------------------------- kmalloc

  /** The placement strategy; `junk` is what the unassigned locals of alloc_block_BF happen to hold. */
  datatype Strategy = UseFirstFit | UseBestFit(junk: Block) | UseOther

  lemma {:induction false} SmallestFitting(bs: seq<Block>, n: nat, i: nat) returns (k: nat)
    requires i <= |bs| && exists j :: 0 <= j < i && n <= bs[j].size
    ensures k < i && n <= bs[k].size
    ensures forall j :: 0 <= j < i && n <= bs[j].size ==>
      bs[k].size <= bs[j].size && (j < k ==> bs[k].size < bs[j].size)
  {
    if exists j :: 0 <= j < i - 1 && n <= bs[j].size {
      k := SmallestFitting(bs, n, i - 1);
      if n <= bs[i - 1].size < bs[k].size {
        k := i - 1;
      }
    } else {
      k := i - 1;
    }
  }

  /** The hole best fit chooses. */
  ghost function BestFit(bs: seq<Block>, n: nat): (k: nat)
    ensures if Fits(bs, n) then IsBestFit(bs, n, k) else k == |bs|
  {
    if Fits(bs, n) then
      assert exists k :: IsBestFit(bs, n, k) by {
        var k := SmallestFitting(bs, n, |bs|);
        assert IsBestFit(bs, n, k);
      }
      var k: nat :| IsBestFit(bs, n, k);
      k
    else |bs|
  }

  lemma BestFitUnique(bs: seq<Block>, n: nat, i: nat, j: nat)
    requires IsBestFit(bs, n, i) && IsBestFit(bs, n, j)
    ensures i == j
  {
  }

  /** The hole a request of `n` bytes is cut from; the number of holes if there is none. */
  ghost function Hole(bs: seq<Block>, n: nat, strategy: Strategy): (k: nat)
    ensures k <= |bs| && (k < |bs| ==> n <= bs[k].size)
    ensures k < |bs| <==> !strategy.UseOther? && Fits(bs, n)
  {
    match strategy
    case UseFirstFit => FirstFit(bs, n)
    case UseBestFit(_) => BestFit(bs, n)
    case UseOther => |bs|
  }

  datatype Outcome<T> = Panic | Done(value: T)

  ghost predicate AnyMapped(m: Mem, p: nat, n: nat) {
    exists q: nat :: p <= q < p + n && IsMapped(m, KernelPage(q))
  }

  /** The heap with the block cut and put on the Alloc list. */
  function KmallocHeap(h: H.Heap, i: nat, n: nat): H.Heap
    requires i < |h.free| && n <= h.free[i].size
  {
    var (g, b) := H.TakeAt(h, i, n);
    g.(alloc := InsertSorted(g.alloc, b))
  }

  /** alloc_block_BF is only defined if some hole fits, or none happens to equal its unassigned locals. */
  ghost predicate Defined(bs: seq<Block>, n: nat, strategy: Strategy) {
    strategy.UseBestFit? ==> Fits(bs, n) || strategy.junk !in bs
  }

  /** kmalloc of `size` > 0 bytes: the address of the block, if there is one */
  ghost function Kmalloc(k: Kernel, size: nat, strategy: Strategy): Outcome<(Kernel, Option<nat>)>
    requires Defined(k.heap.free, H.RoundUp(size), strategy)
  {
    var n := H.RoundUp(size);
    var i := Hole(k.heap.free, n, strategy);
    if i == |k.heap.free| then Done((k, None))
    else
      var p, h := k.heap.free[i].sva / H.PAGE, KmallocHeap(k.heap, i, n);
      // allocate_chunk refuses with -1 if a page is mapped; kmalloc then answers NULL
      if AnyMapped(k.mem, p, n / H.PAGE) then Done((k.(heap := h), None))
      else match MapRun(k.mem, p, n / H.PAGE)
        case None => Panic
        case Some(m) => Done((Kernel(m, h), Some(k.heap.free[i].sva)))
  }

  /** The block kmalloc cuts: whole pages of the heap that were not in use. */
  lemma CutBlock(h: H.Heap, i: nat, n: nat)
    requires HeapOk(h) && i < |h.free| && 0 < n <= h.free[i].size && n % H.PAGE == 0
    ensures var b, h' := Block(h.free[i].sva, n), KmallocHeap(h, i, n);
      && HeapOk(h') && H.IsPaged(b)
      && b in h'.alloc && (forall c :: c in h.alloc ==> c in h'.alloc)
      && (forall p: nat :: b.sva / H.PAGE <= p < b.sva / H.PAGE + n / H.PAGE ==> HeapPage(p) && !InUse(h, p))
      && (forall p: nat :: HeapPage(p) ==>
            (InUse(h', p) <==> InUse(h, p) || b.sva / H.PAGE <= p < b.sva / H.PAGE + n / H.PAGE))
  {
    hide Coalesced, Ordered, Splice, Place, Carve, H.Inv, H.Pending, InsertSorted;
    var (g, b) := H.TakeAt(h, i, n);
    H.TakeLeavesPending(h, Region(), i, n);
    H.PendingToAlloc(g, b, Region());
    PendingPaged(g, b);
    assert H.IsPaged(b);
    H.CutIsClear(h, Region(), i, n);
    H.InsertSortedSpace(h.alloc, b);
    InsertedIn(h.alloc, b);
    InRegion(g.(alloc := InsertSorted(h.alloc, b)), b);
    forall p: nat | HeapPage(p) ensures Covers(InsertSorted(h.alloc, b), p * H.PAGE) <==>
        Covers(h.alloc, p * H.PAGE) || b.sva / H.PAGE <= p < b.sva / H.PAGE + n / H.PAGE {
      HasPage(b, p);
      assert p * H.PAGE in Space(InsertSorted(h.alloc, b)) <==> p * H.PAGE in Space(h.alloc) + Extent(b);
    }
    forall p: nat | b.sva / H.PAGE <= p < b.sva / H.PAGE + n / H.PAGE ensures HeapPage(p) && !InUse(h, p) {
      HasPage(b, p);
      H.ClearBits(h.alloc, b);
    }
  }

  lemma PendingPaged(h: H.Heap, b: Block)
    requires H.Pending(h, b, Region())
    ensures H.IsPaged(b)
  {
  }

  lemma InsertedIn(bs: seq<Block>, b: Block)
    ensures b in InsertSorted(bs, b) && forall c :: c in bs ==> c in InsertSorted(bs, b)
  {
    var p, cs := Place(bs, b.sva), InsertSorted(bs, b);
    assert cs[p] == b;
    forall c | c in bs ensures c in cs {
      var i :| 0 <= i < |bs| && bs[i] == c;
      assert cs[if i < p then i else i + 1] == c;
    }
  }

  /** Allocated blocks lie in the region. */
  lemma InRegion(h: H.Heap, b: Block)
    requires H.Inv(h, Region()) && b in h.alloc
    ensures H.IsPaged(b) && Region().lo <= b.sva && b.End() <= Region().hi
  {
    hide Coalesced, Ordered, Total;
    var k :| 0 <= k < |h.alloc| && h.alloc[k] == b;
    assert H.IsPaged(h.alloc[k]);
    assert forall a :: Covers(h.alloc, a) ==> a in Space(h.free) + Space(h.alloc) + Space(h.shared);
    H.CoverOfBlock(h.alloc, k, b.sva);
    H.CoverOfBlock(h.alloc, k, b.End() - 1);
    assert b.sva in Extent(Region().Whole()) && b.End() - 1 in Extent(Region().Whole());
  }

  /** A block of whole pages holds the start of a page iff it holds the page. */
  lemma HasPage(b: Block, p: nat)
    requires H.IsPaged(b)
    ensures b.Has(p * H.PAGE) <==> b.sva / H.PAGE <= p < b.sva / H.PAGE + b.size / H.PAGE
  {
  }

  lemma MappedHasReference(m: Mem, s: Slot, f: nat)
    requires Counted(m) && s in m.pte && On(m.pte[s], f) && Counts(m, s)
    ensures f < |m.frames| && 0 < m.frames[f].references < COUNTER
  {
    assert CountOk(m, f);
    UsedHasUsers(m, s);
  }

  /** No page of an unused part of the heap is mapped: allocate_chunk never refuses kmalloc. */
  lemma KmallocNeverRefused(k: Kernel, i: nat, n: nat)
    requires Valid(k) && i < |k.heap.free| && 0 < n <= k.heap.free[i].size && n % H.PAGE == 0
    ensures var p := k.heap.free[i].sva / H.PAGE; RunFree(k.mem, p, n / H.PAGE) && !AnyMapped(k.mem, p, n / H.PAGE)
  {
    hide HeapOk, Counted, TablesOk;
    CutBlock(k.heap, i, n);
    var p := k.heap.free[i].sva / H.PAGE;
    forall q: nat | p <= q < p + n / H.PAGE
      ensures KernelPage(q) in k.mem.pte && k.mem.pte[KernelPage(q)] == Unmapped {
      assert HeapPage(q) && !InUse(k.heap, q);
      assert IsSlot(k.mem, KernelPage(q));
    }
  }

  /** Mapping the pages of a new block keeps the heap and the page tables tied together. */
  lemma BlockMapped(k: Kernel, k': Kernel, b: Block)
    requires Valid(k) && Counted(k'.mem) && HeapOk(k'.heap) && H.IsPaged(b)
    requires RunFree(k.mem, b.sva / H.PAGE, b.size / H.PAGE)
    requires b.size / H.PAGE <= |k.mem.free| && RunMapped(k.mem, k'.mem, b.sva / H.PAGE, b.size / H.PAGE)
    requires forall c :: c in k.heap.alloc ==> c in k'.heap.alloc
    requires forall p: nat :: b.sva / H.PAGE <= p < b.sva / H.PAGE + b.size / H.PAGE ==> HeapPage(p)
    requires forall p: nat :: HeapPage(p) ==>
        (InUse(k'.heap, p) <==> InUse(k.heap, p) || b.sva / H.PAGE <= p < b.sva / H.PAGE + b.size / H.PAGE)
    ensures Valid(k')
  {
    hide Counted, HeapOk, InUse, H.IsPaged;
    var m, m', p, n := k.mem, k'.mem, b.sva / H.PAGE, b.size / H.PAGE;
    assert SlotsOk(m') by { hide HeapMapped, TablesOk; assert forall s :: IsSlot(m', s) <==> IsSlot(m, s); }
    forall q: nat | HeapPage(q) ensures (IsMapped(m', KernelPage(q)) <==> InUse(k'.heap, q)) && Records(m', q) {
      hide TablesOk, DirsOk;
      var s := KernelPage(q);
      assert IsSlot(m, s);
      if p <= q < p + n {
        assert InRun(s, p, n) && m'.pte[s] == Mapped(m.free[q - p], {Writeable});
        assert m'.frames[m.free[q - p]] == Frame(1, (p + (q - p)) * H.PAGE);
      } else if m.pte[s].Mapped? {
        MappedHasReference(m, s, m.pte[s].frame);
      }
    }
    forall t | t in m'.owner ensures TableOk(k', t) && HangsOn(m', t, m'.owner[t].0, m'.owner[t].1) {
      assert TableOk(k, t);
      TableKept(k, k', t, p, n);
    }
    assert DirsOk(m') by {
      hide HeapMapped, TablesOk, SlotsOk;
      assert forall t, d, x :: HangsOn(m', t, d, x) <==> HangsOn(m, t, d, x);
    }
    assert HeapMapped(k');
    assert TablesOk(k');
  }

  lemma TableKept(k: Kernel, k': Kernel, t: nat, p: nat, n: nat)
    requires Counted(k.mem) && TableOk(k, t) && RunFree(k.mem, p, n)
    requires n <= |k.mem.free| && RunMapped(k.mem, k'.mem, p, n)
    requires forall c :: c in k.heap.alloc ==> c in k'.heap.alloc
    ensures TableOk(k', t)
  {
    hide Counted;
    MappedHasReference(k.mem, KernelPage(k.mem.frames[t].va / H.PAGE), t);
  }

  /** What a kmalloc that finds a hole leaves behind: the block, and a fresh frame at each of its pages. */
  ghost predicate Kmalloced(k: Kernel, k': Kernel, i: nat, n: nat)
    requires i < |k.heap.free| && n <= k.heap.free[i].size && n / H.PAGE <= |k.mem.free|
  {
    var va := k.heap.free[i].sva;
    && va % H.PAGE == 0 && HeapPage(va / H.PAGE)
    && RunFree(k.mem, va / H.PAGE, n / H.PAGE) && RunMapped(k.mem, k'.mem, va / H.PAGE, n / H.PAGE)
    && k'.heap == KmallocHeap(k.heap, i, n) && Block(va, n) in k'.heap.alloc
    && (forall c :: c in k.heap.alloc ==> c in k'.heap.alloc)
  }

  lemma TakenBlockMapped(k: Kernel, i: nat, n: nat)
    requires Valid(k) && i < |k.heap.free| && 0 < n <= k.heap.free[i].size && n % H.PAGE == 0
    ensures var p := k.heap.free[i].sva / H.PAGE;
      && (MapRun(k.mem, p, n / H.PAGE).Some? <==> n / H.PAGE <= |k.mem.free|)
      && (n / H.PAGE <= |k.mem.free| ==>
            var k' := Kernel(MapRun(k.mem, p, n / H.PAGE).value, KmallocHeap(k.heap, i, n));
            Valid(k') && Kmalloced(k, k', i, n))
  {
    hide HeapOk, Counted, Linked, RunMapped, RunFree, InUse, InsertSorted, Carve, MapRun;
    var b, p := Block(k.heap.free[i].sva, n), k.heap.free[i].sva / H.PAGE;
    CutBlock(k.heap, i, n);
    KmallocNeverRefused(k, i, n);
    MapRunFacts(k.mem, p, n / H.PAGE);
    assert HeapPage(p);
    if n / H.PAGE <= |k.mem.free| {
      BlockMapped(k, Kernel(MapRun(k.mem, p, n / H.PAGE).value, KmallocHeap(k.heap, i, n)), b);
    }
  }

  /** kmalloc panics only for want of frames, answers NULL only for want of a hole, and otherwise hands out a
      block of the heap with a fresh frame at each of its pages. */
  lemma KmallocKeeps(k: Kernel, size: nat, strategy: Strategy)
    requires Valid(k) && size > 0 && Defined(k.heap.free, H.RoundUp(size), strategy)
    ensures var n, r := H.RoundUp(size), Kmalloc(k, size, strategy);
      var i := Hole(k.heap.free, n, strategy);
      if i == |k.heap.free| then r == Done((k, None))
      else if |k.mem.free| < n / H.PAGE then r == Panic
      else r.Done? && r.value.1 == Some(k.heap.free[i].sva) && Valid(r.value.0) && Kmalloced(k, r.value.0, i, n)
  {
    hide Valid, Kmalloced, AnyMapped, Hole, H.RoundUp;
    var n := H.RoundUp(size);
    var i := Hole(k.heap.free, n, strategy);
    if i < |k.heap.free| {
      H.RoundUpPaged(size);
      KmallocNeverRefused(k, i, n);
      TakenBlockMapped(k, i, n);
    }
  }

  /** Where the strategy puts `n` bytes, by the bitmap of free bytes: at the lowest run, or at the start of the smallest
      maximal run that is large enough, the lowest among equals. */
  ghost predicate Placed(bs: seq<Block>, va: int, n: nat, strategy: Strategy) {
    match strategy
    case UseFirstFit => H.LowestRun(bs, va, n)
    case UseBestFit(_) => exists m: nat :: n <= m && SmallestRun(bs, va, m, n)
    case UseOther => false
  }

  ghost predicate SmallestRun(bs: seq<Block>, va: int, m: nat, n: nat) {
    && MaximalRun(bs, va, m)
    && forall a, l: nat :: MaximalRun(bs, a, l) && n <= l ==> m < l || (m == l && va <= a)
  }

  lemma HolePlaced(h: H.Heap, n: nat, strategy: Strategy)
    requires HeapOk(h) && n > 0
    ensures var i := Hole(h.free, n, strategy);
      && (i == |h.free| <==> strategy.UseOther? || !exists a :: Run(h.free, a, n))
      && (i < |h.free| ==> Placed(h.free, h.free[i].sva, n, strategy))
  {
    H.FreeCoalesced(h, Region());
    FirstFitIsLowestRun(h.free, n);
    var i := Hole(h.free, n, strategy);
    hide HeapOk, Run, MaximalRun, Coalesced;
    if strategy.UseBestFit? && i < |h.free| {
      BestFitIsSmallestRun(h.free, n, i);
      assert SmallestRun(h.free, h.free[i].sva, h.free[i].size, n);
    }
    if Fits(h.free, n) {
      var j :| 0 <= j < |h.free| && n <= h.free[j].size;
      assert FirstFit(h.free, n) <= j;
    }
  }

  /** kmalloc, said without its rounding and its search: `n` is the one multiple of the page size that holds `size` with
      less than a page to spare.  It answers NULL and changes nothing iff no `n` free bytes lie together, or for an
      unknown strategy; otherwise it panics iff there are not frames enough, and else exactly the bytes that the
      strategy names leave the free list, join the allocated blocks and show the first free frames in order. */
  lemma KmallocPlaces(k: Kernel, size: nat, n: nat, strategy: Strategy)
    requires Valid(k) && 0 < size <= n < size + H.PAGE && n % H.PAGE == 0
    requires Defined(k.heap.free, H.RoundUp(size), strategy)
    ensures var r, bs := Kmalloc(k, size, strategy), k.heap.free;
      if strategy.UseOther? || !exists a :: Run(bs, a, n) then r == Done((k, None))
      else if |k.mem.free| < n / H.PAGE then r == Panic
      else r.Done? && r.value.1.Some? &&
           var (k', va) := (r.value.0, r.value.1.value);
           && Valid(k') && Placed(bs, va, n, strategy) && H.Taken(bs, k'.heap.free, Block(va, n))
           && multiset(k'.heap.alloc) == multiset(k.heap.alloc) + multiset{Block(va, n)}
           && RunMapped(k.mem, k'.mem, va / H.PAGE, n / H.PAGE)
  {
    hide Valid, HeapOk, AnyMapped, Hole, H.RoundUp, Placed, H.Taken, Run, InsertSorted, RunMapped;
    H.RoundUpPaged(size);
    assert H.RoundUp(size) == n by { H.OneMultiple(H.RoundUp(size), n, size); }
    assert HeapOk(k.heap) by { HeapOfValid(k); }
    HolePlaced(k.heap, n, strategy);
    KmallocKeeps(k, size, strategy);
    var i := Hole(k.heap.free, n, strategy);
    if i < |k.heap.free| {
      CutJoins(k.heap, i, n);
    }
  }

  lemma HeapOfValid(k: Kernel)
    requires Valid(k)
    ensures HeapOk(k.heap)
  {
  }

  lemma CutJoins(h: H.Heap, i: nat, n: nat)
    requires HeapOk(h) && i < |h.free| && 0 < n <= h.free[i].size && n % H.PAGE == 0
    ensures var h', b := KmallocHeap(h, i, n), Block(h.free[i].sva, n);
      H.Taken(h.free, h'.free, b) && multiset(h'.alloc) == multiset(h.alloc) + multiset{b}
  {
    H.CutTaken(h, Region(), i, n);
    H.CutIsClear(h, Region(), i, n);
    hide HeapOk, Ordered, Clear, InsertSorted, H.Taken;
    InsertSortedAdds(h.alloc, Block(h.free[i].sva, n));
  }

  // ---------------------------------------------------------------- kfree

  /** unmap_frame on `n` kernel pages from page `p` */
  function UnmapRun(m: Mem, p: nat, n: nat): Mem {
    if n == 0 then m
    else
      var m1 := UnmapRun(m, p, n - 1);
      if CanWrite(m1, KernelPage(p + n - 1)) then UnmapSlot(m1, KernelPage(p + n - 1)) else m1
  }

  /** What `m'` is when the pages from `p` have been unmapped. */
  ghost predicate RunUnmapped(m: Mem, m': Mem, p: nat, n: nat) {
    && |m'.frames| == |m.frames|
    && m'.dirs == m.dirs && m'.owner == m.owner && m'.reserved == m.reserved && m'.hand == m.hand
       && m'.storages == m.storages && m'.pte.Keys == m.pte.Keys
    && (forall s :: s in m.pte ==> m'.pte[s] == if InRun(s, p, n) then Unmapped else m.pte[s])
    && (forall f :: 0 <= f < |m.frames| && m'.frames[f].references > 0 ==> m'.frames[f].va == m.frames[f].va)
  }

  lemma {:induction false} UnmapRunFacts(m: Mem, p: nat, n: nat)
    requires Counted(m) && forall q: nat :: p <= q < p + n ==> KernelPage(q) in m.pte
    ensures var m' := UnmapRun(m, p, n); Counted(m') && RunUnmapped(m, m', p, n)
  {
    hide CountsOk, NoRepeats, UnmapSlot;
    if n > 0 {
      UnmapRunFacts(m, p, n - 1);
      var m1, s := UnmapRun(m, p, n - 1), KernelPage(p + n - 1);
      assert s in m.pte;
      Writable(m1, s);
      UnmapSlotKeeps(m1, s);
      UnmapOne(m1, s);
      OneMoreUnmapped(m, m1, UnmapSlot(m1, s), p, n);
    }
  }

  lemma Writable(m: Mem, s: Slot)
    requires Counted(m) && s in m.pte
    ensures CanWrite(m, s)
  {
    hide CountsOk, NoRepeats;
  }

  lemma OneMoreUnmapped(m: Mem, m1: Mem, m': Mem, p: nat, n: nat)
    requires 0 < n && RunUnmapped(m, m1, p, n - 1) && KernelPage(p + n - 1) in m.pte
    requires m'.pte == m1.pte[KernelPage(p + n - 1) := Unmapped] && |m'.frames| == |m1.frames|
    requires m'.dirs == m1.dirs && m'.owner == m1.owner && m'.reserved == m1.reserved && m'.hand == m1.hand
        && m'.storages == m1.storages
    requires forall f :: 0 <= f < |m1.frames| && m'.frames[f].references > 0 ==> m'.frames[f].va == m1.frames[f].va
    requires forall f :: 0 <= f < |m1.frames| ==> m'.frames[f].references <= m1.frames[f].references
    ensures RunUnmapped(m, m', p, n)
  {
  }

  lemma UnmapOne(m: Mem, s: Slot)
    requires Counted(m) && s in m.pte && (m.pte[s].Mapped? ==> m.pte[s].frame < |m.frames|) && Counts(m, s)
    ensures var m' := UnmapSlot(m, s);
      && m'.pte == m.pte[s := Unmapped] && |m'.frames| == |m.frames|
      && m'.dirs == m.dirs && m'.owner == m.owner && m'.reserved == m.reserved && m'.hand == m.hand
         && m'.storages == m.storages
      && (forall f :: 0 <= f < |m.frames| && m'.frames[f].references > 0 ==> m'.frames[f].va == m.frames[f].va)
      && (forall f :: 0 <= f < |m.frames| ==> m'.frames[f].references <= m.frames[f].references)
  {
    hide NoRepeats, Users, UnmapSlot;
    if m.pte[s].Mapped? {
      MappedHasReference(m, s, m.pte[s].frame);
      UnmapSlotFacts(m, s);
    } else {
      UnmapNothing(m, s);
      assert m.pte == m.pte[s := Unmapped];
    }
  }

  function RoundDown(va: nat): nat { va - va % H.PAGE }

  /** kfree of any address in the first page of a block; of any other it does nothing */
  function Kfree(k: Kernel, va: nat): Kernel {
    var a := RoundDown(va);
    var i := H.FindFrom(k.heap.alloc, a, 0);
    if i == |k.heap.alloc| then k
    else Kernel(UnmapRun(k.mem, a / H.PAGE, k.heap.alloc[i].size / H.PAGE), H.Free(k.heap, a))
  }

  /** `b` holds exactly the pages that stop being in use. */
  ghost predicate BlockFreed(h: H.Heap, h': H.Heap, b: Block) {
    && HeapOk(h') && H.IsPaged(b) && b in h.alloc
    && (forall p: nat :: HeapPage(p) ==>
          (InUse(h', p) <==> InUse(h, p) && !(b.sva / H.PAGE <= p < b.sva / H.PAGE + b.size / H.PAGE)))
    && (forall p: nat :: b.sva / H.PAGE <= p < b.sva / H.PAGE + b.size / H.PAGE ==> HeapPage(p) && InUse(h, p))
    && (forall c :: c in h.alloc && c != b ==> c in h'.alloc && !b.Has(c.sva) && c.sva != b.sva)
  }

  lemma FreeBlock(h: H.Heap, a: nat)
    requires HeapOk(h) && H.Allocated(h, a)
    ensures BlockFreed(h, H.Free(h, a), h.alloc[H.FindFrom(h.alloc, a, 0)])
  {
    hide Coalesced, H.Paged, H.Disjoint, H.SelfDisjoint, Splice, InsertMerge, Space, Total;
    var i := H.FindFrom(h.alloc, a, 0);
    var b, h' := h.alloc[i], H.Free(h, a);
    H.FreeKeeps(h, Region(), a);
    InRegion(h, b);
    H.RemoveOne(h.alloc, i);
    assert Space(h'.alloc) == Space(h.alloc) - Extent(b);
    forall p: nat | HeapPage(p)
      ensures Covers(h'.alloc, p * H.PAGE) <==> Covers(h.alloc, p * H.PAGE) && !b.Has(p * H.PAGE)
    {
      H.RemovedBit(h.alloc, i, p * H.PAGE);
    }
    hide H.Inv;
    forall p: nat | HeapPage(p)
      ensures InUse(h', p) <==> InUse(h, p) && !(b.sva / H.PAGE <= p < b.sva / H.PAGE + b.size / H.PAGE)
    {
      HasPage(b, p);
    }
    forall p: nat | b.sva / H.PAGE <= p < b.sva / H.PAGE + b.size / H.PAGE ensures HeapPage(p) && InUse(h, p) {
      HasPage(b, p);
      H.CoverOfBlock(h.alloc, i, p * H.PAGE);
    }
    forall c | c in h.alloc && c != b ensures c in h'.alloc && !b.Has(c.sva) && c.sva != b.sva { OthersStay(h, i, c); }
  }

  lemma OthersStay(h: H.Heap, i: nat, c: Block)
    requires HeapOk(h) && i < |h.alloc| && c in h.alloc && c != h.alloc[i]
    ensures c in Splice(h.alloc, i, i + 1, []) && !h.alloc[i].Has(c.sva) && c.sva != h.alloc[i].sva
  {
    hide Coalesced, H.Disjoint, H.SelfDisjoint, Space, Total;
    var j :| 0 <= j < |h.alloc| && h.alloc[j] == c;
    assert Splice(h.alloc, i, i + 1, [])[if j < i then j else j - 1] == c;
    assert H.IsPaged(h.alloc[i]) && H.IsPaged(h.alloc[j]);
    if i < j { assert h.alloc[i].End() <= h.alloc[j].sva; } else { assert h.alloc[j].End() <= h.alloc[i].sva; }
  }

  /** The address belongs to the caller, not to a live page table. */
  ghost predicate NotATable(k: Kernel, va: nat) {
    forall t :: t in k.mem.owner && t < |k.mem.frames| ==> k.mem.frames[t].va != RoundDown(va)
  }

  lemma TableSurvives(k: Kernel, k': Kernel, t: nat, b: Block)
    requires Counted(k.mem) && Counted(k'.mem) && TableOk(k, t) && BlockFreed(k.heap, k'.heap, b)
    requires RunUnmapped(k.mem, k'.mem, b.sva / H.PAGE, b.size / H.PAGE) && k.mem.frames[t].va != b.sva
    requires SlotsOk(k.mem)
    ensures TableOk(k', t)
  {
    hide Counted, HeapOk, InUse, SlotsOk;
    var va := k.mem.frames[t].va;
    var s := KernelPage(va / H.PAGE);
    assert Block(va, H.PAGE) != b;
    HasPage(b, va / H.PAGE);
    MappedHasReference(k'.mem, s, t);
  }

  lemma BlockUnmapped(k: Kernel, k': Kernel, b: Block)
    requires Valid(k) && Counted(k'.mem) && BlockFreed(k.heap, k'.heap, b) && NotATable(k, b.sva)
    requires RunUnmapped(k.mem, k'.mem, b.sva / H.PAGE, b.size / H.PAGE)
    ensures Valid(k')
  {
    hide Counted, HeapOk, InUse;
    var m, m', p, n := k.mem, k'.mem, b.sva / H.PAGE, b.size / H.PAGE;
    assert b.sva % H.PAGE == 0 && b.size % H.PAGE == 0;
    hide H.IsPaged;
    assert SlotsOk(m') by { hide HeapMapped, TablesOk; assert forall s :: IsSlot(m', s) <==> IsSlot(m, s); }
    assert DirsOk(m') by {
      hide HeapMapped, TablesOk, SlotsOk;
      assert forall t, d, x :: HangsOn(m', t, d, x) <==> HangsOn(m, t, d, x);
    }
    forall q: nat | HeapPage(q) ensures (IsMapped(m', KernelPage(q)) <==> InUse(k'.heap, q)) && Records(m', q) {
      hide TablesOk, DirsOk;
      var s := KernelPage(q);
      assert IsSlot(m, s);
      if !(p <= q < p + n) && m.pte[s].Mapped? {
        MappedHasReference(m', s, m.pte[s].frame);
      }
    }
    forall t | t in m'.owner ensures TableOk(k', t) && HangsOn(m', t, m'.owner[t].0, m'.owner[t].1) {
      assert TableOk(k, t);
      TableSurvives(k, k', t, b);
    }
  }

  /** kfree keeps the invariant, for any address but that of a live page table. */
  lemma KfreeKeeps(k: Kernel, va: nat)
    requires Valid(k) && NotATable(k, va)
    ensures Valid(Kfree(k, va))
    ensures H.Allocated(k.heap, RoundDown(va)) ==>
      var b := k.heap.alloc[H.FindFrom(k.heap.alloc, RoundDown(va), 0)];
      && BlockFreed(k.heap, Kfree(k, va).heap, b) && b.sva == RoundDown(va)
      && RunUnmapped(k.mem, Kfree(k, va).mem, b.sva / H.PAGE, b.size / H.PAGE)
    ensures !H.Allocated(k.heap, RoundDown(va)) ==> Kfree(k, va) == k
  {
    hide HeapOk, Counted, TablesOk, HeapMapped, DirsOk, RunUnmapped, InUse, H.Free, UnmapRun;
    var a := RoundDown(va);
    var i := H.FindFrom(k.heap.alloc, a, 0);
    if i < |k.heap.alloc| {
      var b := k.heap.alloc[i];
      assert H.Allocated(k.heap, a);
      FreeBlock(k.heap, a);
      UnmapRunFacts(k.mem, a / H.PAGE, b.size / H.PAGE);
      BlockUnmapped(k, Kfree(k, va), b);
    }
  }

  /** kfree, said without its rounding and its search: an address in the first page of a block frees just that block,
      its bytes and the frames of its pages, */
  lemma KfreeExact(k: Kernel, va: nat, b: Block)
    requires Valid(k) && NotATable(k, va) && b in k.heap.alloc && b.sva <= va < b.sva + H.PAGE
    ensures var k' := Kfree(k, va);
      && multiset(k'.heap.alloc) == multiset(k.heap.alloc) - multiset{b} && H.Taken(k'.heap.free, k.heap.free, b)
      && RunUnmapped(k.mem, k'.mem, b.sva / H.PAGE, b.size / H.PAGE)
  {
    hide Valid, HeapOk, NotATable, H.Free, H.Taken, H.FindFrom, UnmapRun, RunUnmapped, Kfree, BlockFreed;
    HeapOfValid(k);
    BlockAligned(k, b);
    assert RoundDown(va) == b.sva;
    KfreeKeeps(k, va);
    assert H.Inv(k.heap, Region()) by { HeapInv(k.heap); }
    H.FreeReturns(k.heap, Region(), b);
    KfreeFrees(k, va);
  }

  /** and an address that lies in no block's first page changes nothing. */
  lemma KfreeElsewhere(k: Kernel, va: nat)
    requires Valid(k) && forall b :: b in k.heap.alloc ==> !(b.sva <= va < b.sva + H.PAGE)
    ensures Kfree(k, va) == k
  {
    hide Valid;
    forall i | 0 <= i < |k.heap.alloc| ensures k.heap.alloc[i].sva != RoundDown(va) {
      assert k.heap.alloc[i] in k.heap.alloc;
    }
  }

  lemma HeapInv(h: H.Heap)
    requires HeapOk(h)
    ensures H.Inv(h, Region())
  {
  }

  lemma BlockAligned(k: Kernel, b: Block)
    requires Valid(k) && b in k.heap.alloc
    ensures b.sva % H.PAGE == 0
  {
    HeapOfValid(k);
    InRegion(k.heap, b);
  }

  lemma KfreeFrees(k: Kernel, va: nat)
    requires H.Allocated(k.heap, RoundDown(va))
    ensures Kfree(k, va).heap == H.Free(k.heap, RoundDown(va))
  {
  }

  // ---------------------------------------------------------------- addresses

  /** kheap_virtual_address; to_frame_info panics beyond the last frame */
  function KheapVirtualAddress(m: Mem, pa: nat): nat
    requires pa / H.PAGE < |m.frames|
  {
    m.frames[pa / H.PAGE].va
  }

  /** kheap_physical_address: the frame mapped at the page of `va`, frame 0 if there is none */
  function KheapPhysicalAddress(m: Mem, va: nat): nat
    requires KernelPage(va / H.PAGE) in m.pte
  {
    match m.pte[KernelPage(va / H.PAGE)]
    case Unmapped => 0
    case Mapped(f, _) => f * H.PAGE
  }

  /** The two address conversions are inverse on every page of every allocated block. */
  lemma AddressRoundTrip(k: Kernel, va: nat)
    requires Valid(k) && HeapPage(va / H.PAGE) && InUse(k.heap, va / H.PAGE)
    ensures KernelPage(va / H.PAGE) in k.mem.pte
    ensures var pa := KheapPhysicalAddress(k.mem, va);
      && pa / H.PAGE < |k.mem.frames| && KheapVirtualAddress(k.mem, pa) == RoundDown(va)
      && KheapPhysicalAddress(k.mem, KheapVirtualAddress(k.mem, pa)) == pa
  {
    hide Counted, HeapOk, TablesOk, DirsOk, InUse;
    var p := va / H.PAGE;
    assert IsSlot(k.mem, KernelPage(p));
    assert IsMapped(k.mem, KernelPage(p)) && Records(k.mem, p);
  }

  /** Inside a page in use both conversions answer with page bases: the physical address is the one the processor
      finds, less the offset, so it is that address iff the offset is zero. */
  lemma ConversionsDropOffsets(k: Kernel, p: nat, offset: nat)
    requires Valid(k) && HeapPage(p) && InUse(k.heap, p) && offset < H.PAGE
    ensures var va := p * H.PAGE + offset;
      && va / H.PAGE == p && IsMapped(k.mem, KernelPage(p))
      && var pa := k.mem.pte[KernelPage(p)].frame * H.PAGE + offset;
      && (KheapPhysicalAddress(k.mem, va) == pa <==> offset == 0) && KheapPhysicalAddress(k.mem, va) == pa - offset
      && pa / H.PAGE < |k.mem.frames| && KheapVirtualAddress(k.mem, pa) == va - offset
  {
    hide Counted, HeapOk, TablesOk, DirsOk, InUse;
    assert IsSlot(k.mem, KernelPage(p));
    assert IsMapped(k.mem, KernelPage(p)) && Records(k.mem, p);
  }

  /** So no two pages of the kernel heap share a frame. */
  lemma HeapFramesDistinct(k: Kernel, p: nat, q: nat)
    requires Valid(k) && HeapPage(p) && HeapPage(q) && IsMapped(k.mem, KernelPage(p)) && IsMapped(k.mem, KernelPage(q))
    requires k.mem.pte[KernelPage(p)].frame == k.mem.pte[KernelPage(q)].frame
    ensures p == q
  {
    hide Counted, HeapOk, TablesOk, DirsOk, InUse;
    assert Records(k.mem, p) && Records(k.mem, q);
  }

  lemma NewBlockFound(h: H.Heap, i: nat, n: nat)
    requires HeapOk(h) && i < |h.free| && 0 < n <= h.free[i].size && n % H.PAGE == 0
    ensures var h', va := KmallocHeap(h, i, n), h.free[i].sva;
      && H.Allocated(h', va) && h'.alloc[H.FindFrom(h'.alloc, va, 0)] == Block(va, n)
      && H.Free(h', va).alloc == h.alloc
      && Clear(h.alloc, Block(va, n)) && va % H.PAGE == 0
  {
    hide Coalesced, Space, Total, H.Paged, H.Disjoint, H.SelfDisjoint, InsertMerge, Splice, Carve, Clear, InsertSorted,
         Ordered;
    H.CutIsClear(h, Region(), i, n);
    H.InsertThenRemove(h.alloc, Block(h.free[i].sva, n));
    assert H.IsPaged(h.free[i]) by { FreePaged(h, i); }
  }

  lemma FreePaged(h: H.Heap, i: nat)
    requires HeapOk(h) && i < |h.free|
    ensures H.IsPaged(h.free[i])
  {
  }

  lemma TableElsewhere(k: Kernel, t: nat, b: Block)
    requires Counted(k.mem) && TableOk(k, t) && Clear(k.heap.alloc, b) && b.size > 0
    ensures k.mem.frames[t].va != b.sva && k.mem.frames[t].references > 0
  {
    hide Counted;
    MappedHasReference(k.mem, KernelPage(k.mem.frames[t].va / H.PAGE), t);
    var c := Block(k.mem.frames[t].va, H.PAGE);
    var j :| 0 <= j < |k.heap.alloc| && k.heap.alloc[j] == c;
  }

  /** A new block is no live page table's. */
  lemma NewBlockNoTable(k: Kernel, k': Kernel, i: nat, n: nat)
    requires Valid(k) && i < |k.heap.free| && 0 < n <= k.heap.free[i].size && n % H.PAGE == 0
    requires n / H.PAGE <= |k.mem.free| && Kmalloced(k, k', i, n)
    ensures NotATable(k', k.heap.free[i].sva)
  {
    hide Counted, HeapOk, HeapMapped, DirsOk, SlotsOk, KmallocHeap, RunFree, Clear, TableOk;
    NewBlockFound(k.heap, i, n);
    var va := k.heap.free[i].sva;
    forall t | t in k'.mem.owner && t < |k'.mem.frames| ensures k'.mem.frames[t].va != RoundDown(va) {
      assert TableOk(k, t);
      TableElsewhere(k, t, Block(va, n));
      assert k'.mem.frames[t] == k.mem.frames[t];
    }
  }

  lemma SameAgain(k: Kernel, k': Kernel, k'': Kernel, i: nat, n: nat)
    requires Valid(k) && Valid(k'') && i < |k.heap.free| && 0 < n <= k.heap.free[i].size && n / H.PAGE <= |k.mem.free|
    requires Kmalloced(k, k', i, n) && RunUnmapped(k'.mem, k''.mem, k.heap.free[i].sva / H.PAGE, n / H.PAGE)
    ensures k''.mem.pte == k.mem.pte && forall f: nat :: f in k''.mem.free <==> f in k.mem.free
  {
    hide HeapOk, Linked, NoRepeats;
    var p, m := k.heap.free[i].sva / H.PAGE, n / H.PAGE;
    forall s | s in k.mem.pte ensures k''.mem.pte[s] == k.mem.pte[s] {
      if InRun(s, p, m) { assert s == KernelPage(s.page); }
    }
    assert k''.mem.pte.Keys == k.mem.pte.Keys;
    assert k''.mem.pte == k.mem.pte;
    forall f: nat ensures f in k''.mem.free <==> f in k.mem.free {
      if f < |k.mem.frames| {
        assert CountOk(k.mem, f) && CountOk(k''.mem, f);
        SameUsers(k.mem, k''.mem, f);
      }
    }
  }

  lemma ValidHeap(k: Kernel)
    requires Valid(k)
    ensures HeapOk(k.heap)
  {
  }

  lemma HeapAgain(k: Kernel, k'': Kernel)
    requires Valid(k) && Valid(k'') && k''.heap.alloc == k.heap.alloc
    ensures k''.heap.free == k.heap.free
  {
    hide Counted, Linked, H.Inv;
    H.HolesDependOnUseOnly(k.heap, k''.heap, Region());
  }

  /** kfree undoes kmalloc: the heap and all mappings are as before, and the frames are free again. */
  lemma KfreeUndoesKmalloc(k: Kernel, size: nat, strategy: Strategy)
    requires Valid(k) && size > 0 && Defined(k.heap.free, H.RoundUp(size), strategy)
    requires Kmalloc(k, size, strategy).Done? && Kmalloc(k, size, strategy).value.1.Some?
    ensures var (k', va) := Kmalloc(k, size, strategy).value;
      var k'' := Kfree(k', va.value);
      && Valid(k'') && k''.heap.alloc == k.heap.alloc && k''.heap.free == k.heap.free && k''.mem.pte == k.mem.pte
      && (forall f: nat :: f in k''.mem.free <==> f in k.mem.free)
  {
    hide Valid, Kmalloced, Hole, H.RoundUp, H.FindFrom, KmallocHeap, UnmapRun, MapRun;
    var (k', va) := Kmalloc(k, size, strategy).value;
    var n := H.RoundUp(size);
    var i := Hole(k.heap.free, n, strategy);
    KmallocKeeps(k, size, strategy);
    H.RoundUpPaged(size);
    ValidHeap(k);
    NewBlockFound(k.heap, i, n);
    NewBlockNoTable(k, k', i, n);
    KfreeKeeps(k', va.value);
    SameAgain(k, k', Kfree(k', va.value), i, n);
    HeapAgain(k, Kfree(k', va.value));
  }

  // ---------------------------------------------------------------- boot

  /** What initialize_paging leaves: no heap page mapped, and no user page table anywhere. */
  ghost predicate Booted(m: Mem) {
    && Counted(m) && m.owner == map[] && m.hand == {} && m.storages == {}
    && (forall s :: s in m.pte <==> IsSlot(m, s)) && (forall s :: s in m.pte ==> m.pte[s] == Unmapped)
    && (forall d :: d in m.dirs ==> m.dirs[d] == NoTables())
  }

  function NoTables(): (r: seq<Pde>)
    ensures |r| == TABLES && forall x :: 0 <= x < |r| ==> r[x] == NoTable
  {
    seq(TABLES, x => NoTable)
  }

  /** initialize_dyn_block_system: the descriptor array is mapped, and the rest of the heap is one free block. */
  function Initialize(m: Mem): Outcome<Kernel> {
    match MapRun(m, HEAP_FIRST, DESCRIPTOR_PAGES)
    case None => Panic
    case Some(m') => Done(Kernel(m', H.Initial(Region())))
  }

  lemma InitializeValid(m: Mem)
    requires Booted(m)
    ensures Initialize(m).Panic? <==> |m.free| < DESCRIPTOR_PAGES
    ensures Initialize(m).Done? ==> Valid(Initialize(m).value)
  {
    BootedRun(m);
    hide Booted, Counted, H.Inv, RunMapped, HeapMapped, TablesOk, DirsOk, SlotsOk, MapRun, InUse;
    MapRunFacts(m, HEAP_FIRST, DESCRIPTOR_PAGES);
    H.InitialInv(Region());
    if Initialize(m).Done? {
      var k := Initialize(m).value;
      OnlyDescriptorsMapped(m, k);
      NoUserTables(m, k);
    }
  }

  lemma BootedRun(m: Mem)
    requires Booted(m)
    ensures Counted(m) && RunFree(m, HEAP_FIRST, DESCRIPTOR_PAGES)
  {
    hide Counted;
    assert forall q: nat :: HeapPage(q) ==> IsSlot(m, KernelPage(q));
  }

  lemma NoUserTables(m: Mem, k: Kernel)
    requires Booted(m) && DESCRIPTOR_PAGES <= |m.free| && RunMapped(m, k.mem, HEAP_FIRST, DESCRIPTOR_PAGES)
    ensures TablesOk(k) && DirsOk(k.mem) && SlotsOk(k.mem)
  {
    hide Counted;
    assert forall s :: IsSlot(k.mem, s) <==> IsSlot(m, s);
    assert IsSlot(m, KernelPage(TEMP));
  }

  lemma OnlyDescriptorsMapped(m: Mem, k: Kernel)
    requires Booted(m) && DESCRIPTOR_PAGES <= |m.free| && RunMapped(m, k.mem, HEAP_FIRST, DESCRIPTOR_PAGES)
    requires k.heap.alloc == []
    ensures HeapMapped(k)
  {
    hide Counted;
    var m' := k.mem;
    forall q: nat | HeapPage(q) ensures (IsMapped(m', KernelPage(q)) <==> InUse(k.heap, q)) && Records(m', q) {
      var s := KernelPage(q);
      assert IsSlot(m, s);
      if q < HEAP_FIRST + DESCRIPTOR_PAGES {
        assert InRun(s, HEAP_FIRST, DESCRIPTOR_PAGES);
        assert m'.frames[m.free[q - HEAP_FIRST]] == Frame(1, (HEAP_FIRST + (q - HEAP_FIRST)) * H.PAGE);
      }
    }
  }
}
