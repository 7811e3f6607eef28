/**
 The kernel's memory manager as it runs: the frames_info array, the list of free frames, the page tables and
 the heap's block lists are updated in place.  Every method is proved equal to the function of Paging,
 KernelHeap, PageTables, Chunks or UserMemory that specifies it.
 */
module KernelMemory {
  import opened Basics
  import opened Blocks
  import opened Lists
  import opened DynamicAllocator
  import opened Paging
  import opened KernelHeap
  import opened PageTables
  import opened Chunks
  import opened UserMemory
  import opened WorkingSet
  import PageFile
  import H = Heap

  class Memory {
    const frames: array<Frame>            // frames_info
    var freeFrames: seq<nat>              // free_frame_list, head first
    var pte: map<Slot, Pte>
    var dirs: map<nat, seq<Pde>>
    ghost var owner: map<nat, (nat, nat)>
    ghost var hand: set<nat>
    ghost var storages: set<nat>
    ghost const reserved: set<nat>
    const blocks: Allocator

    ghost function Now(): Mem
      reads this, frames
    {
      Mem(frames[..], freeFrames, pte, dirs, owner, reserved, hand, storages)
    }

    ghost function HeapNow(): H.Heap
      reads blocks.free, blocks.free.nodes`data, blocks.alloc, blocks.alloc.nodes`data, blocks.available
    {
      H.Heap(blocks.Free(), blocks.Alloc(), [], |blocks.available.nodes|)
    }

    ghost function View(): Kernel
      reads this, frames, blocks.free, blocks.free.nodes`data, blocks.alloc, blocks.alloc.nodes`data, blocks.available
    {
      Kernel(Now(), HeapNow())
    }

    /** All the descriptors on the heap's lists. */
    ghost function Nodes(): set<Descriptor>
      reads blocks.available, blocks.free, blocks.alloc
    {
      blocks.available.members + blocks.free.members + blocks.alloc.members
    }

    ghost predicate Valid()
      reads this, frames, blocks.free, blocks.free.members, blocks.alloc, blocks.alloc.members,
            blocks.available, blocks.available.members
    {
      blocks.Valid() && KernelHeap.Valid(View())
    }

    // ------------------------------------------------------------ boot

    // what the boot code leaves: frames_info cleared, the kernel's page tables empty, the descriptors pooled by
    // initialize_MemBlocksList; the kernel image ends before frame `kernelEnd`
    constructor (n: nat, kernelEnd: nat, descriptors: seq<Descriptor>)
      requires |descriptors| == HEAP_PAGES && forall i, j :: 0 <= i < j < |descriptors| ==>
        descriptors[i] != descriptors[j]
      modifies descriptors
      ensures blocks.Valid() && blocks.Free() == [] && blocks.Alloc() == [] && |blocks.available.nodes| == HEAP_PAGES
      ensures fresh(blocks) && fresh(blocks.available) && fresh(blocks.free) && fresh(blocks.alloc) && fresh(frames)
      ensures blocks.free.members == {} && blocks.alloc.members == {}
      ensures blocks.available.members == set j | 0 <= j < |descriptors| :: descriptors[j]
      ensures Cleared(n, kernelEnd)
    {
      frames := new Frame[n](_ => Frame(0, 0));
      freeFrames := [];
      pte := map s | s in KernelSlots() :: Unmapped;
      dirs, owner, hand, storages := map[], map[], {}, {};
      reserved := set f | 0 <= f < n && Reserved(f, kernelEnd);
      blocks := new Allocator(descriptors);
    }

    ghost predicate Cleared(n: nat, kernelEnd: nat)
      reads this, frames
    {
      && frames.Length == n && (forall f :: 0 <= f < n ==> frames[f] == Frame(0, 0))
      && dirs == map[] && owner == map[] && hand == {} && storages == {}
      && pte == (map s | s in KernelSlots() :: Unmapped)
      && reserved == set f | 0 <= f < n && Reserved(f, kernelEnd)
    }

    // initialize_paging
    method InitializePaging(kernelEnd: nat)
      requires EXTENDED <= kernelEnd <= frames.Length && Cleared(frames.Length, kernelEnd)
      modifies this`freeFrames, frames
      ensures Booted(Now()) && freeFrames == Down(kernelEnd, frames.Length) + Down(3, IO_HOLE)
    {
      hide Booted, KernelSlots, NoRepeats, Down;
      freeFrames := [];
      frames[0], frames[1], frames[2] := Frame(1, 0), Frame(1, 0), Frame(1, 0);
      ReleaseFrames(3, IO_HOLE);
      ReserveFrames(IO_HOLE, EXTENDED);
      ReserveFrames(EXTENDED, kernelEnd);
      ReleaseFrames(kernelEnd, frames.Length);
      BootCounts(Now(), frames.Length, kernelEnd);
    }

    // the loops of initialize_paging over ranges of usable frames
    method ReleaseFrames(lo: nat, hi: nat)
      requires lo <= hi <= frames.Length
      modifies this`freeFrames, frames
      ensures freeFrames == Down(lo, hi) + old(freeFrames)
      ensures forall f :: 0 <= f < frames.Length ==> frames[f] == if lo <= f < hi then Frame(0, 0) else old(frames[f])
    {
      var i := lo;
      while i < hi
        invariant lo <= i <= hi && freeFrames == Down(lo, i) + old(freeFrames)
        invariant forall f :: 0 <= f < frames.Length ==>
          frames[f] == if lo <= f < i then Frame(0, 0) else old(frames[f])
      {
        frames[i] := Frame(0, 0);
        freeFrames := [i] + freeFrames;
        i := i + 1;
      }
    }

    // its loops over frames already in use
    method ReserveFrames(lo: nat, hi: nat)
      requires lo <= hi <= frames.Length
      modifies frames
      ensures forall f :: 0 <= f < frames.Length ==>
                frames[f] == if lo <= f < hi then old(frames[f]).(references := 1) else old(frames[f])
    {
      var i := lo;
      while i < hi
        invariant lo <= i <= hi
        invariant forall f :: 0 <= f < frames.Length ==>
                    frames[f] == if lo <= f < i then old(frames[f]).(references := 1) else old(frames[f])
      {
        frames[i] := frames[i].(references := 1);
        i := i + 1;
      }
    }

    // initialize_dyn_block_system
    method InitializeDynBlockSystem() returns (panics: bool)
      requires Booted(Now()) && blocks.Valid() && blocks.Free() == [] && blocks.Alloc() == []
      requires |blocks.available.nodes| == HEAP_PAGES
      modifies this`freeFrames, this`hand, this`pte, frames
      modifies blocks.available, blocks.available.members, blocks.free, blocks.free.members
      ensures panics <==> Initialize(old(Now())).Panic?
      ensures !panics ==> Valid() && View() == Initialize(old(Now())).value
    {
      hide Booted, Counted, KernelHeap.Valid, Allocator.Valid, MapRun, Memory.HeapNow, H.Initial;
      ghost var m := Now();
      InitializeValid(m);
      BootSlots(m);
      var r;
      panics, r := AllocateKernelChunk(HEAP_FIRST, DESCRIPTOR_PAGES);
      if !panics {
        OpenWhole();
      }
    }

    // its last lines: the rest of the heap is one free block
    method OpenWhole()
      requires blocks.Valid() && blocks.Free() == [] && blocks.Alloc() == [] && |blocks.available.nodes| == HEAP_PAGES
      modifies blocks.available, blocks.available.members, blocks.free, blocks.free.members
      ensures blocks.Valid() && HeapNow() == H.Initial(Region())
    {
      hide Allocator.Valid;
      blocks.OpenHeap(Region().Whole());
    }

    // ------------------------------------------------------------ frames

    // allocate_frame
    method AllocateFrame() returns (panics: bool, f: nat)
      modifies this`freeFrames, this`hand, frames
      ensures panics <==> Paging.AllocateFrame(old(Now())).None?
      ensures !panics ==> (Now(), f) == Paging.AllocateFrame(old(Now())).value
    {
      panics, f := false, 0;
      if freeFrames == [] {
        return true, 0;
      }
      f := freeFrames[0];
      freeFrames := freeFrames[1..];
      hand := hand + {f};
      if f < frames.Length {
        frames[f] := Frame(0, 0);
      }
    }

    // free_frame
    method FreeFrame(f: nat)
      requires f < frames.Length
      modifies this`freeFrames, frames
      ensures Now() == Paging.FreeFrame(old(Now()), f)
    {
      frames[f] := Frame(0, 0);
      freeFrames := [f] + freeFrames;
    }

    // decrement_references
    method DecrementReferences(f: nat)
      requires f < frames.Length
      modifies this`freeFrames, frames
      ensures Now() == Paging.DecrementReferences(old(Now()), f)
    {
      frames[f] := Decrement(frames[f]);
      if frames[f].references == 0 {
        FreeFrame(f);
      }
    }

    // ------------------------------------------------------------ entries

    // unmap_frame, once the entry has been found
    method UnmapSlot(s: Slot)
      requires s in pte && (pte[s].Mapped? ==> pte[s].frame < frames.Length)
      modifies this`freeFrames, this`pte, frames
      ensures Now() == Paging.UnmapSlot(old(Now()), s)
    {
      if pte[s].Mapped? {
        DecrementReferences(pte[s].frame);
        pte := pte[s := Unmapped];
      }
    }

    // map_frame, once the entry has been found
    method MapSlot(s: Slot, f: nat, perms: set<Flag>)
      requires s in pte && (pte[s].Mapped? ==> pte[s].frame < frames.Length) && f < frames.Length
      modifies this`freeFrames, this`hand, this`pte, frames
      ensures Now() == Paging.MapSlot(old(Now()), s, f, perms)
    {
      if pte[s].Mapped? {
        if pte[s].frame == f {
          return;
        }
        UnmapSlot(s);
      }
      frames[f] := Increment(frames[f]);
      pte := pte[s := Mapped(f, perms)];
      hand := hand - {f};
    }

    // one turn of allocate_chunk, once the entry has been found
    method MapNew(s: Slot, perms: set<Flag>, va: nat) returns (panics: bool)
      requires CanWrite(Now(), s)
      modifies this`freeFrames, this`hand, this`pte, frames
      ensures panics <==> Paging.MapNew(old(Now()), s, perms, va).None?
      ensures !panics ==> Now() == Paging.MapNew(old(Now()), s, perms, va).value
    {
      assert freeFrames != [] ==> freeFrames[0] in freeFrames;
      var f;
      panics, f := AllocateFrame();
      if panics {
        return;
      }
      MapSlot(s, f, perms);
      frames[f] := frames[f].(va := va);
    }

    // ------------------------------------------------------------ the kernel heap

    // allocate_chunk on `n` kernel pages; their tables exist since boot
    method AllocateKernelChunk(p: nat, n: nat) returns (panics: bool, r: int)
      requires Counted(Now()) && forall q: nat :: p <= q < p + n ==> KernelPage(q) in pte
      modifies this`freeFrames, this`hand, this`pte, frames
      ensures AnyMapped(old(Now()), p, n) ==> !panics && r == -1 && Now() == old(Now())
      ensures !AnyMapped(old(Now()), p, n) ==>
        && (panics <==> MapRun(old(Now()), p, n).None?)
        && (!panics ==> r == 0 && Now() == MapRun(old(Now()), p, n).value)
    {
      hide Counted, Paging.MapNew;
      panics, r := false, 0;
      ghost var m := Now();
      var i := 0;
      while i < n
        invariant 0 <= i <= n && !AnyMapped(m, p, i) && Now() == m
      {
        NextMapped(m, p, i);
        if pte[KernelPage(p + i)].Mapped? {
          MoreMapped(m, p, i + 1, n);
          return false, -1;
        }
        i := i + 1;
      }
      i := 0;
      while i < n
        invariant 0 <= i <= n && MapRun(m, p, i) == Some(Now())
        invariant !panics && r == 0
      {
        StepOfRun(m, p, n, i);
        panics := MapNew(KernelPage(p + i), {Writeable}, (p + i) * H.PAGE);
        if panics {
          return;
        }
        i := i + 1;
      }
    }

    // alloc_block_FF
    method TakeFirstFit(n: nat) returns (b: Node?<Block>)
      requires Valid() && n > 0 && n % H.PAGE == 0
      modifies blocks.available, blocks.available.members, blocks.free, blocks.free.members
      ensures blocks.Valid() && blocks.Alloc() == old(blocks.Alloc())
      ensures TakenFrom(old(HeapNow()), Hole(old(HeapNow()).free, n, UseFirstFit), n, b)
      ensures b != null ==> b in old(blocks.available.members + blocks.free.members)
      ensures blocks.available.members <= old(blocks.available.members)
      ensures blocks.free.members <= old(blocks.free.members)
    {
      hide KernelHeap.Valid, H.Inv, Lists.Data, Carve, FirstFit, Coalesced;
      ghost var h := HeapNow();
      HeapInvariant(View());
      ghost var k := Hole(h.free, n, UseFirstFit);
      if k < |h.free| && h.free[k].size != n {
        H.SplitFindsDescriptor(h, Region(), n, k);
      }
      b := blocks.AllocBlockFF(n);
    }

    // alloc_block_BF
    method TakeBestFit(n: nat, junk: Block) returns (b: Node?<Block>)
      requires Valid() && n > 0 && n % H.PAGE == 0 && Defined(HeapNow().free, n, UseBestFit(junk))
      modifies blocks.available, blocks.available.members, blocks.free, blocks.free.members
      ensures blocks.Valid() && blocks.Alloc() == old(blocks.Alloc())
      ensures TakenFrom(old(HeapNow()), Hole(old(HeapNow()).free, n, UseBestFit(junk)), n, b)
      ensures b != null ==> b in old(blocks.available.members + blocks.free.members)
      ensures blocks.available.members <= old(blocks.available.members)
      ensures blocks.free.members <= old(blocks.free.members)
    {
      hide KernelHeap.Valid, H.Inv, Lists.Data, Carve, Coalesced, Defined, IsBestFit;
      ghost var h := HeapNow();
      HeapInvariant(View());
      ghost var k := Hole(h.free, n, UseBestFit(junk));
      if k < |h.free| && h.free[k].size != n {
        H.SplitFindsDescriptor(h, Region(), n, k);
      }
      WantsMeansSplit(h, n, junk, k);
      ghost var j;
      b, j := blocks.AllocBlockBF(n, junk);
      BestFitChosen(h.free, n, junk, k);
      if k < |h.free| {
        BestFitUnique(h.free, n, j, k);
      }
    }

    // the block alloc_block_FF or alloc_block_BF cuts, if the strategy is one of the two and a hole fits
    method TakeBlock(n: nat, strategy: Strategy) returns (b: Node?<Block>)
      requires Valid() && n > 0 && n % H.PAGE == 0 && Defined(HeapNow().free, n, strategy)
      modifies blocks.available, blocks.available.members, blocks.free, blocks.free.members
      ensures blocks.Valid() && blocks.Alloc() == old(blocks.Alloc())
      ensures TakenFrom(old(HeapNow()), Hole(old(HeapNow()).free, n, strategy), n, b)
      ensures b != null ==> b in old(blocks.available.members + blocks.free.members)
      ensures blocks.available.members <= old(blocks.available.members)
      ensures blocks.free.members <= old(blocks.free.members)
    {
      hide KernelHeap.Valid, Allocator.Valid, HeapNow, Hole;
      b := null;
      match strategy {
        case UseFirstFit => b := TakeFirstFit(n);
        case UseBestFit(junk) => b := TakeBestFit(n, junk);
        case UseOther => NoHole(HeapNow().free, n);
      }
    }

    /** Either there was no hole and nothing changed, or `b` holds the block cut from hole `k` of heap `h`. */
    ghost predicate TakenFrom(h: H.Heap, k: nat, n: nat, b: Node?<Block>)
      requires k < |h.free| ==> n <= h.free[k].size
      reads blocks.free, blocks.free.nodes`data, blocks.alloc, blocks.alloc.nodes`data, blocks.available, b
    {
      if k >= |h.free| then b == null && HeapNow() == h
      else b != null && blocks.Loose(b) && (HeapNow(), b.data) == H.TakeAt(h, k, n)
    }

    // the block, on the Alloc list
    method TakeForAlloc(n: nat, strategy: Strategy) returns (b: Node?<Block>)
      requires Valid() && n > 0 && n % H.PAGE == 0 && Defined(HeapNow().free, n, strategy)
      modifies blocks.available, blocks.free, blocks.alloc, Nodes()
      ensures Nodes() <= old(Nodes())
      ensures blocks.Valid()
      ensures var h, k := old(HeapNow()), Hole(old(HeapNow()).free, n, strategy);
        if k == |h.free| then b == null && HeapNow() == h
        else b != null && b.data == Block(h.free[k].sva, n) && HeapNow() == KmallocHeap(h, k, n)
    {
      hide KernelHeap.Valid, H.Inv, Lists.Data, InsertSorted, Hole, Carve, Clear, Ordered;
      ghost var h, i := HeapNow(), Hole(HeapNow().free, n, strategy);
      ghost var k := View();
      b := TakeBlock(n, strategy);
      if b != null {
        BlockForAlloc(k, i, n);
        blocks.InsertSortedAlloc(b);
      }
    }

    // kmalloc
    method Kmalloc(size: nat, strategy: Strategy) returns (panics: bool, va: Option<nat>)
      requires Valid() && size > 0 && Defined(View().heap.free, H.RoundUp(size), strategy)
      modifies this`freeFrames, this`hand, this`pte, frames
      modifies blocks.available, blocks.free, blocks.alloc, Nodes()
      ensures Nodes() <= old(Nodes())
      ensures var r := KernelHeap.Kmalloc(old(View()), size, strategy);
        && (panics <==> r.Panic?)
        && (!panics ==> Valid() && View() == r.value.0 && va == r.value.1)
    {
      hide KernelHeap.Valid, H.RoundUp, Hole, MapRun, Counted, Kmalloced, KmallocHeap, Memory.HeapNow, Allocator.Valid;
      panics, va := false, None;
      ghost var k := View();
      ghost var i := Hole(k.heap.free, H.RoundUp(size), strategy);
      KmallocKeeps(k, size, strategy);
      H.RoundUpPaged(size);
      var n := H.RoundUp(size);
      var b := TakeForAlloc(n, strategy);
      if b != null {
        BlockForAlloc(k, i, n);
        var r;
        panics, r := AllocateKernelChunk(b.data.sva / H.PAGE, n / H.PAGE);
        if !panics && r == 0 {
          va := Some(b.data.sva);
        }
      }
    }

    // unmap_frame on `n` kernel pages
    method UnmapKernelRun(p: nat, n: nat)
      requires Counted(Now()) && forall q: nat :: p <= q < p + n ==> KernelPage(q) in pte
      modifies this`freeFrames, this`pte, frames
      ensures Now() == UnmapRun(old(Now()), p, n)
    {
      hide Counted, Paging.UnmapSlot;
      ghost var m := Now();
      var i := 0;
      while i < n
        invariant 0 <= i <= n && Now() == UnmapRun(m, p, i)
      {
        UnmapRunFacts(m, p, i);
        assert KernelPage(p + i) in m.pte.Keys;
        Writable(Now(), KernelPage(p + i));
        UnmapSlot(KernelPage(p + i));
        i := i + 1;
      }
    }

    // kfree
    method Kfree(va: nat)
      requires Valid() && NotATable(View(), va)
      modifies this`freeFrames, this`pte, frames
      modifies blocks.available, blocks.free, blocks.alloc, Nodes()
      ensures Nodes() <= old(Nodes())
      ensures Valid() && View() == KernelHeap.Kfree(old(View()), va)
    {
      hide KernelHeap.Valid, Counted, NotATable, HeapNow, H.Free, UnmapRun, BlockFreed, RunUnmapped;
      ghost var k := View();
      KfreeKeeps(k, va);
      var a := RoundDown(va);
      var b, i := FindAllocated(a);
      if b != null {
        RunForFree(k, i);
        UnmapKernelRun(a / H.PAGE, b.data.size / H.PAGE);
        ReturnBlock(a, b, i);
      }
    }

    // find_block on the Alloc list
    method FindAllocated(a: nat) returns (b: Node?<Block>, ghost i: nat)
      requires blocks.Valid()
      ensures i == H.FindFrom(HeapNow().alloc, a, 0)
      ensures i == |HeapNow().alloc| <==> b == null
      ensures b != null ==>
        i < |blocks.alloc.nodes| == |HeapNow().alloc| && blocks.alloc.nodes[i] == b && b.data == HeapNow().alloc[i]
    {
      ghost var k;
      b, k := blocks.FindBlock(a);
      i := H.FindFrom(HeapNow().alloc, a, 0);
    }

    // the two list operations of kfree
    method ReturnBlock(a: nat, b: Node<Block>, ghost i: nat)
      requires blocks.Valid() && H.Inv(HeapNow(), Region())
      requires i == H.FindFrom(HeapNow().alloc, a, 0) && i < |blocks.alloc.nodes| == |HeapNow().alloc|
          && blocks.alloc.nodes[i] == b
      modifies blocks.available, blocks.free, blocks.alloc, Nodes()
      ensures Nodes() <= old(Nodes())
      ensures blocks.Valid() && H.Allocated(old(HeapNow()), a) && HeapNow() == H.Free(old(HeapNow()), a)
    {
      hide H.Inv, Lists.Data, InsertMerge, Splice, Allocator.Valid;
      ghost var h := HeapNow();
      assert h.alloc[i].sva == a;
      H.RemovedIsClear(h, Region(), a);
      blocks.RemoveAlloc(b, i);
      blocks.InsertSortedWithMergeFree(b);
    }

    // ------------------------------------------------------------ user page tables

    // get_page_table for a user page
    method GetPageTable(d: nat, p: nat) returns (r: TableRef)
      requires d in dirs && p / ENTRIES < |dirs[d]|
      ensures r == PageTables.GetPageTable(Now(), d, p)
    {
      match dirs[d][p / ENTRIES] {
        case NoTable => return Missing;
        case Table(t) =>
          if t >= frames.Length {
            return Lost;
          }
          var s := KernelPage(frames[t * H.PAGE / H.PAGE].va / H.PAGE);
          if s in pte && pte[s].Mapped? {
            return At(pte[s].frame);
          }
          return Lost;
      }
    }

    // get_frame_info
    method GetFrameInfo(d: nat, p: nat) returns (e: Pte)
      requires d in dirs && p / ENTRIES < |dirs[d]|
      ensures e == Lookup(Now(), d, p)
    {
      var r := GetPageTable(d, p);
      if r.At? && InTable(r.table, p % ENTRIES) in pte {
        return pte[InTable(r.table, p % ENTRIES)];
      }
      return Unmapped;
    }

    // create_page_table
    method CreatePageTable(d: nat, p: nat, strategy: Strategy) returns (panics: bool)
      requires Valid() && d in dirs && UserPage(p) && |dirs[d]| == TABLES && dirs[d][p / ENTRIES] == NoTable
      modifies this`freeFrames, this`hand, this`pte, this`dirs, this`owner, frames
      modifies blocks.available, blocks.free, blocks.alloc, Nodes()
      ensures Nodes() <= old(Nodes())
      ensures Defined(old(View()).heap.free, H.RoundUp(H.PAGE), strategy)
      ensures var r := PageTables.CreatePageTable(old(View()), d, p, strategy);
        (panics <==> r.Panic?) && (!panics ==> Valid() && View() == r.value)
    {
      hide KernelHeap.Valid, Allocator.Valid, HeapNow, KernelHeap.Kmalloc, TableAdded, Hole;
      ghost var k := View();
      CreatePageTableKeeps(k, d, p, strategy);
      var va;
      panics, va := Kmalloc(H.PAGE, strategy);
      if panics || va.None? {
        return true;
      }
      TableBlockMapped(k, strategy);
      var pa := match pte[KernelPage(va.value / H.PAGE)] { case Unmapped => 0 case Mapped(f, _) => f * H.PAGE };
      ghost var m := Now();
      dirs := dirs[d := dirs[d][p / ENTRIES := Table(pa / H.PAGE)]];
      owner := owner[pa / H.PAGE := (d, p / ENTRIES)];
      ClearTable(pa / H.PAGE);
      assert Now() == HangTable(m, pa / H.PAGE, d, p / ENTRIES);
    }

    // memset of a page table
    method ClearTable(t: nat)
      modifies this`pte
      ensures pte == old(pte) + (map s | s in TableSlots(t) :: Unmapped)
    {
      var j := 0;
      while j < ENTRIES
        invariant 0 <= j <= ENTRIES
        invariant pte == old(pte) + (map s | s in TableSlots(t) && s.index < j :: Unmapped)
      {
        pte := pte[InTable(t, j) := Unmapped];
        j := j + 1;
      }
      assert forall s :: s in TableSlots(t) ==> s.index < ENTRIES;
    }

    lemma DirectoryReady(d: nat, p: nat)
      requires Ready(View(), d, p)
      ensures d in dirs && p / ENTRIES < |dirs[d]|
    {
      hide KernelHeap.Valid;
    }

    method EnsureTable(d: nat, p: nat, strategy: Strategy) returns (panics: bool)
      requires Valid() && Ready(View(), d, p)
      modifies this`freeFrames, this`hand, this`pte, this`dirs, this`owner, frames
      modifies blocks.available, blocks.free, blocks.alloc, Nodes()
      ensures Nodes() <= old(Nodes())
      ensures var r := PageTables.EnsureTable(old(View()), d, p, strategy);
        (panics <==> r.Panic?) && (!panics ==> Valid() && View() == r.value)
    {
      hide KernelHeap.Valid, Allocator.Valid, HeapNow, PageTables.CreatePageTable;
      GetPageTableFinds(View(), d, p);
      panics := false;
      var r := GetPageTable(d, p);
      if r == Missing {
        panics := CreatePageTable(d, p, strategy);
      }
    }

    // map_frame
    method MapFrame(d: nat, f: nat, p: nat, perms: set<Flag>, strategy: Strategy) returns (panics: bool)
      requires Valid() && Ready(View(), d, p) && d !in Now().storages && Mappable(Now(), f)
      modifies this`freeFrames, this`hand, this`pte, this`dirs, this`owner, frames
      modifies blocks.available, blocks.free, blocks.alloc, Nodes()
      ensures Nodes() <= old(Nodes())
      ensures var r := PageTables.MapFrame(old(View()), d, f, p, perms, strategy);
        (panics <==> r.Panic?) && (!panics ==> Valid() && View() == r.value)
    {
      hide KernelHeap.Valid, Allocator.Valid, HeapNow, PageTables.EnsureTable, Lookup;
      ghost var k := View();
      MapFrameAnywhere(k, d, f, p, perms, strategy);
      FrameExists(k, f);
      panics := EnsureTable(d, p, strategy);
      if panics {
        return;
      }
      SlotForWrite(View(), d, p);
      EnsureKeepsFrames(k, d, p, strategy);
      var t := GetPageTable(d, p);
      MapSlot(InTable(t.table, p % ENTRIES), f, perms);
    }

    // unmap_frame
    method UnmapFrame(d: nat, p: nat)
      requires Valid() && Ready(View(), d, p) && d !in Now().storages
      modifies this`freeFrames, this`pte, frames
      ensures Valid() && View() == PageTables.UnmapFrame(old(View()), d, p)
    {
      hide KernelHeap.Valid, Allocator.Valid, HeapNow, Lookup;
      ghost var k := View();
      UnmapFrameKeeps(k, d, p);
      ReadyValid(PageTables.UnmapFrame(k, d, p), d, p);
      var t := GetPageTable(d, p);
      if t.At? {
        SlotForWrite(k, d, p);
        UnmapSlot(InTable(t.table, p % ENTRIES));
      }
    }

    // ------------------------------------------------------------ chunks

    // one turn of allocate_chunk
    method AllocPage(d: nat, p: nat, perms: set<Flag>, va: nat, strategy: Strategy) returns (panics: bool)
      requires Valid() && Ready(View(), d, p) && d !in Now().storages && Lookup(Now(), d, p) == Unmapped
      modifies this`freeFrames, this`hand, this`pte, this`dirs, this`owner, frames
      modifies blocks.available, blocks.free, blocks.alloc, Nodes()
      ensures Nodes() <= old(Nodes())
      ensures var r := PageTables.AllocPage(old(View()), d, p, perms, va, strategy);
        (panics <==> r.Panic?) && (!panics ==> Valid() && View() == r.value)
    {
      hide KernelHeap.Valid, Allocator.Valid, HeapNow, PageTables.EnsureTable, Lookup, Paging.MapNew, PageAllocated,
           CanWrite;
      ghost var k := View();
      AllocPageKeeps(k, d, p, perms, va, strategy);
      panics := EnsureTable(d, p, strategy);
      if panics {
        return;
      }
      SlotForWrite(View(), d, p);
      var t := GetPageTable(d, p);
      panics := MapNew(InTable(t.table, p % ENTRIES), perms, va);
      if !panics {
        ReadyValid(PageTables.AllocPage(k, d, p, perms, va, strategy).value, d, p);
      }
    }

    // the first loop of allocate_chunk, cut_paste_pages and share_chunk
    method AnyPageMapped(d: nat, p: nat, n: nat) returns (found: bool)
      requires Valid() && UserRange(View(), d, p, n)
      ensures found <==> !RangeUnmapped(Now(), d, p, n)
    {
      hide KernelHeap.Valid, Lookup;
      IsReady(View(), d, 0);
      var i := 0;
      while i < n
        invariant 0 <= i <= n && RangeUnmapped(Now(), d, p, i)
      {
        var e := GetFrameInfo(d, p + i);
        if e != Unmapped {
          return true;
        }
        i := i + 1;
      }
      return false;
    }

    // allocate_chunk on user pages
    method AllocateChunk(d: nat, p: nat, n: nat, perms: set<Flag>, strategy: Strategy) returns (panics: bool, r: int)
      requires Valid() && UserRange(View(), d, p, n)
      modifies this`freeFrames, this`hand, this`pte, this`dirs, this`owner, frames
      modifies blocks.available, blocks.free, blocks.alloc, Nodes()
      ensures Nodes() <= old(Nodes())
      ensures var s := Chunks.AllocateChunk(old(View()), d, p, n, perms, strategy);
        (panics <==> s.Panic?) && (!panics ==> Valid() && (View(), r) == s.value)
    {
      hide KernelHeap.Valid, Allocator.Valid, HeapNow, Now, Lookup, PageTables.AllocPage, Enough;
      ghost var k := View();
      panics, r := false, 0;
      var found := AnyPageMapped(d, p, n);
      if found {
        return false, -1;
      }
      var i := 0;
      while i < n
        invariant 0 <= i <= n && !panics && r == 0 && Valid() && Nodes() <= old(Nodes())
        invariant Chunks.AllocPages(k, d, p, i, perms, strategy) == Done(View())
      {
        NextToAllocate(k, d, p, i, n, perms, strategy);
        panics := AllocPage(d, p + i, perms, (p + i) * H.PAGE, strategy);
        if panics {
          PanicStays(k, d, p, i + 1, n, perms, strategy);
          return;
        }
        i := i + 1;
      }
    }

    // one turn of cut_paste_pages
    method MovePage(d: nat, a: nat, b: nat, strategy: Strategy) returns (panics: bool)
      requires Valid() && Ready(View(), d, b) && d !in Now().storages && UserPage(a) && Lookup(Now(), d, a).Mapped?
          && Lookup(Now(), d, b) == Unmapped
      requires References(Now(), Lookup(Now(), d, a).frame) < COUNTER - 1
      modifies this`freeFrames, this`hand, this`pte, this`dirs, this`owner, frames
      modifies blocks.available, blocks.free, blocks.alloc, Nodes()
      ensures Nodes() <= old(Nodes())
      ensures var r := Chunks.MovePage(old(View()), d, a, b, strategy);
        (panics <==> r.Panic?) && (!panics ==> Valid() && View() == r.value)
    {
      hide KernelHeap.Valid, Allocator.Valid, HeapNow, Now, Lookup, PageTables.MapFrame, PageTables.UnmapFrame,
           References, FrameMapped;
      ghost var k := View();
      IsReady(k, d, a);
      LookupCounts(k, d, a, b);
      assert d in dirs && a / ENTRIES < |dirs[d]| by { DirectoryReady(d, a); }
      var e := GetFrameInfo(d, a);
      MapFrameKeeps(k, d, e.frame, b, e.perms, strategy);
      panics := MapFrame(d, e.frame, b, e.perms, strategy);
      if panics {
        return;
      }
      MapKeepsDirs(k, View(), d, e.frame, b, e.perms);
      IsReady(View(), d, a);
      UnmapFrame(d, a);
    }

    // cut_paste_pages
    method CutPastePages(d: nat, a: nat, b: nat, n: nat, strategy: Strategy) returns (panics: bool, r: int)
      requires Valid() && UserRange(View(), d, a, n) && UserRange(View(), d, b, n)
      requires RangeMapped(Now(), d, a, n) && CountersHaveRoom(Now(), d, a, n)
      modifies this`freeFrames, this`hand, this`pte, this`dirs, this`owner, frames
      modifies blocks.available, blocks.free, blocks.alloc, Nodes()
      ensures Nodes() <= old(Nodes())
      ensures var s := Chunks.CutPastePages(old(View()), d, a, b, n, strategy);
        (panics <==> s.Panic?) && (!panics ==> Valid() && (View(), r) == s.value)
    {
      hide KernelHeap.Valid, Allocator.Valid, HeapNow, Now, Lookup, Chunks.MovePage, RoomForTables, References,
           CountersHaveRoom, RangeMapped;
      ghost var k := View();
      panics, r := false, 0;
      var found := AnyPageMapped(d, b, n);
      if found {
        return false, -1;
      }
      var i := 0;
      while i < n
        invariant 0 <= i <= n && !panics && r == 0 && Valid() && Nodes() <= old(Nodes())
        invariant Chunks.MovePages(k, d, a, b, i, strategy) == Done(View())
      {
        NextToMove(k, d, a, b, i, n, strategy);
        panics := MovePage(d, a + i, b + i, strategy);
        if panics {
          MovePanicStays(k, d, a, b, i + 1, n, strategy);
          return;
        }
        i := i + 1;
      }
    }

    // share_chunk
    method ShareChunk(d: nat, a: nat, b: nat, n: nat, perms: set<Flag>, strategy: Strategy)
      returns (panics: bool, r: int)
      requires Valid() && UserRange(View(), d, a, n) && UserRange(View(), d, b, n)
      requires RangeMapped(Now(), d, a, n) && CountersTake(Now(), d, a, n)
      modifies this`freeFrames, this`hand, this`pte, this`dirs, this`owner, frames
      modifies blocks.available, blocks.free, blocks.alloc, Nodes()
      ensures Nodes() <= old(Nodes())
      ensures var s := Chunks.ShareChunk(old(View()), d, a, b, n, perms, strategy);
        (panics <==> s.Panic?) && (!panics ==> Valid() && (View(), r) == s.value)
    {
      hide KernelHeap.Valid, Allocator.Valid, HeapNow, Now, Lookup, PageTables.MapFrame, RoomForTables, References,
           CountersTake, RangeMapped;
      ghost var k := View();
      panics, r := false, 0;
      var found := AnyPageMapped(d, b, n);
      if found {
        return false, -1;
      }
      var i := 0;
      while i < n
        invariant 0 <= i <= n && !panics && r == 0 && Valid() && Nodes() <= old(Nodes())
        invariant Chunks.SharePages(k, d, a, b, i, perms, strategy) == Done(View())
      {
        NextToShare(k, d, a, b, i, n, perms, strategy);
        IsReady(View(), d, a + i);
        assert d in dirs && (a + i) / ENTRIES < |dirs[d]| by { DirectoryReady(d, a + i); }
        var e := GetFrameInfo(d, a + i);
        panics := MapFrame(d, e.frame, b + i, perms, strategy);
        if panics {
          SharePanicStays(k, d, a, b, i + 1, n, perms, strategy);
          return;
        }
        i := i + 1;
      }
    }

    // ------------------------------------------------------------ free_user_mem

    // env_page_ws_clear_entry
    method ClearEntry(ws: array<WsEntry>, j: nat)
      requires j < ws.Length
      modifies ws
      ensures ws[..] == old(ws[..])[j := CLEARED]
    {
      ws[j] := WsEntry(0, true, 0);
    }

    // the first loop of free_user_mem; `last` is page_last_WS_index
    method UnmapResident(d: nat, ws: array<WsEntry>, p: nat, n: nat, last0: nat) returns (last: nat)
      requires Valid() && UserRange(View(), d, p, n)
      modifies this`freeFrames, this`pte, frames, ws
      ensures Valid() && UserRange(View(), d, p, n)
      ensures View() == UnmapWs(old(View()), d, old(ws[..]), p, n, ws.Length)
      ensures ws[..] == ClearWs(old(ws[..]), p, n) && IsLastHit(old(ws[..]), p, n, ws.Length, last0, last)
    {
      hide KernelHeap.Valid, Allocator.Valid, HeapNow, Now, PageTables.UnmapFrame;
      ghost var k, entries := View(), ws[..];
      last := last0;
      var j := 0;
      while j < ws.Length
        invariant 0 <= j <= ws.Length && Valid() && View() == UnmapWs(k, d, entries, p, n, j)
        invariant forall i :: 0 <= i < ws.Length ==>
                    ws[i] == if i < j && Hit(entries[i], p, n) then CLEARED else entries[i]
        invariant IsLastHit(entries, p, n, j, last0, last)
      {
        UnmapWsKeeps(k, d, entries, p, n, j);
        var w := ws[j];
        if !w.empty && p <= w.page < p + n {
          last := j;
          IsReady(View(), d, w.page);
          UnmapFrame(d, w.page);
          ClearEntry(ws, j);
        }
        j := j + 1;
      }
      UnmapWsKeeps(k, d, entries, p, n, ws.Length);
    }

    // the search for an entry in use
    method IsTableEmpty(t: nat) returns (empty: bool)
      requires forall j: nat :: j < ENTRIES ==> InTable(t, j) in pte
      ensures empty <==> TableEmpty(Now(), t)
    {
      var j := 0;
      while j < ENTRIES
        invariant 0 <= j <= ENTRIES
        invariant forall i: nat :: i < j ==> pte[InTable(t, i)] == Unmapped
      {
        if pte[InTable(t, j)] != Unmapped {
          return false;
        }
        j := j + 1;
      }
      return true;
    }

    // clearing a directory entry and freeing the block of its table, which has no entry in use
    method FreeTable(d: nat, x: nat, t: nat)
      requires Valid() && d in dirs && x < TABLES && |dirs[d]| == TABLES && dirs[d][x] == Table(t)
      requires t in owner && t < frames.Length && UserMemory.TableEmpty(Now(), t)
      modifies this`freeFrames, this`pte, this`dirs, this`owner, frames
      modifies blocks.available, blocks.free, blocks.alloc, Nodes()
      ensures Nodes() <= old(Nodes())
      ensures var k := old(View());
        Valid() && View() == KernelHeap.Kfree(k.(mem := UnhangTable(k.mem, t, d, x)), k.mem.frames[t].va)
    {
      hide KernelHeap.Valid, Allocator.Valid, HeapNow, KernelHeap.Kfree, UserMemory.TableEmpty;
      ReadyToFree(View(), d, x, t);
      var va := frames[t].va;
      dirs := dirs[d := dirs[d][x := NoTable]];
      owner := owner - {t};
      pte := pte - TableSlots(t);
      Kfree(va);
    }

    // the rest of one turn of the second loop of free_user_mem
    method RemoveIfEmpty(d: nat, q: nat)
      requires Valid() && Ready(View(), d, q)
      modifies this`freeFrames, this`pte, this`dirs, this`owner, frames
      modifies blocks.available, blocks.free, blocks.alloc, Nodes()
      ensures Nodes() <= old(Nodes())
      ensures Valid() && View() == UserMemory.RemoveIfEmpty(old(View()), d, q)
    {
      hide KernelHeap.Valid, Allocator.Valid, HeapNow, KernelHeap.Kfree, UserMemory.TableEmpty, UnhangTable,
           PageTables.GetPageTable;
      ghost var k := View();
      GetPageTableFinds(k, d, q);
      var r := GetPageTable(d, q);
      if r.At? {
        TableEntries(k, r.table);
        var empty := IsTableEmpty(r.table);
        if empty {
          FreeTable(d, q / ENTRIES, r.table);
        }
      }
    }

    // one turn of the second loop of free_user_mem
    method SweepOne(d: nat, file: PageFile.PageFile<seq<bv8>>, e: nat, q: nat)
      requires Valid() && Ready(View(), d, q) && file.Valid()
      modifies this`freeFrames, this`pte, this`dirs, this`owner, frames, file
      modifies blocks.available, blocks.free, blocks.alloc, Nodes()
      ensures Nodes() <= old(Nodes())
      ensures Valid() && View() == UserMemory.RemoveIfEmpty(old(View()), d, q)
      ensures file.Valid()
      ensures forall f: nat, r: nat :: file.Stored(f, r) == if f == e && r == q then None else old(file.Stored(f, r))
    {
      hide KernelHeap.Valid, Allocator.Valid, HeapNow, Now, UserMemory.RemoveIfEmpty, PageFile.Dfn, PageFile.Partition;
      file.RemoveEnvPage(e, q);
      RemoveIfEmpty(d, q);
    }

    // the second loop of free_user_mem
    method SweepRange(d: nat, file: PageFile.PageFile<seq<bv8>>, e: nat, p: nat, n: nat)
      requires Valid() && UserRange(View(), d, p, n) && file.Valid()
      modifies this`freeFrames, this`pte, this`dirs, this`owner, frames, file
      modifies blocks.available, blocks.free, blocks.alloc, Nodes()
      ensures Nodes() <= old(Nodes())
      ensures Valid() && View() == SweepTables(old(View()), d, p, n)
      ensures file.Valid()
      ensures forall f: nat, q: nat ::
        file.Stored(f, q) == if f == e && p <= q < p + n then None else old(file.Stored(f, q))
    {
      hide KernelHeap.Valid, Allocator.Valid, HeapNow, Now, UserMemory.RemoveIfEmpty, PageFile.Dfn, PageFile.Partition,
           PageFile.PageFile.Valid;
      ghost var k := View();
      var i := 0;
      while i < n
        invariant 0 <= i <= n && Valid() && View() == SweepTables(k, d, p, i) && Nodes() <= old(Nodes())
        invariant file.Valid()
        invariant forall f: nat, q: nat :: file.Stored(f, q) == if f == e
            && p <= q < p + i then None else old(file.Stored(f, q))
      {
        SweepTablesKeeps(k, d, p, i);
        IsReady(View(), d, p + i);
        SweepOne(d, file, e, p + i);
        i := i + 1;
      }
    }

    // free_user_mem
    method FreeUserMem(d: nat, ws: array<WsEntry>, file: PageFile.PageFile<seq<bv8>>, e: nat, p: nat, n: nat,
                       last0: nat)
      returns (last: nat)
      requires Valid() && UserRange(View(), d, p, n) && file.Valid()
      modifies this`freeFrames, this`pte, this`dirs, this`owner, frames, ws, file
      modifies blocks.available, blocks.free, blocks.alloc, Nodes()
      ensures Nodes() <= old(Nodes())
      ensures Valid() && (View(), ws[..]) == UserMemory.FreeUserMem(old(View()), d, old(ws[..]), p, n)
      ensures IsLastHit(old(ws[..]), p, n, ws.Length, last0, last)
      ensures file.Valid()
      ensures forall f: nat, q: nat ::
        file.Stored(f, q) == if f == e && p <= q < p + n then None else old(file.Stored(f, q))
    {
      hide KernelHeap.Valid, Allocator.Valid, HeapNow, Now, PageFile.Dfn, PageFile.Partition, SweepTables, UnmapWs,
           ClearWs;
      last := UnmapResident(d, ws, p, n, last0);
      SweepRange(d, file, e, p, n);
    }
  }

  lemma NextToAllocate(k: Kernel, d: nat, p: nat, i: nat, n: nat, perms: set<Flag>, strategy: Strategy)
    requires UserRange(k, d, p, n) && RangeUnmapped(k.mem, d, p, n) && i < n
    requires Chunks.AllocPages(k, d, p, i, perms, strategy).Done?
    ensures var k1 := Chunks.AllocPages(k, d, p, i, perms, strategy).value;
      && Ready(k1, d, p + i) && d !in k1.mem.storages && Lookup(k1.mem, d, p + i) == Unmapped
      && Chunks.AllocPages(k, d, p, i + 1, perms, strategy)
        == PageTables.AllocPage(k1, d, p + i, perms, (p + i) * H.PAGE, strategy)
  {
    hide KernelHeap.Valid, Lookup, PageTables.AllocPage, Enough;
    AllocPagesKeeps(k, d, p, i, perms, strategy);
    IsReady(Chunks.AllocPages(k, d, p, i, perms, strategy).value, d, p + i);
  }

  lemma MapKeepsDirs(k: Kernel, k': Kernel, d: nat, f: nat, p: nat, perms: set<Flag>)
    requires FrameMapped(k, k', d, f, p, perms)
    ensures k'.mem.dirs.Keys == k.mem.dirs.Keys && k'.mem.storages == k.mem.storages
  {
  }

  lemma NextToMove(k: Kernel, d: nat, a: nat, b: nat, i: nat, n: nat, strategy: Strategy)
    requires UserRange(k, d, a, n) && UserRange(k, d, b, n) && i < n
    requires RangeMapped(k.mem, d, a, n) && RangeUnmapped(k.mem, d, b, n) && CountersHaveRoom(k.mem, d, a, n)
    requires Chunks.MovePages(k, d, a, b, i, strategy).Done?
    ensures var k1 := Chunks.MovePages(k, d, a, b, i, strategy).value;
      && Ready(k1, d, b + i) && d !in k1.mem.storages && UserPage(a + i)
      && Lookup(k1.mem, d, a + i).Mapped? && Lookup(k1.mem, d, b + i) == Unmapped
      && References(k1.mem, Lookup(k1.mem, d, a + i).frame) < COUNTER - 1
      && Chunks.MovePages(k, d, a, b, i + 1, strategy) == Chunks.MovePage(k1, d, a + i, b + i, strategy)
  {
    hide KernelHeap.Valid, Lookup, Chunks.MovePage, RoomForTables, References, PagesMoved, CountersHaveRoom;
    var k1 := Chunks.MovePages(k, d, a, b, i, strategy).value;
    CheckMeansDisjoint(k.mem, d, a, b, n);
    assert CountersHaveRoom(k.mem, d, a, i) && References(k.mem, Lookup(k.mem, d, a + i).frame) < COUNTER - 1 by {
      RoomAt(k.mem, d, a, i, n);
    }
    MovePagesKeeps(k, d, a, b, i, strategy);
    assert Ready(k1, d, b + i) && k1.mem.storages == k.mem.storages by {
      MovedRoom(k, k1, d, a, b, i);
      IsReady(k1, d, b + i);
    }
    IsReady(k, d, b + i);
    LookupCounts(k, d, a + i, b + i);
    StillToMove(k, k1, d, a, b, i, n);
  }

  lemma RoomAt(m: Mem, d: nat, a: nat, i: nat, n: nat)
    requires CountersHaveRoom(m, d, a, n) && RangeMapped(m, d, a, n) && i < n
    ensures CountersHaveRoom(m, d, a, i) && References(m, Lookup(m, d, a + i).frame) < COUNTER - 1
  {
    hide Lookup, References;
    assert Lookup(m, d, a + i).Mapped?;
  }

  lemma NextToShare(k: Kernel, d: nat, a: nat, b: nat, i: nat, n: nat, perms: set<Flag>, strategy: Strategy)
    requires UserRange(k, d, a, n) && UserRange(k, d, b, n) && i < n
    requires RangeMapped(k.mem, d, a, n) && RangeUnmapped(k.mem, d, b, n) && CountersTake(k.mem, d, a, n)
    requires Chunks.SharePages(k, d, a, b, i, perms, strategy).Done?
    ensures var k1 := Chunks.SharePages(k, d, a, b, i, perms, strategy).value;
      && KernelHeap.Valid(k1) && Ready(k1, d, b + i) && d !in k1.mem.storages && UserPage(a + i)
         && Lookup(k1.mem, d, a + i).Mapped?
      && 0 < References(k1.mem, Lookup(k1.mem, d, a + i).frame) < COUNTER - 1
      && Chunks.SharePages(k, d, a, b, i + 1, perms, strategy)
         == PageTables.MapFrame(k1, d, Lookup(k1.mem, d, a + i).frame, b + i, perms, strategy)
  {
    hide KernelHeap.Valid, Lookup, PageTables.MapFrame, RoomForTables, References, PagesShared, CountersTake, Showing;
    var k1 := Chunks.SharePages(k, d, a, b, i, perms, strategy).value;
    FewerSharing(k.mem, d, a, i, n);
    SharePagesKeeps(k, d, a, b, i, perms, strategy);
    CheckMeansDisjoint(k.mem, d, a, b, n);
    IsReady(k, d, b + i);
    LookupCounts(k, d, a + i, b + i);
    FewerShown(k.mem, d, a, i + 1);
    StillToShare(k, k1, d, a, b, i, n, perms);
    IsReady(k1, d, b + i);
  }

  lemma {:induction false} FewerSharing(m: Mem, d: nat, a: nat, i: nat, n: nat)
    requires i < n && CountersTake(m, d, a, n)
    ensures CountersTake(m, d, a, i) && CountersTake(m, d, a, i + 1)
    decreases n
  {
    hide CountersTake;
    FewerShown(m, d, a, n);
    if i < n - 1 {
      FewerSharing(m, d, a, i, n - 1);
    }
  }

  lemma TableEntries(k: Kernel, t: nat)
    requires KernelHeap.Valid(k) && t in k.mem.owner
    ensures forall j: nat :: j < ENTRIES ==> InTable(t, j) in k.mem.pte
    ensures t < |k.mem.frames|
  {
    hide Counted, HeapOk, HeapMapped, TablesOk, DirsOk;
    forall j: nat | j < ENTRIES ensures InTable(t, j) in k.mem.pte { assert IsSlot(k.mem, InTable(t, j)); }
    TableFrame(k, t);
  }

  lemma ReadyToFree(k: Kernel, d: nat, x: nat, t: nat)
    requires KernelHeap.Valid(k) && d in k.mem.dirs && x < TABLES && |k.mem.dirs[d]| == TABLES
        && k.mem.dirs[d][x] == Table(t)
    requires t in k.mem.owner && t < |k.mem.frames| && UserMemory.TableEmpty(k.mem, t)
    ensures var k1 := k.(mem := UnhangTable(k.mem, t, d, x));
      KernelHeap.Valid(k1) && NotATable(k1, k.mem.frames[t].va)
  {
    hide KernelHeap.Valid, UnhangTable, NotATable;
    UnhangKeeps(k, t, d, x);
    TablesOwnAddresses(k, t, d, x);
  }

  lemma SlotForWrite(k: Kernel, d: nat, p: nat)
    requires Ready(k, d, p)
    ensures PageTables.GetPageTable(k.mem, d, p).At? ==>
      var s := InTable(PageTables.GetPageTable(k.mem, d, p).table, p % ENTRIES);
      EntrySlot(k.mem, d, p) == Some(s) && s in k.mem.pte && CanWrite(k.mem, s)
    ensures EntrySlot(k.mem, d, p).Some? ==> PageTables.GetPageTable(k.mem, d, p).At?
  {
    ReadyValid(k, d, p);
    GetPageTableFinds(k, d, p);
    hide HeapOk, Linked, CountsOk, NoRepeats, PageTables.GetPageTable;
    if PageTables.GetPageTable(k.mem, d, p).At? {
      Writable(k.mem, InTable(PageTables.GetPageTable(k.mem, d, p).table, p % ENTRIES));
    }
  }

  lemma FrameExists(k: Kernel, f: nat)
    requires KernelHeap.Valid(k) && Mappable(k.mem, f)
    ensures f < |k.mem.frames|
  {
    hide HeapOk, Linked, Counted;
    MappableFrame(k.mem, f);
  }

  lemma EnsureKeepsFrames(k: Kernel, d: nat, p: nat, strategy: Strategy)
    requires Ready(k, d, p) && PageTables.EnsureTable(k, d, p, strategy).Done?
    ensures |PageTables.EnsureTable(k, d, p, strategy).value.mem.frames| == |k.mem.frames|
  {
    hide KernelHeap.Valid, PageTables.EnsureTable;
    TableCounts(k, PageTables.EnsureTable(k, d, p, strategy).value, d, p, strategy);
  }

  /** The pages of an allocated block have entries to be cleared. */
  lemma RunForFree(k: Kernel, i: nat)
    requires KernelHeap.Valid(k) && i < |k.heap.alloc|
    ensures Counted(k.mem) && H.Inv(k.heap, Region())
    ensures var p, n := k.heap.alloc[i].sva / H.PAGE, k.heap.alloc[i].size / H.PAGE;
      forall q: nat :: p <= q < p + n ==> KernelPage(q) in k.mem.pte
  {
    HeapInvariant(k);
    hide Counted, H.Inv, HeapMapped, TablesOk, DirsOk;
    var b := k.heap.alloc[i];
    InRegion(k.heap, b);
    forall q: nat | b.sva / H.PAGE <= q < b.sva / H.PAGE + b.size / H.PAGE ensures KernelPage(q) in k.mem.pte {
      HasPage(b, q);
      assert IsSlot(k.mem, KernelPage(q));
    }
  }

  /** The page kmalloc returned for a table is mapped. */
  lemma TableBlockMapped(k: Kernel, strategy: Strategy)
    requires KernelHeap.Valid(k) && Defined(k.heap.free, H.RoundUp(H.PAGE), strategy)
    requires KernelHeap.Kmalloc(k, H.PAGE, strategy).Done? && KernelHeap.Kmalloc(k, H.PAGE, strategy).value.1.Some?
    ensures var (k', va) := KernelHeap.Kmalloc(k, H.PAGE, strategy).value;
      KernelPage(va.value / H.PAGE) in k'.mem.pte && k'.mem.dirs == k.mem.dirs
  {
    hide KernelHeap.Valid, Kmalloced, Hole, KernelHeap.Kmalloc;
    ValidHeap(k);
    PageFits(k, strategy);
    KmallocKeeps(k, H.PAGE, strategy);
    var k' := KernelHeap.Kmalloc(k, H.PAGE, strategy).value.0;
    var i := Hole(k.heap.free, H.PAGE, strategy);
    NewTableFrame(k, k', i);
    KmallocedMem(k, k', i);
  }

  lemma BootSlots(m: Mem)
    requires Booted(m)
    ensures Counted(m)
    ensures forall q: nat :: HEAP_FIRST <= q < HEAP_FIRST + DESCRIPTOR_PAGES ==> KernelPage(q) in m.pte
    ensures !AnyMapped(m, HEAP_FIRST, DESCRIPTOR_PAGES)
  {
    hide Counted;
    forall q: nat | HEAP_FIRST <= q < HEAP_FIRST + DESCRIPTOR_PAGES ensures KernelPage(q) in m.pte {
      assert IsSlot(m, KernelPage(q));
    }
  }

  lemma HeapInvariant(k: Kernel)
    requires KernelHeap.Valid(k)
    ensures H.Inv(k.heap, Region()) && Coalesced(k.heap.free) && k.heap.shared == []
  {
  }

  lemma NoHole(bs: seq<Block>, n: nat)
    ensures Hole(bs, n, UseOther) == |bs|
  {
  }

  lemma WantsMeansSplit(h: H.Heap, n: nat, junk: Block, k: nat)
    requires k == Hole(h.free, n, UseBestFit(junk)) && Defined(h.free, n, UseBestFit(junk))
    ensures Wants(h.free, n, junk) ==> k < |h.free| && h.free[k].size != n
  {
  }

  lemma BestFitChosen(bs: seq<Block>, n: nat, junk: Block, k: nat)
    requires k == Hole(bs, n, UseBestFit(junk)) && Defined(bs, n, UseBestFit(junk))
    ensures k < |bs| <==> Fits(bs, n)
    ensures k < |bs| ==> IsBestFit(bs, n, k)
    ensures k == |bs| ==> BestFitMiss(bs, n, junk) == bs && junk !in bs
  {
  }

  /** The block just cut may go on the Alloc list, and allocate_chunk may look at its pages. */
  lemma BlockForAlloc(k: Kernel, i: nat, n: nat)
    requires KernelHeap.Valid(k) && i < |k.heap.free| && 0 < n <= k.heap.free[i].size && n % H.PAGE == 0
    ensures var b := H.TakeAt(k.heap, i, n).1; Ordered(k.heap.alloc) && b.size == n && Clear(k.heap.alloc, b)
    ensures Counted(k.mem)
    ensures forall q: nat :: k.heap.free[i].sva / H.PAGE <= q < k.heap.free[i].sva / H.PAGE + n / H.PAGE ==>
      KernelPage(q) in k.mem.pte
  {
    HeapInvariant(k);
    H.CutIsClear(k.heap, Region(), i, n);
    KmallocNeverRefused(k, i, n);
  }

  // ---------------------------------------------------------------- boot memory

  const IO_HOLE: nat := 0xA0000 / H.PAGE      // PHYS_IO_MEM
  const EXTENDED: nat := 0x100000 / H.PAGE    // PHYS_EXTENDED_MEM

  /** Frames in use since boot: the first three, the I/O hole, the kernel image. */
  predicate Reserved(f: nat, kernelEnd: nat) {
    f < 3 || IO_HOLE <= f < kernelEnd
  }

  /** The frames from `lo` up, highest first. */
  function Down(lo: nat, hi: nat): (s: seq<nat>)
    ensures forall f: nat :: f in s <==> lo <= f < hi
    ensures NoRepeats(s)
    decreases hi
  {
    if hi <= lo then []
    else
      assert hi - 1 !in Down(lo, hi - 1);
      [hi - 1] + Down(lo, hi - 1)
  }

  function KernelSlots(): (u: set<Slot>)
    ensures forall s :: s in u <==> s.KernelPage? && (HeapPage(s.page) || s.page == TEMP)
  {
    {KernelPage(TEMP)} + set p: nat | HEAP_FIRST <= p < HEAP_END :: KernelPage(p)
  }

  lemma BootCounts(m: Mem, n: nat, kernelEnd: nat)
    requires EXTENDED <= kernelEnd <= n == |m.frames|
    requires forall f :: 0 <= f < n ==> m.frames[f] == Frame(Bit(Reserved(f, kernelEnd)), 0)
    requires m.free == Down(kernelEnd, n) + Down(3, IO_HOLE) && m.owner == map[] && m.dirs == map[] && m.hand == {}
        && m.storages == {}
    requires m.pte == map s | s in KernelSlots() :: Unmapped
    requires m.reserved == set f | 0 <= f < n && Reserved(f, kernelEnd)
    ensures Booted(m)
  {
    forall f | 0 <= f < n ensures CountOk(m, f) {
      assert Users(m, f) == {};
    }
    var a, b := Down(kernelEnd, n), Down(3, IO_HOLE);
    forall i, j | 0 <= i < j < |a + b| ensures (a + b)[i] != (a + b)[j] {
      if i < |a| <= j { assert a[i] in a && b[j - |a|] in b; }
    }
  }

  lemma NextMapped(m: Mem, p: nat, i: nat)
    ensures AnyMapped(m, p, i + 1) <==> AnyMapped(m, p, i) || IsMapped(m, KernelPage(p + i))
  {
  }

  lemma MoreMapped(m: Mem, p: nat, i: nat, n: nat)
    requires AnyMapped(m, p, i) && i <= n
    ensures AnyMapped(m, p, n)
  {
  }

  /** What the second loop of allocate_chunk may rely on. */
  lemma StepOfRun(m: Mem, p: nat, n: nat, i: nat)
    requires Counted(m) && (forall q: nat :: p <= q < p + n ==> KernelPage(q) in m.pte) && !AnyMapped(m, p, n)
    requires i < n && MapRun(m, p, i).Some?
    ensures CanWrite(MapRun(m, p, i).value, KernelPage(p + i))
    ensures MapRun(m, p, i + 1)
      == Paging.MapNew(MapRun(m, p, i).value, KernelPage(p + i), {Writeable}, (p + i) * H.PAGE)
    ensures MapRun(m, p, i + 1).None? ==> MapRun(m, p, n).None?
  {
    forall q: nat | p <= q < p + n ensures m.pte[KernelPage(q)] == Unmapped {
      assert !IsMapped(m, KernelPage(q));
    }
    assert RunFree(m, p, n) && RunFree(m, p, i) && RunFree(m, p, i + 1);
    hide Counted, Paging.MapNew, CanWrite;
    MapRunFacts(m, p, i);
    MapRunFacts(m, p, i + 1);
    MapRunFacts(m, p, n);
    assert KernelPage(p + i) in m.pte.Keys;
    Writable(MapRun(m, p, i).value, KernelPage(p + i));
  }
}
