/**
 lib/uheap.c: malloc, free, smalloc and sget over the block allocator.  The answers of the system
 calls (the placement strategy, the result of creating or finding a shared object) are parameters.
 */
module UserHeap {
  import opened Blocks
  import opened Lists
  import opened DynamicAllocator
  import H = Heap

  const USER_HEAP_START := 0x8000_0000
  const USER_HEAP_MAX := 0xA000_0000
  const NUM_OF_UHEAP_PAGES := (USER_HEAP_MAX - USER_HEAP_START) / H.PAGE
  const E_SHARED_MEM_NOT_EXISTS := -16

  /** The conversion of an int to uint32. */
  function ToUnsigned(n: int): nat
    requires -MAX < n < MAX
  {
    if n < 0 then n + MAX else n
  }

  class UserHeap {
    const blocks: Allocator
    ghost var shared: seq<Block>   // blocks handed to shared objects, which the source keeps on no list

    ghost function Region(): H.Region {
      H.Region(USER_HEAP_START, USER_HEAP_MAX, NUM_OF_UHEAP_PAGES)
    }

    ghost function View(): H.Heap
      reads this, blocks.free, blocks.free.nodes`data, blocks.alloc, blocks.alloc.nodes`data, blocks.available
    {
      H.Heap(blocks.Free(), blocks.Alloc(), shared, |blocks.available.nodes|)
    }

    ghost predicate Valid()
      reads this, blocks.free, blocks.free.members, blocks.alloc, blocks.alloc.members,
            blocks.available, blocks.available.members
    {
      blocks.Valid() && H.Inv(View(), Region())
    }

    // initialize_dyn_block_system
    constructor (descriptors: seq<Descriptor>)
      requires |descriptors| == NUM_OF_UHEAP_PAGES
      requires forall i, j :: 0 <= i < j < |descriptors| ==> descriptors[i] != descriptors[j]
      modifies descriptors
      ensures Valid() && View() == H.Initial(Region())
    {
      blocks := new Allocator(descriptors);
      shared := [];
      new;
      hide H.Inv, Allocator.Valid, H.Initial;
      OpenWhole();
    }

    // its last lines: the whole heap is one free block
    method OpenWhole()
      requires blocks.Valid() && blocks.Free() == [] && blocks.Alloc() == [] && shared == []
      requires |blocks.available.nodes| == NUM_OF_UHEAP_PAGES
      modifies blocks.available, blocks.available.members, blocks.free, blocks.free.members
      ensures Valid() && View() == H.Initial(Region())
    {
      hide H.Inv, Allocator.Valid, H.Initial;
      blocks.OpenHeap(Block(USER_HEAP_START, USER_HEAP_MAX - USER_HEAP_START));
      StartsWhole();
    }

    lemma StartsWhole()
      ensures H.Initial(Region())
        == H.Heap([Block(USER_HEAP_START, USER_HEAP_MAX - USER_HEAP_START)], [], [], NUM_OF_UHEAP_PAGES - 1)
      ensures H.Inv(H.Initial(Region()), Region())
    {
      hide H.Inv;
      H.InitialInv(Region());
    }

    /** Cutting whole pages always finds a spare descriptor; without one alloc_block_FF would follow a null pointer. */
    ghost predicate HasSpare(n: nat)
      reads blocks.available, blocks.free, blocks.free.nodes`data
    {
      n % H.PAGE != 0 ==> blocks.CanTake(FirstFit(blocks.Free(), n), n)
    }

    // what malloc, smalloc and sget have in common: first fit for `n` bytes
    method TakeBlock(n: nat) returns (b: Node?<Block>)
      requires Valid() && n > 0 && HasSpare(n)
      modifies blocks.available, blocks.available.members, blocks.free, blocks.free.members
      ensures blocks.Valid() && shared == old(shared) && blocks.Alloc() == old(blocks.Alloc())
      ensures match H.TakeFirstFit(old(View()), n)
        case None => b == null && View() == old(View())
        case Some((h, c)) => b != null && blocks.Loose(b) && b.data == c && View() == h
      ensures b != null ==> b in old(blocks.available.members + blocks.free.members)
      ensures blocks.available.members <= old(blocks.available.members)
      ensures blocks.free.members <= old(blocks.free.members)
    {
      hide H.Inv, Lists.Data, Carve, FirstFit;
      ghost var k := FirstFit(blocks.Free(), n);
      if n % H.PAGE == 0 && k < |blocks.Free()| && blocks.Free()[k].size != n {
        H.SplitFindsDescriptor(View(), Region(), n, k);
      }
      b := blocks.AllocBlockFF(n);
    }

    // malloc; `firstFit` is what sys_isUHeapPlacementStrategyFIRSTFIT answers
    method Malloc(size: nat, firstFit: bool) returns (va: Option<nat>)
      requires Valid()
      modifies this, blocks.available, blocks.available.members, blocks.free, blocks.free.members,
               blocks.alloc, blocks.alloc.members
      ensures Valid()
      ensures (View(), va) == if firstFit then H.Malloc(old(View()), size) else (old(View()), None)
    {
      hide H.Inv, Lists.Data, InsertSorted, H.TakeFirstFit, Ordered, Clear, FirstFit;
      va := None;
      if size == 0 {
        return;
      }
      var n := H.RoundUp(size);
      H.RoundUpPaged(size);
      if firstFit {
        H.MallocKeeps(View(), Region(), size);
        var b := TakeBlock(n);
        if b != null {
          H.TakenIsClear(old(View()), Region(), n);
          blocks.InsertSortedAlloc(b);
          va := Some(b.data.sva);
        }
      }
    }

    // free, of the start of an allocated block
    method Free(va: nat)
      requires Valid() && H.Allocated(View(), va)
      modifies this, blocks.available, blocks.available.members, blocks.free, blocks.free.members,
               blocks.alloc, blocks.alloc.members
      ensures Valid() && View() == H.Free(old(View()), va)
    {
      hide H.Inv, Lists.Data, InsertMerge, Splice, Allocator.Valid, Coalesced, Clear, H.FindFrom;
      ghost var h := View();
      H.FreeKeeps(View(), Region(), va);
      H.RemovedIsClear(View(), Region(), va);
      var b, k := blocks.FindBlock(va);
      assert k == H.FindFrom(blocks.Alloc(), va, 0);
      blocks.RemoveAlloc(b, k);
      blocks.InsertSortedWithMergeFree(b);
      assert View() == H.Free(h, va);
    }

    // smalloc; `created` is what sys_createSharedObject answers
    method Smalloc(size: nat, firstFit: bool, created: int) returns (va: Option<nat>)
      requires Valid()
      modifies this, blocks.available, blocks.available.members, blocks.free, blocks.free.members
      ensures Valid()
      ensures (View(), va) == if firstFit && size != 0 then H.Share(old(View()), H.RoundUp(size), created >= 0)
                              else (old(View()), None)
    {
      hide H.Inv, Lists.Data, H.TakeFirstFit;
      va := None;
      if size == 0 {
        return;
      }
      var n := H.RoundUp(size);
      H.RoundUpPaged(size);
      if firstFit {
        va := ShareBlock(n, created);
      }
    }

    // the allocation smalloc and sget share; the kernel maps the object at the block, or refuses
    method ShareBlock(n: nat, answer: int) returns (va: Option<nat>)
      requires Valid() && n > 0 && HasSpare(n)
      modifies this, blocks.available, blocks.available.members, blocks.free, blocks.free.members
      ensures blocks.Valid() && (View(), va) == H.Share(old(View()), n, answer >= 0)
      ensures Valid() <==> n % H.PAGE == 0 || FirstFit(old(blocks.Free()), n) == |old(blocks.Free())|
    {
      hide H.Inv, Lists.Data, H.TakeFirstFit, FirstFit;
      H.ShareKeepsIff(View(), Region(), n, answer >= 0);
      var b := TakeBlock(n);
      va := None;
      if b != null {
        shared := shared + [b.data];
        if answer >= 0 {
          va := Some(b.data.sva);
        }
      }
    }

    // sget; `size` is what sys_getSizeOfSharedObject answers, `got` what sys_getSharedObject answers
    method Sget(size: int, firstFit: bool, got: int) returns (va: Option<nat>)
      requires Valid()
      requires size == E_SHARED_MEM_NOT_EXISTS || (0 <= size < MAX && HasSpare(size))
      modifies this, blocks.available, blocks.available.members, blocks.free, blocks.free.members
      ensures blocks.Valid()
      ensures (View(), va) == if firstFit && size > 0 then H.Share(old(View()), size, got >= 0)
                              else (old(View()), None)
      ensures Valid() <==> !firstFit || size <= 0 || size % H.PAGE == 0
                           || FirstFit(old(blocks.Free()), size) == |old(blocks.Free())|
    {
      hide H.Inv, Lists.Data, H.TakeFirstFit, FirstFit;
      va := None;
      if size == 0 {
        return;
      }
      if firstFit {
        if size < 0 {
          H.TooLarge(View(), Region(), ToUnsigned(size));
          var b := blocks.AllocBlockFF(ToUnsigned(size));
        } else {
          va := ShareBlock(size, got);
        }
      }
    }
  }
}
