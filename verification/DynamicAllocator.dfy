/**
 lib/dynamic_allocator.c: a fixed pool of block descriptors on three intrusive lists.  Each routine
 walks and rewrites the lists in place; its contract says what that does to the block sequences, in
 the terms of module Blocks.
 */
module DynamicAllocator {
  import opened Blocks
  import opened Lists

  type Descriptor = Node<Block>

  lemma Inserted(after: seq<Descriptor>, ns: seq<Descriptor>, p: nat, b: Descriptor)
    requires p <= |ns| && after == ns[..p] + [b] + ns[p..]
    ensures Data(after) == Splice(Data(ns), p, p, [b.data])
  {
    DataSplice(ns, p, [b], p);
    assert Data([b]) == [b.data];
  }

  lemma Beheaded(ns: seq<Descriptor>)
    requires ns != []
    ensures ns[..0] + ns[1..] == ns[1..]
  {
  }

  lemma Removed(after: seq<Descriptor>, ns: seq<Descriptor>, k: nat)
    requires k < |ns| && after == ns[..k] + ns[k + 1..]
    ensures Data(after) == Splice(Data(ns), k, k + 1, [])
  {
    assert after == ns[..k] + [] + ns[k + 1..];
    DataSplice(ns, k, [], k + 1);
  }

  lemma Updated(bs: seq<Block>, ns: seq<Descriptor>, k: nat)
    requires k < |ns| == |bs| && forall i :: 0 <= i < |ns| && i != k ==> ns[i].data == bs[i]
    ensures Data(ns) == Splice(bs, k, k + 1, [ns[k].data])
  {
  }

  class Allocator {
    const available: List<Block>
    const free: List<Block>
    const alloc: List<Block>

    /** Every list is well linked and no descriptor is on two of them. */
    ghost predicate Valid()
      reads available, available.members, free, free.members, alloc, alloc.members
    {
      && available != free && available != alloc && free != alloc
      && available.Valid() && free.Valid() && alloc.Valid()
      && available.members !! free.members !! alloc.members
    }

    /** A descriptor that is on none of the lists. */
    ghost predicate Loose(n: Descriptor)
      reads available, free, alloc
    {
      n !in available.members && n !in free.members && n !in alloc.members
    }

    ghost function Free(): seq<Block>
      reads free, free.nodes`data
    {
      free.Contents()
    }

    ghost function Alloc(): seq<Block>
      reads alloc, alloc.nodes`data
    {
      alloc.Contents()
    }

    /** Whatever happens on the other two lists, the Alloc list reads the same. */
    twostate lemma AllocFrame()
      requires old(alloc.Valid()) && unchanged(alloc)
      requires forall n :: n in alloc.members ==> unchanged(n)
      ensures Alloc() == old(Alloc())
    {
      hide Data;
      assert forall i :: 0 <= i < |alloc.nodes| ==> alloc.nodes[i] in alloc.members;
    }

    twostate lemma FreeFrame()
      requires old(free.Valid()) && unchanged(free)
      requires forall n :: n in free.members ==> unchanged(n)
      ensures Free() == old(Free())
    {
      hide Data;
      assert forall i :: 0 <= i < |free.nodes| ==> free.nodes[i] in free.members;
    }

    // initialize_MemBlocksList, on lists that LIST_INIT has just cleared
    constructor (descriptors: seq<Descriptor>)
      requires forall i, j :: 0 <= i < j < |descriptors| ==> descriptors[i] != descriptors[j]
      modifies descriptors
      ensures Valid() && fresh(available) && fresh(free) && fresh(alloc)
      ensures free.nodes == [] && free.members == {} && alloc.nodes == [] && alloc.members == {}
      ensures available.members == set j | 0 <= j < |descriptors| :: descriptors[j]
      ensures |available.nodes| == |descriptors|
      ensures forall i :: 0 <= i < |descriptors| ==> available.nodes[|descriptors| - 1 - i] == descriptors[i]
    {
      available := new List<Block>();
      free := new List<Block>();
      alloc := new List<Block>();
      new;
      FillPool(available, descriptors);
    }

    // its loop
    static method FillPool(pool: List<Block>, descriptors: seq<Descriptor>)
      requires pool.Valid() && pool.nodes == [] && pool.members == {}
      requires forall i, j :: 0 <= i < j < |descriptors| ==> descriptors[i] != descriptors[j]
      modifies pool, descriptors
      ensures pool.Valid() && pool.members == set j | 0 <= j < |descriptors| :: descriptors[j]
      ensures |pool.nodes| == |descriptors|
      ensures forall i :: 0 <= i < |descriptors| ==> pool.nodes[|descriptors| - 1 - i] == descriptors[i]
    {
      var i := 0;
      while i < |descriptors|
        invariant i <= |descriptors| && pool.Valid()
        invariant pool.members == set j | 0 <= j < i :: descriptors[j]
        invariant |pool.nodes| == i
        invariant forall j :: 0 <= j < i ==> pool.nodes[i - 1 - j] == descriptors[j]
      {
        pool.InsertHead(descriptors[i]);
        i := i + 1;
      }
    }

    // the end of both initialize_dyn_block_system functions: one free block holds the whole heap
    method OpenHeap(whole: Block)
      requires Valid() && available.nodes != [] && free.nodes == []
      modifies available, available.members, free, free.members
      ensures Valid() && Free() == [whole] && Alloc() == old(Alloc())
      ensures available.nodes == old(available.nodes)[..|old(available.nodes)| - 1]
      ensures available.members <= old(available.members)
    {
      hide Data;
      var b := available.last;
      available.Remove(b, |available.nodes| - 1);
      b.data := whole;
      free.InsertTail(b);
      assert free.nodes == [b];
      AllocFrame();
    }

    // find_block; like the source it searches the Alloc list whatever list is named
    method FindBlock(va: nat) returns (b: Node?<Block>, ghost k: nat)
      requires Valid()
      ensures b == null <==> forall c :: c in Alloc() ==> c.sva != va
      ensures b != null ==> k < |alloc.nodes| && alloc.nodes[k] == b && b.data.sva == va && b.data == Alloc()[k]
      ensures b != null ==> forall j :: 0 <= j < k ==> Alloc()[j].sva != va
    {
      b, k := alloc.first, 0;
      while b != null
        invariant 0 <= k <= |alloc.nodes|
        invariant b == if k < |alloc.nodes| then alloc.nodes[k] else null
        invariant forall j :: 0 <= j < k ==> alloc.nodes[j].data.sva != va
        decreases |alloc.nodes| - k
      {
        if b.data.sva == va {
          assert b.data == Alloc()[k];
          return;
        }
        b := b.next;
        k := k + 1;
      }
    }

    // LIST_REMOVE from the Alloc list
    method RemoveAlloc(b: Descriptor, ghost k: nat)
      requires Valid() && k < |alloc.nodes| && alloc.nodes[k] == b
      modifies alloc, alloc.members`next, alloc.members`prev
      ensures Valid() && Loose(b)
      ensures Alloc() == Splice(old(Alloc()), k, k + 1, []) && Free() == old(Free())
      ensures alloc.members <= old(alloc.members) && b in old(alloc.members)
      ensures available.nodes == old(available.nodes)
    {
      hide Data, Splice;
      ghost var ns := alloc.nodes;
      alloc.Remove(b, k);
      Removed(alloc.nodes, ns, k);
      FreeFrame();
    }

    // insert_sorted_allocList
    method InsertSortedAlloc(b: Descriptor)
      requires Valid() && Loose(b)
      requires Ordered(Alloc()) && b.data.size > 0 && Clear(Alloc(), b.data)
      modifies alloc, alloc.members`next, alloc.members`prev, b`next, b`prev
      ensures Valid()
      ensures Alloc() == InsertSorted(old(Alloc()), b.data)
      ensures alloc.members == old(alloc.members) + {b}
    {
      hide Data, Place, Splice, Ordered, Clear;
      ghost var ns := alloc.nodes;
      ghost var p := Place(Alloc(), b.data.sva);
      SortedPlace(Alloc(), b.data);
      if alloc.first == null || b.data.sva < alloc.first.data.sva {
        alloc.InsertHead(b);
        assert alloc.nodes == ns[..p] + [b] + ns[p..];
      } else if b.data.sva > alloc.last.data.sva {
        alloc.InsertTail(b);
        assert alloc.nodes == ns[..p] + [b] + ns[p..];
      } else {
        InsertAmongAlloc(b, p);
      }
      Inserted(alloc.nodes, ns, p, b);
    }

    // the LIST_FOREACH of insert_sorted_allocList
    method InsertAmongAlloc(b: Descriptor, ghost p: nat)
      requires Valid() && Loose(b)
      requires 0 < p < |alloc.nodes|
      requires forall i :: 0 <= i < |alloc.nodes| ==>
                 (alloc.nodes[i].data.sva < b.data.sva <==> i < p) && alloc.nodes[i].data.sva != b.data.sva
      modifies alloc, alloc.members`next, alloc.members`prev, b`next, b`prev
      ensures Valid()
      ensures alloc.nodes == old(alloc.nodes)[..p] + [b] + old(alloc.nodes)[p..]
      ensures alloc.members == old(alloc.members) + {b}
    {
      var blk := alloc.first;
      ghost var i := 0;
      while blk != null
        invariant 0 <= i < p && blk == alloc.nodes[i]
        decreases p - i
      {
        if blk.next != null && b.data.sva > blk.data.sva && b.data.sva < blk.next.data.sva {
          alloc.InsertAfter(blk, b, i);
          break;
        }
        blk := blk.next;
        i := i + 1;
      }
    }

    /** Splitting a hole takes a descriptor from the pool; an exact fit does not. */
    ghost predicate CanTake(k: nat, size: nat)
      reads available, free, free.nodes`data
    {
      k < |Free()| && Free()[k].size != size ==> available.nodes != []
    }

    // LIST_FIRST and LIST_REMOVE on the pool of descriptors
    method TakeDescriptor() returns (b: Descriptor)
      requires Valid() && available.nodes != []
      modifies available, available.members
      ensures Valid() && Loose(b)
      ensures b == old(available.nodes)[0] && available.nodes == old(available.nodes)[1..]
      ensures available.members == old(available.members) - {b}
    {
      hide List.Valid, Data;
      Beheaded(available.nodes);
      available.First();
      b := available.first;
      available.Remove(b, 0);
    }

    // the body of the branch in which alloc_block_FF and alloc_block_BF split a hole
    method Split(blk: Descriptor, ghost k: nat, size: nat) returns (b: Descriptor)
      requires Valid() && available.nodes != []
      requires k < |free.nodes| && free.nodes[k] == blk && size < blk.data.size
      modifies available, available.members, blk`data
      ensures Valid() && Loose(b)
      ensures b == old(available.nodes)[0] && available.nodes == old(available.nodes)[1..]
      ensures available.members == old(available.members) - {b}
      ensures b.data == Block(old(blk.data.sva), size)
      ensures Free() == Splice(old(Free()), k, k + 1, Rest(old(blk.data), size))
    {
      hide Data, Splice;
      ghost var bs := Free();
      b := TakeDescriptor();
      CutFront(blk, k, size, b);
    }

    // `b` becomes the first `size` bytes of hole `blk`, which shrinks
    method CutFront(blk: Descriptor, ghost k: nat, size: nat, b: Descriptor)
      requires Valid() && Loose(b)
      requires k < |free.nodes| && free.nodes[k] == blk && size < blk.data.size
      modifies b`data, blk`data
      ensures Valid() && Loose(b)
      ensures b.data == Block(old(blk.data.sva), size)
      ensures Free() == Splice(old(Free()), k, k + 1, Rest(old(blk.data), size))
    {
      hide Data, Splice;
      ghost var bs := Free();
      b.data := Block(blk.data.sva, size);
      blk.data := Block(blk.data.sva + size, blk.data.size - size);
      Updated(bs, free.nodes, k);
    }

    // the branch in which a hole fits exactly: its descriptor is handed out
    method Take(blk: Descriptor, ghost k: nat, size: nat) returns (b: Descriptor)
      requires Valid()
      requires k < |free.nodes| && free.nodes[k] == blk && blk.data.size == size
      modifies free, free.members`next, free.members`prev
      ensures Valid() && Loose(b)
      ensures b == blk && free.members == old(free.members) - {b}
      ensures Free() == Carve(old(Free()), k, size)
    {
      hide Data, Splice;
      ghost var ns := free.nodes;
      free.Remove(blk, k);
      Removed(free.nodes, ns, k);
      b := blk;
    }

    // alloc_block_FF
    method AllocBlockFF(size: nat) returns (b: Node?<Block>)
      requires Valid() && CanTake(FirstFit(Free(), size), size)
      modifies available, available.members, free, free.members
      ensures Valid() && Alloc() == old(Alloc())
      ensures var bs, k := old(Free()), FirstFit(old(Free()), size);
        if k == |bs| then
          b == null && Free() == bs && available.nodes == old(available.nodes)
          && available.members == old(available.members) && free.members == old(free.members)
        else
          Taken(b, bs, k, size, old(available.nodes), old(available.members), old(free.members))
    {
      hide Data, Splice;
      b := null;
      var blk := free.first;
      ghost var i := 0;
      while blk != null
        invariant 0 <= i <= |free.nodes| && b == null
        invariant blk == if i < |free.nodes| then free.nodes[i] else null
        invariant FirstFit(Free(), size) == FitFrom(Free(), size, i)
        decreases |free.nodes| - i
      {
        assert blk.data == Free()[i];
        if blk.data.size == size {
          b := Take(blk, i, size);
          break;
        } else if blk.data.size > size {
          b := Split(blk, i, size);
          break;
        }
        blk := blk.next;
        i := i + 1;
      }
      AllocFrame();
    }

    /** What a successful allocation of `size` bytes from hole `k` of `bs` leaves behind. */
    ghost predicate Taken(b: Node?<Block>, bs: seq<Block>, k: nat, size: nat, pool: seq<Descriptor>,
                          poolMembers: set<Descriptor>, freeMembers: set<Descriptor>)
      reads b, available, free, free.nodes`data, alloc
    {
      && k < |bs| && size <= bs[k].size
      && b != null && Loose(b) && b in poolMembers + freeMembers
      && b.data == Block(bs[k].sva, size)
      && Free() == Carve(bs, k, size)
      && available.nodes == (if bs[k].size == size then pool else if pool == [] then [] else pool[1..])
      && available.members <= poolMembers && free.members <= freeMembers
    }

    // the second loop of alloc_block_BF: the first hole that is larger, if there is one
    method FirstLarger(size: nat, junk: Block) returns (c: Block, ghost k: nat)
      requires Valid()
      ensures k <= |Free()| && forall j :: 0 <= j < k ==> Free()[j].size <= size
      ensures if k < |Free()| then c == Free()[k] && size < c.size else c == junk
    {
      c, k := junk, 0;
      var blk := free.first;
      while blk != null
        invariant 0 <= k <= |free.nodes|
        invariant blk == if k < |free.nodes| then free.nodes[k] else null
        invariant forall j :: 0 <= j < k ==> Free()[j].size <= size
        invariant c == junk
        decreases |free.nodes| - k
      {
        assert blk.data == Free()[k];
        if blk.data.size > size {
          c := blk.data;
          return;
        }
        blk := blk.next;
        k := k + 1;
      }
    }

    // the third loop of alloc_block_BF: the smallest hole that is larger, starting from hole `k0`
    method SmallestLarger(size: nat, first: Block, ghost k0: nat) returns (c: Block, ghost k: nat)
      requires Valid()
      requires k0 <= |Free()| && forall j :: 0 <= j < k0 ==> Free()[j].size <= size
      requires k0 < |Free()| ==> first == Free()[k0] && size < first.size
      ensures k0 == |Free()| ==> c == first && k == k0
      ensures k0 < |Free()| ==> k < |Free()| && c == Free()[k] && size < c.size
      ensures forall j :: 0 <= j < |Free()| && size < Free()[j].size ==>
        c.size <= Free()[j].size && (j < k ==> c.size < Free()[j].size)
    {
      c, k := first, k0;
      var blk := free.first;
      ghost var i := 0;
      while blk != null
        invariant 0 <= i <= |free.nodes|
        invariant blk == if i < |free.nodes| then free.nodes[i] else null
        invariant k0 == |Free()| ==> c == first && k == k0
        invariant k0 < |Free()| ==> k < |Free()| && c == Free()[k] && size < c.size
        invariant forall j :: 0 <= j < i && size < Free()[j].size ==> c.size <= Free()[j].size
        invariant forall j :: 0 <= j < k && j < |Free()| && size < Free()[j].size ==> c.size < Free()[j].size
        decreases |free.nodes| - i
      {
        assert blk.data == Free()[i];
        if c.size > blk.data.size && blk.data.size > size {
          c := blk.data;
          k := i;
        }
        blk := blk.next;
        i := i + 1;
      }
    }

    // both loops
    method ChooseHole(size: nat, junk: Block) returns (c: Block, ghost k: nat)
      requires Valid()
      ensures k <= |Free()| && (k == |Free()| ==> c == junk && forall j :: 0 <= j < |Free()| ==> Free()[j].size <= size)
      ensures k < |Free()| ==> c == Free()[k] && size < c.size
      ensures forall j :: 0 <= j < |Free()| && size < Free()[j].size ==>
                c.size <= Free()[j].size && (j < k ==> c.size < Free()[j].size)
    {
      hide Data;
      c, k := FirstLarger(size, junk);
      c, k := SmallestLarger(size, c, k);
    }

    // the split of a hole that is smaller than the request: size and address wrap round
    method SplitTooSmall(blk: Descriptor, ghost k: nat, size: nat) returns (b: Descriptor)
      requires Valid() && available.nodes != []
      requires k < |free.nodes| && free.nodes[k] == blk && blk.data.size < size
      modifies available, available.members, blk`data
      ensures Valid() && Loose(b)
      ensures available.members <= old(available.members)
      ensures b.data == Block(old(blk.data.sva), size)
      ensures Free() == Splice(old(Free()), k, k + 1, [Underflowed(old(blk.data), size)])
    {
      hide Data, Splice;
      ghost var bs := Free();
      b := available.first;
      available.Remove(b, 0);
      b.data := Block(blk.data.sva, size);
      blk.data := Block((blk.data.sva + size) % MAX, (blk.data.size - size) % MAX);
      Updated(bs, free.nodes, k);
    }

    // the first loop of alloc_block_BF: an exact fit is handed out at once
    method TakeExact(size: nat) returns (b: Node?<Block>, ghost k: nat)
      requires Valid()
      modifies free, free.members`next, free.members`prev
      ensures Valid() && k <= |old(Free())|
      ensures forall j :: 0 <= j < k ==> old(Free())[j].size != size
      ensures k < |old(Free())| ==>
        old(Free())[k].size == size
        && Taken(b, old(Free()), k, size, available.nodes, available.members, old(free.members))
      ensures k == |old(Free())| ==> b == null && Free() == old(Free()) && free.members == old(free.members)
    {
      b, k := null, 0;
      var blk := free.first;
      while blk != null
        invariant 0 <= k <= |free.nodes| && b == null
        invariant blk == if k < |free.nodes| then free.nodes[k] else null
        invariant forall j :: 0 <= j < k ==> Free()[j].size != size
        decreases |free.nodes| - k
      {
        assert blk.data == Free()[k];
        if blk.data.size == size {
          b := Take(blk, k, size);
          return;
        }
        blk := blk.next;
        k := k + 1;
      }
    }

    // the last loop of alloc_block_BF: the hole that matches `c` is split
    method SplitHole(size: nat, c: Block) returns (b: Node?<Block>)
      requires Valid()
      requires c in Free() ==> c.size != size && available.nodes != []
      modifies available, available.members, free.members`data
      ensures Valid()
      ensures available.members <= old(available.members)
      ensures var bs, k := old(Free()), IndexFrom(old(Free()), c, 0);
        if k == |bs| then
          b == null && Free() == bs && available.nodes == old(available.nodes)
        else if size < c.size then
          Taken(b, bs, k, size, old(available.nodes), old(available.members), free.members)
        else
          b != null && b.data == Block(c.sva, size) && Free() == Splice(bs, k, k + 1, [Underflowed(c, size)])
    {
      hide Data, Splice;
      var blk := free.first;
      ghost var k := 0;
      while blk != null
        invariant 0 <= k <= |free.nodes|
        invariant blk == if k < |free.nodes| then free.nodes[k] else null
        invariant IndexFrom(Free(), c, 0) == IndexFrom(Free(), c, k)
        decreases |free.nodes| - k
      {
        assert blk.data == Free()[k];
        if blk.data.size == c.size && blk.data.sva == c.sva {
          if size < c.size {
            b := Split(blk, k, size);
          } else {
            b := SplitTooSmall(blk, k, size);
          }
          return;
        }
        blk := blk.next;
        k := k + 1;
      }
      b := null;
    }

    // alloc_block_BF; `junk` is whatever its uninitialised locals newveradd and newsize hold
    method AllocBlockBF(size: nat, junk: Block) returns (b: Node?<Block>, ghost k: nat)
      requires Valid() && Coalesced(Free())
      requires Wants(Free(), size, junk) ==> available.nodes != []
      modifies available, available.members, free, free.members
      ensures Valid() && Alloc() == old(Alloc())
      ensures available.members <= old(available.members) && free.members <= old(free.members)
      ensures Fits(old(Free()), size) ==>
        && IsBestFit(old(Free()), size, k)
        && Taken(b, old(Free()), k, size, old(available.nodes), old(available.members), old(free.members))
      ensures !Fits(old(Free()), size) ==>
        && Free() == BestFitMiss(old(Free()), size, junk)
        && (b == null <==> junk !in old(Free())) && (b != null ==> b.data == Block(junk.sva, size))
        && (b == null ==> available.nodes == old(available.nodes))
    {
      hide Data, Splice, Carve, Coalesced;
      b, k := TakeExact(size);
      if b == null {
        b, k := TakeLarger(size, junk);
      }
      AllocFrame();
    }

    // alloc_block_BF from its second loop on, reached only when no hole fits exactly
    method TakeLarger(size: nat, junk: Block) returns (b: Node?<Block>, ghost k: nat)
      requires Valid() && Coalesced(Free())
      requires forall j :: 0 <= j < |Free()| ==> Free()[j].size != size
      requires Wants(Free(), size, junk) ==> available.nodes != []
      modifies available, available.members, free.members`data
      ensures Valid()
      ensures available.members <= old(available.members)
      ensures Fits(old(Free()), size) ==>
        && IsBestFit(old(Free()), size, k)
        && Taken(b, old(Free()), k, size, old(available.nodes), old(available.members), free.members)
      ensures !Fits(old(Free()), size) ==>
        && Free() == BestFitMiss(old(Free()), size, junk)
        && (b == null <==> junk !in old(Free())) && (b != null ==> b.data == Block(junk.sva, size))
        && (b == null ==> available.nodes == old(available.nodes))
    {
      hide Data, Splice, Carve, Taken, IndexFrom, Wants, Fits, IsBestFit, Coalesced;
      ghost var bs := Free();
      var c;
      c, k := ChooseHole(size, junk);
      BestFitFound(bs, size, junk, c, k);
      b := SplitHole(size, c);
    }

    // addToAvailMemBlocksList
    method AddToAvailable(b: Descriptor)
      requires Valid() && Loose(b)
      modifies available, available.members`next, available.members`prev, b
      ensures Valid()
      ensures available.nodes == old(available.nodes) + [b] && available.members == old(available.members) + {b}
      ensures b.data == Block(0, 0)
    {
      b.data := b.data.(sva := 0);
      b.data := b.data.(size := 0);
      available.InsertTail(b);
    }

    /** What returning one loose descriptor to the lists keeps. */
    twostate predicate Returned(b: Descriptor)
      reads available, free
    {
      && |available.nodes| + |free.nodes| == old(|available.nodes| + |free.nodes|) + 1
      && available.members + free.members <= old(available.members + free.members) + {b}
    }

    // the previous block grows over `b`
    method GrowPrevious(prev: Descriptor, ghost k: nat, b: Descriptor)
      requires Valid() && Loose(b) && k < |free.nodes| && free.nodes[k] == prev
      modifies available, available.members`next, available.members`prev, prev`data, b
      ensures Valid() && Returned(b)
      ensures Free() == Splice(old(Free()), k, k + 1, [Block(old(prev.data.sva), old(prev.data.size + b.data.size))])
    {
      hide Data, Splice;
      ghost var bs := Free();
      prev.data := prev.data.(size := prev.data.size + b.data.size);
      AddToAvailable(b);
      Updated(bs, free.nodes, k);
    }

    // the next block grows down over `b`
    method GrowNext(next: Descriptor, ghost k: nat, b: Descriptor)
      requires Valid() && Loose(b) && k < |free.nodes| && free.nodes[k] == next
      modifies available, available.members`next, available.members`prev, next`data, b
      ensures Valid() && Returned(b)
      ensures Free() == Splice(old(Free()), k, k + 1, [Block(old(b.data.sva), old(next.data.size + b.data.size))])
    {
      hide Data, Splice;
      ghost var bs := Free();
      next.data := next.data.(sva := b.data.sva);
      next.data := next.data.(size := next.data.size + b.data.size);
      AddToAvailable(b);
      Updated(bs, free.nodes, k);
    }

    // the previous block grows over `b` and the next one, whose descriptor leaves the list
    method Bridge(prev: Descriptor, next: Descriptor, ghost k: nat, b: Descriptor)
      requires Valid() && Loose(b)
      requires k + 1 < |free.nodes| && free.nodes[k] == prev && free.nodes[k + 1] == next
      modifies free, free.members
      ensures Valid() && Loose(b) && Loose(next) && next != b
      ensures |free.nodes| == |old(free.nodes)| - 1 && free.members == old(free.members) - {next}
      ensures Free() == Splice(old(Free()), k, k + 2,
                               [Block(old(prev.data.sva), old(prev.data.size + b.data.size + next.data.size))])
    {
      hide Data, Splice;
      ghost var bs, ns := Free(), free.nodes;
      prev.data := prev.data.(size := prev.data.size + b.data.size + next.data.size);
      ghost var m := prev.data;
      Updated(bs, ns, k);
      free.Remove(next, k + 1);
      Removed(free.nodes, ns, k + 1);
      SpliceTwice(bs, k, m);
    }

    // that, and the return of both descriptors to the pool
    method BridgeOver(prev: Descriptor, next: Descriptor, ghost k: nat, b: Descriptor)
      requires Valid() && Loose(b)
      requires k + 1 < |free.nodes| && free.nodes[k] == prev && free.nodes[k + 1] == next
      modifies available, available.members`next, available.members`prev, free, free.members, b
      ensures Valid() && Returned(b)
      ensures Free() == Splice(old(Free()), k, k + 2,
                               [Block(old(prev.data.sva), old(prev.data.size + b.data.size + next.data.size))])
    {
      hide Data, Splice;
      Bridge(prev, next, k, b);
      AddToAvailable(b);
      AddToAvailable(next);
    }

    // insert_sorted_with_merge_freeList
    method InsertSortedWithMergeFree(b: Descriptor)
      requires Valid() && Loose(b)
      requires Coalesced(Free()) && b.data.size > 0 && Clear(Free(), b.data)
      modifies available, available.members, free, free.members, b
      ensures Valid() && Returned(b) && Alloc() == old(Alloc())
      ensures Free() == InsertMerge(old(Free()), old(b.data))
    {
      hide Data, Splice, Place, InsertMerge, TouchesLeft, TouchesRight, Coalesced, Clear;
      ghost var bs, ns := Free(), free.nodes;
      MergeCases(bs, b.data);
      var last := free.last;
      if free.size == 0 {
        free.InsertHead(b);
        assert free.nodes == ns[..0] + [b] + ns[0..];
        Inserted(free.nodes, ns, 0, b);
      } else if last.data.sva < b.data.sva {
        JoinLast(last, b);
      } else {
        InsertAmongFree(b);
      }
      AllocFrame();
    }

    // the branch for a block behind the last one
    method JoinLast(last: Descriptor, b: Descriptor)
      requires Valid() && Loose(b) && free.nodes != [] && free.nodes[|free.nodes| - 1] == last
      requires Coalesced(Free()) && b.data.size > 0 && Clear(Free(), b.data) && last.data.sva < b.data.sva
      modifies available, available.members, free, free.members, b
      ensures Valid() && Returned(b)
      ensures Free() == InsertMerge(old(Free()), old(b.data))
    {
      hide Data, Splice, Place, InsertMerge, TouchesLeft, TouchesRight, Coalesced, Clear;
      ghost var ns, k := free.nodes, |free.nodes| - 1;
      MergeCases(Free(), b.data);
      assert last.data == Free()[k];
      if last.data.End() == b.data.sva {
        GrowPrevious(last, k, b);
      } else {
        free.InsertAfter(last, b, k);
        Inserted(free.nodes, ns, k + 1, b);
      }
    }

    // the LIST_FOREACH of insert_sorted_with_merge_freeList
    method InsertAmongFree(b: Descriptor)
      requires Valid() && Loose(b)
      requires Coalesced(Free()) && b.data.size > 0 && Clear(Free(), b.data)
      requires Place(Free(), b.data.sva) < |Free()|
      modifies available, available.members, free, free.members, b
      ensures Valid() && Returned(b)
      ensures Free() == InsertMerge(old(Free()), old(b.data))
    {
      hide Data, Splice, Place, InsertMerge, TouchesLeft, TouchesRight;
      ghost var p := Place(Free(), b.data.sva);
      MergeCases(Free(), b.data);
      var following := free.first;
      ghost var i := 0;
      while following != null
        invariant 0 <= i <= p && following == free.nodes[i]
        decreases p - i
      {
        assert following.data == Free()[i];
        if following.data.sva > b.data.sva {
          JoinAt(following, i, b);
          break;
        }
        following := following.next;
        i := i + 1;
      }
    }

    // the four ways a block joins the list just before `following`
    method JoinAt(following: Descriptor, ghost p: nat, b: Descriptor)
      requires Valid() && Loose(b)
      requires Coalesced(Free()) && b.data.size > 0 && Clear(Free(), b.data)
      requires p == Place(Free(), b.data.sva) < |free.nodes| && free.nodes[p] == following
      modifies available, available.members, free, free.members, b
      ensures Valid() && Returned(b)
      ensures Free() == InsertMerge(old(Free()), old(b.data))
    {
      hide Data, Splice, Place, InsertMerge, TouchesLeft, TouchesRight, Coalesced, Clear;
      var prev := following.prev;
      assert prev == null <==> p == 0;
      if prev == null {
        JoinFront(following, b);
      } else {
        JoinBetween(prev, following, p, b);
      }
    }

    // two of them at the head of the list
    method JoinFront(following: Descriptor, b: Descriptor)
      requires Valid() && Loose(b)
      requires Coalesced(Free()) && b.data.size > 0 && Clear(Free(), b.data)
      requires 0 == Place(Free(), b.data.sva) < |free.nodes| && free.nodes[0] == following
      modifies available, available.members, free, free.members, b
      ensures Valid() && Returned(b)
      ensures Free() == InsertMerge(old(Free()), old(b.data))
    {
      hide Data, Splice, Place, InsertMerge, TouchesLeft, TouchesRight, Coalesced, Clear;
      MergeCases(Free(), b.data);
      assert following.data == Free()[0];
      if b.data.End() == following.data.sva {
        GrowNext(following, 0, b);
      } else {
        PutBefore(following, 0, b);
      }
    }

    // all four behind another block
    method JoinBetween(prev: Descriptor, following: Descriptor, ghost p: nat, b: Descriptor)
      requires Valid() && Loose(b)
      requires Coalesced(Free()) && b.data.size > 0 && Clear(Free(), b.data)
      requires 0 < p == Place(Free(), b.data.sva) < |free.nodes| && free.nodes[p - 1] == prev
      requires free.nodes[p] == following
      modifies available, available.members, free, free.members, b
      ensures Valid() && Returned(b)
      ensures Free() == InsertMerge(old(Free()), old(b.data))
    {
      hide Data, Splice, Place, InsertMerge, TouchesLeft, TouchesRight, Coalesced, Clear;
      MergeCases(Free(), b.data);
      assert prev.data == Free()[p - 1] && following.data == Free()[p];
      if prev.data.sva + prev.data.size + b.data.size == following.data.sva {
        BridgeOver(prev, following, p - 1, b);
      } else if prev.data.End() == b.data.sva {
        GrowPrevious(prev, p - 1, b);
      } else if b.data.End() == following.data.sva {
        GrowNext(following, p, b);
      } else {
        PutBefore(following, p, b);
      }
    }

    // the case in which a block touches nothing
    method PutBefore(following: Descriptor, ghost p: nat, b: Descriptor)
      requires Valid() && Loose(b) && p < |free.nodes| && free.nodes[p] == following
      modifies free, free.members`next, free.members`prev, b`next, b`prev
      ensures Valid() && Returned(b)
      ensures Free() == Splice(old(Free()), p, p, [b.data])
    {
      hide Data, Splice;
      ghost var ns := free.nodes;
      free.InsertBefore(following, b, p);
      Inserted(free.nodes, ns, p, b);
    }
  }

  lemma SpliceTwice(bs: seq<Block>, k: nat, m: Block)
    requires k + 1 < |bs|
    ensures Splice(Splice(bs, k, k + 1, [m]), k + 1, k + 2, []) == Splice(bs, k, k + 2, [m])
  {
  }
}
