/**
 A whole heap over one allocator: the free blocks, the allocated ones, the ones handed to shared
 objects (lib/uheap.c keeps those on no list) and the number of spare descriptors.  The steps are
 those of malloc, free, smalloc and sget; the theorems speak of every run.
 */
module Heap {
  import opened Blocks

  const PAGE := 4096

  datatype Heap = Heap(free: seq<Block>, alloc: seq<Block>, shared: seq<Block>, spare: int)

  /** Where the heap lies and how many descriptors it was given. */
  datatype Region = Region(lo: nat, hi: nat, cap: nat) {
    ghost predicate Valid() {
      lo < hi && lo % PAGE == 0 && (hi - lo) % PAGE == 0 && cap * PAGE >= hi - lo
    }

    function Whole(): Block
      requires lo <= hi
    {
      Block(lo, hi - lo)
    }
  }

  function RoundUp(n: nat): nat {
    (n + PAGE - 1) - (n + PAGE - 1) % PAGE
  }

  function Initial(r: Region): Heap
    requires r.lo <= r.hi
  {
    Heap([r.Whole()], [], [], r.cap - 1)
  }

  // ---------------------------------------------------------------- steps

  /** The heap with `n` bytes cut from hole `k`, and the block cut, which is not yet on a list. */
  function TakeAt(h: Heap, k: nat, n: nat): (Heap, Block)
    requires k < |h.free| && n <= h.free[k].size
  {
    var used := if h.free[k].size == n then 0 else 1;
    (h.(free := Carve(h.free, k, n), spare := h.spare - used), Block(h.free[k].sva, n))
  }

  /** What a request of `n` bytes gets under first fit. */
  function TakeFirstFit(h: Heap, n: nat): Option<(Heap, Block)> {
    var k := FirstFit(h.free, n);
    if k == |h.free| then None else Some(TakeAt(h, k, n))
  }

  /** malloc under first fit */
  function Malloc(h: Heap, size: nat): (Heap, Option<nat>) {
    if size == 0 then (h, None) else
    match TakeFirstFit(h, RoundUp(size))
    case None => (h, None)
    case Some((h', b)) => (h'.(alloc := InsertSorted(h'.alloc, b)), Some(b.sva))
  }

  /** smalloc and sget: the block leaves the free list for good, whether or not the kernel call succeeds */
  function Share(h: Heap, n: nat, granted: bool): (Heap, Option<nat>) {
    match TakeFirstFit(h, n)
    case None => (h, None)
    case Some((h', b)) => (h'.(shared := h'.shared + [b]), if granted then Some(b.sva) else None)
  }

  ghost predicate Allocated(h: Heap, va: nat) {
    exists k :: 0 <= k < |h.alloc| && h.alloc[k].sva == va
  }

  function FindFrom(bs: seq<Block>, va: nat, i: nat): (k: nat)
    requires i <= |bs|
    ensures i <= k <= |bs|
    ensures k < |bs| ==> bs[k].sva == va
    ensures forall j :: i <= j < k ==> bs[j].sva != va
    decreases |bs| - i
  {
    if i == |bs| || bs[i].sva == va then i else FindFrom(bs, va, i + 1)
  }

  /** free, of the start of an allocated block */
  function Free(h: Heap, va: nat): Heap
    requires Allocated(h, va)
  {
    var k := FindFrom(h.alloc, va, 0);
    var free' := InsertMerge(h.free, h.alloc[k]);
    Heap(free', Splice(h.alloc, k, k + 1, []), h.shared, h.spare + |h.free| + 1 - |free'|)
  }

  // ---------------------------------------------------------------- the invariant

  predicate IsPaged(b: Block) {
    b.size > 0 && b.size % PAGE == 0 && b.sva % PAGE == 0
  }

  ghost predicate Paged(bs: seq<Block>) {
    forall i :: 0 <= i < |bs| ==> IsPaged(bs[i])
  }

  ghost predicate Disjoint(xs: seq<Block>, ys: seq<Block>) {
    forall a :: !(Covers(xs, a) && Covers(ys, a))
  }

  ghost predicate SelfDisjoint(bs: seq<Block>) {
    forall i, j :: 0 <= i < j < |bs| ==> bs[i].End() <= bs[j].sva || bs[j].End() <= bs[i].sva
  }

  /** Free, allocated and shared blocks tile the region exactly, and no descriptor is lost. */
  ghost predicate Inv(h: Heap, r: Region) {
    && r.Valid()
    && Coalesced(h.free) && Ordered(h.alloc) && SelfDisjoint(h.shared)
    && Paged(h.free) && Paged(h.alloc) && Paged(h.shared)
    && Disjoint(h.free, h.alloc) && Disjoint(h.free, h.shared) && Disjoint(h.alloc, h.shared)
    && Space(h.free) + Space(h.alloc) + Space(h.shared) == Extent(r.Whole())
    && Total(h.free) + Total(h.alloc) + Total(h.shared) == r.hi - r.lo
    && h.spare + |h.free| + |h.alloc| + |h.shared| == r.cap
  }

  // ---------------------------------------------------------------- lemmas about lists

  lemma ClearFromBitmaps(bs: seq<Block>, b: Block)
    requires b.size > 0 && Paged(bs)
    requires forall a :: b.Has(a) ==> !Covers(bs, a)
    ensures Clear(bs, b)
  {
    forall i | 0 <= i < |bs| ensures bs[i].End() <= b.sva || b.End() <= bs[i].sva {
      var a := if bs[i].sva < b.sva then b.sva else bs[i].sva;
      assert bs[i].Has(a) ==> Covers(bs, a);
      assert b.Has(a) ==> !Covers(bs, a);
    }
  }

  lemma {:induction false} AtLeastAPageEach(bs: seq<Block>)
    requires Paged(bs)
    ensures Total(bs) >= PAGE * |bs|
  {
    if bs != [] {
      var cs := bs[..|bs| - 1];
      assert forall i :: 0 <= i < |cs| ==> cs[i] == bs[i];
      AtLeastAPageEach(cs);
      assert bs[|bs| - 1].size >= PAGE;
    }
  }

  lemma CoverOfBlock(bs: seq<Block>, k: nat, a: int)
    requires k < |bs| && bs[k].Has(a)
    ensures Covers(bs, a)
  {
  }

  /** An address in one of two disjoint bitmaps that also lies in the block cut from the first is not in the second. */
  lemma CutIsClear(h: Heap, r: Region, k: nat, n: nat)
    requires Inv(h, r) && k < |h.free| && 0 < n <= h.free[k].size
    ensures Clear(h.alloc, Block(h.free[k].sva, n)) && Clear(h.shared, Block(h.free[k].sva, n))
  {
    var b := Block(h.free[k].sva, n);
    forall a | b.Has(a) ensures Covers(h.free, a) {
      CoverOfBlock(h.free, k, a);
    }
    ClearFromBitmaps(h.alloc, b);
    ClearFromBitmaps(h.shared, b);
  }

  lemma AppendShared(bs: seq<Block>, b: Block)
    requires SelfDisjoint(bs) && Clear(bs, b)
    ensures SelfDisjoint(bs + [b])
    ensures Total(bs + [b]) == Total(bs) + b.size
    ensures Space(bs + [b]) == Space(bs) + Extent(b)
  {
    TotalConcat(bs, [b]);
    TotalOne(b);
    forall a ensures Covers(bs + [b], a) <==> Covers(bs, a) || b.Has(a) {
      CoversConcat(bs, [b], a);
      CoversOne(b, a);
    }
  }

  lemma InsertSortedSpace(bs: seq<Block>, b: Block)
    ensures Space(InsertSorted(bs, b)) == Space(bs) + Extent(b)
  {
    var p := Place(bs, b.sva);
    forall a ensures Covers(InsertSorted(bs, b), a) <==> Covers(bs, a) || b.Has(a) {
      SpliceCovers(bs, p, p, [b], a);
      CoversOne(b, a);
      CoversNone(a);
      assert bs[p..p] == [];
    }
  }

  lemma RemoveOne(bs: seq<Block>, k: nat)
    requires Ordered(bs) && k < |bs|
    ensures Ordered(Splice(bs, k, k + 1, []))
    ensures Space(Splice(bs, k, k + 1, [])) == Space(bs) - Extent(bs[k])
    ensures Total(Splice(bs, k, k + 1, [])) == Total(bs) - bs[k].size
  {
    assert bs[k..k + 1] == [bs[k]];
    SpliceTotal(bs, k, k + 1, []);
    TotalOne(bs[k]);
    TotalNone();
    forall a ensures Covers(Splice(bs, k, k + 1, []), a) <==> Covers(bs, a) && !bs[k].Has(a) {
      RemovedBit(bs, k, a);
    }
  }

  lemma RemovedBit(bs: seq<Block>, k: nat, a: int)
    requires Ordered(bs) && k < |bs|
    ensures Covers(Splice(bs, k, k + 1, []), a) <==> Covers(bs, a) && !bs[k].Has(a)
  {
    SpliceCovers(bs, k, k + 1, [], a);
    assert bs[k..k + 1] == [bs[k]];
    CoversOne(bs[k], a);
    CoversNone(a);
    var x, y := bs[..k], bs[k + 1..];
    forall i | 0 <= i < |x| && x[i].Has(a) ensures !bs[k].Has(a) {
      assert bs[i].End() <= bs[k].sva;
    }
    forall i | 0 <= i < |y| && y[i].Has(a) ensures !bs[k].Has(a) {
      assert bs[k].End() <= bs[k + 1 + i].sva;
    }
  }

  // ---------------------------------------------------------------- steps keep the invariant

  /** The heap tiles the region once `b`, which is on no list, is counted in. */
  ghost predicate Pending(h: Heap, b: Block, r: Region) {
    && r.Valid() && IsPaged(b)
    && Coalesced(h.free) && Ordered(h.alloc) && SelfDisjoint(h.shared)
    && Paged(h.free) && Paged(h.alloc) && Paged(h.shared)
    && Disjoint(h.free, h.alloc) && Disjoint(h.free, h.shared) && Disjoint(h.alloc, h.shared)
    && Clear(h.free, b) && Clear(h.alloc, b) && Clear(h.shared, b)
    && Space(h.free) + Space(h.alloc) + Space(h.shared) + Extent(b) == Extent(r.Whole())
    && Total(h.free) + Total(h.alloc) + Total(h.shared) + b.size == r.hi - r.lo
    && h.spare + |h.free| + |h.alloc| + |h.shared| + 1 == r.cap
  }

  lemma InitialInv(r: Region)
    requires r.Valid()
    ensures Inv(Initial(r), r)
  {
    TotalOne(r.Whole());
    TotalNone();
    forall a ensures Covers([r.Whole()], a) <==> r.Whole().Has(a) {
      CoversOne(r.Whole(), a);
    }
  }

  lemma CarvePaged(bs: seq<Block>, k: nat, n: nat)
    requires Paged(bs) && k < |bs| && 0 < n <= bs[k].size && n % PAGE == 0
    ensures Paged(Carve(bs, k, n))
  {
    var cs := Carve(bs, k, n);
    var d := |bs| - |cs|;
    forall i | 0 <= i < |cs| ensures IsPaged(cs[i]) {
      if i < k { assert cs[i] == bs[i]; }
      else if i == k && d == 0 { assert cs[i].size == bs[k].size - n; }
      else { assert cs[i] == bs[i + d]; }
    }
  }

  lemma ClearBits(bs: seq<Block>, b: Block)
    requires Clear(bs, b)
    ensures forall a :: b.Has(a) ==> !Covers(bs, a)
  {
  }

  lemma TakeLeavesPending(h: Heap, r: Region, k: nat, n: nat)
    requires Inv(h, r) && k < |h.free| && 0 < n <= h.free[k].size && n % PAGE == 0
    ensures Pending(TakeAt(h, k, n).0, TakeAt(h, k, n).1, r)
  {
    var (h', b) := TakeAt(h, k, n);
    assert IsPaged(h.free[k]);
    CarveClears(h.free, k, n);
    CarvePaged(h.free, k, n);
    CutIsClear(h, r, k, n);
    assert forall a :: Covers(h'.free, a) <==> a in Space(h'.free);
    assert forall a :: Covers(h.free, a) <==> a in Space(h.free);
    ClearFromBitmaps(h'.free, b);
    BlockIsRun(h.free, k, b.sva, n);
    assert Extent(b) <= Space(h.free);
    assert Space(h'.free) + Extent(b) == Space(h.free);
  }

  lemma InsertPaged(bs: seq<Block>, b: Block)
    requires Paged(bs) && IsPaged(b)
    ensures Paged(InsertSorted(bs, b))
  {
    var p, cs := Place(bs, b.sva), InsertSorted(bs, b);
    forall i | 0 <= i < |cs| ensures IsPaged(cs[i]) {
      if i < p { assert cs[i] == bs[i]; }
      else if i == p { assert cs[i] == b; }
      else { assert cs[i] == bs[i - 1]; }
    }
  }

  lemma PendingToAlloc(h: Heap, b: Block, r: Region)
    requires Pending(h, b, r)
    ensures Inv(h.(alloc := InsertSorted(h.alloc, b)), r)
  {
    hide Splice, Place;
    var alloc' := InsertSorted(h.alloc, b);
    InsertSortedAdds(h.alloc, b);
    InsertSortedSpace(h.alloc, b);
    InsertPaged(h.alloc, b);
    assert |alloc'| == |h.alloc| + 1;
    ClearBits(h.free, b);
    ClearBits(h.shared, b);
    assert forall a :: Covers(alloc', a) <==> a in Space(alloc');
    assert forall a :: Covers(h.alloc, a) <==> a in Space(h.alloc);
  }

  lemma PendingToShared(h: Heap, b: Block, r: Region)
    requires Pending(h, b, r)
    ensures Inv(h.(shared := h.shared + [b]), r)
  {
    var shared' := h.shared + [b];
    AppendShared(h.shared, b);
    ClearBits(h.free, b);
    ClearBits(h.alloc, b);
    assert forall a :: Covers(shared', a) <==> a in Space(shared');
    assert forall a :: Covers(h.shared, a) <==> a in Space(h.shared);
  }

  lemma PagedSum(m: int, n: int)
    requires m % PAGE == 0 && n % PAGE == 0
    ensures (m + n) % PAGE == 0
  {
  }

  lemma MergePaged(bs: seq<Block>, b: Block)
    requires Paged(bs) && IsPaged(b)
    ensures Paged(InsertMerge(bs, b))
  {
    hide Place;
    var (q, w, m) := MergeSpan(bs, b);
    var cs := InsertMerge(bs, b);
    PagedSum(if q < Place(bs, b.sva) then bs[q].size else 0, b.size);
    PagedSum(b.End() - m.sva, if Place(bs, b.sva) < w then bs[w - 1].size else 0);
    hide Splice;
    forall i | 0 <= i < |cs| ensures IsPaged(cs[i]) {
      SpliceAt(bs, q, w, m, i);
    }
  }

  /** What was apart from the list and the block is apart from the list with the block merged in. */
  lemma MergedApart(bs: seq<Block>, b: Block, others: seq<Block>)
    requires Coalesced(bs) && b.size > 0 && Clear(bs, b) && Disjoint(bs, others) && Clear(others, b)
    ensures Disjoint(InsertMerge(bs, b), others)
  {
    hide InsertMerge, Coalesced;
    InsertMergeSets(bs, b);
    ClearBits(others, b);
    assert forall a :: Covers(InsertMerge(bs, b), a) <==> a in Space(InsertMerge(bs, b));
    assert forall a :: Covers(bs, a) <==> a in Space(bs);
  }

  lemma PendingToFree(h: Heap, b: Block, r: Region)
    requires Pending(h, b, r)
    ensures var free' := InsertMerge(h.free, b);
      Inv(h.(free := free', spare := h.spare + |h.free| + 1 - |free'|), r)
  {
    hide InsertMerge, Coalesced, Ordered, Disjoint, Clear, Paged, SelfDisjoint, Space, Total;
    InsertMergeSets(h.free, b);
    MergePaged(h.free, b);
    MergedApart(h.free, b, h.alloc);
    MergedApart(h.free, b, h.shared);
  }

  lemma RemovePaged(bs: seq<Block>, k: nat)
    requires Paged(bs) && k < |bs|
    ensures Paged(Splice(bs, k, k + 1, []))
  {
    var cs := Splice(bs, k, k + 1, []);
    assert forall i :: 0 <= i < |cs| ==> cs[i] == if i < k then bs[i] else bs[i + 1];
  }

  lemma RemoveLeavesPending(h: Heap, r: Region, k: nat)
    requires Inv(h, r) && k < |h.alloc|
    ensures Pending(h.(alloc := Splice(h.alloc, k, k + 1, [])), h.alloc[k], r)
  {
    hide Splice, Ordered, Coalesced, SelfDisjoint;
    var b, alloc' := h.alloc[k], Splice(h.alloc, k, k + 1, []);
    RemoveOne(h.alloc, k);
    RemovePaged(h.alloc, k);
    assert forall a :: Covers(alloc', a) <==> a in Space(alloc');
    assert forall a :: Covers(h.alloc, a) <==> a in Space(h.alloc);
    forall a | b.Has(a) ensures Covers(h.alloc, a) {
      CoverOfBlock(h.alloc, k, a);
    }
    ClearFromBitmaps(h.free, b);
    ClearFromBitmaps(alloc', b);
    ClearFromBitmaps(h.shared, b);
    assert Extent(b) <= Space(h.alloc);
    assert Space(alloc') + Extent(b) == Space(h.alloc);
  }

  lemma RoundUpPaged(n: nat)
    requires n > 0
    ensures RoundUp(n) >= n && RoundUp(n) % PAGE == 0 && RoundUp(n) - n < PAGE
  {
  }

  /** malloc, free, smalloc and sget keep the heap an exact tiling of its region. */
  lemma MallocKeeps(h: Heap, r: Region, size: nat)
    requires Inv(h, r)
    ensures Inv(Malloc(h, size).0, r)
  {
    hide Pending, Inv;
    if size > 0 {
      var n := RoundUp(size);
      RoundUpPaged(size);
      if TakeFirstFit(h, n).Some? {
        var (h', b) := TakeFirstFit(h, n).value;
        TakeLeavesPending(h, r, FirstFit(h.free, n), n);
        PendingToAlloc(h', b, r);
      }
    }
  }

  lemma ShareKeeps(h: Heap, r: Region, n: nat, granted: bool)
    requires Inv(h, r) && n > 0 && n % PAGE == 0
    ensures Inv(Share(h, n, granted).0, r)
  {
    hide Pending, Inv;
    if TakeFirstFit(h, n).Some? {
      var (h', b) := TakeFirstFit(h, n).value;
      TakeLeavesPending(h, r, FirstFit(h.free, n), n);
      PendingToShared(h', b, r);
    }
  }

  /** smalloc rounds sizes up to whole pages; sget does not, and the tiling survives only for sizes that are. */
  lemma ShareKeepsIff(h: Heap, r: Region, n: nat, granted: bool)
    requires Inv(h, r) && n > 0
    ensures Inv(Share(h, n, granted).0, r) <==> n % PAGE == 0 || FirstFit(h.free, n) == |h.free|
  {
    if FirstFit(h.free, n) < |h.free| {
      if n % PAGE == 0 {
        ShareKeeps(h, r, n, granted);
      } else {
        var shared := Share(h, n, granted).0.shared;
        assert !IsPaged(shared[|shared| - 1]);
      }
    }
  }

  lemma FreeKeeps(h: Heap, r: Region, va: nat)
    requires Inv(h, r) && Allocated(h, va)
    ensures Inv(Free(h, va), r)
  {
    var k := FindFrom(h.alloc, va, 0);
    RemoveLeavesPending(h, r, k);
    PendingToFree(h.(alloc := Splice(h.alloc, k, k + 1, [])), h.alloc[k], r);
  }

  // ---------------------------------------------------------------- main theorems

  /** With one descriptor a page the pool is never empty when a hole has to be split. */
  lemma SplitFindsDescriptor(h: Heap, r: Region, n: nat, k: nat)
    requires Inv(h, r) && k < |h.free| && 0 < n < h.free[k].size && n % PAGE == 0
    ensures h.spare > 0
  {
    var cs := Carve(h.free, k, n);
    CarvePaged(h.free, k, n);
    CarveTotal(h.free, k, n);
    AtLeastAPageEach(cs);
    AtLeastAPageEach(h.alloc);
    AtLeastAPageEach(h.shared);
    assert |cs| == |h.free|;
  }

  lemma TakenIsClear(h: Heap, r: Region, n: nat)
    requires Inv(h, r) && n > 0 && TakeFirstFit(h, n).Some?
    ensures var (g, b) := TakeFirstFit(h, n).value;
      b.size == n && Ordered(g.alloc) && Clear(g.alloc, b) && g.alloc == h.alloc && g.shared == h.shared
  {
    CutIsClear(h, r, FirstFit(h.free, n), n);
  }

  lemma RemovedIsClear(h: Heap, r: Region, va: nat)
    requires Inv(h, r) && Allocated(h, va)
    ensures var b := h.alloc[FindFrom(h.alloc, va, 0)];
      Coalesced(h.free) && b.size > 0 && Clear(h.free, b)
  {
    RemoveLeavesPending(h, r, FindFrom(h.alloc, va, 0));
  }

  /** A request larger than the region finds no hole. */
  lemma TooLarge(h: Heap, r: Region, n: nat)
    requires Inv(h, r) && n > r.hi - r.lo
    ensures FirstFit(h.free, n) == |h.free| && TakeFirstFit(h, n) == None
  {
    var k := FirstFit(h.free, n);
    if k < |h.free| {
      CarveTotal(h.free, k, n);
    }
  }

  /** The free list is a function of what is in use: the order of events leaves no trace. */
  lemma HolesDependOnUseOnly(h: Heap, g: Heap, r: Region)
    requires Inv(h, r) && Inv(g, r)
    requires Space(h.alloc) + Space(h.shared) == Space(g.alloc) + Space(g.shared)
    ensures h.free == g.free
  {
    assert forall a :: Covers(h.free, a) <==> a in Extent(r.Whole()) && a !in Space(h.alloc) + Space(h.shared) by {
      UnusedIsFree(h, r);
    }
    assert forall a :: Covers(g.free, a) <==> a in Extent(r.Whole()) && a !in Space(g.alloc) + Space(g.shared) by {
      UnusedIsFree(g, r);
    }
    CoalescedUnique(h.free, g.free);
  }

  lemma UnusedIsFree(h: Heap, r: Region)
    requires Inv(h, r)
    ensures forall a :: Covers(h.free, a) <==> a in Extent(r.Whole()) && a !in Space(h.alloc) + Space(h.shared)
  {
    forall a ensures Covers(h.free, a) <==> a in Extent(r.Whole()) && a !in Space(h.alloc) + Space(h.shared) {
      assert a in Extent(r.Whole()) <==> a in Space(h.free) + Space(h.alloc) + Space(h.shared);
    }
  }

  lemma InsertThenRemove(bs: seq<Block>, b: Block)
    requires Ordered(bs) && b.size > 0 && Clear(bs, b)
    ensures var cs, p := InsertSorted(bs, b), Place(bs, b.sva);
      p < |cs| && cs[p] == b && FindFrom(cs, b.sva, 0) == p && Splice(cs, p, p + 1, []) == bs
  {
    hide Clear;
    SortedPlace(bs, b);
    var cs, p := InsertSorted(bs, b), Place(bs, b.sva);
    hide Place, Ordered;
    forall i | 0 <= i < p ensures cs[i].sva != b.sva {
      assert cs[i] == bs[i];
    }
    assert cs[..p] == bs[..p] && cs[p + 1..] == bs[p..];
  }

  lemma FreeUndoesInsert(h: Heap, r: Region, size: nat)
    requires Inv(h, r) && Malloc(h, size).1.Some?
    ensures var (h', va) := Malloc(h, size);
      Allocated(h', va.value) && Free(h', va.value).alloc == h.alloc
  {
    hide Splice, Place, InsertMerge, InsertSorted, FirstFit;
    RoundUpPaged(size);
    var n, k := RoundUp(size), FirstFit(h.free, RoundUp(size));
    var b := Block(h.free[k].sva, n);
    CutIsClear(h, r, k, n);
    InsertThenRemove(h.alloc, b);
    assert InsertSorted(h.alloc, b)[Place(h.alloc, b.sva)].sva == b.sva;
  }

  /** free undoes malloc: the heap is exactly what it was. */
  lemma FreeUndoesMalloc(h: Heap, r: Region, size: nat)
    requires Inv(h, r) && Malloc(h, size).1.Some?
    ensures var (h', va) := Malloc(h, size);
      Allocated(h', va.value) && Free(h', va.value) == h
  {
    hide Coalesced, Ordered, SelfDisjoint, Paged, Disjoint, Space, InsertSorted, FirstFit;
    var (h', va) := Malloc(h, size);
    FreeUndoesInsert(h, r, size);
    MallocKeeps(h, r, size);
    FreeKeeps(h', r, va.value);
    HolesDependOnUseOnly(Free(h', va.value), h, r);
  }

  /** Once nothing is in use the free list is the single initial block, however the heap got there. */
  lemma EmptyHeapIsWhole(h: Heap, r: Region)
    requires Inv(h, r) && h.alloc == [] && h.shared == []
    ensures h == Initial(r)
  {
    InitialInv(r);
    HolesDependOnUseOnly(h, Initial(r), r);
  }

  /** Freeing the blocks at the given addresses, in that order. */
  ghost predicate Freeable(h: Heap, order: seq<nat>)
    decreases |order|
  {
    order != [] ==> Allocated(h, order[0]) && Freeable(Free(h, order[0]), order[1..])
  }

  function FreeAll(h: Heap, order: seq<nat>): Heap
    requires Freeable(h, order)
    decreases |order|
  {
    if order == [] then h else FreeAll(Free(h, order[0]), order[1..])
  }

  function Starts(bs: seq<Block>): (s: seq<nat>)
    ensures |s| == |bs| && forall i :: 0 <= i < |s| ==> s[i] == bs[i].sva
  {
    seq(|bs|, i requires 0 <= i < |bs| => bs[i].sva)
  }

  lemma FreeDropsStart(h: Heap, va: nat)
    requires Allocated(h, va)
    ensures multiset(Starts(Free(h, va).alloc)) == multiset(Starts(h.alloc)) - multiset{va}
    ensures Free(h, va).shared == h.shared
  {
    hide InsertMerge;
    var k, ss := FindFrom(h.alloc, va, 0), Starts(h.alloc);
    assert Starts(Splice(h.alloc, k, k + 1, [])) == ss[..k] + ss[k + 1..];
    assert ss == ss[..k] + [va] + ss[k + 1..];
  }

  lemma StartAllocated(h: Heap, va: nat)
    requires va in multiset(Starts(h.alloc))
    ensures Allocated(h, va)
  {
    var k :| 0 <= k < |Starts(h.alloc)| && Starts(h.alloc)[k] == va;
    assert h.alloc[k].sva == va;
  }

  lemma NoStarts(bs: seq<Block>)
    requires multiset(Starts(bs)) == multiset{}
    ensures bs == []
  {
    assert |multiset(Starts(bs))| == |bs|;
  }

  /** If nothing was shared, freeing every malloc'ed block, in any order, restores the initial heap. */
  lemma {:induction false} AnyOrderRestores(h: Heap, r: Region, order: seq<nat>)
    requires Inv(h, r) && h.shared == []
    requires multiset(order) == multiset(Starts(h.alloc))
    ensures Freeable(h, order) && FreeAll(h, order) == Initial(r)
    decreases |order|
  {
    hide Inv, Free, Initial, Starts, Allocated;
    if order == [] {
      NoStarts(h.alloc);
      EmptyHeapIsWhole(h, r);
    } else {
      assert order == [order[0]] + order[1..];
      assert order[0] in multiset(order);
      StartAllocated(h, order[0]);
      FreeDropsStart(h, order[0]);
      FreeKeeps(h, r, order[0]);
      AnyOrderRestores(Free(h, order[0]), r, order[1..]);
    }
  }

  // ---------------------------------------------------------------- runs

  datatype Op = OpMalloc(size: nat) | OpFree(va: nat) | OpShare(n: nat, granted: bool)

  ghost predicate Enabled(h: Heap, op: Op) {
    match op
    case OpMalloc(_) => true
    case OpFree(va) => Allocated(h, va)
    case OpShare(n, _) => n > 0 && n % PAGE == 0
  }

  function Step(h: Heap, op: Op): Heap
    requires Enabled(h, op)
  {
    match op
    case OpMalloc(size) => Malloc(h, size).0
    case OpFree(va) => Free(h, va)
    case OpShare(n, granted) => Share(h, n, granted).0
  }

  /** The heap after a run, if every step of the run was allowed. */
  ghost function Outcome(r: Region, ops: seq<Op>): Option<Heap>
    requires r.Valid()
    decreases |ops|
  {
    if ops == [] then Some(Initial(r))
    else
      var op := ops[|ops| - 1];
      match Outcome(r, ops[..|ops| - 1])
      case None => None
      case Some(g) => if Enabled(g, op) then Some(Step(g, op)) else None
  }

  ghost predicate Reachable(h: Heap, r: Region) {
    r.Valid() && exists ops :: Outcome(r, ops) == Some(h)
  }

  /** The invariant holds in every heap any run can reach. */
  lemma {:induction false} RunKeeps(r: Region, ops: seq<Op>)
    requires r.Valid() && Outcome(r, ops).Some?
    ensures Inv(Outcome(r, ops).value, r)
    decreases |ops|
  {
    if ops == [] {
      InitialInv(r);
    } else {
      var op := ops[|ops| - 1];
      RunKeeps(r, ops[..|ops| - 1]);
      var g := Outcome(r, ops[..|ops| - 1]).value;
      match op
      case OpMalloc(size) => MallocKeeps(g, r, size);
      case OpFree(va) => FreeKeeps(g, r, va);
      case OpShare(n, granted) => ShareKeeps(g, r, n, granted);
    }
  }

  /** In every reachable heap malloc answers as first fit on the page bitmap does, and never lacks a descriptor. */
  lemma MallocIsFirstFitOnBitmap(h: Heap, r: Region, size: nat)
    requires Reachable(h, r) && size > 0
    ensures var n, answer := RoundUp(size), Malloc(h, size).1;
      && (answer == None <==> !exists a :: Run(h.free, a, n))
      && (answer.Some? ==> Run(h.free, answer.value, n) && forall a :: Run(h.free, a, n) ==> answer.value <= a)
    ensures Malloc(h, size).0.spare >= 0
  {
    var n := RoundUp(size);
    var ops :| Outcome(r, ops) == Some(h);
    RunKeeps(r, ops);
    RoundUpPaged(size);
    FirstFitIsLowestRun(h.free, n);
    MallocKeeps(h, r, size);
    var k := FirstFit(h.free, n);
    if k < |h.free| && h.free[k].size != n {
      SplitFindsDescriptor(h, r, n, k);
    }
    SpareIsNat(h, r);
  }

  // ---------------------------------------------------------------- what each call takes and gives back

  /** The lowest address at which `n` free bytes start. */
  ghost predicate LowestRun(bs: seq<Block>, a: int, n: nat) {
    Run(bs, a, n) && forall x :: Run(bs, x, n) ==> a <= x
  }

  /** From `free` to `free'` exactly the bytes of `b` went. */
  ghost predicate Taken(free: seq<Block>, free': seq<Block>, b: Block) {
    Space(free') == Space(free) - Extent(b) && Extent(b) <= Space(free)
  }

  lemma FitTaken(h: Heap, r: Region, n: nat)
    requires Inv(h, r) && n > 0
    ensures TakeFirstFit(h, n) == None <==> !exists a :: Run(h.free, a, n)
    ensures TakeFirstFit(h, n).Some? ==> var (g, b) := TakeFirstFit(h, n).value;
      && b.size == n && LowestRun(h.free, b.sva, n) && Taken(h.free, g.free, b)
      && g.alloc == h.alloc && g.shared == h.shared
  {
    FirstFitIsLowestRun(h.free, n);
    var k := FirstFit(h.free, n);
    if k < |h.free| {
      hide Inv, Run, Coalesced;
      CutTaken(h, r, k, n);
    }
  }

  /** Cutting hole `k` takes exactly the block, wherever it was found. */
  lemma CutTaken(h: Heap, r: Region, k: nat, n: nat)
    requires Inv(h, r) && k < |h.free| && 0 < n <= h.free[k].size
    ensures var (g, b) := TakeAt(h, k, n);
      && b == Block(h.free[k].sva, n) && Taken(h.free, g.free, b)
      && Run(h.free, b.sva, n) && g.alloc == h.alloc && g.shared == h.shared
  {
    hide Inv, Run, Coalesced;
    assert Coalesced(h.free) by { FreeCoalesced(h, r); }
    CarveClears(h.free, k, n);
    BlockIsRun(h.free, k, h.free[k].sva, n);
    RunIsSpace(h.free, Block(h.free[k].sva, n));
  }

  lemma FreeCoalesced(h: Heap, r: Region)
    requires Inv(h, r)
    ensures Coalesced(h.free)
  {
  }

  lemma RunIsSpace(bs: seq<Block>, b: Block)
    requires Run(bs, b.sva, b.size)
    ensures Extent(b) <= Space(bs)
  {
  }

  lemma ReachableInv(h: Heap, r: Region)
    requires Reachable(h, r)
    ensures Inv(h, r)
  {
    var ops :| Outcome(r, ops) == Some(h);
    RunKeeps(r, ops);
  }

  /** malloc in every reachable heap, said without its rounding: `n` is the one multiple of the page size that holds
      `size` with less than a page to spare.  It answers NULL and changes nothing iff no `n` free bytes lie together;
      otherwise exactly the lowest such bytes leave the free list and join the allocated blocks. */
  lemma MallocTakes(h: Heap, r: Region, size: nat, n: nat)
    requires Reachable(h, r) && 0 < size <= n < size + PAGE && n % PAGE == 0
    ensures var (h', answer) := Malloc(h, size);
      && (answer == None <==> !exists a :: Run(h.free, a, n))
      && (answer == None ==> h' == h)
      && (answer.Some? ==>
            var b := Block(answer.value, n);
            && LowestRun(h.free, b.sva, n) && Taken(h.free, h'.free, b)
            && multiset(h'.alloc) == multiset(h.alloc) + multiset{b} && h'.shared == h.shared)
  {
    hide Inv, LowestRun, Taken, TakeFirstFit, Run, Reachable, Ordered, Clear, InsertSorted;
    ReachableInv(h, r);
    RoundUpPaged(size);
    assert RoundUp(size) == n by { OneMultiple(RoundUp(size), n, size); }
    FitTaken(h, r, n);
    if TakeFirstFit(h, n).Some? {
      TakenIsClear(h, r, n);
      var (g, b) := TakeFirstFit(h, n).value;
      InsertSortedAdds(g.alloc, b);
    }
  }

  lemma OneMultiple(a: nat, b: nat, size: nat)
    requires size <= a < size + PAGE && size <= b < size + PAGE && a % PAGE == 0 && b % PAGE == 0
    ensures a == b
  {
  }

  /** The kernel part of smalloc and sget in every reachable heap: whether or not the kernel agrees, the lowest `n`
      free bytes that lie together leave the free list as a shared block; the answer is their address iff it agrees. */
  lemma ShareTakes(h: Heap, r: Region, n: nat, granted: bool)
    requires Reachable(h, r) && n > 0
    ensures var (h', answer) := Share(h, n, granted);
      && (answer == None <==> !granted || !exists a :: Run(h.free, a, n))
      && (answer.Some? ==> LowestRun(h.free, answer.value, n))
      && h'.alloc == h.alloc
      && if exists a :: Run(h.free, a, n) then
           var b := h'.shared[|h.shared|..];
           && h'.shared == h.shared + b && |b| == 1 && b[0].size == n
           && LowestRun(h.free, b[0].sva, n) && Taken(h.free, h'.free, b[0])
         else h' == h
  {
    hide Inv, LowestRun, Taken, TakeFirstFit, Run, Reachable;
    ReachableInv(h, r);
    FitTaken(h, r, n);
  }

  /** free in every reachable heap: exactly the block that starts there leaves the allocated ones, and exactly its bytes
      are free again. */
  lemma FreeGivesBack(h: Heap, r: Region, b: Block)
    requires Reachable(h, r) && b in h.alloc
    ensures Allocated(h, b.sva)
    ensures var h' := Free(h, b.sva);
      && multiset(h'.alloc) == multiset(h.alloc) - multiset{b} && h'.shared == h.shared
      && Taken(h'.free, h.free, b)
  {
    hide Inv, Reachable, Free, Taken;
    ReachableInv(h, r);
    FreeReturns(h, r, b);
  }

  lemma FreeReturns(h: Heap, r: Region, b: Block)
    requires Inv(h, r) && b in h.alloc
    ensures Allocated(h, b.sva) && h.alloc[FindFrom(h.alloc, b.sva, 0)] == b
    ensures var h' := Free(h, b.sva);
      && multiset(h'.alloc) == multiset(h.alloc) - multiset{b} && h'.shared == h.shared
      && Taken(h'.free, h.free, b)
  {
    hide Inv, InsertMerge, Splice, Coalesced, Clear;
    var k := FindFrom(h.alloc, b.sva, 0);
    StartIsUnique(h, r, b, k);
    RemovedIsClear(h, r, b.sva);
    InsertMergeSets(h.free, b);
    SpliceOut(h.alloc, k);
    assert Space(h.free) !! Extent(b) by { ClearBits(h.free, b); }
  }

  lemma StartIsUnique(h: Heap, r: Region, b: Block, k: nat)
    requires Inv(h, r) && b in h.alloc && k < |h.alloc| && h.alloc[k].sva == b.sva
    ensures h.alloc[k] == b
  {
    var j :| 0 <= j < |h.alloc| && h.alloc[j] == b;
    assert IsPaged(h.alloc[j]) && IsPaged(h.alloc[k]);
    assert Ordered(h.alloc);
  }

  lemma SpliceOut(bs: seq<Block>, k: nat)
    requires k < |bs|
    ensures multiset(Splice(bs, k, k + 1, [])) == multiset(bs) - multiset{bs[k]}
  {
    assert bs == bs[..k] + [bs[k]] + bs[k + 1..];
  }

  lemma SpareIsNat(h: Heap, r: Region)
    requires Inv(h, r)
    ensures h.spare >= 0
  {
    AtLeastAPageEach(h.free);
    AtLeastAPageEach(h.alloc);
    AtLeastAPageEach(h.shared);
  }
}
