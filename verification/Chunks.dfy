/**
 The chunk operations of kern/mem/chunk_operations.c on user pages: allocate_chunk and its predictors
 calculate_required_frames and calculate_allocated_space, cut_paste_pages and share_chunk.
 Ranges are given by their first page and number of pages.
 */
module Chunks {
  import opened Basics
  import opened Blocks
  import opened Paging
  import opened KernelHeap
  import opened PageTables
  import H = Heap

  ghost predicate UserRange(k: Kernel, d: nat, p: nat, n: nat) {
    Valid(k) && d in k.mem.dirs && d !in k.mem.storages && p + n <= USER_END
  }

  /** get_frame_info finds nothing at any page of the range. */
  ghost predicate RangeUnmapped(m: Mem, d: nat, p: nat, n: nat) {
    forall q: nat :: p <= q < p + n ==> Lookup(m, d, q) == Unmapped
  }

  /** The directory entries that cover the range. */
  ghost function Covering(p: nat, n: nat): (u: set<nat>)
    ensures forall x: nat :: x in u <==> n > 0 && p / ENTRIES <= x <= (p + n - 1) / ENTRIES
  {
    if n == 0 then {} else Covering(p, n - 1) + {(p + n - 1) / ENTRIES}
  }

  /** Those of them that have no table. */
  ghost function MissingTables(m: Mem, d: nat, p: nat, n: nat): set<nat> {
    set x | x in Covering(p, n) && !HasTable(m, d, x)
  }

  lemma MissingStep(m: Mem, d: nat, p: nat, n: nat)
    requires n > 0
    ensures var x := (p + n - 1) / ENTRIES;
      |MissingTables(m, d, p, n)|
      == |MissingTables(m, d, p, n - 1)| + Bit(!HasTable(m, d, x) && x !in Covering(p, n - 1))
  {
    var x := (p + n - 1) / ENTRIES;
    if !HasTable(m, d, x) && x !in Covering(p, n - 1) {
      assert MissingTables(m, d, p, n) == MissingTables(m, d, p, n - 1) + {x};
    } else {
      assert MissingTables(m, d, p, n) == MissingTables(m, d, p, n - 1);
    }
  }

  // ---------------------------------------------------------------- allocate_chunk

  /** The second loop of allocate_chunk after `n` pages. */
  ghost function AllocPages(k: Kernel, d: nat, p: nat, n: nat, perms: set<Flag>, strategy: Strategy): Outcome<Kernel> {
    if n == 0 then Done(k)
    else match AllocPages(k, d, p, n - 1, perms, strategy)
      case Panic => Panic
      case Done(k1) =>
        if Ready(k1, d, p + n - 1) then AllocPage(k1, d, p + n - 1, perms, (p + n - 1) * H.PAGE, strategy) else Panic
  }

  /** allocate_chunk, with its return value */
  ghost function AllocateChunk(k: Kernel, d: nat, p: nat, n: nat, perms: set<Flag>,
                               strategy: Strategy): Outcome<(Kernel, int)>
  {
    if !RangeUnmapped(k.mem, d, p, n) then Done((k, -1))
    else match AllocPages(k, d, p, n, perms, strategy)
      case Panic => Panic
      case Done(k') => Done((k', 0))
  }

  /** Page `q` shows a frame that was free, that nothing else uses, and that records its address. */
  ghost predicate Fresh(m: Mem, m': Mem, d: nat, q: nat, perms: set<Flag>) {
    var e := Lookup(m', d, q);
    && e.Mapped? && e.perms == perms && e.frame < |m.frames| == |m'.frames|
    && m.frames[e.frame].references == 0 && m'.frames[e.frame] == Frame(1, q * H.PAGE)
  }

  /** The range is mapped to fresh frames, its tables exist, and nothing else changed. */
  ghost predicate ChunkAllocated(k: Kernel, k': Kernel, d: nat, p: nat, n: nat, perms: set<Flag>) {
    var m, m' := k.mem, k'.mem;
    && SameBut(m, m', d, p, n) && UsedFramesKept(m, m')
    && (forall q: nat :: p <= q < p + n ==> Fresh(m, m', d, q, perms))
    && |m'.free| == |m.free| - n - |MissingTables(m, d, p, n)| && m'.hand == m.hand
    && (forall x: nat :: x < TABLES ==> (HasTable(m', d, x) <==> HasTable(m, d, x) || x in Covering(p, n)))
    && Total(k'.heap.free) == Total(k.heap.free) - H.PAGE * |MissingTables(m, d, p, n)|
  }

  /** Frames for the pages and the missing tables, and heap pages for the tables. */
  ghost predicate Enough(k: Kernel, d: nat, p: nat, n: nat, strategy: Strategy) {
    var tables := |MissingTables(k.mem, d, p, n)|;
    n + tables <= |k.mem.free| && H.PAGE * tables <= Total(k.heap.free) && (strategy.UseOther? ==> tables == 0)
  }

  lemma HeapRoom(k: Kernel)
    requires Valid(k)
    ensures k.heap.free == [] <==> Total(k.heap.free) == 0
    ensures Total(k.heap.free) % H.PAGE == 0
  {
    hide Counted, Linked, Coalesced, Ordered;
    H.AtLeastAPageEach(k.heap.free);
    WholePages(k.heap.free);
  }

  lemma {:induction false} WholePages(bs: seq<Block>)
    requires H.Paged(bs)
    ensures Total(bs) % H.PAGE == 0
  {
    if bs != [] {
      var cs := bs[..|bs| - 1];
      assert forall i :: 0 <= i < |cs| ==> cs[i] == bs[i];
      WholePages(cs);
      assert H.IsPaged(bs[|bs| - 1]);
    }
  }

  /** The loop of allocate_chunk panics if and only if frames or heap pages run out, and otherwise does just what
      it should. */
  lemma {:induction false} AllocPagesKeeps(k: Kernel, d: nat, p: nat, n: nat, perms: set<Flag>, strategy: Strategy)
    requires UserRange(k, d, p, n) && RangeUnmapped(k.mem, d, p, n)
    ensures var r := AllocPages(k, d, p, n, perms, strategy);
      && (r.Done? <==> Enough(k, d, p, n, strategy))
      && (r.Done? ==> UserRange(r.value, d, p, n) && ChunkAllocated(k, r.value, d, p, n, perms))
  {
    hide Valid, Lookup, HasTable, Total, AllocPage, ChunkAllocated, MissingTables, RangeUnmapped;
    if n == 0 {
      NothingAllocated(k, d, p, perms);
    } else {
      assert RangeUnmapped(k.mem, d, p, n - 1) by { FewerUnmapped(k.mem, d, p, n); }
      AllocPagesKeeps(k, d, p, n - 1, perms, strategy);
      MissingStep(k.mem, d, p, n);
      if AllocPages(k, d, p, n - 1, perms, strategy).Done? {
        OneMoreAllocated(k, AllocPages(k, d, p, n - 1, perms, strategy).value, d, p, n, perms, strategy);
      }
    }
  }

  /** allocate_chunk answers -1 and changes nothing iff some page of the range is mapped; otherwise it panics iff frames
      or heap pages run out, and else answers 0 with the range allocated. */
  lemma AllocateChunkAnswers(k: Kernel, d: nat, p: nat, n: nat, perms: set<Flag>, strategy: Strategy)
    requires UserRange(k, d, p, n)
    ensures var r := AllocateChunk(k, d, p, n, perms, strategy);
      if exists q: nat :: p <= q < p + n && Lookup(k.mem, d, q).Mapped? then r == Done((k, -1))
      else
        && (r.Done? <==> Enough(k, d, p, n, strategy))
        && (r.Done? ==>
              r.value.1 == 0 && UserRange(r.value.0, d, p, n) && ChunkAllocated(k, r.value.0, d, p, n, perms))
  {
    hide Valid, Lookup, AllocPages, Enough, ChunkAllocated;
    if RangeUnmapped(k.mem, d, p, n) {
      AllocPagesKeeps(k, d, p, n, perms, strategy);
    }
  }

  lemma FewerUnmapped(m: Mem, d: nat, p: nat, n: nat)
    requires n > 0 && RangeUnmapped(m, d, p, n)
    ensures RangeUnmapped(m, d, p, n - 1)
  {
    hide Lookup;
  }

  lemma NothingAllocated(k: Kernel, d: nat, p: nat, perms: set<Flag>)
    requires Valid(k)
    ensures MissingTables(k.mem, d, p, 0) == {} && ChunkAllocated(k, k, d, p, 0, perms)
  {
    hide Valid, Lookup, HasTable, Total;
    assert MissingTables(k.mem, d, p, 0) == {};
    SameAsBefore(k, d, p);
    assert SameBut(k.mem, k.mem, d, p, 0);
  }

  lemma {:induction false} PanicStays(k: Kernel, d: nat, p: nat, i: nat, n: nat, perms: set<Flag>, strategy: Strategy)
    requires i <= n && AllocPages(k, d, p, i, perms, strategy).Panic?
    ensures AllocPages(k, d, p, n, perms, strategy).Panic?
  {
    hide Valid, AllocPage;
    if i < n {
      PanicStays(k, d, p, i, n - 1, perms, strategy);
    }
  }

  lemma OneMoreAllocated(k: Kernel, k1: Kernel, d: nat, p: nat, n: nat, perms: set<Flag>, strategy: Strategy)
    requires UserRange(k, d, p, n) && RangeUnmapped(k.mem, d, p, n) && n > 0
    requires UserRange(k1, d, p, n - 1) && ChunkAllocated(k, k1, d, p, n - 1, perms) && Enough(k, d, p, n - 1, strategy)
    ensures Ready(k1, d, p + n - 1)
    ensures var r := AllocPage(k1, d, p + n - 1, perms, (p + n - 1) * H.PAGE, strategy);
      && (r.Done? <==> Enough(k, d, p, n, strategy))
      && (r.Done? ==> UserRange(r.value, d, p, n) && ChunkAllocated(k, r.value, d, p, n, perms))
  {
    hide Valid, Lookup, HasTable, Total, Fresh, AllocPage, Ready, UsedFramesKept;
    var q := p + n - 1;
    IsReady(k1, d, q);
    MissingStep(k.mem, d, p, n);
    HeapRoom(k1);
    assert Lookup(k1.mem, d, q) == Lookup(k.mem, d, q) by { hide UsedFramesKept; }
    AllocPageKeeps(k1, d, q, perms, q * H.PAGE, strategy);
    var r := AllocPage(k1, d, q, perms, q * H.PAGE, strategy);
    if r.Done? {
      ReadyValid(r.value, d, q);
      FreeIsUnused(k1, Needs(k1.mem, d, q) - 1);
      PagesAdd(k, k1, r.value, d, p, n, perms);
    }
  }

  lemma PagesAdd(k: Kernel, k1: Kernel, k': Kernel, d: nat, p: nat, n: nat, perms: set<Flag>)
    requires n > 0 && p + n <= USER_END && ChunkAllocated(k, k1, d, p, n - 1, perms)
    requires Needs(k1.mem, d, p + n - 1) <= |k1.mem.free|
    requires PageAllocated(k1, k', d, p + n - 1, perms, (p + n - 1) * H.PAGE)
    requires var f := k1.mem.free[Needs(k1.mem, d, p + n - 1) - 1];
      f < |k1.mem.frames| && k1.mem.frames[f].references == 0
    ensures ChunkAllocated(k, k', d, p, n, perms)
    ensures d in k.mem.dirs ==> d in k'.mem.dirs
  {
    hide Lookup, HasTable, Total;
    MissingStep(k.mem, d, p, n);
    var m, m1, m', q := k.mem, k1.mem, k'.mem, p + n - 1;
    forall r: nat | p <= r < p + n ensures Fresh(m, m', d, r, perms) {
      if r < q {
        assert Fresh(m, m1, d, r, perms);
        LookupNowhere(m1, m', d, r);
        assert Lookup(m', d, r) == Lookup(m1, d, r);
      }
    }
  }

  lemma LookupNowhere(m: Mem, m': Mem, d: nat, q: nat)
    requires d !in m.dirs ==> d !in m'.dirs
    ensures d !in m.dirs ==> Lookup(m, d, q) == Unmapped == Lookup(m', d, q)
  {
  }

  // ---------------------------------------------------------------- predicting and counting

  ghost function UnmappedPages(m: Mem, d: nat, p: nat, n: nat): set<nat> {
    if n == 0 then {}
    else UnmappedPages(m, d, p, n - 1) + if Lookup(m, d, p + n - 1) == Unmapped then {p + n - 1} else {}
  }

  lemma {:induction false} UnmappedPagesAre(m: Mem, d: nat, p: nat, n: nat)
    ensures forall q: nat :: q in UnmappedPages(m, d, p, n) <==> p <= q < p + n && Lookup(m, d, q) == Unmapped
  {
    if n > 0 {
      UnmappedPagesAre(m, d, p, n - 1);
    }
  }

  lemma {:induction false} AllUnmapped(m: Mem, d: nat, p: nat, n: nat)
    requires RangeUnmapped(m, d, p, n)
    ensures |UnmappedPages(m, d, p, n)| == n
  {
    hide Lookup;
    if n > 0 {
      AllUnmapped(m, d, p, n - 1);
      UnmappedPagesAre(m, d, p, n - 1);
    }
  }

  lemma UnmappedStep(m: Mem, d: nat, p: nat, i: nat)
    ensures |UnmappedPages(m, d, p, i + 1)| == |UnmappedPages(m, d, p, i)| + Bit(Lookup(m, d, p + i) == Unmapped)
  {
    hide Lookup;
    UnmappedPagesAre(m, d, p, i);
    assert p + i !in UnmappedPages(m, d, p, i);
  }

  /** A new directory entry is met exactly where it differs from that of the page before. */
  lemma MissingAhead(m: Mem, d: nat, p: nat, i: nat)
    ensures i == 0 ==> |MissingTables(m, d, p, 1)| == Bit(GetPageTable(m, d, p) == Missing)
    ensures var ahead := GetPageTable(m, d, p + i) == Missing && (p + i) / ENTRIES != (p + i - 1) / ENTRIES;
      i > 0 ==> |MissingTables(m, d, p, i + 1)| == |MissingTables(m, d, p, i)| + Bit(ahead)
  {
    MissingStep(m, d, p, i + 1);
    if i == 0 { assert MissingTables(m, d, p, 0) == {}; }
  }

  /** calculate_required_frames */
  method CalculateRequiredFrames(m: Mem, d: nat, p: nat, n: nat) returns (required: nat)
    ensures n > 0 ==> required == |UnmappedPages(m, d, p, n)| + |MissingTables(m, d, p, n)|
    ensures n == 0 ==> required == Bit(GetPageTable(m, d, p) == Missing)
  {
    hide Lookup, UnmappedPages, MissingTables, GetPageTable;
    var pages, tables := 0, 0;
    var i := 0;
    assert UnmappedPages(m, d, p, 0) == {} by { UnmappedPagesAre(m, d, p, 0); }
    while i < n
      invariant 0 <= i <= n && pages == |UnmappedPages(m, d, p, i)|
    {
      UnmappedStep(m, d, p, i);
      if Lookup(m, d, p + i) == Unmapped {
        pages := pages + 1;
      }
      i := i + 1;
    }
    if GetPageTable(m, d, p) == Missing {
      tables := 1;
    }
    var last := p;
    i := 0;
    while i < n
      invariant 0 <= i <= n && last == (if i == 0 then p else p + i - 1)
      invariant tables == if i == 0 then Bit(GetPageTable(m, d, p) == Missing) else |MissingTables(m, d, p, i)|
    {
      MissingAhead(m, d, p, i);
      if GetPageTable(m, d, p + i) == Missing && (p + i) / ENTRIES != last / ENTRIES {
        tables := tables + 1;
      }
      last := p + i;
      i := i + 1;
    }
    return pages + tables;
  }

  ghost function ExistingTables(m: Mem, d: nat, p: nat, n: nat): set<nat> {
    set x | x in Covering(p, n) && HasTable(m, d, x)
  }

  lemma ExistingStep(m: Mem, d: nat, p: nat, n: nat)
    requires n > 0
    ensures var x := (p + n - 1) / ENTRIES;
      |ExistingTables(m, d, p, n)|
      == |ExistingTables(m, d, p, n - 1)| + Bit(HasTable(m, d, x) && x !in Covering(p, n - 1))
  {
    var x := (p + n - 1) / ENTRIES;
    if HasTable(m, d, x) && x !in Covering(p, n - 1) {
      assert ExistingTables(m, d, p, n) == ExistingTables(m, d, p, n - 1) + {x};
    } else {
      assert ExistingTables(m, d, p, n) == ExistingTables(m, d, p, n - 1);
    }
  }

  /** A new table is met exactly where it differs from that of the page before. */
  lemma ExistingAhead(k: Kernel, d: nat, p: nat, i: nat)
    requires Valid(k) && d in k.mem.dirs && p + i < USER_END
    ensures var table := GetPageTable(k.mem, d, p + i);
      var last := if i == 0 then Missing else GetPageTable(k.mem, d, p + i - 1);
      |ExistingTables(k.mem, d, p, i + 1)| == |ExistingTables(k.mem, d, p, i)| + Bit(table != last && table != Missing)
  {
    hide Valid, GetPageTable;
    ExistingStep(k.mem, d, p, i + 1);
    GetPageTableFinds(k, d, p + i);
    if i > 0 {
      GetPageTableFinds(k, d, p + i - 1);
    }
  }

  /** calculate_allocated_space, which adds to the counters it is given */
  method CalculateAllocatedSpace(k: Kernel, d: nat, p: nat, n: nat, numTables: nat, numPages: nat)
    returns (tables: nat, pages: nat)
    requires UserRange(k, d, p, n)
    ensures tables == numTables + |ExistingTables(k.mem, d, p, n)|
    ensures pages + |UnmappedPages(k.mem, d, p, n)| == numPages + n
  {
    hide Lookup, Valid, GetPageTable, ExistingTables, UnmappedPages;
    tables, pages := numTables, numPages;
    var last := Missing;
    var i := 0;
    assert ExistingTables(k.mem, d, p, 0) == {} by { NothingExists(k.mem, d, p); }
    while i < n
      invariant 0 <= i <= n && last == if i == 0 then Missing else GetPageTable(k.mem, d, p + i - 1)
      invariant tables == numTables + |ExistingTables(k.mem, d, p, i)|
    {
      var table := GetPageTable(k.mem, d, p + i);
      ExistingAhead(k, d, p, i);
      if table != last && table != Missing {
        tables := tables + 1;
      }
      last := table;
      i := i + 1;
    }
    i := 0;
    assert UnmappedPages(k.mem, d, p, 0) == {} by { UnmappedPagesAre(k.mem, d, p, 0); }
    while i < n
      invariant 0 <= i <= n && pages + |UnmappedPages(k.mem, d, p, i)| == numPages + i
    {
      UnmappedStep(k.mem, d, p, i);
      if Lookup(k.mem, d, p + i) != Unmapped {
        pages := pages + 1;
      }
      i := i + 1;
    }
  }

  lemma NothingExists(m: Mem, d: nat, p: nat)
    ensures ExistingTables(m, d, p, 0) == {}
  {
  }

  /** The prediction is exact: allocate_chunk of an unmapped range takes just as many frames as
      calculate_required_frames says, and afterwards calculate_allocated_space sees the whole range and every
      table that covers it. */
  lemma PredictionIsExact(k: Kernel, d: nat, p: nat, n: nat, perms: set<Flag>, strategy: Strategy)
    requires UserRange(k, d, p, n) && RangeUnmapped(k.mem, d, p, n) && n > 0
    ensures var r, predicted := AllocateChunk(k, d, p, n, perms, strategy),
                                |UnmappedPages(k.mem, d, p, n)| + |MissingTables(k.mem, d, p, n)|;
      && (r.Panic? <==> !Enough(k, d, p, n, strategy))
      && (predicted > |k.mem.free| ==> r.Panic?)
      && (r.Done? ==>
            var (k', answer) := r.value;
            && answer == 0 && Valid(k') && |k'.mem.free| == |k.mem.free| - predicted
            && ExistingTables(k'.mem, d, p, n) == Covering(p, n) && UnmappedPages(k'.mem, d, p, n) == {})
  {
    hide Valid, Lookup, HasTable, Total, SameBut;
    AllocPagesKeeps(k, d, p, n, perms, strategy);
    AllUnmapped(k.mem, d, p, n);
    if Enough(k, d, p, n, strategy) {
      var k' := AllocPages(k, d, p, n, perms, strategy).value;
      UnmappedPagesAre(k'.mem, d, p, n);
      forall q: nat | p <= q < p + n ensures q !in UnmappedPages(k'.mem, d, p, n) {
        assert Fresh(k.mem, k'.mem, d, q, perms);
      }
      assert UnmappedPages(k'.mem, d, p, n) == {};
      assert forall x :: x in Covering(p, n) ==> x < TABLES;
    }
  }

  // ---------------------------------------------------------------- cut_paste_pages

  /** One turn of cut_paste_pages: map the source's frame at `b` with the source's permissions, unmap `a`. */
  ghost function MovePage(k: Kernel, d: nat, a: nat, b: nat, strategy: Strategy): Outcome<Kernel>
  {
    if !Ready(k, d, b) || Lookup(k.mem, d, a).Unmapped? then Panic   // outside the domain of the operation
    else match MapFrame(k, d, Lookup(k.mem, d, a).frame, b, Lookup(k.mem, d, a).perms, strategy)
      case Panic => Panic
      case Done(k1) => Done(UnmapFrame(k1, d, a))
  }

  /** The second loop of cut_paste_pages after `n` pages. */
  ghost function MovePages(k: Kernel, d: nat, a: nat, b: nat, n: nat, strategy: Strategy): Outcome<Kernel> {
    if n == 0 then Done(k)
    else match MovePages(k, d, a, b, n - 1, strategy)
      case Panic => Panic
      case Done(k1) => MovePage(k1, d, a + n - 1, b + n - 1, strategy)
  }

  /** cut_paste_pages, with its return value */
  ghost function CutPastePages(k: Kernel, d: nat, a: nat, b: nat, n: nat, strategy: Strategy): Outcome<(Kernel, int)> {
    if !RangeUnmapped(k.mem, d, b, n) then Done((k, -1))
    else match MovePages(k, d, a, b, n, strategy)
      case Panic => Panic
      case Done(k') => Done((k', 0))
  }

  ghost predicate RangeMapped(m: Mem, d: nat, p: nat, n: nat) {
    forall q: nat :: p <= q < p + n ==> Lookup(m, d, q).Mapped?
  }

  /** The check at the start lets only disjoint ranges through. */
  lemma CheckMeansDisjoint(m: Mem, d: nat, a: nat, b: nat, n: nat)
    requires RangeMapped(m, d, a, n) && RangeUnmapped(m, d, b, n)
    ensures n == 0 || a + n <= b || b + n <= a
  {
    var both := Lookup(m, d, if a <= b then b else a);
  }

  ghost predicate RoomForTables(k: Kernel, d: nat, b: nat, n: nat, strategy: Strategy) {
    var tables := |MissingTables(k.mem, d, b, n)|;
    tables <= |k.mem.free| && H.PAGE * tables <= Total(k.heap.free) && (strategy.UseOther? ==> tables == 0)
  }

  /** The 16-bit counters of the frames shown in the range have room for one more. */
  ghost predicate CountersHaveRoom(m: Mem, d: nat, a: nat, n: nat) {
    forall q: nat :: a <= q < a + n && Lookup(m, d, q).Mapped? ==> References(m, Lookup(m, d, q).frame) < COUNTER - 1
  }

  /** Entries moved page by page, counts of used frames as before, nothing freed, only tables taken. */
  ghost predicate PagesMoved(k: Kernel, k': Kernel, d: nat, a: nat, b: nat, n: nat) {
    var m, m' := k.mem, k'.mem;
    && m'.dirs.Keys == m.dirs.Keys && m'.hand == m.hand && m'.storages == m.storages
    && (forall q: nat :: b <= q < b + n ==> Lookup(m', d, q) == Lookup(m, d, q - b + a))
    && (forall q: nat :: a <= q < a + n ==> Lookup(m', d, q) == Unmapped)
    && (forall e, q: nat :: e in m.dirs && UserPage(q) && !(e == d && (a <= q < a + n || b <= q < b + n)) ==>
          Lookup(m', e, q) == Lookup(m, e, q))
    && (forall g: nat :: References(m, g) > 0 ==> References(m', g) == References(m, g))
    && |MissingTables(m, d, b, n)| <= |m.free| && m'.free == m.free[|MissingTables(m, d, b, n)|..]
    && (forall x: nat :: x < TABLES ==> (HasTable(m', d, x) <==> HasTable(m, d, x) || x in Covering(b, n)))
    && Total(k'.heap.free) == Total(k.heap.free) - H.PAGE * |MissingTables(m, d, b, n)|
  }

  ghost predicate PageMoved(k: Kernel, k': Kernel, d: nat, a: nat, b: nat) {
    var m, m', missing := k.mem, k'.mem, !HasTable(k.mem, d, b / ENTRIES);
    && m'.dirs.Keys == m.dirs.Keys && m'.hand == m.hand && m'.storages == m.storages
    && Lookup(m', d, b) == Lookup(m, d, a) && Lookup(m', d, a) == Unmapped
    && (forall e, q: nat :: e in m.dirs && UserPage(q) && !(e == d && (q == a || q == b)) ==>
          Lookup(m', e, q) == Lookup(m, e, q))
    && (forall g: nat :: References(m, g) > 0 ==> References(m', g) == References(m, g))
    && (missing ==> m.free != []) && m'.free == (if missing then m.free[1..] else m.free)
    && (forall x: nat :: x < TABLES ==> (HasTable(m', d, x) <==> x == b / ENTRIES || HasTable(m, d, x)))
    && Total(k'.heap.free) == Total(k.heap.free) - (if missing then H.PAGE else 0)
  }

  lemma MovePageKeeps(k: Kernel, d: nat, a: nat, b: nat, strategy: Strategy)
    requires Ready(k, d, b) && d !in k.mem.storages && UserPage(a) && Lookup(k.mem, d, a).Mapped?
        && Lookup(k.mem, d, b) == Unmapped
    requires References(k.mem, Lookup(k.mem, d, a).frame) < COUNTER - 1
    ensures var r := MovePage(k, d, a, b, strategy);
      && (r.Panic? <==> !HasTable(k.mem, d, b / ENTRIES) && NoRoom(k, strategy))
      && (r.Done? ==> Ready(r.value, d, b) && PageMoved(k, r.value, d, a, b))
  {
    hide Valid, Lookup, HasTable, Total, MapFrame, UnmapFrame, References;
    var e := Lookup(k.mem, d, a);
    LookupCounts(k, d, a, b);
    MapFrameKeeps(k, d, e.frame, b, e.perms, strategy);
    if MapFrame(k, d, e.frame, b, e.perms, strategy).Done? {
      var k1 := MapFrame(k, d, e.frame, b, e.perms, strategy).value;
      ReadyValid(k1, d, b);
      IsReady(k1, d, a);
      UnmapFrameKeeps(k1, d, a);
      var k2 := UnmapFrame(k1, d, a);
      ReadyValid(k2, d, a);
      IsReady(k2, d, b);
      SameDirs(k1.mem, k2.mem);
    }
  }

  /** What a page shows is in use. */
  lemma LookupCounts(k: Kernel, d: nat, a: nat, b: nat)
    requires Ready(k, d, b) && d !in k.mem.storages && UserPage(a) && Lookup(k.mem, d, a).Mapped?
    ensures References(k.mem, Lookup(k.mem, d, a).frame) > 0
  {
    ReadyValid(k, d, b);
    IsReady(k, d, a);
    CountsAt(k, d, a);
    hide HeapOk, Linked, Counted, GetPageTable;
    MappedHasReference(k.mem, EntrySlot(k.mem, d, a).value, Lookup(k.mem, d, a).frame);
  }

  /** The move panics only for want of tables; otherwise the destination shows exactly what the source showed,
      every moved frame's count is what it was, and no frame was freed on the way. */
  lemma {:induction false} MovePagesKeeps(k: Kernel, d: nat, a: nat, b: nat, n: nat, strategy: Strategy)
    requires UserRange(k, d, a, n) && UserRange(k, d, b, n)
    requires RangeMapped(k.mem, d, a, n) && RangeUnmapped(k.mem, d, b, n) && CountersHaveRoom(k.mem, d, a, n)
    ensures var r := MovePages(k, d, a, b, n, strategy);
      && (r.Done? <==> RoomForTables(k, d, b, n, strategy))
      && (r.Done? ==> Valid(r.value) && PagesMoved(k, r.value, d, a, b, n))
  {
    hide Valid, Lookup, HasTable, Total, References, PagesMoved, CountersHaveRoom;
    if n == 0 {
      NothingMoved(k, d, a, b);
    } else {
      assert CountersHaveRoom(k.mem, d, a, n - 1) by { FewerCounters(k.mem, d, a, n); }
      MovePagesKeeps(k, d, a, b, n - 1, strategy);
      MissingStep(k.mem, d, b, n);
      if MovePages(k, d, a, b, n - 1, strategy).Done? {
        OneMoreMoved(k, MovePages(k, d, a, b, n - 1, strategy).value, d, a, b, n, strategy);
      }
    }
  }

  lemma {:induction false} MovePanicStays(k: Kernel, d: nat, a: nat, b: nat, i: nat, n: nat, strategy: Strategy)
    requires i <= n && MovePages(k, d, a, b, i, strategy).Panic?
    ensures MovePages(k, d, a, b, n, strategy).Panic?
  {
    hide Valid, MovePage;
    if i < n {
      MovePanicStays(k, d, a, b, i, n - 1, strategy);
    }
  }

  lemma NothingMoved(k: Kernel, d: nat, a: nat, b: nat)
    ensures MissingTables(k.mem, d, b, 0) == {}
    ensures PagesMoved(k, k, d, a, b, 0)
  {
    hide Lookup, HasTable, Total, References;
    assert MissingTables(k.mem, d, b, 0) == {};
    assert k.mem.free[0..] == k.mem.free;
  }

  lemma FewerCounters(m: Mem, d: nat, a: nat, n: nat)
    requires n > 0 && CountersHaveRoom(m, d, a, n)
    ensures CountersHaveRoom(m, d, a, n - 1)
  {
    hide Lookup, References;
  }

  lemma MovedRoom(k: Kernel, k1: Kernel, d: nat, a: nat, b: nat, n: nat)
    requires PagesMoved(k, k1, d, a, b, n) && b + n < USER_END
    ensures k1.mem.dirs.Keys == k.mem.dirs.Keys && k1.mem.storages == k.mem.storages
    ensures |k1.mem.free| == |k.mem.free| - |MissingTables(k.mem, d, b, n)|
    ensures HasTable(k1.mem, d, (b + n) / ENTRIES) <==>
      HasTable(k.mem, d, (b + n) / ENTRIES) || (b + n) / ENTRIES in Covering(b, n)
    ensures Total(k1.heap.free) == Total(k.heap.free) - H.PAGE * |MissingTables(k.mem, d, b, n)|
  {
    hide Lookup, References, HasTable, Total, MissingTables;
  }

  /** The pages not yet moved read as before. */
  lemma StillToMove(k: Kernel, k1: Kernel, d: nat, a: nat, b: nat, i: nat, n: nat)
    requires PagesMoved(k, k1, d, a, b, i) && i < n && (a + n <= b || b + n <= a) && d in k.mem.dirs
    requires a + n <= USER_END && b + n <= USER_END
    requires Lookup(k.mem, d, a + i).Mapped? && References(k.mem, Lookup(k.mem, d, a + i).frame) > 0
    ensures Lookup(k1.mem, d, a + i) == Lookup(k.mem, d, a + i) && Lookup(k1.mem, d, b + i) == Lookup(k.mem, d, b + i)
    ensures var f := Lookup(k.mem, d, a + i).frame; References(k1.mem, f) == References(k.mem, f)
  {
    hide Lookup, References, HasTable, Total;
  }

  lemma OneMoreMoved(k: Kernel, k1: Kernel, d: nat, a: nat, b: nat, n: nat, strategy: Strategy)
    requires UserRange(k, d, a, n) && UserRange(k, d, b, n) && n > 0
    requires RangeMapped(k.mem, d, a, n) && RangeUnmapped(k.mem, d, b, n) && CountersHaveRoom(k.mem, d, a, n)
    requires Valid(k1) && PagesMoved(k, k1, d, a, b, n - 1) && RoomForTables(k, d, b, n - 1, strategy)
    ensures Ready(k1, d, b + n - 1) && Lookup(k1.mem, d, a + n - 1).Mapped?
    ensures var r := MovePage(k1, d, a + n - 1, b + n - 1, strategy);
      && (r.Done? <==> RoomForTables(k, d, b, n, strategy))
      && (r.Done? ==> Valid(r.value) && PagesMoved(k, r.value, d, a, b, n))
  {
    hide Valid, Lookup, HasTable, Total, MovePage, Ready, References, PageMoved, PagesMoved, MissingTables;
    CheckMeansDisjoint(k.mem, d, a, b, n);
    MissingStep(k.mem, d, b, n);
    IsReady(k, d, b + n - 1);
    LookupCounts(k, d, a + n - 1, b + n - 1);
    StillToMove(k, k1, d, a, b, n - 1, n);
    MovedRoom(k, k1, d, a, b, n - 1);
    IsReady(k1, d, b + n - 1);
    HeapRoom(k1);
    MovePageKeeps(k1, d, a + n - 1, b + n - 1, strategy);
    var r := MovePage(k1, d, a + n - 1, b + n - 1, strategy);
    if r.Done? {
      ReadyValid(r.value, d, b + n - 1);
      MovesAdd(k, k1, r.value, d, a, b, n);
    }
  }

  lemma MovesAdd(k: Kernel, k1: Kernel, k': Kernel, d: nat, a: nat, b: nat, n: nat)
    requires n > 0 && a + n <= USER_END && b + n <= USER_END && (a + n <= b || b + n <= a) && d in k.mem.dirs
    requires PagesMoved(k, k1, d, a, b, n - 1) && PageMoved(k1, k', d, a + n - 1, b + n - 1)
    requires Lookup(k1.mem, d, a + n - 1) == Lookup(k.mem, d, a + n - 1)
    ensures PagesMoved(k, k', d, a, b, n)
  {
    hide Lookup, HasTable, Total, References, MissingTables;
    MissingStep(k.mem, d, b, n);
    MovesSeen(k.mem, k1.mem, k'.mem, d, a, b, n);
  }

  lemma MovesSeen(m: Mem, m1: Mem, m': Mem, d: nat, a: nat, b: nat, n: nat)
    requires n > 0 && a + n <= USER_END && b + n <= USER_END && (a + n <= b || b + n <= a) && d in m.dirs
    requires m1.dirs.Keys == m.dirs.Keys
    requires forall q: nat :: b <= q < b + n - 1 ==> Lookup(m1, d, q) == Lookup(m, d, q - b + a)
    requires forall q: nat :: a <= q < a + n - 1 ==> Lookup(m1, d, q) == Unmapped
    requires Lookup(m', d, b + n - 1) == Lookup(m1, d, a + n - 1) == Lookup(m, d, a + n - 1)
        && Lookup(m', d, a + n - 1) == Unmapped
    requires forall e, q: nat :: e in m1.dirs && UserPage(q) && !(e == d && (q == a + n - 1 || q == b + n - 1)) ==>
               Lookup(m', e, q) == Lookup(m1, e, q)
    ensures forall q: nat :: b <= q < b + n ==> Lookup(m', d, q) == Lookup(m, d, q - b + a)
    ensures forall q: nat :: a <= q < a + n ==> Lookup(m', d, q) == Unmapped
  {
    hide Lookup;
  }

  /** cut_paste_pages of a mapped source: on -1 nothing changed; otherwise the ranges were disjoint, and the
      destination shows what the source showed, frame for frame and with the same permissions and counts. */
  lemma CutPasteMoves(k: Kernel, d: nat, a: nat, b: nat, n: nat, strategy: Strategy)
    requires UserRange(k, d, a, n) && UserRange(k, d, b, n)
    requires RangeMapped(k.mem, d, a, n) && CountersHaveRoom(k.mem, d, a, n)
    ensures var r := CutPastePages(k, d, a, b, n, strategy);
      if exists q: nat :: b <= q < b + n && Lookup(k.mem, d, q).Mapped? then r == Done((k, -1))
      else
        && (n == 0 || a + n <= b || b + n <= a)
        && (r.Panic? <==> !RoomForTables(k, d, b, n, strategy))
        && (r.Done? ==> r.value.1 == 0 && Valid(r.value.0) && PagesMoved(k, r.value.0, d, a, b, n))
  {
    hide Valid, Lookup, HasTable, Total, References, PagesMoved, RoomForTables;
    if RangeUnmapped(k.mem, d, b, n) {
      CheckMeansDisjoint(k.mem, d, a, b, n);
      MovePagesKeeps(k, d, a, b, n, strategy);
    }
  }

  // ---------------------------------------------------------------- share_chunk

  /** One turn of share_chunk: map the source's frame at `b` with the given permissions. */
  ghost function SharePage(k: Kernel, d: nat, a: nat, b: nat, perms: set<Flag>, strategy: Strategy): Outcome<Kernel> {
    if !Ready(k, d, b) || Lookup(k.mem, d, a).Unmapped? then Panic   // outside the domain of the operation
    else MapFrame(k, d, Lookup(k.mem, d, a).frame, b, perms, strategy)
  }

  /** The second loop of share_chunk after `n` pages. */
  ghost function SharePages(k: Kernel, d: nat, a: nat, b: nat, n: nat, perms: set<Flag>,
                            strategy: Strategy): Outcome<Kernel>
  {
    if n == 0 then Done(k)
    else match SharePages(k, d, a, b, n - 1, perms, strategy)
      case Panic => Panic
      case Done(k1) => SharePage(k1, d, a + n - 1, b + n - 1, perms, strategy)
  }

  /** share_chunk, with its return value */
  ghost function ShareChunk(k: Kernel, d: nat, a: nat, b: nat, n: nat, perms: set<Flag>,
                            strategy: Strategy): Outcome<(Kernel, int)>
  {
    if !RangeUnmapped(k.mem, d, b, n) then Done((k, -1))
    else match SharePages(k, d, a, b, n, perms, strategy)
      case Panic => Panic
      case Done(k') => Done((k', 0))
  }

  /** How many pages of the range show frame `g`. */
  ghost function Showing(m: Mem, d: nat, a: nat, n: nat, g: nat): nat {
    if n == 0 then 0 else Showing(m, d, a, n - 1, g) + Bit(On(Lookup(m, d, a + n - 1), g))
  }

  /** Each frame's 16-bit counter has room for the references it gains. */
  ghost predicate CountersTake(m: Mem, d: nat, a: nat, n: nat) {
    forall g: nat :: Showing(m, d, a, n, g) > 0 ==> References(m, g) + Showing(m, d, a, n, g) < COUNTER
  }

  /** Page `q` now shows the frame that its counterpart in the range from `a` showed. */
  predicate ShowsSame(m: Mem, m': Mem, d: nat, a: nat, b: nat, q: nat, perms: set<Flag>) {
    b <= q && var e := Lookup(m, d, q - b + a); e.Mapped? && Lookup(m', d, q) == Mapped(e.frame, perms)
  }

  /** Both ranges show the same frames, each of which gained exactly the new pages that show it. */
  ghost predicate PagesShared(k: Kernel, k': Kernel, d: nat, a: nat, b: nat, n: nat, perms: set<Flag>) {
    var m, m' := k.mem, k'.mem;
    && SameBut(m, m', d, b, n) && m'.hand == m.hand
    && (forall q: nat :: b <= q < b + n ==> ShowsSame(m, m', d, a, b, q, perms))
    && (forall g: nat :: References(m, g) > 0 ==> References(m', g) == References(m, g) + Showing(m, d, a, n, g))
    && |MissingTables(m, d, b, n)| <= |m.free| && m'.free == m.free[|MissingTables(m, d, b, n)|..]
    && (forall x: nat :: x < TABLES ==> (HasTable(m', d, x) <==> HasTable(m, d, x) || x in Covering(b, n)))
    && Total(k'.heap.free) == Total(k.heap.free) - H.PAGE * |MissingTables(m, d, b, n)|
  }

  lemma {:induction false} SharePagesKeeps(k: Kernel, d: nat, a: nat, b: nat, n: nat, perms: set<Flag>,
                                           strategy: Strategy)
    requires UserRange(k, d, a, n) && UserRange(k, d, b, n)
    requires RangeMapped(k.mem, d, a, n) && RangeUnmapped(k.mem, d, b, n) && CountersTake(k.mem, d, a, n)
    ensures var r := SharePages(k, d, a, b, n, perms, strategy);
      && (r.Done? <==> RoomForTables(k, d, b, n, strategy))
      && (r.Done? ==> Valid(r.value) && PagesShared(k, r.value, d, a, b, n, perms))
  {
    hide Valid, Lookup, HasTable, Total, References;
    if n == 0 {
      assert MissingTables(k.mem, d, b, 0) == {};
      assert k.mem.free[0..] == k.mem.free;
      SameAsBefore(k, d, b);
      assert SameBut(k.mem, k.mem, d, b, 0);
    } else {
      FewerShown(k.mem, d, a, n);
      SharePagesKeeps(k, d, a, b, n - 1, perms, strategy);
      MissingStep(k.mem, d, b, n);
      if SharePages(k, d, a, b, n - 1, perms, strategy).Done? {
        OneMoreShared(k, SharePages(k, d, a, b, n - 1, perms, strategy).value, d, a, b, n, perms, strategy);
      }
    }
  }

  lemma {:induction false} SharePanicStays(k: Kernel, d: nat, a: nat, b: nat, i: nat, n: nat, perms: set<Flag>,
                                           strategy: Strategy)
    requires i <= n && SharePages(k, d, a, b, i, perms, strategy).Panic?
    ensures SharePages(k, d, a, b, n, perms, strategy).Panic?
  {
    hide Valid, SharePage;
    if i < n {
      SharePanicStays(k, d, a, b, i, n - 1, perms, strategy);
    }
  }

  lemma FewerShown(m: Mem, d: nat, a: nat, n: nat)
    requires n > 0 && CountersTake(m, d, a, n)
    ensures CountersTake(m, d, a, n - 1)
    ensures Lookup(m, d, a + n - 1).Mapped? ==>
      var g := Lookup(m, d, a + n - 1).frame; References(m, g) + Showing(m, d, a, n - 1, g) < COUNTER - 1
  {
    hide Lookup, References;
    forall g: nat | Showing(m, d, a, n - 1, g) > 0 ensures References(m, g) + Showing(m, d, a, n - 1, g) < COUNTER {
      assert Showing(m, d, a, n, g) > 0;
    }
    if Lookup(m, d, a + n - 1).Mapped? {
      assert Showing(m, d, a, n, Lookup(m, d, a + n - 1).frame) > 0;
    }
  }

  lemma SharedRoom(k: Kernel, k1: Kernel, d: nat, a: nat, b: nat, n: nat, perms: set<Flag>)
    requires PagesShared(k, k1, d, a, b, n, perms) && b + n < USER_END && d in k.mem.dirs
    ensures k1.mem.storages == k.mem.storages && Lookup(k1.mem, d, b + n) == Lookup(k.mem, d, b + n)
    ensures |k1.mem.free| == |k.mem.free| - |MissingTables(k.mem, d, b, n)|
    ensures HasTable(k1.mem, d, (b + n) / ENTRIES) <==>
      HasTable(k.mem, d, (b + n) / ENTRIES) || (b + n) / ENTRIES in Covering(b, n)
    ensures Total(k1.heap.free) == Total(k.heap.free) - H.PAGE * |MissingTables(k.mem, d, b, n)|
  {
    hide Lookup, References, HasTable, Total, MissingTables;
  }

  lemma StillToShare(k: Kernel, k1: Kernel, d: nat, a: nat, b: nat, i: nat, n: nat, perms: set<Flag>)
    requires PagesShared(k, k1, d, a, b, i, perms) && i < n && (a + n <= b || b + n <= a) && d in k.mem.dirs
    requires a + n <= USER_END && Lookup(k.mem, d, a + i).Mapped?
    requires References(k.mem, Lookup(k.mem, d, a + i).frame) > 0
    ensures k1.mem.dirs.Keys == k.mem.dirs.Keys && k1.mem.storages == k.mem.storages
        && Lookup(k1.mem, d, a + i) == Lookup(k.mem, d, a + i)
    ensures var f := Lookup(k.mem, d, a + i).frame;
      References(k1.mem, f) == References(k.mem, f) + Showing(k.mem, d, a, i, f)
  {
    hide Lookup, References, HasTable, Total, Showing;
  }

  lemma OneMoreShared(k: Kernel, k1: Kernel, d: nat, a: nat, b: nat, n: nat, perms: set<Flag>, strategy: Strategy)
    requires UserRange(k, d, a, n) && UserRange(k, d, b, n) && n > 0
    requires RangeMapped(k.mem, d, a, n) && RangeUnmapped(k.mem, d, b, n) && CountersTake(k.mem, d, a, n)
    requires Valid(k1) && PagesShared(k, k1, d, a, b, n - 1, perms) && RoomForTables(k, d, b, n - 1, strategy)
    ensures var r := SharePage(k1, d, a + n - 1, b + n - 1, perms, strategy);
      && (r.Done? <==> RoomForTables(k, d, b, n, strategy))
      && (r.Done? ==> Valid(r.value) && PagesShared(k, r.value, d, a, b, n, perms))
  {
    hide Valid, Lookup, HasTable, Total, MapFrame, Ready, References, FrameMapped, PagesShared, MissingTables;
    var p, q := a + n - 1, b + n - 1;
    CheckMeansDisjoint(k.mem, d, a, b, n);
    MissingStep(k.mem, d, b, n);
    IsReady(k, d, q);
    LookupCounts(k, d, p, q);
    StillToShare(k, k1, d, a, b, n - 1, n, perms);
    SharedRoom(k, k1, d, a, b, n - 1, perms);
    IsReady(k1, d, q);
    HeapRoom(k1);
    FewerShown(k.mem, d, a, n);
    var e := Lookup(k.mem, d, p);
    MapFrameKeeps(k1, d, e.frame, q, perms, strategy);
    var r := MapFrame(k1, d, e.frame, q, perms, strategy);
    if r.Done? {
      ReadyValid(r.value, d, q);
      SharesAdd(k, k1, r.value, d, a, b, n, perms);
    }
  }

  lemma SharesAdd(k: Kernel, k1: Kernel, k': Kernel, d: nat, a: nat, b: nat, n: nat, perms: set<Flag>)
    requires n > 0 && b + n <= USER_END && d in k.mem.dirs && Lookup(k.mem, d, a + n - 1).Mapped?
    requires References(k1.mem, Lookup(k.mem, d, a + n - 1).frame) > 0
    requires PagesShared(k, k1, d, a, b, n - 1, perms)
    requires FrameMapped(k1, k', d, Lookup(k.mem, d, a + n - 1).frame, b + n - 1, perms)
    ensures PagesShared(k, k', d, a, b, n, perms)
  {
    hide Lookup, HasTable, Total, References;
    MissingStep(k.mem, d, b, n);
    var m, m1, m', f := k.mem, k1.mem, k'.mem, Lookup(k.mem, d, a + n - 1).frame;
    assert SameBut(m, m', d, b, n);
    forall g: nat | References(m, g) > 0 ensures References(m', g) == References(m, g) + Showing(m, d, a, n, g) {
      assert References(m1, g) == References(m, g) + Showing(m, d, a, n - 1, g);
      assert On(Lookup(m, d, a + n - 1), g) <==> g == f;
    }
    forall q: nat | b <= q < b + n ensures ShowsSame(m, m', d, a, b, q, perms) {
      if q < b + n - 1 {
        assert ShowsSame(m, m1, d, a, b, q, perms);
        assert Lookup(m', d, q) == Lookup(m1, d, q);
      }
    }
  }

  /** share_chunk of a mapped source: on -1 nothing changed; otherwise both ranges show the same frames. */
  lemma ShareChunkAliases(k: Kernel, d: nat, a: nat, b: nat, n: nat, perms: set<Flag>, strategy: Strategy)
    requires UserRange(k, d, a, n) && UserRange(k, d, b, n)
    requires RangeMapped(k.mem, d, a, n) && CountersTake(k.mem, d, a, n)
    ensures var r := ShareChunk(k, d, a, b, n, perms, strategy);
      if exists q: nat :: b <= q < b + n && Lookup(k.mem, d, q).Mapped? then r == Done((k, -1))
      else
        && (r.Panic? <==> !RoomForTables(k, d, b, n, strategy))
        && (r.Done? ==> r.value.1 == 0 && Valid(r.value.0) && PagesShared(k, r.value.0, d, a, b, n, perms))
  {
    hide Valid, Lookup, HasTable, Total, References, PagesShared, RoomForTables;
    if RangeUnmapped(k.mem, d, b, n) {
      SharePagesKeeps(k, d, a, b, n, perms, strategy);
    }
  }
}
