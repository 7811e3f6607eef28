/**
 The arithmetic of the block allocator (lib/dynamic_allocator.c), on sequences of blocks: which hole
 first fit and best fit choose, how a hole is cut, how a block is merged back.  The theorems relate
 the sorted, coalesced list to the plain set of free addresses it stands for.
 */
module Blocks {

  datatype Option<+T> = None | Some(value: T)

  datatype Block = Block(sva: nat, size: nat) {
    function End(): nat { sva + size }
    predicate Has(a: int) { sva <= a < End() }
  }

  /** Non-empty blocks in address order, none overlapping. */
  ghost predicate Ordered(bs: seq<Block>) {
    && (forall i :: 0 <= i < |bs| ==> bs[i].size > 0)
    && (forall i, j :: 0 <= i < j < |bs| ==> bs[i].End() <= bs[j].sva)
  }

  /** Ordered, and no two blocks touch: the shape of a free list. */
  ghost predicate Coalesced(bs: seq<Block>) {
    && (forall i :: 0 <= i < |bs| ==> bs[i].size > 0)
    && (forall i, j :: 0 <= i < j < |bs| ==> bs[i].End() < bs[j].sva)
  }

  /** The bitmap a list of blocks stands for: address `a` is set iff some block has it. */
  ghost predicate Covers(bs: seq<Block>, a: int) {
    exists i :: 0 <= i < |bs| && bs[i].Has(a)
  }

  ghost function Space(bs: seq<Block>): iset<int> {
    iset a | Covers(bs, a)
  }

  ghost function Extent(b: Block): iset<int> {
    iset a | b.Has(a)
  }

  /** `n` consecutive set bits starting at `a`. */
  ghost predicate Run(bs: seq<Block>, a: int, n: nat) {
    forall x :: a <= x < a + n ==> Covers(bs, x)
  }

  /** A run that cannot be extended on either side. */
  ghost predicate MaximalRun(bs: seq<Block>, a: int, n: nat) {
    n > 0 && Run(bs, a, n) && !Covers(bs, a - 1) && !Covers(bs, a + n)
  }

  function Total(bs: seq<Block>): nat {
    if bs == [] then 0 else Total(bs[..|bs| - 1]) + bs[|bs| - 1].size
  }

  /** Replace the blocks at places `q` up to `r` by `mid`. */
  function Splice(bs: seq<Block>, q: nat, r: nat, mid: seq<Block>): (s: seq<Block>)
    requires q <= r <= |bs|
    ensures |s| == |bs| - (r - q) + |mid|
  {
    bs[..q] + mid + bs[r..]
  }

  // ---------------------------------------------------------------- choosing a hole

  /** The scan of alloc_block_FF from place `i` on: the first hole that is large enough. */
  function FitFrom(bs: seq<Block>, n: nat, i: nat): (k: nat)
    requires i <= |bs|
    ensures i <= k <= |bs|
    ensures k < |bs| ==> n <= bs[k].size
    ensures forall j :: i <= j < k ==> bs[j].size < n
    decreases |bs| - i
  {
    if i == |bs| || n <= bs[i].size then i else FitFrom(bs, n, i + 1)
  }

  function FirstFit(bs: seq<Block>, n: nat): (k: nat)
    ensures k <= |bs|
    ensures k < |bs| ==> n <= bs[k].size
  {
    FitFrom(bs, n, 0)
  }

  /** Hole `k` is the best fit: nothing large enough is smaller, and no earlier hole is as small. */
  ghost predicate IsBestFit(bs: seq<Block>, n: nat, k: nat) {
    && k < |bs|
    && n <= bs[k].size
    && (forall j :: 0 <= j < |bs| && n <= bs[j].size ==> bs[k].size <= bs[j].size)
    && (forall j :: 0 <= j < k && n <= bs[j].size ==> bs[k].size < bs[j].size)
  }

  const MAX := 0x1_0000_0000   // addresses and sizes are uint32

  ghost predicate Fits(bs: seq<Block>, n: nat) {
    exists i :: 0 <= i < |bs| && n <= bs[i].size
  }

  /** Best fit needs a descriptor: no hole fits exactly, and it goes on to split one. */
  ghost predicate Wants(bs: seq<Block>, n: nat, junk: Block) {
    && (forall i :: 0 <= i < |bs| ==> bs[i].size != n)
    && (Fits(bs, n) || junk in bs)
  }

  function IndexFrom(bs: seq<Block>, b: Block, i: nat): (k: nat)
    requires i <= |bs|
    ensures i <= k <= |bs|
    ensures k < |bs| ==> bs[k] == b
    ensures forall j :: i <= j < k ==> bs[j] != b
    decreases |bs| - i
  {
    if i == |bs| || bs[i] == b then i else IndexFrom(bs, b, i + 1)
  }

  /** A hole that is too small, split as if it were large enough: both fields wrap round. */
  function Underflowed(h: Block, n: nat): Block {
    Block((h.sva + n) % MAX, (h.size - n) % MAX)
  }

  /** What alloc_block_BF leaves when no hole fits and its locals happen to hold `junk`. */
  function BestFitMiss(bs: seq<Block>, n: nat, junk: Block): seq<Block> {
    var k := IndexFrom(bs, junk, 0);
    if k == |bs| then bs else Splice(bs, k, k + 1, [Underflowed(junk, n)])
  }

  /** What is left of hole `h` when `n` bytes are cut from its front: an exact fit leaves nothing. */
  function Rest(h: Block, n: nat): seq<Block>
    requires n <= h.size
  {
    if h.size == n then [] else [Block(h.sva + n, h.size - n)]
  }

  function Carve(bs: seq<Block>, k: nat, n: nat): seq<Block>
    requires k < |bs| && n <= bs[k].size
  {
    Splice(bs, k, k + 1, Rest(bs[k], n))
  }

  // ---------------------------------------------------------------- putting a block back

  /** How many blocks of a list start at or below `a`. */
  function PlaceFrom(bs: seq<Block>, a: nat, i: nat): (k: nat)
    requires i <= |bs|
    ensures i <= k <= |bs|
    ensures k < |bs| ==> a < bs[k].sva
    ensures forall j :: i <= j < k ==> bs[j].sva <= a
    decreases |bs| - i
  {
    if i == |bs| || a < bs[i].sva then i else PlaceFrom(bs, a, i + 1)
  }

  function Place(bs: seq<Block>, a: nat): (k: nat)
    ensures k <= |bs|
    ensures k < |bs| ==> a < bs[k].sva
    ensures forall j :: 0 <= j < k ==> bs[j].sva <= a
  {
    PlaceFrom(bs, a, 0)
  }

  function InsertSorted(bs: seq<Block>, b: Block): seq<Block> {
    var p := Place(bs, b.sva);
    Splice(bs, p, p, [b])
  }

  function TouchesLeft(bs: seq<Block>, b: Block): (q: bool)
    ensures q ==> Place(bs, b.sva) > 0
  {
    var p := Place(bs, b.sva);
    p > 0 && bs[p - 1].End() == b.sva
  }

  function TouchesRight(bs: seq<Block>, b: Block): (q: bool)
    ensures q ==> Place(bs, b.sva) < |bs|
  {
    var p := Place(bs, b.sva);
    p < |bs| && b.End() == bs[p].sva
  }

  /** The places of the neighbours a returning block absorbs, and the block they become. */
  function MergeSpan(bs: seq<Block>, b: Block): (m: (nat, nat, Block))
    ensures m.0 <= Place(bs, b.sva) <= m.1 <= |bs|
  {
    var p := Place(bs, b.sva);
    var (q, lo) := if TouchesLeft(bs, b) then (p - 1, bs[p - 1].sva) else (p, b.sva);
    var (r, more) := if TouchesRight(bs, b) then (p + 1, bs[p].size) else (p, 0);
    (q, r, Block(lo, b.End() - lo + more))
  }

  /** Put a block back into a free list: the neighbours it touches, if any, are absorbed. */
  function InsertMerge(bs: seq<Block>, b: Block): seq<Block> {
    var (q, r, m) := MergeSpan(bs, b);
    Splice(bs, q, r, [m])
  }

  // ---------------------------------------------------------------- splices

  lemma CoversConcat(x: seq<Block>, y: seq<Block>, a: int)
    ensures Covers(x + y, a) <==> Covers(x, a) || Covers(y, a)
  {
    var s := x + y;
    if Covers(s, a) {
      var i :| 0 <= i < |s| && s[i].Has(a);
      if i < |x| { assert x[i].Has(a); } else { assert y[i - |x|].Has(a); }
    }
    if Covers(x, a) { var i :| 0 <= i < |x| && x[i].Has(a); assert s[i].Has(a); }
    if Covers(y, a) { var i :| 0 <= i < |y| && y[i].Has(a); assert s[|x| + i].Has(a); }
  }

  lemma SpliceCovers(bs: seq<Block>, q: nat, r: nat, mid: seq<Block>, a: int)
    requires q <= r <= |bs|
    ensures Covers(Splice(bs, q, r, mid), a) <==> Covers(bs[..q], a) || Covers(mid, a) || Covers(bs[r..], a)
    ensures Covers(bs, a) <==> Covers(bs[..q], a) || Covers(bs[q..r], a) || Covers(bs[r..], a)
  {
    hide Covers;
    CoversConcat(bs[..q] + mid, bs[r..], a);
    CoversConcat(bs[..q], mid, a);
    CoversConcat(bs[..q] + bs[q..r], bs[r..], a);
    CoversConcat(bs[..q], bs[q..r], a);
    assert bs[..q] + bs[q..r] + bs[r..] == bs;
  }

  lemma {:induction false} TotalConcat(a: seq<Block>, b: seq<Block>)
    ensures Total(a + b) == Total(a) + Total(b)
  {
    if b == [] {
      assert a + b == a;
    } else {
      TotalConcat(a, b[..|b| - 1]);
      assert (a + b)[..|a + b| - 1] == a + b[..|b| - 1];
    }
  }

  lemma SpliceTotal(bs: seq<Block>, q: nat, r: nat, mid: seq<Block>)
    requires q <= r <= |bs|
    ensures Total(Splice(bs, q, r, mid)) == Total(bs) - Total(bs[q..r]) + Total(mid)
  {
    hide Total;
    TotalConcat(bs[..q] + mid, bs[r..]);
    TotalConcat(bs[..q], mid);
    TotalConcat(bs[..q] + bs[q..r], bs[r..]);
    TotalConcat(bs[..q], bs[q..r]);
    assert bs[..q] + bs[q..r] + bs[r..] == bs;
  }

  lemma TotalNone()
    ensures Total([]) == 0
  {
  }

  lemma TotalOne(b: Block)
    ensures Total([b]) == b.size
  {
    assert [b][..0] == [];
  }

  lemma TotalTwo(b: Block, c: Block)
    ensures Total([b, c]) == b.size + c.size
  {
    assert [b, c][..1] == [b];
    TotalOne(b);
  }

  /** It is enough to look at neighbours. */
  lemma {:induction false} NeighboursSuffice(bs: seq<Block>)
    requires forall i :: 0 <= i < |bs| ==> bs[i].size > 0
    requires forall i {:trigger bs[i].End()} :: 0 <= i < |bs| - 1 ==> bs[i].End() < bs[i + 1].sva
    ensures Coalesced(bs)
  {
    if |bs| > 1 {
      var cs := bs[..|bs| - 1];
      assert forall i :: 0 <= i < |cs| ==> cs[i] == bs[i];
      NeighboursSuffice(cs);
      assert bs[|bs| - 2].End() < bs[|bs| - 1].sva;
      forall i, j | 0 <= i < j < |bs| ensures bs[i].End() < bs[j].sva {
        if j < |bs| - 1 { assert cs[i].End() < cs[j].sva; }
        else if i < j - 1 { assert cs[i].End() < cs[j - 1].sva; }
      }
    }
  }

  /** A block that fits strictly between its new neighbours keeps a list coalesced. */
  lemma SpliceShape(bs: seq<Block>, q: nat, r: nat, b: Block)
    requires Coalesced(bs) && q <= r <= |bs| && b.size > 0
    requires q > 0 ==> bs[q - 1].End() < b.sva
    requires r < |bs| ==> b.End() < bs[r].sva
    ensures Coalesced(Splice(bs, q, r, [b]))
  {
    var cs := Splice(bs, q, r, [b]);
    forall i {:trigger cs[i]} | 0 <= i < |cs|
      ensures cs[i].size > 0 && (i + 1 < |cs| ==> cs[i].End() < cs[i + 1].sva)
    {
      SpliceAt(bs, q, r, b, i);
      if i + 1 < |cs| { SpliceAt(bs, q, r, b, i + 1); }
    }
    NeighboursSuffice(cs);
  }

  lemma SpliceAt(bs: seq<Block>, q: nat, r: nat, b: Block, i: nat)
    requires q <= r <= |bs| && i < |bs| - (r - q) + 1
    ensures Splice(bs, q, r, [b])[i] == if i < q then bs[i] else if i == q then b else bs[i - q - 1 + r]
  {
  }

  // ---------------------------------------------------------------- the bitmap of a coalesced list

  lemma OneHolder(bs: seq<Block>, j: nat, k: nat, a: int)
    requires Coalesced(bs) && j < |bs| && k < |bs| && bs[j].Has(a) && j != k
    ensures !bs[k].Has(a)
  {
    assert j < k ==> bs[j].End() < bs[k].sva;
    assert k < j ==> bs[k].End() < bs[j].sva;
  }

  /** In a coalesced list a run of free addresses lies inside a single block. */
  lemma {:induction false} RunInOneBlock(bs: seq<Block>, a: int, n: nat) returns (i: nat)
    requires Coalesced(bs) && n > 0 && Run(bs, a, n)
    ensures i < |bs| && bs[i].sva <= a && a + n <= bs[i].End()
  {
    if n == 1 {
      assert Covers(bs, a);
      i :| 0 <= i < |bs| && bs[i].Has(a);
    } else {
      i := RunInOneBlock(bs, a, n - 1);
      assert Covers(bs, a + n - 1);
      EndIsFree(bs, i);
    }
  }

  /** The address just behind a block of a coalesced list, and the one just before it, are not covered. */
  lemma EndIsFree(bs: seq<Block>, i: nat)
    requires Coalesced(bs) && i < |bs|
    ensures !Covers(bs, bs[i].End()) && !Covers(bs, bs[i].sva - 1)
  {
    forall j | 0 <= j < |bs| ensures !bs[j].Has(bs[i].End()) && !bs[j].Has(bs[i].sva - 1) {
      if j < i { assert bs[j].End() < bs[i].sva; }
      if i < j { assert bs[i].End() < bs[j].sva; }
    }
  }

  lemma BlockIsRun(bs: seq<Block>, i: nat, a: int, n: nat)
    requires i < |bs| && bs[i].sva <= a && a + n <= bs[i].End()
    ensures Run(bs, a, n)
  {
    forall x | a <= x < a + n ensures Covers(bs, x) {
      assert bs[i].Has(x);
    }
  }

  /** First fit on the list is first fit on the bitmap. */
  lemma FirstFitIsLowestRun(bs: seq<Block>, n: nat)
    requires Coalesced(bs) && n > 0
    ensures FirstFit(bs, n) == |bs| <==> !exists a :: Run(bs, a, n)
    ensures var k := FirstFit(bs, n);
      k < |bs| ==> Run(bs, bs[k].sva, n) && forall a :: Run(bs, a, n) ==> bs[k].sva <= a
  {
    var k := FirstFit(bs, n);
    if k < |bs| {
      BlockIsRun(bs, k, bs[k].sva, n);
    }
    forall a | Run(bs, a, n) ensures k < |bs| && bs[k].sva <= a {
      var i := RunInOneBlock(bs, a, n);
      assert bs[i].size >= n;
      assert k <= i;
    }
  }

  /** The blocks of a coalesced list are exactly the maximal runs of its bitmap. */
  lemma BlocksAreMaximalRuns(bs: seq<Block>, a: int, n: nat)
    requires Coalesced(bs)
    ensures MaximalRun(bs, a, n) <==> a >= 0 && Block(a, n) in bs
  {
    if MaximalRun(bs, a, n) {
      var i := RunInOneBlock(bs, a, n);
      assert bs[i].Has(a - 1) <==> bs[i].sva < a;
      assert bs[i].Has(a + n) <==> a + n < bs[i].End();
      assert bs[i] == Block(a, n);
    }
    if a >= 0 && Block(a, n) in bs {
      var i :| 0 <= i < |bs| && bs[i] == Block(a, n);
      BlockIsRun(bs, i, a, n);
      EndIsFree(bs, i);
    }
  }

  /** Best fit on the list: the smallest maximal run that fits, the lowest address among ties. */
  lemma BestFitIsSmallestRun(bs: seq<Block>, n: nat, k: nat)
    requires Coalesced(bs) && n > 0 && IsBestFit(bs, n, k)
    ensures MaximalRun(bs, bs[k].sva, bs[k].size)
    ensures forall a, m :: MaximalRun(bs, a, m) && n <= m ==>
              bs[k].size < m || (bs[k].size == m && bs[k].sva <= a)
  {
    BlocksAreMaximalRuns(bs, bs[k].sva, bs[k].size);
    forall a, m | MaximalRun(bs, a, m) && n <= m
      ensures bs[k].size < m || (bs[k].size == m && bs[k].sva <= a)
    {
      BlocksAreMaximalRuns(bs, a, m);
      var j :| 0 <= j < |bs| && bs[j] == Block(a, m);
      assert j < k || k <= j;
    }
  }

  /** What the loops of alloc_block_BF have found, when no hole fits exactly, is the best fit. */
  lemma BestFitFound(bs: seq<Block>, n: nat, junk: Block, c: Block, k: nat)
    requires Coalesced(bs) && k <= |bs|
    requires forall j :: 0 <= j < |bs| ==> bs[j].size != n
    requires k < |bs| ==> c == bs[k] && n < c.size
    requires k == |bs| ==> c == junk && forall j :: 0 <= j < |bs| ==> bs[j].size <= n
    requires forall j :: 0 <= j < |bs| && n < bs[j].size ==> c.size <= bs[j].size && (j < k ==> c.size < bs[j].size)
    ensures k < |bs| ==> IsBestFit(bs, n, k) && IndexFrom(bs, c, 0) == k && Fits(bs, n)
    ensures c in bs ==> c.size != n && Wants(bs, n, junk)
    ensures k == |bs| ==> c == junk && !Fits(bs, n) && (c in bs ==> c.size < n)
    ensures IndexFrom(bs, c, 0) < |bs| <==> c in bs
  {
    if k < |bs| {
      forall i | 0 <= i < k ensures bs[i] != c {
        assert bs[i].End() < bs[k].sva;
      }
    }
  }

  /** What alloc_block_BF leaves of the free list, whatever its locals hold when no hole fits. */
  ghost predicate BestFitLeaves(bs: seq<Block>, n: nat, junk: Block, after: seq<Block>) {
    if Fits(bs, n) then exists k :: 0 <= k < |bs| && IsBestFit(bs, n, k) && after == Carve(bs, k, n)
    else after == BestFitMiss(bs, n, junk)
  }

  /** The stray split: the first hole that equals the locals gives its front away as if it were large enough, and its
      address and size wrap round; no other hole changes. */
  lemma MissSplits(bs: seq<Block>, n: nat, junk: Block, k: nat)
    requires k < |bs| && bs[k] == junk && (forall j :: 0 <= j < k ==> bs[j] != junk)
    requires junk.size < n < MAX && junk.sva < MAX
    ensures var after := BestFitMiss(bs, n, junk);
      && |after| == |bs| && (forall j :: 0 <= j < |bs| && j != k ==> after[j] == bs[j])
      && after[k].size == junk.size + MAX - n
      && after[k].sva == junk.sva + n - (if junk.sva + n >= MAX then MAX else 0)
  {
    var i := IndexFrom(bs, junk, 0);
    assert i == k;
  }

  /**
   When no hole fits, alloc_block_BF compares the holes with locals it never assigned.  A caller can rely on it to
   free no byte that was in use if and only if some hole fits, or there is no hole at all.
   */
  lemma BestFitNeedsAHole(bs: seq<Block>, n: nat)
    requires Coalesced(bs) && 0 < n < MAX
    requires forall h :: h in bs ==> h.End() <= MAX
    ensures (forall junk, after :: BestFitLeaves(bs, n, junk, after) ==> Space(after) <= Space(bs))
            <==> Fits(bs, n) || bs == []
  {
    hide Coalesced, Space, Carve, BestFitMiss;
    if Fits(bs, n) {
      forall junk, after | BestFitLeaves(bs, n, junk, after) ensures Space(after) <= Space(bs) {
        var k :| 0 <= k < |bs| && IsBestFit(bs, n, k) && after == Carve(bs, k, n);
        CarveClears(bs, k, n);
      }
    } else if bs == [] {
      forall junk, after | BestFitLeaves(bs, n, junk, after) ensures Space(after) <= Space(bs) {
        MissSound(bs, n, junk);
      }
    } else {
      MissSound(bs, n, bs[0]);
      assert BestFitLeaves(bs, n, bs[0], BestFitMiss(bs, n, bs[0]));
    }
  }

  /** When no hole fits, no byte in use becomes free exactly if no hole happens to equal the locals. */
  lemma MissSound(bs: seq<Block>, n: nat, junk: Block)
    requires Coalesced(bs) && !Fits(bs, n) && n < MAX
    requires forall h :: h in bs ==> h.End() <= MAX
    ensures Space(BestFitMiss(bs, n, junk)) <= Space(bs) <==> junk !in bs
  {
    hide Splice, Coalesced, Space;
    if junk in bs {
      var a := CorruptBit(bs, n, junk);
      assert Space(BestFitMiss(bs, n, junk)) <= Space(bs) ==> (a in Space(BestFitMiss(bs, n, junk)) ==> a in Space(bs));
    }
  }

  /** A byte that is suddenly free. */
  lemma CorruptBit(bs: seq<Block>, n: nat, junk: Block) returns (a: int)
    requires Coalesced(bs) && !Fits(bs, n) && n < MAX && junk in bs
    requires forall h :: h in bs ==> h.End() <= MAX
    ensures a in Space(BestFitMiss(bs, n, junk)) && a !in Space(bs)
  {
    var k := IndexFrom(bs, junk, 0);
    var h, u := bs[k], Underflowed(junk, n);
    UnderflowReach(h, n);
    a := if h.sva + n < MAX then u.End() - 1 else h.sva - 1;
    EndIsFree(bs, k);
    assert a !in Space(bs);
    hide Coalesced, Splice, Underflowed;
    SpliceCovers(bs, k, k + 1, [u], a);
    CoversOne(u, a);
  }

  lemma UnderflowReach(h: Block, n: nat)
    requires 0 < h.size < n < MAX && h.End() <= MAX
    ensures var u := Underflowed(h, n);
      if h.sva + n < MAX then u.size > 0 && u.End() - 1 >= MAX else u.Has(h.sva - 1)
  {
    assert (h.size - n) % MAX == h.size - n + MAX;
    if h.sva + n >= MAX {
      assert (h.sva + n) % MAX == h.sva + n - MAX;
    }
  }

  /** Cutting a hole keeps the shape and clears exactly the bits handed out. */
  lemma CarveClears(bs: seq<Block>, k: nat, n: nat)
    requires Coalesced(bs) && n > 0 && k < |bs| && n <= bs[k].size
    ensures Coalesced(Carve(bs, k, n))
    ensures Space(Carve(bs, k, n)) == Space(bs) - Extent(Block(bs[k].sva, n))
    ensures Total(Carve(bs, k, n)) == Total(bs) - n
  {
    CarveShape(bs, k, n);
    CarveTotal(bs, k, n);
    forall a ensures Covers(Carve(bs, k, n), a) <==> Covers(bs, a) && !Block(bs[k].sva, n).Has(a) {
      CarvedBit(bs, k, n, a);
    }
  }

  lemma CarveShape(bs: seq<Block>, k: nat, n: nat)
    requires Coalesced(bs) && n > 0 && k < |bs| && n <= bs[k].size
    ensures Coalesced(Carve(bs, k, n))
  {
    if n < bs[k].size {
      hide Splice;
      assert k > 0 ==> bs[k - 1].End() < bs[k].sva;
      assert k + 1 < |bs| ==> bs[k].End() < bs[k + 1].sva;
      SpliceShape(bs, k, k + 1, Block(bs[k].sva + n, bs[k].size - n));
    }
  }

  lemma CarveTotal(bs: seq<Block>, k: nat, n: nat)
    requires k < |bs| && n <= bs[k].size
    ensures Total(Carve(bs, k, n)) == Total(bs) - n
  {
    hide Splice, Total;
    TotalNone();
    SpliceTotal(bs, k, k + 1, Rest(bs[k], n));
    TotalOne(bs[k]);
    TotalOne(Block(bs[k].sva + n, bs[k].size - n));
    assert bs[k..k + 1] == [bs[k]];
  }

  lemma CarvedBit(bs: seq<Block>, k: nat, n: nat, a: int)
    requires Coalesced(bs) && n > 0 && k < |bs| && n <= bs[k].size
    ensures Covers(Carve(bs, k, n), a) <==> Covers(bs, a) && !Block(bs[k].sva, n).Has(a)
  {
    hide Splice, Covers;
    SpliceCovers(bs, k, k + 1, Rest(bs[k], n), a);
    assert bs[k..k + 1] == [bs[k]];
    CoversOne(bs[k], a);
    CoversOne(Block(bs[k].sva + n, bs[k].size - n), a);
    CoversNone(a);
    if bs[k].Has(a) { SidesApart(bs, k, a); }
  }

  lemma CoversOne(b: Block, a: int)
    ensures Covers([b], a) <==> b.Has(a)
  {
    assert [b][0] == b;
  }

  lemma CoversNone(a: int)
    ensures !Covers([], a)
  {
  }

  lemma SidesApart(bs: seq<Block>, k: nat, a: int)
    requires Coalesced(bs) && k < |bs| && bs[k].Has(a)
    ensures !Covers(bs[..k], a) && !Covers(bs[k + 1..], a)
  {
    var x, y := bs[..k], bs[k + 1..];
    forall j | 0 <= j < |x| ensures !x[j].Has(a) {
      assert x[j] == bs[j];
      OneHolder(bs, k, j, a);
    }
    forall j | 0 <= j < |y| ensures !y[j].Has(a) {
      assert y[j] == bs[k + 1 + j];
      OneHolder(bs, k, k + 1 + j, a);
    }
  }

  ghost predicate Clear(bs: seq<Block>, b: Block) {
    forall i :: 0 <= i < |bs| ==> bs[i].End() <= b.sva || b.End() <= bs[i].sva
  }

  lemma PlaceSplits(bs: seq<Block>, b: Block)
    requires Ordered(bs) && b.size > 0 && Clear(bs, b)
    ensures var p := Place(bs, b.sva);
      && (forall i :: 0 <= i < p ==> bs[i].End() <= b.sva)
      && (forall i :: p <= i < |bs| ==> b.End() <= bs[i].sva)
  {
    var p := Place(bs, b.sva);
    forall i | p <= i < |bs| ensures b.End() <= bs[i].sva {
      if p < i { assert bs[p].End() <= bs[i].sva; }
    }
  }

  /** The place of a block among blocks it does not overlap, as the list code finds it. */
  lemma SortedPlace(bs: seq<Block>, b: Block)
    requires Ordered(bs) && b.size > 0 && Clear(bs, b)
    ensures var p := Place(bs, b.sva);
      && (p == 0 <==> bs == [] || b.sva < bs[0].sva)
      && (p == |bs| <==> bs == [] || bs[|bs| - 1].sva < b.sva)
      && (forall i :: 0 <= i < |bs| ==> (bs[i].sva < b.sva <==> i < p) && bs[i].sva != b.sva)
  {
    PlaceSplits(bs, b);
  }

  lemma InsertSortedAdds(bs: seq<Block>, b: Block)
    requires Ordered(bs) && b.size > 0 && Clear(bs, b)
    ensures Ordered(InsertSorted(bs, b))
    ensures multiset(InsertSorted(bs, b)) == multiset(bs) + multiset{b}
    ensures Total(InsertSorted(bs, b)) == Total(bs) + b.size
  {
    hide Splice, Place, Total;
    PlaceSplits(bs, b);
    var p := Place(bs, b.sva);
    InsertedShape(bs, p, b);
    InsertedElements(bs, p, b);
    assert bs[p..p] == [];
    SpliceTotal(bs, p, p, [b]);
    TotalOne(b);
    TotalNone();
  }

  lemma InsertedElements(bs: seq<Block>, p: nat, b: Block)
    requires p <= |bs|
    ensures multiset(Splice(bs, p, p, [b])) == multiset(bs) + multiset{b}
  {
    assert bs == bs[..p] + bs[p..];
  }

  lemma InsertedShape(bs: seq<Block>, p: nat, b: Block)
    requires Ordered(bs) && b.size > 0 && p <= |bs|
    requires forall i :: 0 <= i < p ==> bs[i].End() <= b.sva
    requires forall i :: p <= i < |bs| ==> b.End() <= bs[i].sva
    ensures Ordered(Splice(bs, p, p, [b]))
  {
    var cs := Splice(bs, p, p, [b]);
    assert forall i :: 0 <= i < p ==> cs[i] == bs[i];
    assert forall i :: p < i < |cs| ==> cs[i] == bs[i - 1];
  }

  /** Putting a block back sets exactly its bits and leaves a coalesced list, whichever way it merges. */
  lemma InsertMergeSets(bs: seq<Block>, b: Block)
    requires Coalesced(bs) && b.size > 0 && Clear(bs, b)
    ensures Coalesced(InsertMerge(bs, b))
    ensures Space(InsertMerge(bs, b)) == Space(bs) + Extent(b)
    ensures Total(InsertMerge(bs, b)) == Total(bs) + b.size
  {
    InsertMergeShape(bs, b);
    MergedTotal(bs, b);
    forall a ensures Covers(InsertMerge(bs, b), a) <==> Covers(bs, a) || b.Has(a) {
      MergedBit(bs, b, a);
    }
  }

  lemma InsertMergeShape(bs: seq<Block>, b: Block)
    requires Coalesced(bs) && b.size > 0 && Clear(bs, b)
    ensures Coalesced(InsertMerge(bs, b))
  {
    hide Splice, Place;
    PlaceSplits(bs, b);
    var (q, r, m) := MergeSpan(bs, b);
    assert 0 < q < |bs| ==> bs[q - 1].End() < bs[q].sva;
    assert 0 < r < |bs| ==> bs[r - 1].End() < bs[r].sva;
    SpliceShape(bs, q, r, m);
  }

  /** The blocks that disappear and the block that returns make up the merged block. */
  lemma Absorbed(bs: seq<Block>, b: Block)
    ensures var (q, r, m) := MergeSpan(bs, b);
      && m.size == Total(bs[q..r]) + b.size
      && forall a :: m.Has(a) <==> Covers(bs[q..r], a) || b.Has(a)
  {
    hide Place, Total, Covers;
    var p := Place(bs, b.sva);
    var (q, r, m) := MergeSpan(bs, b);
    var gone := bs[q..r];
    if TouchesLeft(bs, b) && TouchesRight(bs, b) {
      assert gone == [bs[p - 1], bs[p]] == [bs[p - 1]] + [bs[p]];
      TotalTwo(bs[p - 1], bs[p]);
      forall a ensures Covers(gone, a) <==> bs[p - 1].Has(a) || bs[p].Has(a) {
        CoversConcat([bs[p - 1]], [bs[p]], a);
        CoversOne(bs[p - 1], a);
        CoversOne(bs[p], a);
      }
    } else if TouchesLeft(bs, b) || TouchesRight(bs, b) {
      assert gone == [bs[q]];
      TotalOne(bs[q]);
      forall a ensures Covers(gone, a) <==> bs[q].Has(a) { CoversOne(bs[q], a); }
    } else {
      assert gone == [];
      TotalNone();
      forall a ensures !Covers(gone, a) { CoversNone(a); }
    }
  }

  /** The tests of insert_sorted_with_merge_freeList decide what a returning block touches. */
  lemma MergeCases(bs: seq<Block>, b: Block)
    requires Coalesced(bs) && b.size > 0 && Clear(bs, b)
    ensures var p := Place(bs, b.sva);
      && (p == |bs| <==> bs == [] || bs[|bs| - 1].sva < b.sva)
      && (forall i :: 0 <= i < |bs| ==> (bs[i].sva > b.sva <==> p <= i))
      && (p > 0 ==> (TouchesLeft(bs, b) <==> bs[p - 1].End() == b.sva))
      && (p < |bs| ==> (TouchesRight(bs, b) <==> b.End() == bs[p].sva))
      && (0 < p < |bs| ==> (TouchesLeft(bs, b) && TouchesRight(bs, b) <==>
            bs[p - 1].sva + bs[p - 1].size + b.size == bs[p].sva))
      && InsertMerge(bs, b) ==
           if TouchesLeft(bs, b) && TouchesRight(bs, b) then
             Splice(bs, p - 1, p + 1, [Block(bs[p - 1].sva, bs[p - 1].size + b.size + bs[p].size)])
           else if TouchesLeft(bs, b) then Splice(bs, p - 1, p, [Block(bs[p - 1].sva, bs[p - 1].size + b.size)])
           else if TouchesRight(bs, b) then Splice(bs, p, p + 1, [Block(b.sva, bs[p].size + b.size)])
           else Splice(bs, p, p, [b])
  {
    hide Splice;
    PlaceSplits(bs, b);
  }

  lemma MergedTotal(bs: seq<Block>, b: Block)
    ensures Total(InsertMerge(bs, b)) == Total(bs) + b.size
  {
    hide Place, Total, Splice;
    var (q, r, m) := MergeSpan(bs, b);
    Absorbed(bs, b);
    SpliceTotal(bs, q, r, [m]);
    TotalOne(m);
  }

  lemma MergedBit(bs: seq<Block>, b: Block, a: int)
    ensures Covers(InsertMerge(bs, b), a) <==> Covers(bs, a) || b.Has(a)
  {
    hide Place, Covers, Splice;
    var (q, r, m) := MergeSpan(bs, b);
    Absorbed(bs, b);
    SpliceCovers(bs, q, r, [m], a);
    CoversOne(m, a);
  }

  /** The free list is a function of the set of free addresses: two coalesced lists with one bitmap are equal. */
  lemma {:induction false} CoalescedUnique(xs: seq<Block>, ys: seq<Block>)
    requires Coalesced(xs) && Coalesced(ys) && Space(xs) == Space(ys)
    ensures xs == ys
  {
    assert forall a :: a in Space(xs) <==> Covers(xs, a);
    assert forall a :: a in Space(ys) <==> Covers(ys, a);
    forall a ensures Covers(xs, a) <==> Covers(ys, a) {
      assert a in Space(xs) <==> a in Space(ys);
    }
    if xs == [] {
      if ys != [] { assert ys[0].Has(ys[0].sva); assert Covers(ys, ys[0].sva); }
    } else if ys == [] {
      assert xs[0].Has(xs[0].sva);
      assert Covers(xs, xs[0].sva);
    } else {
      SameHead(xs, ys);
      SameHead(ys, xs);
      assert xs[0] == ys[0] by {
        if xs[0].sva < ys[0].sva || ys[0].sva < xs[0].sva { assert false; }
      }
      TailSpace(xs);
      TailSpace(ys);
      CoalescedUnique(xs[1..], ys[1..]);
      assert xs == [xs[0]] + xs[1..] && ys == [ys[0]] + ys[1..];
    }
  }

  lemma SameHead(xs: seq<Block>, ys: seq<Block>)
    requires Coalesced(xs) && Coalesced(ys) && xs != [] && ys != []
    requires forall a :: Covers(xs, a) <==> Covers(ys, a)
    ensures ys[0].sva <= xs[0].sva
    ensures ys[0].sva == xs[0].sva ==> xs[0].End() <= ys[0].End()
  {
    var x := xs[0];
    BlockIsRun(xs, 0, x.sva, x.size);
    forall a | x.sva <= a < x.sva + x.size ensures Covers(ys, a) {
      assert Covers(xs, a);
    }
    assert Run(ys, x.sva, x.size);
    var i := RunInOneBlock(ys, x.sva, x.size);
    if i > 0 { assert ys[0].End() < ys[i].sva; }
  }

  lemma TailSpace(xs: seq<Block>)
    requires Coalesced(xs) && xs != []
    ensures Coalesced(xs[1..]) && Space(xs[1..]) == Space(xs) - Extent(xs[0])
  {
    forall a ensures Covers(xs[1..], a) <==> Covers(xs, a) && !xs[0].Has(a) {
      if Covers(xs[1..], a) {
        var i :| 0 <= i < |xs[1..]| && xs[1..][i].Has(a);
        assert xs[i + 1].Has(a);
        assert xs[0].End() < xs[i + 1].sva;
      }
      if Covers(xs, a) && !xs[0].Has(a) {
        var j :| 0 <= j < |xs| && xs[j].Has(a);
        assert xs[1..][j - 1].Has(a);
      }
    }
  }
}
