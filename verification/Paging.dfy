/**
 Physical frames and page-table entries (kern/mem/memory_manager.c): reference counts, the list of free
 frames, and the entries of every live page table.  Addresses are page numbers.  The invariant `Counted`
 says that each frame's counter is the number of entries that map it and that the free list holds exactly
 the frames nobody uses.
 */
module Paging {
  import opened Basics
  import opened Blocks
  import Layout

  const ENTRIES: nat := Layout.ENTRIES
  const COUNTER := 65536         // `references` is a uint16

  datatype Flag = Writeable | User | Used | Modified | Buffered

  /** An entry is zero or PRESENT. */
  datatype Pte = Unmapped | Mapped(frame: nat, perms: set<Flag>)
  datatype Pde = NoTable | Table(frame: nat)

  /** Where a page-table entry lies: in one of the kernel's tables, which are built at boot, shared by all
      directories and never removed, or at an index of a table that occupies a frame. */
  datatype Slot = KernelPage(page: nat) | InTable(table: nat, index: nat)

  datatype Frame = Frame(references: nat, va: nat)

  /** `reserved` are the frames in use since boot, `owner` the directory entry each live table hangs on, `hand` the
      frames taken by allocate_frame and not yet mapped, `storages` the directories that only file the frames of
      shared objects; the entries under these are not counted as references. */
  datatype Mem = Mem(
    frames: seq<Frame>, free: seq<nat>, pte: map<Slot, Pte>,
    dirs: map<nat, seq<Pde>>, owner: map<nat, (nat, nat)>, reserved: set<nat>, hand: set<nat>,
    storages: set<nat>)

  // ---------------------------------------------------------------- frames

  /** allocate_frame; None where the source panics */
  function AllocateFrame(m: Mem): Option<(Mem, nat)> {
    if m.free == [] then None
    else
      var f := m.free[0];
      Some((m.(free := m.free[1..], frames := Set(m.frames, f, Frame(0, 0)), hand := m.hand + {f}), f))
  }

  function Set<T>(a: seq<T>, i: nat, v: T): (b: seq<T>)
    ensures |b| == |a|
  {
    if i < |a| then a[i := v] else a
  }

  /** free_frame */
  function FreeFrame(m: Mem, f: nat): Mem {
    m.(frames := Set(m.frames, f, Frame(0, 0)), free := [f] + m.free)
  }

  function Increment(fr: Frame): Frame {
    fr.(references := (fr.references + 1) % COUNTER)
  }

  function Decrement(fr: Frame): Frame {
    fr.(references := (fr.references + COUNTER - 1) % COUNTER)
  }

  /** decrement_references */
  function DecrementReferences(m: Mem, f: nat): Mem
    requires f < |m.frames|
  {
    var fr := Decrement(m.frames[f]);
    var m1 := m.(frames := m.frames[f := fr]);
    if fr.references == 0 then FreeFrame(m1, f) else m1
  }

  // ---------------------------------------------------------------- entries

  predicate On(e: Pte, f: nat) {
    e.Mapped? && e.frame == f
  }

  /** unmap_frame, once the entry has been found */
  function UnmapSlot(m: Mem, s: Slot): Mem
    requires s in m.pte && (m.pte[s].Mapped? ==> m.pte[s].frame < |m.frames|)
  {
    match m.pte[s]
    case Unmapped => m
    case Mapped(f, _) => DecrementReferences(m, f).(pte := m.pte[s := Unmapped])
  }

  /** map_frame, once the entry has been found; on the same frame it does nothing, whatever `perms` */
  function MapSlot(m: Mem, s: Slot, f: nat, perms: set<Flag>): Mem
    requires s in m.pte && (m.pte[s].Mapped? ==> m.pte[s].frame < |m.frames|) && f < |m.frames|
  {
    if On(m.pte[s], f) then m
    else
      var m1 := UnmapSlot(m, s);
      m1.(frames := m1.frames[f := Increment(m1.frames[f])], pte := m1.pte[s := Mapped(f, perms)],
          hand := m1.hand - {f})
  }

  /** What allocate_chunk does for one page whose entry exists: allocate_frame, map_frame, record the address. */
  function MapNew(m: Mem, s: Slot, perms: set<Flag>, va: nat): Option<Mem>
    requires s in m.pte && (m.pte[s].Mapped? ==> m.pte[s].frame < |m.frames|)
    requires forall f :: f in m.free ==> f < |m.frames|
  {
    if m.free == [] then None
    else
      assert m.free[0] in m.free;
      var (m1, f) := AllocateFrame(m).value;
      var m2 := MapSlot(m1, s, f, perms);
      Some(m2.(frames := m2.frames[f := m2.frames[f].(va := va)]))
  }

  // ---------------------------------------------------------------- the invariant

  /** Does the entry count as a reference? */
  predicate Counts(m: Mem, s: Slot) {
    !(s.InTable? && s.table in m.owner && m.owner[s.table].0 in m.storages)
  }

  ghost function Users(m: Mem, f: nat): set<Slot> {
    set s | s in m.pte && On(m.pte[s], f) && Counts(m, s)
  }

  predicate IsFree(m: Mem, f: nat) {
    f < |m.frames| && m.frames[f].references == 0
  }

  /** The free list holds each unused frame once, except those in somebody's hand. */
  ghost predicate FreeOk(m: Mem) {
    && NoRepeats(m.free)
    && (forall f: nat :: f in m.free <==> IsFree(m, f) && f !in m.hand)
    && (forall f :: f in m.hand ==> IsFree(m, f))
  }

  ghost predicate EntriesOk(m: Mem) {
    forall s :: s in m.pte && m.pte[s].Mapped? ==> m.pte[s].frame < |m.frames|
  }

  ghost predicate CountOk(m: Mem, f: nat)
    requires f < |m.frames|
  {
    m.frames[f].references == |Users(m, f)| + Bit(f in m.reserved) && m.frames[f].references < COUNTER
  }

  ghost predicate CountsOk(m: Mem) {
    forall f :: 0 <= f < |m.frames| ==> CountOk(m, f)
  }

  ghost predicate Counted(m: Mem) {
    FreeOk(m) && EntriesOk(m) && CountsOk(m)
  }

  // ---------------------------------------------------------------- lemmas

  /** Writing one entry changes the users of two frames by one at most, and an entry of a storage none. */
  lemma WriteUsers(m: Mem, m': Mem, s: Slot, e: Pte, f: nat)
    requires s in m.pte && m'.pte == m.pte[s := e] && m'.owner == m.owner && m'.storages == m.storages
    ensures |Users(m', f)| ==
      if Counts(m, s) then |Users(m, f)| - Bit(On(m.pte[s], f)) + Bit(On(e, f)) else |Users(m, f)|
  {
    var u := Users(m, f) - {s};
    assert Users(m, f) == if Counts(m, s) && On(m.pte[s], f) then u + {s} else u;
    assert Users(m', f) == if Counts(m, s) && On(e, f) then u + {s} else u;
  }

  /** unmap_frame: the entry is cleared, its frame loses one reference and is freed with the last, and nothing else
      changes. */
  lemma UnmapSlotFacts(m: Mem, s: Slot)
    requires s in m.pte && m.pte[s].Mapped? && m.pte[s].frame < |m.frames|
    requires 0 < m.frames[m.pte[s].frame].references < COUNTER
    ensures var m', f := UnmapSlot(m, s), m.pte[s].frame;
      && m'.pte == m.pte[s := Unmapped] && |m'.frames| == |m.frames|
      && m'.frames[f].references == m.frames[f].references - 1
      && (m.frames[f].references > 1 ==> m'.free == m.free && m'.frames[f].va == m.frames[f].va)
      && (m.frames[f].references == 1 ==> m'.free == [f] + m.free && m'.frames[f] == Frame(0, 0))
      && (forall g :: 0 <= g < |m.frames| && g != f ==> m'.frames[g] == m.frames[g])
      && m'.dirs == m.dirs && m'.owner == m.owner && m'.reserved == m.reserved && m'.hand == m.hand
         && m'.storages == m.storages
  {
    var f := m.pte[s].frame;
    assert (m.frames[f].references + COUNTER - 1) % COUNTER == m.frames[f].references - 1;
  }

  lemma UnmapSlotKeeps(m: Mem, s: Slot)
    requires Counted(m) && s in m.pte && Counts(m, s)
    ensures Counted(UnmapSlot(m, s))
  {
    hide Users, NoRepeats, UnmapSlot;
    if m.pte[s].Mapped? {
      var m', f := UnmapSlot(m, s), m.pte[s].frame;
      assert CountOk(m, f);
      UsedHasUsers(m, s);
      UnmapSlotFacts(m, s);
      forall g | 0 <= g < |m'.frames| ensures CountOk(m', g) {
        assert CountOk(m, g);
        WriteUsers(m, m', s, Unmapped, g);
      }
      FreeOneMore(m, m', f);
    } else {
      assert UnmapSlot(m, s) == m by { UnmapNothing(m, s); }
    }
  }

  lemma UnmapNothing(m: Mem, s: Slot)
    requires s in m.pte && m.pte[s].Unmapped?
    ensures UnmapSlot(m, s) == m
  {
  }

  lemma SameUsers(m: Mem, m': Mem, f: nat)
    requires m'.pte == m.pte && m'.owner == m.owner && m'.storages == m.storages
    ensures Users(m', f) == Users(m, f)
  {
  }

  lemma UsedHasUsers(m: Mem, s: Slot)
    requires s in m.pte && m.pte[s].Mapped? && m.pte[s].frame < |m.frames| && CountOk(m, m.pte[s].frame) && Counts(m, s)
    ensures m.frames[m.pte[s].frame].references > 0
  {
    assert s in Users(m, m.pte[s].frame);
  }

  /** Only frame `f` lost a reference, and it went to the front of the free list if that was its last. */
  lemma FreeOneMore(m: Mem, m': Mem, f: nat)
    requires FreeOk(m) && f < |m.frames| == |m'.frames| && m.frames[f].references > 0 && m'.hand == m.hand
    requires m'.frames[f].references == m.frames[f].references - 1
    requires m'.free == if m.frames[f].references == 1 then [f] + m.free else m.free
    requires forall g :: 0 <= g < |m.frames| && g != f ==> m'.frames[g] == m.frames[g]
    ensures FreeOk(m')
  {
    if m.frames[f].references == 1 {
      assert f !in m.free;
      forall i, j | 0 <= i < j < |m'.free| ensures m'.free[i] != m'.free[j] {
        assert m'.free[j] == m.free[j - 1];
        if i > 0 { assert m'.free[i] == m.free[i - 1]; }
      }
    }
  }

  /** map_frame on another frame: the entry is rewritten and counted. */
  lemma MapSlotKeeps(m: Mem, s: Slot, f: nat, perms: set<Flag>)
    requires Counted(m) && s in m.pte && f < |m.frames| && f !in m.free && Counts(m, s)
    requires m.frames[f].references < COUNTER - 1
    ensures Counted(MapSlot(m, s, f, perms))
  {
    hide Users, NoRepeats, UnmapSlot, MapSlot, CountOk, FreeOk;
    if On(m.pte[s], f) {
      assert f !in m.hand by { assert CountOk(m, f); UsedHasUsers(m, s); UsedNotInHand(m, f); }
      assert m.hand - {f} == m.hand;
      assert MapSlot(m, s, f, perms) == m by { MapSame(m, s, f, perms); }
    } else {
      UnmapSlotKeeps(m, s);
      var m1 := UnmapSlot(m, s);
      UnmapLeaves(m, s, f);
      assert MapSlot(m, s, f, perms) == MapSlot(m1, s, f, perms) by { MapAfterUnmap(m, s, f, perms); }
      MapEmptyKeeps(m1, s, f, perms);
    }
  }

  lemma UsedNotInHand(m: Mem, f: nat)
    requires FreeOk(m) && f < |m.frames| && m.frames[f].references > 0
    ensures f !in m.hand
  {
  }

  lemma MapSame(m: Mem, s: Slot, f: nat, perms: set<Flag>)
    requires s in m.pte && On(m.pte[s], f) && f < |m.frames|
    ensures MapSlot(m, s, f, perms) == m
  {
  }

  lemma UnmapLeaves(m: Mem, s: Slot, f: nat)
    requires Counted(m) && s in m.pte && f < |m.frames| && f !in m.free && !On(m.pte[s], f) && Counts(m, s)
    ensures var m1 := UnmapSlot(m, s);
      && f !in m1.free && |m1.frames| == |m.frames| && m1.frames[f] == m.frames[f]
      && s in m1.pte && m1.pte[s] == Unmapped
      && m1.pte == m.pte[s := Unmapped] && Counts(m1, s)
  {
    hide Users, NoRepeats, UnmapSlot;
    if m.pte[s].Mapped? {
      assert CountOk(m, m.pte[s].frame);
      UsedHasUsers(m, s);
      UnmapSlotFacts(m, s);
    } else {
      UnmapNothing(m, s);
      assert m.pte == m.pte[s := Unmapped];
    }
  }

  lemma MapAfterUnmap(m: Mem, s: Slot, f: nat, perms: set<Flag>)
    requires s in m.pte && (m.pte[s].Mapped? ==> m.pte[s].frame < |m.frames|) && f < |m.frames| && !On(m.pte[s], f)
    ensures MapSlot(m, s, f, perms) == MapSlot(UnmapSlot(m, s), s, f, perms)
  {
  }

  /** map_frame on an empty entry. */
  lemma MapEmptyFacts(m: Mem, s: Slot, f: nat, perms: set<Flag>)
    requires s in m.pte && m.pte[s] == Unmapped && f < |m.frames| && m.frames[f].references < COUNTER - 1
    ensures var m' := MapSlot(m, s, f, perms);
      && m' == m.(frames := m.frames[f := m.frames[f].(references := m.frames[f].references + 1)],
                  pte := m.pte[s := Mapped(f, perms)], hand := m.hand - {f})
  {
  }

  lemma MapEmptyKeeps(m: Mem, s: Slot, f: nat, perms: set<Flag>)
    requires Counted(m) && s in m.pte && m.pte[s] == Unmapped && f < |m.frames| && f !in m.free && Counts(m, s)
    requires m.frames[f].references < COUNTER - 1
    ensures Counted(MapSlot(m, s, f, perms))
  {
    hide Users, NoRepeats, MapSlot;
    MapEmptyFacts(m, s, f, perms);
    var m' := MapSlot(m, s, f, perms);
    forall g | 0 <= g < |m'.frames| ensures CountOk(m', g) {
      assert CountOk(m, g);
      WriteUsers(m, m', s, Mapped(f, perms), g);
    }
  }

  /** map_frame counts right if and only if the frame is not on the free list and its 16-bit counter has room. */
  lemma MapCountsIff(m: Mem, s: Slot, f: nat, perms: set<Flag>)
    requires Counted(m) && s in m.pte && f < |m.frames| && !On(m.pte[s], f) && Counts(m, s)
    ensures Counted(MapSlot(m, s, f, perms)) <==> f !in m.free && m.frames[f].references < COUNTER - 1
  {
    if f in m.free {
      FreeFrameMapped(m, s, f, perms);
    } else if m.frames[f].references < COUNTER - 1 {
      MapSlotKeeps(m, s, f, perms);
    } else {
      assert CountOk(m, f);
      UnmapLeaves(m, s, f);
      var m' := MapSlot(m, s, f, perms);
      assert m'.frames[f].references == 0 && m'.pte[s] == Mapped(f, perms);
      assert s in Users(m', f);
      assert !CountOk(m', f);
    }
  }

  /** A free frame that is mapped stays on the free list. */
  lemma FreeFrameMapped(m: Mem, s: Slot, f: nat, perms: set<Flag>)
    requires Counted(m) && s in m.pte && f in m.free && !On(m.pte[s], f) && Counts(m, s)
    ensures f < |m.frames| && !Counted(MapSlot(m, s, f, perms))
  {
    hide Users, NoRepeats, UnmapSlot;
    assert IsFree(m, f);
    if m.pte[s].Mapped? {
      assert CountOk(m, m.pte[s].frame);
      UsedHasUsers(m, s);
      UnmapSlotFacts(m, s);
    } else {
      UnmapNothing(m, s);
    }
    var m' := MapSlot(m, s, f, perms);
    assert f in m'.free && m'.frames[f].references == 1;
    assert !IsFree(m', f);
  }

  lemma HeadOnce(a: seq<nat>, g: nat)
    requires a != [] && NoRepeats(a)
    ensures NoRepeats(a[1..]) && (g in a[1..] <==> g in a && g != a[0])
  {
    assert a == [a[0]] + a[1..];
  }

  /** allocate_frame takes the head of the free list into the caller's hands. */
  lemma AllocateFrameKeeps(m: Mem)
    requires Counted(m)
    ensures AllocateFrame(m).None? <==> m.free == []
    ensures m.free != [] ==>
      var (m', f) := AllocateFrame(m).value;
      f == m.free[0] && f < |m.frames| && f !in m.hand && f !in m'.free && Counted(m')
  {
    hide Users, NoRepeats;
    if m.free != [] {
      var (m', f) := AllocateFrame(m).value;
      assert f in m.free;
      assert IsFree(m, f) && f !in m.hand;
      forall g: nat ensures g in m'.free <==> g in m.free && g != f { HeadOnce(m.free, g); }
      forall g | 0 <= g < |m'.frames| ensures CountOk(m', g) {
        assert CountOk(m, g);
        SameUsers(m, m', g);
      }
      assert FreeOk(m') by {
        HeadOnce(m.free, f);
        assert forall g: nat :: IsFree(m', g) <==> IsFree(m, g);
      }
    }
  }

  /** Allocating, mapping and recording one page: exactly the first free frame goes to exactly that entry. */
  lemma MapNewFacts(m: Mem, s: Slot, perms: set<Flag>, va: nat)
    requires Counted(m) && s in m.pte && m.pte[s] == Unmapped && Counts(m, s)
    ensures MapNew(m, s, perms, va).None? <==> m.free == []
    ensures m.free != [] ==>
      var m', f := MapNew(m, s, perms, va).value, m.free[0];
      && f < |m.frames| && m.frames[f].references == 0 && f !in m'.free
      && m' == m.(free := m.free[1..], frames := m.frames[f := Frame(1, va)], pte := m.pte[s := Mapped(f, perms)])
      && Counted(m')
  {
    hide Users, NoRepeats, MapSlot;
    if m.free != [] {
      AllocateFrameKeeps(m);
      var (m1, f) := AllocateFrame(m).value;
      assert f in m.free;
      MapEmptyKeeps(m1, s, f, perms);
      MapEmptyFacts(m1, s, f, perms);
      assert m.hand + {f} - {f} == m.hand;
      var m2 := MapSlot(m1, s, f, perms);
      SetVaKeeps(m2, f, va);
    }
  }

  /** Recording an address changes no count. */
  lemma SetVaKeeps(m: Mem, f: nat, va: nat)
    requires Counted(m) && f < |m.frames|
    ensures Counted(m.(frames := m.frames[f := m.frames[f].(va := va)]))
  {
    hide Users, NoRepeats;
    var m' := m.(frames := m.frames[f := m.frames[f].(va := va)]);
    forall g | 0 <= g < |m'.frames| ensures CountOk(m', g) {
      assert CountOk(m, g);
      SameUsers(m, m', g);
    }
  }

  /** Directories and tables of zeros may come and go. */
  lemma EmptySlotsKeep(m: Mem, m': Mem)
    requires Counted(m) && m'.frames == m.frames && m'.free == m.free && m'.reserved == m.reserved && m'.hand == m.hand
    requires forall s :: s in m.pte && m.pte[s].Mapped? ==>
      s in m'.pte && m'.pte[s] == m.pte[s] && Counts(m', s) == Counts(m, s)
    requires forall s :: s in m'.pte && m'.pte[s].Mapped? ==> s in m.pte && m'.pte[s] == m.pte[s]
    ensures Counted(m')
  {
    hide NoRepeats;
    forall g | 0 <= g < |m'.frames| ensures CountOk(m', g) {
      assert CountOk(m, g);
      assert Users(m', g) == Users(m, g);
    }
  }

  // ---------------------------------------------------------------- the temporary mapping of pf_update_env_page

  /** Map frame `f` at an unused entry, raise its count, unmap the entry, lower the count again. */
  function TempMapping(m: Mem, s: Slot, f: nat): Mem
    requires s in m.pte && m.pte[s] == Unmapped && f < |m.frames|
  {
    var m1 := MapSlot(m, s, f, {});
    var m2 := UnmapSlot(m1.(frames := m1.frames[f := Increment(m1.frames[f])]), s);
    m2.(frames := m2.frames[f := Decrement(m2.frames[f])])
  }

  /** The trick leaves memory exactly as it was unless the frame's 16-bit counter is already full; then it frees
      a frame that is mapped 65535 times. */
  lemma TempMappingLeavesNoTrace(m: Mem, s: Slot, f: nat)
    requires s in m.pte && m.pte[s] == Unmapped && f < |m.frames| && m.frames[f].references < COUNTER && f !in m.hand
    ensures TempMapping(m, s, f) == m <==> m.frames[f].references != COUNTER - 1
  {
    var m1 := MapSlot(m, s, f, {});
    var m2 := m1.(frames := m1.frames[f := Increment(m1.frames[f])]);
    var m3 := UnmapSlot(m2, s);
    assert m3.pte == m.pte;
    if m.frames[f].references == COUNTER - 1 {
      assert m2.frames[f].references == 1;
      assert m3.free == [f] + m.free;
      assert |TempMapping(m, s, f).free| == |m.free| + 1;
    } else {
      assert TempMapping(m, s, f).frames == m.frames;
    }
  }

  // ---------------------------------------------------------------- a frame that is mapped 65535 times

  /** The first `n` entries of 1024 to a table. */
  ghost function EntriesUpTo(n: nat): (u: set<Slot>)
    ensures |u| == n && forall s :: s in u <==> s.InTable? && s.table == 1 && s.index < n
  {
    if n == 0 then {} else EntriesUpTo(n - 1) + {InTable(1, n - 1)}
  }

  /** One frame, mapped as often as its counter can say, and one entry more. */
  ghost function FullCounter(): Mem {
    var full := EntriesUpTo(COUNTER - 1);
    Mem([Frame(COUNTER - 1, 0)], [],
        map s | s in full + {KernelPage(0)} :: if s in full then Mapped(0, {}) else Unmapped,
        map[], map[], {}, {}, {})
  }

  /** Counts and free list are exact there; mapping the frame once more loses the count, and the temporary mapping
      frees the frame although it is mapped. */
  lemma FullCounterOverflows()
    ensures var m, s := FullCounter(), KernelPage(0);
      && Counted(m) && s in m.pte && m.pte[s] == Unmapped && Counts(m, s)
      && !Counted(MapSlot(m, s, 0, {}))
      && 0 in TempMapping(m, s, 0).free && Users(TempMapping(m, s, 0), 0) == Users(m, 0) != {}
  {
    FullCounterCounted();
    var m, s := FullCounter(), KernelPage(0);
    hide FullCounter, Counted, Users, Counts, MapSlot, TempMapping;
    MapCountsIff(m, s, 0, {});
    TempMappingFrees(m, s, 0);
    SameUsers(m, TempMapping(m, s, 0), 0);
  }

  lemma FullCounterCounted()
    ensures var m, s := FullCounter(), KernelPage(0);
      && Counted(m) && m.frames == [Frame(COUNTER - 1, 0)] && m.free == [] && s in m.pte && m.pte[s] == Unmapped
      && Counts(m, s) && Users(m, 0) != {}
  {
    var m := FullCounter();
    assert Users(m, 0) == EntriesUpTo(COUNTER - 1);
    assert InTable(1, 0) in Users(m, 0);
    assert CountOk(m, 0);
  }

  lemma TempMappingFrees(m: Mem, s: Slot, f: nat)
    requires s in m.pte && m.pte[s] == Unmapped && f < |m.frames| && m.frames[f].references == COUNTER - 1
    ensures var m' := TempMapping(m, s, f);
      f in m'.free && m'.pte == m.pte && m'.owner == m.owner && m'.storages == m.storages
  {
    var m1 := MapSlot(m, s, f, {});
    var m2 := m1.(frames := m1.frames[f := Increment(m1.frames[f])]);
    assert m2.frames[f].references == 1 && UnmapSlot(m2, s).free == [f] + m.free;
  }
}
