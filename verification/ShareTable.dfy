/**
 The `shares` array and its operations as they run, over the memory manager of KernelMemory; each call is
 proved equal to its function in Shares.
 */
module ShareTable {
  import opened Basics
  import opened Blocks
  import opened DynamicAllocator
  import opened Paging
  import opened KernelHeap
  import opened PageTables
  import opened Chunks
  import opened KernelMemory
  import opened Shares
  import H = Heap

  class Table {
    const memory: Memory
    const shares: array<Share>

    constructor (memory: Memory, shares: array<Share>)
      ensures this.memory == memory && this.shares == shares
    {
      this.memory, this.shares := memory, shares;
    }

    ghost function View(): System
      reads memory, memory.frames, memory.blocks.free, memory.blocks.free.nodes`data,
            memory.blocks.alloc, memory.blocks.alloc.nodes`data, memory.blocks.available, shares
    {
      System(memory.View(), shares[..])
    }

    // get_share_object_ID
    method GetShareObjectId(owner: int, name: string) returns (id: int)
      ensures var i := FindFrom(shares[..], owner, name, 0);
        id == if i < shares.Length then i else E_SHARED_MEM_NOT_EXISTS
    {
      var i := 0;
      while i < shares.Length
        invariant 0 <= i <= shares.Length
        invariant FindFrom(shares[..], owner, name, 0) == FindFrom(shares[..], owner, name, i)
      {
        if !shares[i].empty && shares[i].owner == owner && shares[i].name == name {
          return i;
        }
        i := i + 1;
      }
      return E_SHARED_MEM_NOT_EXISTS;
    }

    // the search of allocate_share_object
    method FindEmpty() returns (i: nat)
      ensures i == EmptyFrom(shares[..], 0)
    {
      i := 0;
      while i < shares.Length && !shares[i].empty
        invariant 0 <= i <= shares.Length
        invariant EmptyFrom(shares[..], 0) == EmptyFrom(shares[..], i)
      {
        i := i + 1;
      }
    }

    // create_frames_storage
    method CreateFramesStorage(sd: nat, strategy: Strategy) returns (panics: bool)
      requires memory.Valid() && sd !in memory.View().mem.dirs
      modifies memory`freeFrames, memory`hand, memory`pte, memory`dirs, memory`storages, memory.frames
      modifies memory.blocks.available, memory.blocks.free, memory.blocks.alloc, memory.Nodes()
      ensures memory.Nodes() <= old(memory.Nodes())
      ensures HeapOk(old(memory.View()).heap)
      ensures var r := CreateStorage(old(memory.View()), sd, strategy);
        (panics <==> r.Panic?) && (!panics ==> memory.Valid() && memory.View() == r.value)
    {
      hide KernelHeap.Valid, Allocator.Valid, Memory.HeapNow, Kmalloc;
      ghost var k := memory.View();
      CreateStorageKeeps(k, sd, strategy);
      PageFits(k, strategy);
      var va;
      panics, va := memory.Kmalloc(H.PAGE, strategy);
      if !panics {
        if va == None {
          return true;
        }
        memory.dirs := memory.dirs[sd := NoTables()];
        memory.storages := memory.storages + {sd};
      }
    }

    // add_frame_to_storage
    method AddFrameToStorage(sd: nat, i: nat, f: nat, strategy: Strategy) returns (panics: bool)
      requires memory.Valid() && Ready(memory.View(), sd, i) && sd in memory.Now().storages && f < memory.frames.Length
      modifies memory`freeFrames, memory`hand, memory`pte, memory`dirs, memory`owner, memory.frames
      modifies memory.blocks.available, memory.blocks.free, memory.blocks.alloc, memory.Nodes()
      ensures memory.Nodes() <= old(memory.Nodes())
      ensures var r := Shares.AddFrameToStorage(old(memory.View()), sd, i, f, strategy);
        (panics <==> r.Panic?) && (!panics ==> memory.Valid() && memory.View() == r.value)
    {
      hide KernelHeap.Valid, Allocator.Valid, Memory.HeapNow, EnsureTable, Lookup, FrameAdded;
      ghost var k := memory.View();
      AddFrameKeeps(k, sd, i, f, strategy);
      panics := memory.EnsureTable(sd, i, strategy);
      if panics {
        return;
      }
      SlotForWrite(memory.View(), sd, i);
      var t := memory.GetPageTable(sd, i);
      memory.pte := memory.pte[InTable(t.table, i % ENTRIES) := Mapped(f, {})];
      ReadyValid(memory.View(), sd, i);
    }

    // one turn of the loop of createSharedObject, with the frame it files
    method CreateOne(d: nat, p: nat, sd: nat, i: nat, strategy: Strategy) returns (panics: bool, f: nat)
      requires memory.Valid() && Ready(memory.View(), d, p) && Lookup(memory.View().mem, d, p) == Unmapped
      requires d !in memory.Now().storages && sd in memory.View().mem.dirs && sd in memory.Now().storages && UserPage(i)
      modifies memory`freeFrames, memory`hand, memory`pte, memory`dirs, memory`owner, memory.frames
      modifies memory.blocks.available, memory.blocks.free, memory.blocks.alloc, memory.Nodes()
      ensures memory.Nodes() <= old(memory.Nodes())
      ensures var r := CreatePage(old(memory.View()), d, p, sd, i, strategy);
        && (panics <==> r.Panic?)
        && (!panics ==> memory.Valid() && (memory.View(), f) == r.value)
    {
      hide KernelHeap.Valid, Allocator.Valid, Memory.HeapNow, MapAndFile, Lookup, CreatePage, Paging.AllocateFrame;
      ghost var k := memory.View();
      TakenReady(k, d, p);
      TurnOfCreate(k, d, p, sd, i, strategy);
      panics, f := memory.AllocateFrame();
      if panics {
        return;
      }
      panics := MapAndFileFrame(d, f, p, sd, i, strategy);
    }

    // the rest of the turn, with the frame in hand
    method MapAndFileFrame(d: nat, f: nat, p: nat, sd: nat, i: nat, strategy: Strategy) returns (panics: bool)
      requires memory.Valid() && Ready(memory.View(), d, p) && Lookup(memory.View().mem, d, p) == Unmapped
      requires d !in memory.Now().storages && sd in memory.View().mem.dirs && sd in memory.Now().storages && UserPage(i)
      requires f in memory.hand
      modifies memory`freeFrames, memory`hand, memory`pte, memory`dirs, memory`owner, memory.frames
      modifies memory.blocks.available, memory.blocks.free, memory.blocks.alloc, memory.Nodes()
      ensures memory.Nodes() <= old(memory.Nodes())
      ensures var r := MapAndFile(old(memory.View()), d, f, p, sd, i, strategy);
        && (panics <==> r.Panic?)
        && (!panics ==> memory.Valid() && (memory.View(), f) == r.value)
    {
      hide KernelHeap.Valid, Allocator.Valid, Memory.HeapNow, MapFrame, Shares.AddFrameToStorage, Lookup;
      ghost var k := memory.View();
      panics := memory.MapFrame(d, f, p, {User, Writeable}, strategy);
      if panics {
        return;
      }
      StorageReady(k, memory.View(), d, f, p, sd, i, strategy);
      panics := AddFrameToStorage(sd, i, f, strategy);
    }

    // the loop of createSharedObject
    method CreateRange(d: nat, p: nat, n: nat, sd: nat, strategy: Strategy) returns (panics: bool, fs: seq<nat>)
      requires memory.Valid() && UserRange(memory.View(), d, p, n) && RangeUnmapped(memory.Now(), d, p, n)
      requires sd in memory.View().mem.dirs && sd in memory.Now().storages
      modifies memory`freeFrames, memory`hand, memory`pte, memory`dirs, memory`owner, memory.frames
      modifies memory.blocks.available, memory.blocks.free, memory.blocks.alloc, memory.Nodes()
      ensures memory.Nodes() <= old(memory.Nodes())
      ensures var r := CreatePages(old(memory.View()), d, p, n, sd, strategy);
        (panics <==> r.Panic?) && (!panics ==> memory.Valid() && (memory.View(), fs) == r.value)
    {
      hide KernelHeap.Valid, Allocator.Valid, Memory.HeapNow, Memory.Now, CreatePage, Lookup;
      ghost var k := memory.View();
      panics, fs := false, [];
      var i := 0;
      while i < n
        invariant 0 <= i <= n && !panics && memory.Valid() && memory.Nodes() <= old(memory.Nodes())
        invariant CreatePages(k, d, p, i, sd, strategy) == Done((memory.View(), fs))
      {
        NextToCreate(k, d, p, i, n, sd, strategy);
        var f;
        panics, f := CreateOne(d, p + i, sd, i, strategy);
        if panics {
          CreatePanicStays(k, d, p, i + 1, n, sd, strategy);
          return;
        }
        fs := fs + [f];
        i := i + 1;
      }
    }

    // the storage and the frames of a new object
    method BackObject(d: nat, p: nat, n: nat, sd: nat, strategy: Strategy) returns (panics: bool, fs: seq<nat>)
      requires memory.Valid() && Target(View(), d, p, n) && sd !in memory.View().mem.dirs
      modifies memory`freeFrames, memory`hand, memory`pte, memory`dirs, memory`owner, memory`storages, memory.frames
      modifies memory.blocks.available, memory.blocks.free, memory.blocks.alloc, memory.Nodes()
      ensures memory.Nodes() <= old(memory.Nodes())
      ensures HeapOk(old(memory.View()).heap)
      ensures var r := Backed(old(memory.View()), d, p, n, sd, strategy);
        (panics <==> r.Panic?) && (!panics ==> memory.Valid() && (memory.View(), fs) == r.value)
    {
      hide KernelHeap.Valid, Allocator.Valid, Memory.HeapNow, Memory.Now, CreateStorage, CreatePages, Keeps,
           RangeUnmapped, UsedFramesKept;
      ghost var k := memory.View();
      CreateStorageKeeps(k, sd, strategy);
      fs := [];
      panics := CreateFramesStorage(sd, strategy);
      if panics {
        return;
      }
      StillUnmapped(k, memory.View(), d, p, n);
      panics, fs := CreateRange(d, p, n, sd, strategy);
    }

    // createSharedObject, called by an environment whose directory is `d`
    method CreateSharedObject(d: nat, owner: int, name: string, size: nat, isWritable: nat, p: nat, sd: nat,
                              strategy: Strategy)
      returns (panics: bool, id: int)
      requires memory.Valid() && Target(View(), d, p, Pages(size)) && sd !in memory.View().mem.dirs
          && HeapOk(View().kernel.heap)
      modifies memory`freeFrames, memory`hand, memory`pte, memory`dirs, memory`owner, memory`storages
      modifies memory.frames, shares
      modifies memory.blocks.available, memory.blocks.free, memory.blocks.alloc, memory.Nodes()
      ensures var r := Shares.CreateSharedObject(old(View()), d, owner, name, size, isWritable, p, sd, strategy);
        (panics <==> r.Panic?) && (!panics ==> memory.Valid() && (View(), id) == r.value)
    {
      hide KernelHeap.Valid, Allocator.Valid, Memory.HeapNow, Memory.Now, Backed, RangeUnmapped, HeapOk;
      panics := false;
      id := GetShareObjectId(owner, name);
      if id != E_SHARED_MEM_NOT_EXISTS {
        id := E_SHARED_MEM_EXISTS;
        return;
      }
      var i := FindEmpty();
      if i == shares.Length {
        id := E_NO_SHARE;
        return;
      }
      id := i;
      panics := FillSlot(i, d, owner, name, size, isWritable, p, sd, strategy);
    }

    // the rest of createSharedObject, once a slot has been found
    method FillSlot(i: nat, d: nat, owner: int, name: string, size: nat, isWritable: nat, p: nat, sd: nat,
                    strategy: Strategy)
      returns (panics: bool)
      requires memory.Valid() && Target(View(), d, p, Pages(size)) && sd !in memory.View().mem.dirs
          && HeapOk(View().kernel.heap)
      requires i < shares.Length
      modifies memory`freeFrames, memory`hand, memory`pte, memory`dirs, memory`owner, memory`storages
      modifies memory.frames, shares
      modifies memory.blocks.available, memory.blocks.free, memory.blocks.alloc, memory.Nodes()
      ensures var r := Filled(old(View()), i, d, owner, name, size, isWritable, p, sd, strategy);
        (panics <==> r.Panic?) && (!panics ==> memory.Valid() && View() == r.value)
    {
      hide KernelHeap.Valid, Allocator.Valid, Memory.HeapNow, Memory.Now, Backed, RangeUnmapped, HeapOk;
      var fs;
      panics, fs := BackObject(d, p, Pages(size), sd, strategy);
      if !panics {
        shares[i] := Share(false, owner, name, size, isWritable, 1, sd, fs, [Mapping(d, p, {User, Writeable})]);
      }
    }

    // the loop of getSharedObject
    method MapRange(d: nat, p: nat, sd: nat, n: nat, perms: set<Flag>, strategy: Strategy,
                    ghost fs: seq<nat>) returns (panics: bool)
      requires memory.Valid() && UserRange(memory.View(), d, p, n) && RangeUnmapped(memory.Now(), d, p, n)
      requires |fs| == n && NoRepeats(fs) && CountersFree(memory.Now(), fs) && Holds(memory.Now(), sd, fs)
      modifies memory`freeFrames, memory`hand, memory`pte, memory`dirs, memory`owner, memory.frames
      modifies memory.blocks.available, memory.blocks.free, memory.blocks.alloc, memory.Nodes()
      ensures memory.Nodes() <= old(memory.Nodes())
      ensures var r := MapFrames(old(memory.View()), d, p, sd, n, perms, strategy);
        (panics <==> r.Panic?) && (!panics ==> memory.Valid() && memory.View() == r.value)
    {
      hide KernelHeap.Valid, Allocator.Valid, Memory.HeapNow, Memory.Now, MapFrame, Lookup, CountersFree, References,
           NoRepeats, Holds;
      ghost var k := memory.View();
      panics := false;
      var i := 0;
      while i < n
        invariant 0 <= i <= n && !panics && memory.Valid() && memory.Nodes() <= old(memory.Nodes())
        invariant MapFrames(k, d, p, sd, i, perms, strategy) == Done(memory.View())
      {
        NextToMap(k, d, p, sd, fs, i, perms, strategy);
        assert sd in memory.dirs && i / ENTRIES < |memory.dirs[sd]| by { memory.DirectoryReady(sd, i); }
        var e := memory.GetFrameInfo(sd, i);
        panics := memory.MapFrame(d, e.frame, p + i, perms, strategy);
        if panics {
          MapPanicStays(k, d, p, sd, i + 1, n, perms, strategy);
          return;
        }
        i := i + 1;
      }
    }

    // getSharedObject, called by an environment whose directory is `d`
    method GetSharedObject(d: nat, owner: int, name: string, p: nat, strategy: Strategy) returns (panics: bool, id: int)
      requires memory.Valid() && Inv(View()) && Allowed(View(), Get(d, owner, name, p))
      modifies memory`freeFrames, memory`hand, memory`pte, memory`dirs, memory`owner, memory.frames, shares
      modifies memory.blocks.available, memory.blocks.free, memory.blocks.alloc, memory.Nodes()
      ensures var r := Shares.GetSharedObject(old(View()), d, owner, name, p, strategy);
        (panics <==> r.Panic?) && (!panics ==> memory.Valid() && (View(), id) == r.value)
    {
      hide KernelHeap.Valid, Allocator.Valid, Memory.HeapNow, Memory.Now, MapFrames, Lookup, ShareOk;
      panics := false;
      id := GetShareObjectId(owner, name);
      if id == E_SHARED_MEM_NOT_EXISTS {
        return;
      }
      var share := shares[id];
      ReadyToGet(View(), id);
      var perms := if share.isWritable == 1 then {User, Writeable} else {User};
      panics := MapRange(d, p, share.storage, Pages(share.size), perms, strategy, share.frames);
      if panics {
        return;
      }
      shares[id] := share.(references := share.references + 1, maps := share.maps + [Mapping(d, p, perms)]);
    }
  }

  lemma StillUnmapped(k: Kernel, k1: Kernel, d: nat, p: nat, n: nat)
    requires d in k.mem.dirs && p + n <= USER_END && RangeUnmapped(k.mem, d, p, n) && Keeps(k.mem, k1.mem, 0, 0, 0)
    ensures d in k1.mem.dirs && (d in k1.mem.storages <==> d in k.mem.storages) && RangeUnmapped(k1.mem, d, p, n)
  {
    hide Lookup;
  }

  lemma ReadyToGet(sys: System, i: nat)
    requires Inv(sys) && i < |sys.shares| && !sys.shares[i].empty && sys.shares[i].references < COUNTER - 1
    ensures Filed(sys.kernel.mem, sys.shares[i]) && CountersFree(sys.kernel.mem, sys.shares[i].frames)
  {
    hide KernelHeap.Valid;
    assert ShareOk(sys.kernel.mem, sys.shares[i]);
  }

  lemma NextToMap(k: Kernel, d: nat, p: nat, sd: nat, fs: seq<nat>, i: nat, perms: set<Flag>, strategy: Strategy)
    requires UserRange(k, d, p, |fs|) && RangeUnmapped(k.mem, d, p, |fs|) && i < |fs|
    requires NoRepeats(fs) && CountersFree(k.mem, fs) && Holds(k.mem, sd, fs)
    requires MapFrames(k, d, p, sd, i, perms, strategy).Done?
    ensures var k1 := MapFrames(k, d, p, sd, i, perms, strategy).value;
      && Ready(k1, d, p + i) && d !in k1.mem.storages && Mappable(k1.mem, fs[i])
      && Ready(k1, sd, i) && Lookup(k1.mem, sd, i) == Mapped(fs[i], {})
      && MapFrames(k, d, p, sd, i + 1, perms, strategy) == MapFrame(k1, d, fs[i], p + i, perms, strategy)
  {
    hide KernelHeap.Valid, Lookup, MapFrame, References, CountersFree, HasTable, Total;
    var k1 := MapFrames(k, d, p, sd, i, perms, strategy).value;
    MapFramesKeeps(k, d, p, sd, fs, i, perms, strategy);
    NextFrame(k, k1, d, p, sd, fs, i + 1, perms, strategy);
    IsReady(k1, sd, i);
  }

  lemma {:induction false} MapPanicStays(k: Kernel, d: nat, p: nat, sd: nat, i: nat, n: nat, perms: set<Flag>,
                                         strategy: Strategy)
    requires i <= n && MapFrames(k, d, p, sd, i, perms, strategy).Panic?
    ensures MapFrames(k, d, p, sd, n, perms, strategy).Panic?
  {
    hide KernelHeap.Valid, MapStored;
    if i < n {
      MapPanicStays(k, d, p, sd, i, n - 1, perms, strategy);
    }
  }

  lemma {:induction false} CreatePanicStays(k: Kernel, d: nat, p: nat, i: nat, n: nat, sd: nat, strategy: Strategy)
    requires i <= n && CreatePages(k, d, p, i, sd, strategy).Panic?
    ensures CreatePages(k, d, p, n, sd, strategy).Panic?
  {
    hide KernelHeap.Valid, CreatePage;
    if i < n {
      CreatePanicStays(k, d, p, i, n - 1, sd, strategy);
    }
  }

  lemma NextToCreate(k: Kernel, d: nat, p: nat, i: nat, n: nat, sd: nat, strategy: Strategy)
    requires UserRange(k, d, p, n) && RangeUnmapped(k.mem, d, p, n) && sd in k.mem.dirs && sd in k.mem.storages && i < n
    requires CreatePages(k, d, p, i, sd, strategy).Done?
    ensures var (k1, fs) := CreatePages(k, d, p, i, sd, strategy).value;
      && Ready(k1, d, p + i) && d !in k1.mem.storages && Lookup(k1.mem, d, p + i) == Unmapped
      && sd in k1.mem.dirs && sd in k1.mem.storages && UserPage(i)
      && CreatePages(k, d, p, i + 1, sd, strategy) == FilePage(CreatePage(k1, d, p + i, sd, i, strategy), fs)
  {
    hide KernelHeap.Valid, Lookup, CreatePage;
    CreatePagesKeeps(k, d, p, i, sd, strategy);
    IsReady(CreatePages(k, d, p, i, sd, strategy).value.0, d, p + i);
  }

  /** With the frame in hand the page is as ready as before. */
  lemma TakenReady(k: Kernel, d: nat, p: nat)
    requires Ready(k, d, p) && Lookup(k.mem, d, p) == Unmapped
    ensures k.mem.free != [] ==> Paging.AllocateFrame(k.mem).Some?
    ensures Paging.AllocateFrame(k.mem).Some? ==>
      var (m, f) := Paging.AllocateFrame(k.mem).value;
      var k1 := k.(mem := m);
      KernelHeap.Valid(k1) && Ready(k1, d, p) && Lookup(m, d, p) == Unmapped && m.dirs == k.mem.dirs && f in m.hand
      && m.storages == k.mem.storages
  {
    hide KernelHeap.Valid, Lookup, Paging.AllocateFrame;
    TakeFrameKeeps(k);
  }

  lemma TurnOfCreate(k: Kernel, d: nat, p: nat, sd: nat, i: nat, strategy: Strategy)
    ensures match Paging.AllocateFrame(k.mem)
      case None => CreatePage(k, d, p, sd, i, strategy) == Panic
      case Some((m, f)) => CreatePage(k, d, p, sd, i, strategy) == MapAndFile(k.(mem := m), d, f, p, sd, i, strategy)
  {
    hide MapAndFile, Paging.AllocateFrame;
  }

  lemma StorageReady(k: Kernel, k1: Kernel, d: nat, f: nat, p: nat, sd: nat, i: nat, strategy: Strategy)
    requires Ready(k, d, p) && d !in k.mem.storages && Lookup(k.mem, d, p) == Unmapped && sd in k.mem.dirs
    requires UserPage(i)
    requires f in k.mem.hand && MapFrame(k, d, f, p, {User, Writeable}, strategy) == Done(k1)
    ensures Ready(k1, sd, i) && k1.mem.storages == k.mem.storages && f < |k1.mem.frames|
  {
    hide KernelHeap.Valid, Lookup, MapFrame;
    ReadyValid(k, d, p);
    FrameExists(k, f);
    MapFrameKeeps(k, d, f, p, {User, Writeable}, strategy);
    ReadyValid(k1, d, p);
    IsReady(k1, sd, i);
  }
}
