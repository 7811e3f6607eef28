/**
 The page file (kern/disk/pagefile_manager.c): who owns which disk frame, behind two-level tables, one
 directory for each environment.  A directory is None-or-table for each of its 1024 entries, a table holds
 1024 disk frame numbers, and 0 stands for no frame.  The disk is an array of page contents.
 */
module PageFile {
  import opened Basics
  import opened Blocks
  import opened Layout

  const KERNEL_FIRST: nat := 0xF0000             // KERNEL_BASE / PAGE_SIZE
  const ALL_PAGES: nat := 0x10_0000              // the pages of a 32-bit address space
  const HEAP_START: nat := 0x80000               // USER_HEAP_START
  const HEAP_STOP: nat := 0xA0000                // USER_HEAP_MAX
  const E_NO_PAGE_FILE_SPACE := -8
  const E_PAGE_NOT_EXIST_IN_PF := -9

  type Directory = seq<Option<seq<nat>>>
  type Directories = map<nat, Directory>

  /** The disk frame of a page; 0 if it has none. */
  function Dfn(dirs: Directories, e: nat, p: nat): nat {
    if e !in dirs || p / ENTRIES >= |dirs[e]| then 0
    else match dirs[e][p / ENTRIES]
      case None => 0
      case Some(table) => if p % ENTRIES < |table| then table[p % ENTRIES] else 0
  }

  ghost predicate Shape(dirs: Directories) {
    forall e :: e in dirs ==> ShapeOf(dirs[e])
  }

  predicate ShapeOf(dir: Directory) {
    |dir| == ENTRIES && forall x :: 0 <= x < |dir| && dir[x].Some? ==> |dir[x].value| == ENTRIES
  }

  ghost predicate Used(dirs: Directories, f: nat) {
    exists e, p :: Dfn(dirs, e, p) == f
  }

  /** No two pages share a disk frame. */
  ghost predicate UsedOnce(dirs: Directories) {
    forall d: nat, q: nat, e: nat, p: nat :: Dfn(dirs, d, q) != 0 && Dfn(dirs, d, q) == Dfn(dirs, e, p) ==>
      d == e && q == p
  }

  /** Disk frames 1 to n-1 are each free or used, not both, and each once. */
  ghost predicate Partition(free: seq<nat>, dirs: Directories, n: nat) {
    && NoRepeats(free) && UsedOnce(dirs)
    && (forall f: nat :: f in free ==> 0 < f < n && !Used(dirs, f))
    && (forall f: nat :: 0 < f && Used(dirs, f) ==> f < n)
    && (forall f: nat :: 0 < f < n ==> f in free || Used(dirs, f))
  }

  function SetDfn(dirs: Directories, e: nat, p: nat, f: nat): Directories
    requires HasEntry(dirs, e, p)
  {
    var x, j := p / ENTRIES, p % ENTRIES;
    dirs[e := dirs[e][x := Some(dirs[e][x].value[j := f])]]
  }

  predicate HasEntry(dirs: Directories, e: nat, p: nat) {
    && e in dirs && p / ENTRIES < |dirs[e]| && dirs[e][p / ENTRIES].Some?
    && p % ENTRIES < |dirs[e][p / ENTRIES].value|
  }

  /** Writing one entry changes the frame of one page. */
  lemma SetDfnReads(dirs: Directories, e: nat, p: nat, f: nat)
    requires HasEntry(dirs, e, p)
    ensures var dirs' := SetDfn(dirs, e, p, f);
      && (forall d: nat, q: nat :: Dfn(dirs', d, q) == if d == e && q == p then f else Dfn(dirs, d, q))
      && (Shape(dirs) ==> Shape(dirs')) && dirs'.Keys == dirs.Keys
      && (forall d: nat, q: nat :: HasEntry(dirs, d, q) ==> HasEntry(dirs', d, q))
  {
    forall d: nat, q: nat ensures Dfn(SetDfn(dirs, e, p, f), d, q) == if d == e && q == p then f else Dfn(dirs, d, q) {
      assert q / ENTRIES == p / ENTRIES && q % ENTRIES == p % ENTRIES ==> q == p;
    }
    if Shape(dirs) { SetDfnShape(dirs, e, p, f); }
  }

  lemma SetDfnShape(dirs: Directories, e: nat, p: nat, f: nat)
    requires HasEntry(dirs, e, p) && Shape(dirs)
    ensures Shape(SetDfn(dirs, e, p, f))
  {
    var dirs' := SetDfn(dirs, e, p, f);
    forall d | d in dirs' ensures ShapeOf(dirs'[d]) {
      assert ShapeOf(dirs[d]);
    }
  }

  lemma TakeKeeps(free: seq<nat>, dirs: Directories, e: nat, p: nat, n: nat)
    requires Partition(free, dirs, n) && free != [] && HasEntry(dirs, e, p) && Dfn(dirs, e, p) == 0
    ensures Partition(free[1..], SetDfn(dirs, e, p, free[0]), n)
  {
    var f, dirs' := free[0], SetDfn(dirs, e, p, free[0]);
    SetDfnReads(dirs, e, p, f);
    hide SetDfn, Dfn;
    assert free == [f] + free[1..] && f in free;
    assert forall g :: g in free[1..] ==> g in free;
    assert f !in free[1..];
    assert Dfn(dirs', e, p) == f;
    forall g: nat | g > 0 ensures Used(dirs', g) <==> g == f || Used(dirs, g) {
      if Used(dirs, g) { var d, q :| Dfn(dirs, d, q) == g; assert Dfn(dirs', d, q) == g; }
      if Used(dirs', g) { var d, q :| Dfn(dirs', d, q) == g; assert g == f || Dfn(dirs, d, q) == g; }
    }
    assert UsedOnce(dirs') by { TakenOnce(dirs, dirs', e, p, f); }
  }

  lemma TakenOnce(dirs: Directories, dirs': Directories, e: nat, p: nat, f: nat)
    requires UsedOnce(dirs) && !Used(dirs, f)
    requires forall d: nat, q: nat :: Dfn(dirs', d, q) == if d == e && q == p then f else Dfn(dirs, d, q)
    ensures UsedOnce(dirs')
  {
    hide Dfn;
  }

  lemma ReturnKeeps(free: seq<nat>, dirs: Directories, e: nat, p: nat, n: nat)
    requires Partition(free, dirs, n) && HasEntry(dirs, e, p) && Dfn(dirs, e, p) != 0
    ensures Partition([Dfn(dirs, e, p)] + free, SetDfn(dirs, e, p, 0), n)
  {
    var f, dirs' := Dfn(dirs, e, p), SetDfn(dirs, e, p, 0);
    SetDfnReads(dirs, e, p, 0);
    hide SetDfn, Dfn;
    assert Used(dirs, f);
    forall g: nat | g > 0 ensures Used(dirs', g) <==> g != f && Used(dirs, g) {
      if Used(dirs, g) && g != f { var d, q :| Dfn(dirs, d, q) == g; assert Dfn(dirs', d, q) == g; }
      if Used(dirs', g) { var d, q :| Dfn(dirs', d, q) == g; assert Dfn(dirs, d, q) == g; }
    }
    assert UsedOnce(dirs');
    assert NoRepeats([f] + free) by { assert f !in free; }
  }

  /** Directories and tables without pages come and go freely. */
  lemma SameFrames(free: seq<nat>, dirs: Directories, dirs': Directories, n: nat)
    requires Partition(free, dirs, n) && forall d: nat, q: nat :: Dfn(dirs', d, q) == Dfn(dirs, d, q)
    ensures Partition(free, dirs', n)
  {
    hide Dfn;
    forall f: nat ensures Used(dirs', f) <==> Used(dirs, f) {
      if Used(dirs, f) { var d, q :| Dfn(dirs, d, q) == f; assert Dfn(dirs', d, q) == f; }
      if Used(dirs', f) { var d, q :| Dfn(dirs', d, q) == f; assert Dfn(dirs, d, q) == f; }
    }
  }

  /** The pages pf_update_env_page adds: those of the user heap and of the stack. */
  predicate Growable(p: nat, stackBottom: nat) {
    HEAP_START <= p < HEAP_STOP || stackBottom <= p < USER_END - 2
  }

  /** In addresses: from USER_HEAP_START to USER_HEAP_MAX, and from USTACKBOTTOM to USTACKTOP. */
  lemma GrowableAddresses(va: nat, bottom: nat)
    requires bottom % 0x1000 == 0
    ensures Growable(va / 0x1000, bottom / 0x1000)
            <==> 0x8000_0000 <= va < 0xA000_0000 || bottom <= va < 0xEEBF_E000
  {
    assert bottom <= va <==> bottom / 0x1000 <= va / 0x1000;
  }

  class PageFile<D> {
    var free: seq<nat>          // disk_free_frame_list, head first
    var dirs: Directories       // the disk_env_pgdir of each environment that has one
    const disk: array<D>
    const stackBottom: nat      // USTACKBOTTOM, as a page

    ghost predicate Valid()
      reads this
    {
      Shape(dirs) && Partition(free, dirs, disk.Length)
    }

    /** What a read of page `p` of environment `e` returns. */
    ghost function Stored(e: nat, p: nat): Option<D>
      reads this, disk
    {
      var f := Dfn(dirs, e, p);
      if 0 < f < disk.Length then Some(disk[f]) else None
    }

    /** Only page `p` of environment `e` reads differently from before: it holds `v`. */
    twostate predicate OnlyChanged(e: nat, p: nat, v: Option<D>)
      reads this, disk
    {
      forall d: nat, q: nat :: Stored(d, q) == if d == e && q == p then v else old(Stored(d, q))
    }

    // initialize_disk_page_file
    constructor (disk: array<D>, stackBottom: nat)
      requires disk.Length > 0
      ensures Valid() && this.disk == disk && this.stackBottom == stackBottom
      ensures forall e, p :: Stored(e, p) == None
      ensures |free| == disk.Length - 1
    {
      this.disk, this.stackBottom := disk, stackBottom;
      dirs, free := map[], [];
      new;
      var i := 1;
      while i < disk.Length
        invariant 1 <= i <= disk.Length && dirs == map[] && |free| == i - 1
        invariant forall f: nat :: f in free <==> 0 < f < i
        invariant NoRepeats(free)
      {
        assert i !in free;
        free := [i] + free;
        i := i + 1;
      }
    }

    // allocate_disk_frame
    method AllocateDiskFrame() returns (r: int, dfn: nat)
      modifies this`free
      ensures old(free) == [] ==> r == E_NO_PAGE_FILE_SPACE && free == []
      ensures old(free) != [] ==> r == 0 && dfn == old(free)[0] && free == old(free)[1..]
    {
      dfn := 0;
      if free == [] {
        return E_NO_PAGE_FILE_SPACE, 0;
      }
      dfn := free[0];
      free := free[1..];
      r := 0;
    }

    // free_disk_frame
    method FreeDiskFrame(dfn: nat)
      modifies this`free
      ensures free == if dfn == 0 then old(free) else [dfn] + old(free)
    {
      if dfn == 0 {
        return;
      }
      free := [dfn] + free;
    }

    // get_disk_page_directory and get_disk_page_table with `create` set
    method EnsureTable(e: nat, p: nat)
      requires Valid() && p < KERNEL_FIRST
      modifies this`dirs
      ensures Valid() && HasEntry(dirs, e, p)
      ensures forall d: nat, q: nat :: Dfn(dirs, d, q) == Dfn(old(dirs), d, q)
    {
      ghost var before := dirs;
      if e !in dirs {
        dirs := dirs[e := seq(ENTRIES, _ => None)];
      }
      assert Shape(dirs) && forall d: nat, q: nat :: Dfn(dirs, d, q) == Dfn(before, d, q);
      var x := p / ENTRIES;
      assert ShapeOf(dirs[e]);
      if dirs[e][x] == None {
        HangTable(dirs, e, x);
        dirs := dirs[e := dirs[e][x := Some(ZeroTable())]];
      }
      assert ShapeOf(dirs[e]);
      SameFrames(free, before, dirs, disk.Length);
    }

    // pf_add_env_page
    method AddEnvPage(e: nat, p: nat, data: D) returns (r: int)
      requires Valid() && p < KERNEL_FIRST
      modifies this, disk
      ensures Valid()
      ensures old(Stored(e, p)) == None && old(free) == [] ==> r == E_NO_PAGE_FILE_SPACE && OnlyChanged(e, p, None)
      ensures old(Stored(e, p)) != None || old(free) != [] ==> r == 0 && OnlyChanged(e, p, Some(data))
      ensures |free| == |old(free)| - (if r == 0 && old(Stored(e, p)) == None then 1 else 0)
    {
      r := AddEmptyEnvPage(e, p);
      if r == 0 {
        UsedIsOwn(dirs, e, p, disk.Length, free);
        disk[Dfn(dirs, e, p)] := data;
      }
    }

    // pf_add_empty_env_page without initializeByZero: the page reads whatever its disk frame last held
    method AddEmptyEnvPage(e: nat, p: nat) returns (r: int)
      requires Valid() && p < KERNEL_FIRST
      modifies this
      ensures Valid()
      ensures r == 0 || r == E_NO_PAGE_FILE_SPACE
      ensures r == E_NO_PAGE_FILE_SPACE <==> old(Stored(e, p)) == None && old(free) == []
      ensures r == 0 ==> Dfn(dirs, e, p) != 0
      ensures forall d: nat, q: nat :: !(d == e && q == p) || r != 0 ==> Dfn(dirs, d, q) == Dfn(old(dirs), d, q)
      ensures |free| == |old(free)| - (if r == 0 && old(Stored(e, p)) == None then 1 else 0)
      ensures Dfn(old(dirs), e, p) != 0 ==> Dfn(dirs, e, p) == Dfn(old(dirs), e, p)
    {
      assert forall d, q: nat :: Dfn(dirs, d, q) != 0 ==> Used(dirs, Dfn(dirs, d, q));
      EnsureTable(e, p);
      r := 0;
      var dfn := Dfn(dirs, e, p);
      if dfn == 0 {
        ghost var taken := dirs;
        ghost var list := free;
        r, dfn := AllocateDiskFrame();
        if r == E_NO_PAGE_FILE_SPACE {
          return;
        }
        TakeKeeps(list, taken, e, p, disk.Length);
        SetDfnReads(dirs, e, p, dfn);
        assert dfn in list;
        dirs := SetDfn(dirs, e, p, dfn);
      }
    }

    // pf_update_env_page; `mapped` says whether the page is mapped on the modified frame, `data` is what the frame
    // holds
    method UpdateEnvPage(e: nat, p: nat, mapped: bool, data: D) returns (panics: bool, r: int)
      requires Valid() && p < KERNEL_FIRST
      modifies this, disk
      ensures Valid()
      ensures panics <==> old(Stored(e, p)) == None && (old(free) == [] || !Growable(p, stackBottom))
      ensures if panics then OnlyChanged(e, p, None) else r == 0 && OnlyChanged(e, p, Some(data))
      ensures |free| == |old(free)| - (if !panics && old(Stored(e, p)) == None then 1 else 0)
    {
      panics, r := false, 0;
      assert forall d, q: nat :: Dfn(dirs, d, q) != 0 ==> Used(dirs, Dfn(dirs, d, q));
      if Dfn(dirs, e, p) == 0 {
        if !Growable(p, stackBottom) {
          return true, 0;
        }
        if mapped {
          r := AddEnvPage(e, p, data);
          panics := r == E_NO_PAGE_FILE_SPACE;
          return;
        }
        r := AddEmptyEnvPage(e, p);
        if r == E_NO_PAGE_FILE_SPACE {
          return true, r;
        }
      }
      UsedIsOwn(dirs, e, p, disk.Length, free);
      disk[Dfn(dirs, e, p)] := data;
    }

    // pf_read_env_page
    method ReadEnvPage(e: nat, p: nat) returns (r: int, data: Option<D>)
      requires Valid() && p < ALL_PAGES
      ensures data == Stored(e, p)
      ensures r == if data == None then E_PAGE_NOT_EXIST_IN_PF else 0
    {
      var dfn := Dfn(dirs, e, p);
      if dfn == 0 {
        return E_PAGE_NOT_EXIST_IN_PF, None;
      }
      UsedIsOwn(dirs, e, p, disk.Length, free);
      return 0, Some(disk[dfn]);
    }

    // pf_remove_env_page
    method RemoveEnvPage(e: nat, p: nat)
      requires Valid() && p < ALL_PAGES
      modifies this
      ensures Valid() && OnlyChanged(e, p, None)
      ensures forall d: nat, q: nat :: Dfn(dirs, d, q) == if d == e && q == p then 0 else Dfn(old(dirs), d, q)
      ensures free == if Dfn(old(dirs), e, p) == 0 then old(free) else [Dfn(old(dirs), e, p)] + old(free)
      ensures forall d: nat, q: nat :: HasEntry(old(dirs), d, q) ==> HasEntry(dirs, d, q)
    {
      if e !in dirs {
        return;
      }
      assert ShapeOf(dirs[e]);
      if dirs[e][p / ENTRIES] == None {
        return;
      }
      var dfn := Dfn(dirs, e, p);
      SetDfnReads(dirs, e, p, 0);
      if dfn != 0 {
        ReturnKeeps(free, dirs, e, p, disk.Length);
      } else {
        SameFrames(free, dirs, SetDfn(dirs, e, p, 0), disk.Length);
      }
      dirs := SetDfn(dirs, e, p, 0);
      FreeDiskFrame(dfn);
    }

    /** A page of the environment below page `p`. */
    ghost predicate Below(before: Directories, e: nat, p: nat, f: nat) {
      f != 0 && exists q: nat :: q < p && Dfn(before, e, q) == f
    }

    /** How far pf_free_env has come: the frames of the pages below `p` are back in the list. */
    ghost predicate FreedBelow(before: Directories, list: seq<nat>, e: nat, p: nat)
      reads this
    {
      && (forall d: nat, q: nat :: Dfn(dirs, d, q) == if d == e && q < p then 0 else Dfn(before, d, q))
      && (forall f: nat :: f in free <==> f in list || Below(before, e, p, f))
      && |free| >= |list|
    }

    // the inner loop of pf_free_env, over one table
    method FreeTable(e: nat, x: nat, ghost before: Directories, ghost list: seq<nat>)
      requires Valid() && e in dirs && x < TABLES && dirs[e][x].Some? && FreedBelow(before, list, e, x * ENTRIES)
      modifies this
      ensures Valid() && e in dirs && FreedBelow(before, list, e, (x + 1) * ENTRIES)
    {
      hide Partition, Dfn, SetDfn;
      var j := 0;
      while j < ENTRIES
        invariant 0 <= j <= ENTRIES && Valid() && e in dirs && dirs[e][x].Some?
        invariant FreedBelow(before, list, e, x * ENTRIES + j)
      {
        var p := x * ENTRIES + j;
        assert p / ENTRIES == x && p % ENTRIES == j && p < USER_END;
        assert HasEntry(dirs, e, p) by { assert ShapeOf(dirs[e]); }
        RemoveEnvPage(e, p);
        assert HasEntry(dirs, e, p);
        j := j + 1;
      }
    }

    /** Nothing of the environment lies at or above USER_TOP. */
    ghost predicate AllBelowUserTop(dirs: Directories, e: nat) {
      forall p: nat :: p >= USER_END ==> Dfn(dirs, e, p) == 0
    }

    // pf_free_env of an environment that has a directory; exactly the frames of its pages below USER_TOP return to
    // the list, so every frame stays accounted for if and only if it has no other page
    method FreeEnv(e: nat)
      requires Valid() && e in dirs
      modifies this
      ensures Valid() <==> AllBelowUserTop(old(dirs), e)
      ensures forall f: nat :: f in free <==> f in old(free) || Below(old(dirs), e, USER_END, f)
      ensures |free| >= |old(free)|
      ensures forall d: nat, q: nat :: Dfn(dirs, d, q) == if d == e then 0 else Dfn(old(dirs), d, q)
    {
      ghost var before, list := dirs, free;
      hide Partition, Dfn, SetDfn;
      var x := 0;
      while x < TABLES
        invariant 0 <= x <= TABLES && Valid() && e in dirs && FreedBelow(before, list, e, x * ENTRIES)
      {
        assert ShapeOf(dirs[e]);
        if dirs[e][x] != None {
          FreeTable(e, x, before, list);
          assert ShapeOf(dirs[e]);
          ghost var full := dirs;
          dirs := dirs[e := dirs[e][x := None]];
          EmptyTableGone(full, e, x);
          SameFrames(free, full, dirs, disk.Length);
        } else {
          NoTableNoFrames(dirs, before, list, e, x);
        }
        x := x + 1;
      }
      ghost var full := dirs;
      dirs := dirs - {e};
      DirectoryGone(free, full, e, disk.Length);
    }

    lemma NoTableNoFrames(now: Directories, before: Directories, list: seq<nat>, e: nat, x: nat)
      requires dirs == now && e in dirs && x < |dirs[e]| && dirs[e][x] == None
      requires FreedBelow(before, list, e, x * ENTRIES)
      ensures FreedBelow(before, list, e, (x + 1) * ENTRIES)
    {
      assert forall q: nat :: q / ENTRIES == x ==> Dfn(now, e, q) == 0;
      assert forall q: nat :: x * ENTRIES <= q < (x + 1) * ENTRIES ==> q / ENTRIES == x;
      hide Dfn;
      forall f: nat ensures Below(before, e, x * ENTRIES, f) <==> Below(before, e, (x + 1) * ENTRIES, f) {
        assert forall q: nat :: x * ENTRIES <= q < (x + 1) * ENTRIES ==> Dfn(before, e, q) == Dfn(now, e, q);
      }
    }
  }

  lemma EmptyTableGone(dirs: Directories, e: nat, x: nat)
    requires Shape(dirs) && e in dirs && x < |dirs[e]|
    requires forall q: nat :: x * ENTRIES <= q < (x + 1) * ENTRIES ==> Dfn(dirs, e, q) == 0
    ensures var dirs' := dirs[e := dirs[e][x := None]];
      Shape(dirs') && forall d: nat, q: nat :: Dfn(dirs', d, q) == Dfn(dirs, d, q)
  {
    var dirs' := dirs[e := dirs[e][x := None]];
    forall d | d in dirs' ensures ShapeOf(dirs'[d]) {
      assert ShapeOf(dirs[d]);
    }
    forall d: nat, q: nat ensures Dfn(dirs', d, q) == Dfn(dirs, d, q) {
      assert q / ENTRIES == x ==> x * ENTRIES <= q < (x + 1) * ENTRIES;
    }
  }

  /** Forgetting a directory loses no frame iff it has no page left. */
  lemma DirectoryGone(free: seq<nat>, dirs: Directories, e: nat, n: nat)
    requires Shape(dirs) && Partition(free, dirs, n)
    ensures Shape(dirs - {e}) && forall d: nat, q: nat :: Dfn(dirs - {e}, d, q) == if d == e then 0 else Dfn(dirs, d, q)
    ensures Partition(free, dirs - {e}, n) <==> forall q: nat :: Dfn(dirs, e, q) == 0
  {
    var dirs' := dirs - {e};
    if p: nat :| Dfn(dirs, e, p) != 0 {
      FrameLost(free, dirs, e, p, n);
    } else {
      SameFrames(free, dirs, dirs', n);
    }
  }

  lemma FrameLost(free: seq<nat>, dirs: Directories, e: nat, p: nat, n: nat)
    requires Partition(free, dirs, n) && Dfn(dirs, e, p) != 0
    ensures !Partition(free, dirs - {e}, n)
  {
    var f, dirs' := Dfn(dirs, e, p), dirs - {e};
    assert forall d: nat, q: nat :: Dfn(dirs', d, q) == if d == e then 0 else Dfn(dirs, d, q);
    hide Dfn;
    assert Used(dirs, f);
    assert f !in free && 0 < f < n;
    assert forall d: nat, q: nat :: Dfn(dirs', d, q) != f;
    assert !Used(dirs', f);
  }

  function ZeroTable(): (t: seq<nat>)
    ensures |t| == ENTRIES && forall j :: 0 <= j < ENTRIES ==> t[j] == 0
  {
    seq(ENTRIES, _ => 0)
  }

  lemma HangTable(dirs: Directories, e: nat, x: nat)
    requires e in dirs && x < |dirs[e]| && dirs[e][x] == None
    ensures var dirs' := dirs[e := dirs[e][x := Some(ZeroTable())]];
      (Shape(dirs) ==> Shape(dirs')) && forall d: nat, q: nat :: Dfn(dirs', d, q) == Dfn(dirs, d, q)
  {
    var dirs' := dirs[e := dirs[e][x := Some(ZeroTable())]];
    if Shape(dirs) {
      forall d | d in dirs' ensures ShapeOf(dirs'[d]) {
        assert ShapeOf(dirs[d]);
      }
    }
  }

  lemma UsedIsOwn(dirs: Directories, e: nat, p: nat, n: nat, free: seq<nat>)
    requires Partition(free, dirs, n) && Dfn(dirs, e, p) != 0
    ensures Dfn(dirs, e, p) < n
    ensures forall d: nat, q: nat :: !(d == e && q == p) ==> Dfn(dirs, d, q) != Dfn(dirs, e, p)
    ensures forall d: nat, q: nat :: Dfn(dirs, d, q) != 0 ==> Dfn(dirs, d, q) < n
  {
    hide Dfn;
    forall d: nat, q: nat | Dfn(dirs, d, q) != 0 ensures Dfn(dirs, d, q) < n {
      assert Used(dirs, Dfn(dirs, d, q));
    }
  }

  /** A page file of two disk frames, in which environment 0 has one page, at USER_TOP. */
  function StrayPage(): Directories {
    map[0 := seq(ENTRIES, x => if x == USER_END / ENTRIES then Some(ZeroTable()[USER_END % ENTRIES := 1]) else None)]
  }

  /** pf_add_env_page accepts pages from USER_TOP up to KERNEL_BASE, which pf_free_env passes over: here no frame
      returns to the list, and frame 1 is neither free nor used ever after. */
  lemma FreeEnvLosesFrame()
    ensures var dirs := StrayPage();
      && Shape(dirs) && Partition([], dirs, 2) && Dfn(dirs, 0, USER_END) == 1
      && (forall f: nat :: Used(dirs, f) && f != 0 ==> !(exists q: nat :: q < USER_END && Dfn(dirs, 0, q) == f))
      && !Partition([], dirs - {0}, 2)
  {
    var dirs := StrayPage();
    forall d: nat, q: nat ensures Dfn(dirs, d, q) == if d == 0 && q == USER_END then 1 else 0 {
      assert q / ENTRIES == USER_END / ENTRIES && q % ENTRIES == USER_END % ENTRIES ==> q == USER_END;
    }
    hide StrayPage;
    assert Dfn(dirs, 0, USER_END) == 1 && Used(dirs, 1);
    FrameLost([], dirs, 0, USER_END, 2);
  }

  lemma StoredFrames<D>(file: PageFile<D>, e: nat)
    requires file.Valid()
    ensures forall p: nat :: file.Stored(e, p) == None <==> Dfn(file.dirs, e, p) == 0
  {
    hide Dfn;
    forall p: nat ensures file.Stored(e, p) == None <==> Dfn(file.dirs, e, p) == 0 {
      if Dfn(file.dirs, e, p) != 0 { assert Used(file.dirs, Dfn(file.dirs, e, p)); }
    }
  }
}
