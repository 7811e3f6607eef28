/**
 Every run of operations on the page file: which of them take effect, and what a read then returns.
 */
module PageFileRuns {
  import opened Basics
  import opened Blocks
  import opened Counting
  import opened Layout
  import opened PageFile

  /** pf_add_env_page, pf_add_empty_env_page, pf_update_env_page, pf_remove_env_page and pf_free_env */
  datatype Op<D> =
    | Write(e: nat, p: nat, data: D)
    | Reserve(e: nat, p: nat)
    | Update(e: nat, p: nat, mapped: bool, data: D)
    | Remove(e: nat, p: nat)
    | Free(e: nat)

  /** What is known of a page: it is not there, it reads whatever its disk frame last held, or it reads `data`. */
  datatype Page<D> = Absent | Unwritten | Holds(data: D)

  predicate Agrees<D(==)>(stored: Option<D>, known: Page<D>) {
    match known
    case Absent => stored == None
    case Unwritten => stored.Some?
    case Holds(v) => stored == Some(v)
  }

  /** What operation `op` makes of page `p` of environment `e`. */
  function After<D>(op: Op<D>, e: nat, p: nat, was: Page<D>): Page<D> {
    match op
    case Write(d, q, v) => if d == e && q == p then Holds(v) else was
    case Reserve(d, q) => if d == e && q == p && was.Absent? then Unwritten else was
    case Update(d, q, _, v) => if d == e && q == p then Holds(v) else was
    case Remove(d, q) => if d == e && q == p then Absent else was
    case Free(d) => if d == e then Absent else was
  }

  /** What the log says of page `p` of environment `e`: the last data written to it and not removed since. */
  function LastWritten<D>(log: seq<Op<D>>, e: nat, p: nat): Page<D> {
    if log == [] then Absent else After(log[|log| - 1], e, p, LastWritten(log[..|log| - 1], e, p))
  }

  /** The log, continued by one operation that took effect. */
  lemma LogGrows<D>(log: seq<Op<D>>, op: Op<D>)
    ensures forall e, p :: LastWritten(log + [op], e, p) == After(op, e, p, LastWritten(log, e, p))
  {
    assert (log + [op])[..|log + [op]| - 1] == log;
  }

  // ---------------------------------------------------------------- which operations take effect

  predicate Adds<D>(op: Op<D>) {
    op.Write? || op.Reserve? || op.Update?
  }

  /** The pages there are after an operation that took effect, */
  function PagesAfter<D>(op: Op<D>, pages: set<(nat, nat)>): set<(nat, nat)> {
    if Adds(op) then pages + {(op.e, op.p)}
    else if op.Remove? then pages - {(op.e, op.p)}
    else set k | k in pages && k.0 != op.e
  }

  /** and after a log. */
  function Present<D>(log: seq<Op<D>>): set<(nat, nat)> {
    if log == [] then {} else PagesAfter(log[|log| - 1], Present(log[..|log| - 1]))
  }

  /** An operation fails if it adds a page and there is no room for one more, or an update may not add it. */
  predicate Fails<D>(op: Op<D>, pages: set<(nat, nat)>, room: nat, stackBottom: nat) {
    Adds(op) && (op.e, op.p) !in pages && (|pages| >= room || (op.Update? && !Growable(op.p, stackBottom)))
  }

  /** The operations of the log that take effect on a new page file with `room` disk frames, and whether it ended in a
      panic: an update that fails panics, any other operation that fails just returns E_NO_PAGE_FILE_SPACE. */
  function Effective<D>(log: seq<Op<D>>, room: nat, stackBottom: nat): (seq<Op<D>>, bool) {
    if log == [] then ([], false)
    else
      var (done, panics) := Effective(log[..|log| - 1], room, stackBottom);
      var op := log[|log| - 1];
      if panics then (done, true)
      else if Fails(op, Present(done), room, stackBottom) then (done, op.Update?)
      else (done + [op], false)
  }

  lemma {:induction false} PresentIs<D>(log: seq<Op<D>>, e: nat, p: nat)
    ensures (e, p) in Present(log) <==> LastWritten(log, e, p) != Absent
  {
    if log != [] {
      PresentIs(log[..|log| - 1], e, p);
    }
  }

  /** Dropping what fails leaves no page that the whole log would not. */
  lemma {:induction false} NoMorePresent<D>(log: seq<Op<D>>, room: nat, stackBottom: nat)
    ensures !Effective(log, room, stackBottom).1 ==> Present(Effective(log, room, stackBottom).0) <= Present(log)
  {
    if log != [] {
      var init, op := log[..|log| - 1], log[|log| - 1];
      NoMorePresent(init, room, stackBottom);
      var (done, panics) := Effective(init, room, stackBottom);
      assert (done + [op])[..|done + [op]| - 1] == done;
    }
  }

  /** There are never more pages than disk frames. */
  lemma {:induction false} NeverTooMany<D>(log: seq<Op<D>>, room: nat, stackBottom: nat)
    ensures |Present(Effective(log, room, stackBottom).0)| <= room
  {
    if log != [] {
      var init, op := log[..|log| - 1], log[|log| - 1];
      NeverTooMany(init, room, stackBottom);
      var (done, panics) := Effective(init, room, stackBottom);
      assert (done + [op])[..|done + [op]| - 1] == done;
      OneMoreAtMost(op, Present(done));
    }
  }

  lemma OneMoreAtMost<D>(op: Op<D>, pages: set<(nat, nat)>)
    ensures |PagesAfter(op, pages)| <= |pages| + if Adds(op) && (op.e, op.p) !in pages then 1 else 0
  {
    if Adds(op) && (op.e, op.p) in pages {
      assert PagesAfter(op, pages) == pages;
    } else if !Adds(op) {
      SmallerCard(PagesAfter(op, pages), pages);
    }
  }

  /** The log, up to operation `i`, fits: its pages have room, and no update adds a page outside heap and stack. */
  predicate FitsAt<D>(log: seq<Op<D>>, i: nat, room: nat, stackBottom: nat)
    requires i < |log|
  {
    !Fails(log[i], Present(log[..i]), room, stackBottom)
  }

  /** Every operation takes effect if and only if at each the pages so far leave room. */
  lemma {:induction false} AllEffective<D>(log: seq<Op<D>>, room: nat, stackBottom: nat)
    ensures Effective(log, room, stackBottom) == (log, false)
            <==> forall i :: 0 <= i < |log| ==> FitsAt(log, i, room, stackBottom)
  {
    hide Fails, Present;
    if log != [] {
      var n, op := |log| - 1, log[|log| - 1];
      AllEffective(log[..n], room, stackBottom);
      EffectiveLength(log[..n], room, stackBottom);
      forall i | 0 <= i < n ensures FitsAt(log, i, room, stackBottom) == FitsAt(log[..n], i, room, stackBottom) {
        assert log[..i] == log[..n][..i];
      }
      assert log[..n] + [op] == log;
      var (done, panics) := Effective(log[..n], room, stackBottom);
      if done + [op] == log {
        assert done == (done + [op])[..n];
      }
      assert FitsAt(log, n, room, stackBottom) <==> !Fails(op, Present(log[..n]), room, stackBottom);
    }
  }

  lemma {:induction false} EffectiveLength<D>(log: seq<Op<D>>, room: nat, stackBottom: nat)
    ensures |Effective(log, room, stackBottom).0| <= |log|
  {
    if log != [] {
      EffectiveLength(log[..|log| - 1], room, stackBottom);
    }
  }

  /** So a log without stray updates that is no longer than the free disk frames takes effect as a whole. */
  lemma ShortLogs<D>(log: seq<Op<D>>, room: nat, stackBottom: nat)
    requires |log| <= room && forall i :: 0 <= i < |log| && log[i].Update? ==> Growable(log[i].p, stackBottom)
    ensures Effective(log, room, stackBottom) == (log, false)
  {
    forall i | 0 <= i < |log| ensures FitsAt(log, i, room, stackBottom) { PresentAtMost(log[..i]); }
    AllEffective(log, room, stackBottom);
  }

  lemma {:induction false} PresentAtMost<D>(log: seq<Op<D>>)
    ensures |Present(log)| <= |log|
  {
    if log != [] {
      PresentAtMost(log[..|log| - 1]);
      OneMoreAtMost(log[|log| - 1], Present(log[..|log| - 1]));
    }
  }

  /** A panic ends the run. */
  lemma {:induction false} PanicEnds<D>(log: seq<Op<D>>, i: nat, room: nat, stackBottom: nat)
    requires i <= |log| && Effective(log[..i], room, stackBottom).1
    ensures Effective(log, room, stackBottom) == Effective(log[..i], room, stackBottom)
  {
    if i < |log| {
      assert log[..|log| - 1][..i] == log[..i];
      PanicEnds(log[..|log| - 1], i, room, stackBottom);
    } else {
      assert log[..i] == log;
    }
  }

  // ---------------------------------------------------------------- pages and disk frames

  /** Every page reads as the log says. */
  ghost predicate Follows<D>(file: PageFile<D>, log: seq<Op<D>>)
    reads file, file.disk
  {
    forall e: nat, p: nat :: Agrees(file.Stored(e, p), LastWritten(log, e, p))
  }

  /** The disk frame of a page named by environment and page. */
  function FrameAt(dirs: Directories, k: (nat, nat)): nat {
    Dfn(dirs, k.0, k.1)
  }

  /** The pages that have a disk frame. */
  ghost predicate AreStored(dirs: Directories, pages: set<(nat, nat)>) {
    forall k: (nat, nat) :: k in pages <==> FrameAt(dirs, k) != 0
  }

  lemma UsedFrames(dirs: Directories, pages: set<(nat, nat)>, f: nat)
    requires AreStored(dirs, pages)
    ensures f in Image(pages, k => FrameAt(dirs, k)) <==> 0 < f && Used(dirs, f)
  {
    hide Dfn;
    if 0 < f && Used(dirs, f) {
      var e: nat, p: nat :| Dfn(dirs, e, p) == f;
      assert FrameAt(dirs, (e, p)) == f;
    }
    if f in Image(pages, k => FrameAt(dirs, k)) {
      var k :| k in pages && FrameAt(dirs, k) == f;
      assert Dfn(dirs, k.0, k.1) == f;
    }
  }

  lemma FramesDiffer(dirs: Directories, pages: set<(nat, nat)>)
    requires UsedOnce(dirs) && AreStored(dirs, pages)
    ensures forall a, b :: a in pages && b in pages && a != b ==> FrameAt(dirs, a) != FrameAt(dirs, b)
  {
    hide Dfn;
    forall a, b | a in pages && b in pages && a != b ensures FrameAt(dirs, a) != FrameAt(dirs, b) {
      assert Dfn(dirs, a.0, a.1) != 0;
    }
  }

  lemma FreeOrUsed(free: seq<nat>, dirs: Directories, n: nat, f: nat)
    requires Partition(free, dirs, n)
    ensures 0 < f < n <==> f in free || (0 < f && Used(dirs, f))
    ensures !(f in free && Used(dirs, f))
  {
    hide Used, UsedOnce, NoRepeats;
  }

  lemma TwoParts(list: set<nat>, used: set<nat>, n: nat)
    requires forall f: nat :: 0 < f < n <==> f in list || f in used
    requires list !! used
    ensures |list| + |used| == if n == 0 then 0 else n - 1
  {
    assert list + used == Below(n) - {0};
    if n == 0 {
      assert Below(0) - {0} == {};
    }
  }

  /** The disk frames after the first are those on the list and those of the pages there are. */
  lemma FramesLeft(free: seq<nat>, dirs: Directories, n: nat, pages: set<(nat, nat)>)
    requires Partition(free, dirs, n) && AreStored(dirs, pages)
    ensures |free| + |pages| == if n == 0 then 0 else n - 1
  {
    hide Used, UsedOnce, AreStored, FrameAt, NoRepeats, Image, Partition;
    assert NoRepeats(free) && UsedOnce(dirs) by { ListOnce(free, dirs, n); }
    var used, list := Image(pages, k => FrameAt(dirs, k)), Elements(free);
    InjectiveCard(free);
    FramesDiffer(dirs, pages);
    ImageCard(pages, k => FrameAt(dirs, k));
    forall f: nat
      ensures 0 < f < n <==> f in list || f in used
      ensures !(f in list && f in used)
    {
      UsedFrames(dirs, pages, f);
      FreeOrUsed(free, dirs, n, f);
    }
    TwoParts(list, used, n);
  }

  lemma ListOnce(free: seq<nat>, dirs: Directories, n: nat)
    requires Partition(free, dirs, n)
    ensures NoRepeats(free) && UsedOnce(dirs)
  {
  }

  lemma FreeLeft<D>(file: PageFile<D>, log: seq<Op<D>>)
    requires file.Valid() && Follows(file, log)
    ensures |file.free| + |Present(log)| == if file.disk.Length == 0 then 0 else file.disk.Length - 1
    ensures forall e: nat, p: nat :: (e, p) in Present(log) <==> file.Stored(e, p) != None
  {
    hide Dfn, Partition, Present, LastWritten;
    forall e: nat, p: nat ensures (e, p) in Present(log) <==> file.Stored(e, p) != None {
      PresentIs(log, e, p);
    }
    forall k: (nat, nat) ensures k in Present(log) <==> FrameAt(file.dirs, k) != 0 {
      StoredFrames(file, k.0);
      assert k == (k.0, k.1);
    }
    FramesLeft(file.free, file.dirs, file.disk.Length, Present(log));
  }

  // ---------------------------------------------------------------- the run

  /** No page of environment `e` lies at or above USER_TOP. */
  ghost predicate BelowTop(pages: set<(nat, nat)>, e: nat) {
    forall p: nat :: p >= USER_END ==> (e, p) !in pages
  }

  /** Pages are below KERNEL_BASE, and an environment is freed only when none of its pages is at or above USER_TOP. */
  ghost predicate SafeLog<D>(log: seq<Op<D>>) {
    && (forall i :: 0 <= i < |log| && !log[i].Free? ==> log[i].p < KERNEL_FIRST)
    && (forall i :: 0 <= i < |log| && log[i].Free? ==> BelowTop(Present(log[..i]), log[i].e))
  }

  /** pf_add_empty_env_page, as the log sees it. */
  method Reserved<D>(file: PageFile<D>, ghost log: seq<Op<D>>, e: nat, p: nat) returns (done: bool)
    requires file.Valid() && Follows(file, log) && p < KERNEL_FIRST
    modifies file
    ensures file.Valid() && Follows(file, if done then log + [Reserve(e, p)] else log)
    ensures done <==> old(file.Stored(e, p)) != None || old(file.free) != []
  {
    hide Partition, LastWritten;
    LogGrows(log, Reserve(e, p));
    StoredFrames(file, e);
    var r := file.AddEmptyEnvPage(e, p);
    StoredFrames(file, e);
    done := r == 0;
    hide Dfn;
    assert forall q: nat :: !(q == p && done) ==> file.Stored(e, q) == old(file.Stored(e, q));
  }

  /** One operation: it takes effect unless it adds a page without a free disk frame or, being an update, outside heap
      and stack; an update that does not take effect panics. */
  method Perform<D>(file: PageFile<D>, ghost log: seq<Op<D>>, op: Op<D>) returns (done: bool, panics: bool)
    requires file.Valid() && Follows(file, log)
    requires op.Free? ==> BelowTop(Present(log), op.e)
    requires !op.Free? ==> op.p < KERNEL_FIRST
    modifies file, file.disk
    ensures file.Valid() && Follows(file, if done then log + [op] else log)
    ensures !done <==> Adds(op) && old(file.Stored(op.e, op.p)) == None
                       && (old(file.free) == [] || (op.Update? && !Growable(op.p, file.stackBottom)))
    ensures panics <==> !done && op.Update?
  {
    hide Partition, Dfn, LastWritten, Present;
    LogGrows(log, op);
    done, panics := true, false;
    match op {
      case Write(e, p, data) =>
        var r := file.AddEnvPage(e, p, data);
        done := r == 0;
      case Reserve(e, p) =>
        done := Reserved(file, log, e, p);
      case Update(e, p, mapped, data) =>
        var r;
        panics, r := file.UpdateEnvPage(e, p, mapped, data);
        done := !panics;
      case Remove(e, p) =>
        file.RemoveEnvPage(e, p);
      case Free(e) =>
        StoredFrames(file, e);
        forall p: nat | p >= USER_END ensures Dfn(file.dirs, e, p) == 0 { PresentIs(log, e, p); }
        FreeAll(file, e);
    }
  }

  /** Over every run on a new page file exactly the operations of Effective take effect, and then a read of any page
      returns the last data written for that page of that environment, whatever was done to others. */
  method Replay<D>(file: PageFile<D>, log: seq<Op<D>>) returns (applied: seq<Op<D>>, panics: bool)
    requires file.Valid() && (forall e, p :: file.Stored(e, p) == None) && SafeLog(log)
    modifies file, file.disk
    ensures file.Valid() && Follows(file, applied)
    ensures (applied, panics) == Effective(log, |old(file.free)|, file.stackBottom)
    ensures |file.free| == |old(file.free)| - |Present(applied)|
  {
    ghost var room, stackBottom := |file.free|, file.stackBottom;
    applied, panics := [], false;
    FreeLeft(file, applied);
    var i := 0;
    while i < |log| && !panics
      invariant 0 <= i <= |log| && file.Valid() && Follows(file, applied)
      invariant (applied, panics) == Effective(log[..i], room, stackBottom)
      invariant |file.free| + |Present(applied)| == room == if file.disk.Length == 0 then 0 else file.disk.Length - 1
    {
      hide Partition, Dfn, LastWritten, Follows, Present;
      FreeLeft(file, applied);
      NextEffective(log, i, room, stackBottom);
      NoMorePresent(log[..i], room, stackBottom);
      ghost var before := applied;
      var done;
      done, panics := Perform(file, applied, log[i]);
      if done {
        applied := applied + [log[i]];
      }
      i := i + 1;
      FreeLeft(file, applied);
    }
    if panics {
      PanicEnds(log, i, room, stackBottom);
    } else {
      assert log[..i] == log;
    }
  }

  lemma NextEffective<D>(log: seq<Op<D>>, i: nat, room: nat, stackBottom: nat)
    requires i < |log| && !Effective(log[..i], room, stackBottom).1
    ensures var done := Effective(log[..i], room, stackBottom).0;
      Effective(log[..i + 1], room, stackBottom) ==
      if Fails(log[i], Present(done), room, stackBottom) then (done, log[i].Update?) else (done + [log[i]], false)
  {
    assert log[..i + 1][..|log[..i + 1]| - 1] == log[..i];
  }

  /** pf_free_env, if the environment has a directory at all */
  method FreeAll<D>(file: PageFile<D>, e: nat)
    requires file.Valid() && forall p: nat :: p >= USER_END ==> Dfn(file.dirs, e, p) == 0
    modifies file
    ensures file.Valid()
    ensures forall d: nat, q: nat :: file.Stored(d, q) == if d == e then None else old(file.Stored(d, q))
  {
    if e in file.dirs {
      file.FreeEnv(e);
    }
  }
}
