/**
 The page working set of an environment (kern/mem/working_set_manager.c) and its aging by the clock
 (update_WS_time_stamps of kern/cpu/sched.c).
 */
module WorkingSet {
  import opened Counting
  import opened Layout
  import opened LruAging

  /** One entry of ptr_pageWorkingSet. */
  datatype WsEntry = WsEntry(page: nat, empty: bool, stamp: nat)

  /** env_page_ws_clear_entry */
  const CLEARED := WsEntry(0, true, 0)

  predicate Occupied(w: WsEntry) { !w.empty }

  /** The pages of the first `n` entries. */
  ghost function PagesOf(es: seq<WsEntry>, n: nat): (u: set<nat>)
    requires n <= |es|
    ensures forall p :: p in u <==> exists i :: 0 <= i < n && !es[i].empty && es[i].page == p
  {
    if n == 0 then {} else PagesOf(es, n - 1) + if es[n - 1].empty then {} else {es[n - 1].page}
  }

  /** Does the clock see at entry `i` that its page was used?  Whoever sees it first clears the page's used bit. */
  ghost predicate Seen(es: seq<WsEntry>, used: set<nat>, i: nat)
    requires i < |es|
  {
    es[i].page in used && es[i].page !in PagesOf(es, i)
  }

  function AgedEntry(w: WsEntry, seen: bool): WsEntry {
    if w.empty then w else w.(stamp := Aged(w.stamp, seen))
  }

  /** One tick for the first `n` entries. */
  ghost function AgedAll(es: seq<WsEntry>, used: set<nat>, n: nat): (r: seq<WsEntry>)
    ensures |r| == |es| && forall i :: 0 <= i < |r| ==>
      r[i] == if i < n then AgedEntry(es[i], Seen(es, used, i)) else es[i]
  {
    seq(|es|, i requires 0 <= i < |es| => if i < n then AgedEntry(es[i], Seen(es, used, i)) else es[i])
  }

  /** The histories, each one tick longer. */
  ghost function Extended(hs: map<nat, seq<bool>>, es: seq<WsEntry>, used: set<nat>, n: nat): map<nat, seq<bool>>
    requires n <= |es|
  {
    if n == 0 then hs
    else
      var before := Extended(hs, es, used, n - 1);
      if es[n - 1].empty then before
      else before[n - 1 := (if n - 1 in before then before[n - 1] else []) + [Seen(es, used, n - 1)]]
  }

  /** The clock sees every use, at each entry that holds the page, if and only if no used page is held twice. */
  lemma SeesEveryUse(es: seq<WsEntry>, used: set<nat>)
    ensures (forall i :: 0 <= i < |es| && !es[i].empty ==> Seen(es, used, i) == (es[i].page in used))
            <==> (forall i, j :: 0 <= i < j < |es| && !es[i].empty && !es[j].empty && es[i].page in used ==>
              es[i].page != es[j].page)
  {
    if i, j :| 0 <= i < j < |es| && !es[i].empty && !es[j].empty && es[i].page in used && es[i].page == es[j].page {
      assert !Seen(es, used, j);
    }
  }

  lemma {:induction false} ExtendedAt(hs: map<nat, seq<bool>>, es: seq<WsEntry>, used: set<nat>, n: nat, i: nat)
    requires n <= |es|
    ensures i >= n || es[i].empty ==> (i in Extended(hs, es, used, n) <==> i in hs)
                                      && (i in hs ==> Extended(hs, es, used, n)[i] == hs[i])
    ensures i < n && !es[i].empty && i in hs ==>
              i in Extended(hs, es, used, n) && Extended(hs, es, used, n)[i] == hs[i] + [Seen(es, used, i)]
  {
    if n > 0 {
      ExtendedAt(hs, es, used, n - 1, i);
    }
  }

  /** One tick, bit by bit: an entry in use keeps its page, and its stamp moves two bits to the right and gets its top
      bit iff the page was used and no entry before holds it too; an empty entry stays as it is. */
  lemma TickMeans(es: seq<WsEntry>, used: set<nat>, i: nat, bit: nat)
    requires i < |es| && es[i].stamp < LruAging.WORD && bit < 32
    ensures var w, w' := es[i], AgedAll(es, used, |es|)[i];
      if w.empty then w' == w
      else
        && !w'.empty && w'.page == w.page && w'.stamp < LruAging.WORD
        && (BitAt(w'.stamp, bit) <==>
              if bit == 31 then w.page in used && forall j :: 0 <= j < i && !es[j].empty ==> es[j].page != w.page
              else BitAt(w.stamp, bit + 2))
    ensures forall p :: p in used - PagesOf(es, |es|) <==>
              p in used && forall j :: 0 <= j < |es| && !es[j].empty ==> es[j].page != p
  {
    hide Aged, BitAt;
    AgedIsShiftAndOr(es[i].stamp, Seen(es, used, i), bit);
  }

  lemma NothingAged(es: seq<WsEntry>, used: set<nat>, hs: map<nat, seq<bool>>)
    ensures AgedAll(es, used, 0) == es && PagesOf(es, 0) == {} && Extended(hs, es, used, 0) == hs
  {
  }

  /** One entry more: an empty one changes nothing, another is aged by the used bit as the entries before left it. */
  lemma NextAged(es: seq<WsEntry>, used: set<nat>, hs: map<nat, seq<bool>>, n: nat)
    requires n < |es|
    ensures var aged, rest, before := AgedAll(es, used, n), used - PagesOf(es, n), Extended(hs, es, used, n);
      && aged[n] == es[n]
      && (es[n].empty ==> AgedAll(es, used, n + 1) == aged && PagesOf(es, n + 1) == PagesOf(es, n)
                          && Extended(hs, es, used, n + 1) == before)
      && (!es[n].empty ==>
            && AgedAll(es, used, n + 1) == aged[n := AgedEntry(es[n], es[n].page in rest)]
            && used - PagesOf(es, n + 1) == rest - {es[n].page}
            && Extended(hs, es, used, n + 1)
              == before[n := (if n in before then before[n] else []) + [es[n].page in rest]])
  {
    hide PagesOf, Seen, Aged;
    PagesGrow(es, used, n);
  }

  lemma PagesGrow(es: seq<WsEntry>, used: set<nat>, n: nat)
    requires n < |es|
    ensures PagesOf(es, n + 1) == PagesOf(es, n) + if es[n].empty then {} else {es[n].page}
    ensures Seen(es, used, n) == (es[n].page in used - PagesOf(es, n))
  {
  }

  /** Aged stamps are the stamps of the longer histories. */
  lemma StampsFollow(es: seq<WsEntry>, used: set<nat>, hs: map<nat, seq<bool>>, n: nat)
    requires n == |es| && forall i :: 0 <= i < |es| && !es[i].empty ==> i in hs && es[i].stamp == Stamp(hs[i])
    ensures var aged := AgedAll(es, used, n);
      forall i :: 0 <= i < |es| && !aged[i].empty ==>
        i in Extended(hs, es, used, n) && aged[i].stamp == Stamp(Extended(hs, es, used, n)[i])
  {
    forall i | 0 <= i < |es| && !es[i].empty
      ensures i in Extended(hs, es, used, n)
          && AgedEntry(es[i], Seen(es, used, i)).stamp == Stamp(Extended(hs, es, used, n)[i]) {
      ExtendedAt(hs, es, used, n, i);
      var h, u := hs[i], Seen(es, used, i);
      assert (h + [u])[..|h + [u]| - 1] == h;
    }
  }

  class Pages {
    const entries: array<WsEntry>
    var used: set<nat>                            // the pages whose table entry has PERM_USED
    ghost var history: map<nat, seq<bool>>        // per entry, the used bits seen since its page was loaded

    /** Every stamp is that of the entry's history. */
    ghost predicate Valid()
      reads this, entries
    {
      forall i :: 0 <= i < entries.Length && !entries[i].empty ==>
        i in history && entries[i].stamp == Stamp(history[i])
    }

    constructor (n: nat)
      ensures Valid() && entries.Length == n && fresh(entries) && forall i :: 0 <= i < n ==> entries[i] == CLEARED
    {
      entries := new WsEntry[n](_ => WsEntry(0, true, 0));
      used, history := {}, map[];
    }

    // env_page_ws_get_size
    method GetSize() returns (size: nat)
      ensures size == Count(entries[..], Occupied)
    {
      size := 0;
      var i := 0;
      while i < entries.Length
        invariant 0 <= i <= entries.Length && size == Count(entries[..i], Occupied)
      {
        assert entries[..i + 1][..i] == entries[..i];
        if !entries[i].empty {
          size := size + 1;
        }
        i := i + 1;
      }
      assert entries[..entries.Length] == entries[..];
    }

    // env_page_ws_set_entry; loading counts as a use
    method SetEntry(i: nat, page: nat)
      requires Valid() && i < entries.Length && page < USER_END
      modifies this`history, entries
      ensures Valid() && entries[..] == old(entries[..])[i := WsEntry(page, false, TOP)]
      ensures history == old(history)[i := [true]]
    {
      entries[i] := WsEntry(page, false, TOP);
      history := history[i := [true]];
      assert Stamp([true]) == TOP by { assert [true][..0] == []; }
    }

    // env_page_ws_clear_entry
    method ClearEntry(i: nat)
      requires Valid() && i < entries.Length
      modifies entries
      ensures Valid() && entries[..] == old(entries[..])[i := CLEARED]
    {
      entries[i] := WsEntry(0, true, 0);
    }

    // env_page_ws_invalidate: the first entry for the page, empty or not, is cleared
    method Invalidate(page: nat)
      requires Valid()
      modifies entries
      ensures Valid()
      ensures (forall i :: 0 <= i < entries.Length ==> old(entries[i]).page != page) ==> entries[..] == old(entries[..])
      ensures (exists i :: 0 <= i < entries.Length && old(entries[i]).page == page) ==>
        exists i :: 0 <= i < entries.Length && old(entries[i]).page == page
                    && (forall j :: 0 <= j < i ==> old(entries[j]).page != page)
                    && entries[..] == old(entries[..])[i := CLEARED]
    {
      var i := 0;
      while i < entries.Length
        invariant 0 <= i <= entries.Length && entries[..] == old(entries[..])
        invariant forall j :: 0 <= j < i ==> entries[j].page != page
      {
        if entries[i].page == page {
          assert old(entries[i]).page == page;
          ClearEntry(i);
          return;
        }
        i := i + 1;
      }
    }

    // the first loop of update_WS_time_stamps
    method UpdateTimeStamps()
      requires Valid()
      modifies this, entries
      ensures Valid()
      ensures entries[..] == AgedAll(old(entries[..]), old(used), entries.Length)
      ensures used == old(used) - PagesOf(old(entries[..]), entries.Length)
      ensures history == Extended(old(history), old(entries[..]), old(used), entries.Length)
    {
      hide Stamp, Aged, AgedEntry, AgedAll, PagesOf, Extended;
      ghost var es, us, hs := entries[..], used, history;
      NothingAged(es, us, hs);
      var n := 0;
      while n < entries.Length
        invariant 0 <= n <= entries.Length && entries[..] == AgedAll(es, us, n)
        invariant used == us - PagesOf(es, n) && history == Extended(hs, es, us, n)
      {
        NextAged(es, us, hs, n);
        if !entries[n].empty {
          AgeEntry(n);
        }
        n := n + 1;
      }
      StampsFollow(es, us, hs, entries.Length);
    }

    // one turn of that loop, for an entry in use
    method AgeEntry(n: nat)
      requires n < entries.Length && !entries[n].empty
      modifies this, entries
      ensures entries[..] == old(entries[..])[n := AgedEntry(old(entries[n]), old(entries[n]).page in old(used))]
      ensures used == old(used) - {old(entries[n]).page}
      ensures history == old(history)[n :=
        (if n in old(history) then old(history)[n] else []) + [old(entries[n]).page in old(used)]]
    {
      var w := entries[n];
      history := history[n := (if n in history then history[n] else []) + [w.page in used]];
      if w.page in used {
        entries[n] := w.(stamp := w.stamp / 4 + TOP);
        used := used - {w.page};
      } else {
        entries[n] := w.(stamp := w.stamp / 4);
      }
    }

    /** The replacement's comparison of stamps is a comparison of what the clock saw of the two pages. */
    lemma OlderMeansUsedLongerAgo(i: nat, j: nat)
      requires Valid() && i < entries.Length && j < entries.Length && !entries[i].empty && !entries[j].empty
      ensures entries[i].stamp < entries[j].stamp <==> Before(history[i], history[j], DIGITS)
    {
      StampsCompareHistories(history[i], history[j]);
    }
  }
}
