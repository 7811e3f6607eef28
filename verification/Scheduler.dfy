/**
 kern/cpu/sched.c and kern/conc/semaphore_manager.c as they run: environments are nodes that move between intrusive
 lists, and the current environment, the statuses and the array of semaphores are updated in place.  A node has one
 pair of links, so the calls are safe only because nobody is ever on two lists.  Every call is proved equal to the
 function of Scheduling that specifies it.
 */
module Scheduler {
  import opened Blocks
  import opened Lists
  import opened Scheduling

  /** An environment; its data is env_id. */
  type Env = Node<nat>

  /** The lists of the kernel on which environments are chained. */
  class Queues {
    const lists: seq<List<nat>>
    ghost var members: set<Env>       // everybody on a list
    ghost var ids: seq<seq<nat>>      // who is on each list, head first

    /** Nobody is on two lists. */
    ghost predicate Apart()
      reads this, lists
    {
      && (forall i :: 0 <= i < |lists| ==> lists[i].members <= members)
      && (forall i, j :: 0 <= i < j < |lists| ==> lists[i] != lists[j] && lists[i].members !! lists[j].members)
    }

    /** Every list is well linked and holds whom it should. */
    ghost predicate Valid()
      reads this, lists, members
    {
      && Apart() && |ids| == |lists|
      && (forall i :: 0 <= i < |lists| ==> lists[i].Valid() && Holds(lists[i], ids[i]))
    }

    static ghost predicate Holds(l: List<nat>, q: seq<nat>)
      reads l, l.nodes`data
    {
      |q| == |l.nodes| && forall k :: 0 <= k < |q| ==> q[k] == l.nodes[k].data
    }

    constructor (n: nat)
      ensures Valid() && |lists| == n && members == {} && ids == seq(n, _ => []) && fresh(lists)
    {
      var made: seq<List<nat>> := [];
      while |made| < n
        invariant |made| <= n && fresh(made)
        invariant forall i :: 0 <= i < |made| ==> made[i].Valid() && made[i].nodes == [] && made[i].members == {}
        invariant forall i, j :: 0 <= i < j < |made| ==> made[i] != made[j]
      {
        var l := new List<nat>();
        made := made + [l];
      }
      lists, members, ids := made, {}, seq(n, _ => []);
    }

    // enqueue
    method Enqueue(q: nat, e: Env)
      requires Valid() && q < |lists| && e !in members
      modifies this, lists[q], lists[q].members`prev, e`next, e`prev
      ensures Valid() && ids == old(ids)[q := Scheduling.Enqueue(old(ids)[q], e.data)] && members == old(members) + {e}
      ensures lists[q].nodes == [e] + old(lists[q].nodes) && lists[q].members == old(lists[q].members) + {e}
    {
      hide List.Valid;
      assert forall i :: 0 <= i < |lists| ==> e !in lists[i].members;
      lists[q].InsertHead(e);
      OthersKept(q);
      ids, members := ids[q := Scheduling.Enqueue(ids[q], e.data)], members + {e};
      assert Holds(lists[q], ids[q]);
    }

    /** Relinking one list leaves the others alone. */
    twostate lemma OthersKept(q: nat)
      requires old(Valid()) && q < |lists| && ids == old(ids)
      requires forall i :: 0 <= i < |lists| && i != q ==> unchanged(lists[i])
      requires forall i, e :: 0 <= i < |lists| && i != q && e in old(lists[i].members) ==> unchanged(e)
      ensures forall i :: 0 <= i < |lists| && i != q ==> lists[i].Valid() && Holds(lists[i], ids[i])
    {
    }

    lemma OnList(q: nat, k: nat)
      requires Valid() && q < |lists| && k < |lists[q].nodes|
      ensures lists[q].nodes[k] in lists[q].members
    {
    }

    // LIST_REMOVE; `k` is the place of `e`
    method Unlink(q: nat, e: Env, ghost k: nat)
      requires Valid() && q < |lists| && k < |lists[q].nodes| && lists[q].nodes[k] == e
      modifies this, lists[q], lists[q].members`next, lists[q].members`prev
      ensures Valid() && k < |old(ids)[q]| && old(ids)[q][k] == e.data && ids == old(ids)[q := Without(old(ids)[q], k)]
      ensures e in old(members) && members == old(members) - {e} && e in old(lists[q].members)
      ensures lists[q].nodes == old(lists[q].nodes)[..k] + old(lists[q].nodes)[k + 1..]
      ensures lists[q].members == old(lists[q].members) - {e}
    {
      hide List.Valid;
      OnList(q, k);
      lists[q].Remove(e, k);
      OthersKept(q);
      ids, members := ids[q := Without(ids[q], k)], members - {e};
      assert Holds(lists[q], ids[q]);
    }

    // dequeue
    method Dequeue(q: nat) returns (e: Node?<nat>)
      requires Valid() && q < |lists|
      modifies this, lists[q], lists[q].members`next, lists[q].members`prev
      ensures Valid() && ids == old(ids)[q := Scheduling.Dequeue(old(ids)[q])]
      ensures if old(ids)[q] == [] then e == null && members == old(members)
              else e != null && Oldest(old(ids)[q]) == Some(e.data)
                   && e in old(members) && members == old(members) - {e}
                   && e in old(lists[q].members)
      ensures lists[q].members <= old(lists[q].members)
    {
      e := lists[q].last;
      if e != null {
        Unlink(q, e, |lists[q].nodes| - 1);
        assert Without(old(ids)[q], |old(ids)[q]| - 1) == Scheduling.Dequeue(old(ids)[q]);
      } else {
        assert ids[q] == [] && ids[q := []] == ids;
      }
    }

    /** How a list reads from inside. */
    lemma Links(q: nat)
      requires Valid() && q < |lists|
      ensures var l := lists[q];
        && |l.nodes| == |ids[q]| && l.first == (if l.nodes == [] then null else l.nodes[0])
        && (forall k :: 0 <= k < |l.nodes| ==> l.nodes[k].data == ids[q][k])
        && (forall k {:trigger l.nodes[k].next} :: 0 <= k < |l.nodes| ==>
              l.nodes[k].next == if k + 1 < |l.nodes| then l.nodes[k + 1] else null)
    {
    }

    // LIST_FOREACH up to the environment with that id
    method Find(q: nat, id: nat) returns (e: Node?<nat>, ghost k: nat)
      requires Valid() && q < |lists|
      ensures k == IndexOf(ids[q], id, 0)
      ensures k == |ids[q]| <==> e == null
      ensures e != null ==> k < |lists[q].nodes| && lists[q].nodes[k] == e && e.data == id
    {
      e, k := lists[q].first, 0;
      while e != null
        invariant 0 <= k <= |lists[q].nodes| && e == if k < |lists[q].nodes| then lists[q].nodes[k] else null
        invariant IndexOf(ids[q], id, 0) == IndexOf(ids[q], id, k)
        decreases |lists[q].nodes| - k
      {
        assert e.data == ids[q][k];
        if e.data == id {
          return;
        }
        e, k := e.next, k + 1;
      }
    }
  }

  const E_SEMAPHORE_EXISTS := -12
  const E_SEMAPHORE_NOT_EXISTS := -13

  // the lists
  const READY: nat := 0        // env_ready_queues[0]
  const NEW: nat := 1          // env_new_queue
  const EXIT: nat := 2         // env_exit_queue
  const WAITING: nat := 3      // env_queue of semaphore 0, and so on

  /** A slot of the `semaphores` array but for its queue. */
  datatype Slot = Slot(
    empty: bool, owner: int, name: string, value: int,
    initial: int, waits: nat, signals: nat, arrivals: seq<nat>, released: seq<nat>)

  function Full(m: Slot, queue: seq<nat>): Semaphore {
    Semaphore(m.empty, m.owner, m.name, m.value, queue, m.initial, m.waits, m.signals, m.arrivals, m.released)
  }

  function Sems(slots: seq<Slot>, ids: seq<seq<nat>>): (r: seq<Semaphore>)
    requires |ids| == WAITING + |slots|
    ensures |r| == |slots|
  {
    seq(|slots|, i requires 0 <= i < |slots| => Full(slots[i], ids[WAITING + i]))
  }

  class Machine {
    var cur: Node?<nat>                  // curenv
    var status: map<nat, Status>
    var started: bool                    // scheduler_status == SCH_STARTED
    const queues: Queues
    const slots: array<Slot>

    ghost predicate Sized()
      reads queues
    {
      |queues.lists| == |queues.ids| == WAITING + slots.Length
    }

    /** Who runs is on no list. */
    ghost predicate Valid()
      reads this`cur, queues, queues.lists, queues.members
    {
      Sized() && queues.Valid() && (cur != null ==> cur !in queues.members)
    }

    ghost function Running(): set<Env>
      reads this`cur
    {
      if cur == null then {} else {cur}
    }

    ghost function View(): State
      requires Sized()
      reads this, queues, slots, Running()`data
    {
      State(if cur == null then None else Some(cur.data), queues.ids[READY], queues.ids[NEW], queues.ids[EXIT],
            Sems(slots[..], queues.ids), status, started)
    }

    /** Assigning this object's own fields, or a slot, changes no list. */
    lemma OwnFields()
      requires queues.Valid()
      ensures forall i :: 0 <= i < |queues.lists| ==> queues.lists[i].members <= queues.members
      ensures forall i, j :: 0 <= i < j < |queues.lists| ==> queues.lists[i] != queues.lists[j]
      ensures forall q :: q in queues.lists ==> q as object != this && q as object != slots && q as object != queues
      ensures forall e :: e in queues.members ==> e as object != this && e as object != slots
    {
    }

    // sched_init, and create_semaphores_array
    constructor (n: nat)
      ensures Valid() && slots.Length == n && View() == Initial(n)
      ensures fresh(queues) && fresh(queues.lists) && fresh(slots) && queues.members == {}
    {
      cur, status, started := null, map[], false;
      queues := new Queues(WAITING + n);
      slots := new Slot[n](_ => Slot(true, 0, "", 0, 0, 0, 0, [], []));
    }

    // ------------------------------------------------------------ the scheduler

    // the queue operations of fos_scheduler: the running environment goes in and the oldest comes out
    method Rotate() returns (next: Node?<nat>)
      requires queues.Valid() && Sized() && (cur != null ==> cur !in queues.members)
      modifies queues, queues.lists[READY], queues.lists[READY].members`next, queues.lists[READY].members`prev
      modifies Running()`next, Running()`prev
      ensures queues.Valid() && (next != null ==> next !in queues.members)
      ensures var ready := old(queues.ids)[READY];
        var q := if cur == null then ready else Scheduling.Enqueue(ready, cur.data);
        && queues.ids == old(queues.ids)[READY := Scheduling.Dequeue(q)]
        && Oldest(q) == (if next == null then None else Some(next.data))
      ensures queues.members <= old(queues.members) + Running()
    {
      hide Queues.Valid;
      if cur != null {
        queues.Enqueue(READY, cur);
      }
      next := queues.Dequeue(READY);
    }

    // fos_scheduler, round robin
    method FosScheduler()
      requires Valid()
      modifies this, queues, queues.lists, queues.members`next, queues.members`prev, Running()`next, Running()`prev
      ensures Valid() && View() == Scheduling.FosScheduler(old(View()))
    {
      hide Queues.Valid;
      OwnFields();
      started := true;
      var next := Rotate();
      OwnFields();
      if next != null {
        cur := next;
        status := status[next.data := Runnable];
      } else {
        cur := null;
        started := false;
      }
    }

    // sched_insert_ready
    method InsertReady(e: Env)
      requires Valid() && e !in queues.members && e != cur
      modifies this`status, queues, queues.lists, queues.members`next, queues.members`prev, e`next, e`prev
      ensures Valid() && queues.members == old(queues.members) + {e}
      ensures View() == Scheduling.InsertReady(old(View()), e.data)
      ensures queues.lists[NEW].nodes == old(queues.lists[NEW].nodes)
    {
      hide Queues.Valid;
      OwnFields();
      status := status[e.data := Ready];
      queues.Enqueue(READY, e);
    }

    // sched_new_env
    method NewEnv(e: Env)
      requires Valid() && e !in queues.members && e != cur
      modifies this`status, queues, queues.lists, queues.members`next, queues.members`prev, e`next, e`prev
      ensures Valid() && queues.members == old(queues.members) + {e}
      ensures View() == Scheduling.NewEnv(old(View()), e.data)
    {
      hide Queues.Valid;
      OwnFields();
      status := status[e.data := New];
      queues.Enqueue(NEW, e);
    }

    // sched_insert_exit
    method InsertExit(e: Env)
      requires Valid() && e !in queues.members
      modifies this`status, queues, queues.lists, queues.members`next, queues.members`prev, e`next, e`prev
      ensures queues.Valid() && Sized() && queues.members == old(queues.members) + {e}
      ensures View() == Scheduling.InsertExit(old(View()), e.data)
    {
      hide Queues.Valid;
      OwnFields();
      status := status[e.data := Exited];
      queues.Enqueue(EXIT, e);
    }

    // sched_remove_new; `k` is the place of `e` on the NEW queue
    method RemoveNew(e: Env, ghost k: nat)
      requires Valid() && k < |queues.lists[NEW].nodes| && queues.lists[NEW].nodes[k] == e
      modifies this`status, queues, queues.lists, queues.members`next, queues.members`prev
      ensures Valid() && e in old(queues.members) && queues.members == old(queues.members) - {e} && e != cur
      ensures k < |old(View()).newcomers| && old(View()).newcomers[k] == e.data
      ensures View() == var s := old(View());
        s.(newcomers := Without(s.newcomers, k), status := s.status[e.data := Unknown])
      ensures queues.lists[NEW].nodes == old(queues.lists[NEW].nodes)[..k] + old(queues.lists[NEW].nodes)[k + 1..]
    {
      hide Queues.Valid;
      OwnFields();
      queues.Unlink(NEW, e, k);
      OwnFields();
      status := status[e.data := Unknown];
    }

    // LIST_REMOVE from the ready queue; `k` is the place of `e`
    method RemoveReady(e: Env, ghost k: nat)
      requires Valid() && k < |queues.lists[READY].nodes| && queues.lists[READY].nodes[k] == e
      modifies queues, queues.lists, queues.members`next, queues.members`prev
      ensures Valid() && e in old(queues.members) && queues.members == old(queues.members) - {e} && e != cur
      ensures k < |old(View()).ready| && View() == old(View()).(ready := Without(old(View()).ready, k))
    {
      hide Queues.Valid;
      OwnFields();
      queues.Unlink(READY, e, k);
    }

    // sched_run_env
    method RunEnv(id: nat)
      requires Valid()
      modifies this, queues, queues.lists, queues.members`next, queues.members`prev, Running()`next, Running()`prev
      ensures Valid() && View() == Scheduling.RunEnv(old(View()), id)
    {
      hide Queues.Valid, Scheduling.FosScheduler;
      var e, k := queues.Find(NEW, id);
      if e != null {
        RemoveNew(e, k);
        InsertReady(e);
        assert status == old(status)[id := Ready];
        if !started {
          FosScheduler();
        }
      }
    }

    // one turn of the loop of sched_run_all
    method ReadyFirst(e: Env)
      requires Valid() && queues.lists[NEW].nodes != [] && queues.lists[NEW].nodes[0] == e
      modifies this`status, queues, queues.lists, queues.members`next, queues.members`prev
      ensures Valid() && queues.members == old(queues.members)
      ensures old(View()).newcomers != [] && ReadyAll(View()) == ReadyAll(old(View()))
      ensures queues.lists[NEW].nodes == old(queues.lists[NEW].nodes)[1..] && cur == old(cur) && started == old(started)
    {
      hide Queues.Valid, Sems;
      ghost var s := View();
      RemoveNew(e, 0);
      InsertReady(e);
      assert status == old(status)[e.data := Ready];
      assert Without(s.newcomers, 0) == s.newcomers[1..];
      assert View() == Scheduling.InsertReady(s.(newcomers := s.newcomers[1..]), s.newcomers[0]);
    }

    // sched_run_all; LIST_FOREACH has saved the next element when its body unlinks the current one
    method RunAll()
      requires Valid()
      modifies this, queues, queues.lists, queues.members`next, queues.members`prev, Running()`next, Running()`prev
      ensures Valid() && View() == Scheduling.RunAll(old(View()))
    {
      hide Queues.Valid, Sems, Scheduling.FosScheduler, List.Valid;
      queues.Links(NEW);
      var elm := queues.lists[NEW].first;
      while elm != null
        invariant Valid() && queues.members == old(queues.members) && cur == old(cur) && started == old(started)
        invariant ReadyAll(View()) == ReadyAll(old(View()))
        invariant elm == queues.lists[NEW].first
        decreases |queues.lists[NEW].nodes|
      {
        queues.Links(NEW);
        var saved := elm.next;
        ReadyFirst(elm);
        queues.Links(NEW);
        elm := saved;
      }
      queues.Links(NEW);
      if !started {
        FosScheduler();
      }
    }

    // the loop of sched_exit_env over the NEW queue, which runs on after it has unlinked the environment
    method RemoveFromNew(id: nat) returns (found: bool)
      requires Valid() && forall i, j :: 0 <= i < j < |queues.ids[NEW]| ==> queues.ids[NEW][i] != queues.ids[NEW][j]
      modifies this`status, queues, queues.lists, queues.members`next, queues.members`prev
      ensures Valid() && cur == old(cur) && queues.members <= old(queues.members)
      ensures var s, n := old(View()), IndexOf(old(View()).newcomers, id, 0);
        && (found <==> n < |s.newcomers|)
        && View() == if found then s.(newcomers := Without(s.newcomers, n), status := s.status[id := Unknown]) else s
    {
      hide Queues.Valid, Sems, List.Valid, IndexOf;
      found := false;
      queues.Links(NEW);
      ghost var s, was, n := View(), queues.lists[NEW].nodes, IndexOf(View().newcomers, id, 0);
      var elm := queues.lists[NEW].first;
      ghost var i := 0;
      while elm != null
        invariant 0 <= i <= |was| && elm == if i < |was| then was[i] else null
        invariant Valid() && cur == old(cur) && queues.members <= old(queues.members)
        invariant !found ==> View() == s && i <= n && queues.lists[NEW].nodes == was
        invariant found ==>
          n < i && View() == s.(newcomers := Without(s.newcomers, n), status := s.status[id := Unknown])
                            && queues.lists[NEW].nodes == was[..n] + was[n + 1..]
        decreases |was| - i
      {
        queues.Links(NEW);
        var saved := elm.next;
        assert found ==> queues.lists[NEW].nodes[i - 1] == elm;
        assert elm.data == s.newcomers[i];
        if elm.data == id {
          assert !found && i == n;
          RemoveNew(elm, i);
          found := true;
        }
        elm := saved;
        i := i + 1;
      }
    }

    // sched_exit_env
    method ExitEnv(id: nat)
      requires Valid() && Sound(View()) && cur != null
      modifies this, queues, queues.lists, queues.members`next, queues.members`prev, Running()`next, Running()`prev
      ensures Valid() && View() == Scheduling.ExitEnv(old(View()), id)
    {
      hide Queues.Valid, Sems, List.Valid, Sound, Scheduling.FosScheduler;
      NewDistinct(View());
      ExitingNew(View(), id);
      var found := RemoveFromNew(id);
      // the loop has run to its end, so the environment found there is forgotten
      var item: Node?<nat> := null;
      if !found {
        ghost var k;
        item, k := queues.Find(READY, id);
        if item != null {
          RemoveReady(item, k);
          found := true;
        }
      }
      if !found && cur.data == id {
        item := cur;
        found := true;
      }
      if found {
        if item != null {
          InsertExit(item);
        }
        if cur.data == id {
          cur := null;
          FosScheduler();
        }
      }
    }

    // ------------------------------------------------------------ semaphores

    // get_semaphore_object_ID
    method GetSemaphoreId(owner: int, name: string) returns (id: int)
      requires Sized()
      ensures var i := FindSem(View().sems, owner, name, 0);
        id == if i < slots.Length then i else E_SEMAPHORE_NOT_EXISTS
    {
      var i := 0;
      while i < slots.Length
        invariant 0 <= i <= slots.Length
        invariant FindSem(View().sems, owner, name, 0) == FindSem(View().sems, owner, name, i)
      {
        if !slots[i].empty && slots[i].owner == owner && slots[i].name == name {
          return i;
        }
        i := i + 1;
      }
      return E_SEMAPHORE_NOT_EXISTS;
    }

    // createSemaphore while the array has an empty slot; it leaves the slot's queue as it is
    method CreateSemaphore(owner: int, name: string, value: nat) returns (id: int)
      requires Valid() && Sound(View()) && EmptySlot(View().sems, 0) < slots.Length
      modifies slots
      ensures Valid() && (View(), id) == Scheduling.CreateSemaphore(old(View()), owner, name, value)
    {
      hide Queues.Valid;
      OwnFields();
      var known := GetSemaphoreId(owner, name);
      if known == E_SEMAPHORE_EXISTS {
        assert false;   // an index or E_SEMAPHORE_NOT_EXISTS, never this code
      }
      var i := 0;
      while !slots[i].empty
        invariant 0 <= i < slots.Length && EmptySlot(View().sems, 0) == EmptySlot(View().sems, i)
        decreases slots.Length - i
      {
        i := i + 1;
      }
      assert queues.ids[WAITING + i] == [] by { assert View().sems[i].queue == []; }
      slots[i] := Slot(false, owner, name, value, value, 0, 0, [], []);
      assert View().sems == old(View().sems)[i := NewSemaphore(owner, name, value)];
      id := i;
    }

    // what waitSemaphore does if the value is now negative
    method BlockOn(i: nat)
      requires Valid() && cur != null && i < slots.Length
      modifies this, slots, queues, queues.lists, queues.members`next, queues.members`prev
      modifies Running()`next, Running()`prev
      ensures Valid() && cur == null && queues.members == old(queues.members) + old(Running())
      ensures View() == var s := old(View());
        var m, e := s.sems[i], s.cur.value;
        s.(sems := s.sems[i := m.(queue := Scheduling.Enqueue(m.queue, e), arrivals := m.arrivals + [e])],
           status := s.status[e := BlockedStatus], cur := None)
    {
      hide Queues.Valid;
      OwnFields();
      queues.Enqueue(WAITING + i, cur);
      OwnFields();
      slots[i] := slots[i].(arrivals := slots[i].arrivals + [cur.data]);
      status := status[cur.data := BlockedStatus];
      assert View().sems == old(View().sems)[i := View().sems[i]];
      cur := null;
    }

    // the oldest waiter of semaphore `i` leaves its queue
    method TakeWaiter(i: nat) returns (e: Env)
      requires Valid() && i < slots.Length && View().sems[i].queue != []
      modifies slots, queues, queues.lists, queues.members`next, queues.members`prev
      ensures Valid() && e in old(queues.members) && queues.members == old(queues.members) - {e} && e != cur
      ensures var s := old(View());
        var m := s.sems[i];
        && e.data == m.queue[|m.queue| - 1]
        && View()
           == s.(sems := s.sems[i := m.(queue := Scheduling.Dequeue(m.queue), released := m.released + [e.data])])
    {
      hide Queues.Valid;
      OwnFields();
      e := queues.Dequeue(WAITING + i);
      OwnFields();
      slots[i] := slots[i].(released := slots[i].released + [e.data]);
      assert View().sems == old(View().sems)[i := View().sems[i]];
    }

    // what signalSemaphore does if the value is still not positive
    method ReleaseFrom(i: nat)
      requires Valid() && i < slots.Length && View().sems[i].queue != []
      modifies this`status, slots, queues, queues.lists, queues.members`next, queues.members`prev
      ensures Valid()
      ensures View() == var s := old(View());
        var m, e := s.sems[i], s.sems[i].queue[|s.sems[i].queue| - 1];
        Scheduling.InsertReady(
          s.(sems := s.sems[i := m.(queue := Scheduling.Dequeue(m.queue), released := m.released + [e])]), e)
    {
      hide Queues.Valid, Sems, Scheduling.Dequeue;
      var e := TakeWaiter(i);
      InsertReady(e);
    }

    // waitSemaphore
    method WaitSemaphore(owner: int, name: string)
      requires Valid() && cur != null && FindSem(View().sems, owner, name, 0) < slots.Length
      modifies this, slots, queues, queues.lists, queues.members`next, queues.members`prev
      modifies Running()`next, Running()`prev
      ensures Valid() && View() == Scheduling.Wait(old(View()), FindSem(old(View()).sems, owner, name, 0))
    {
      hide Queues.Valid, Scheduling.FosScheduler;
      var i := GetSemaphoreId(owner, name);
      OwnFields();
      slots[i] := slots[i].(value := slots[i].value - 1, waits := slots[i].waits + 1);
      assert View().sems == old(View().sems)[i := View().sems[i]];
      ghost var s, m := old(View()), old(View()).sems[i];
      if slots[i].value < 0 {
        BlockOn(i);
        assert View() == s.(
          sems := s.sems[i := m.(value := m.value - 1, queue := Scheduling.Enqueue(m.queue, s.cur.value),
                                 waits := m.waits + 1, arrivals := m.arrivals + [s.cur.value])],
          status := s.status[s.cur.value := BlockedStatus], cur := None);
      } else {
        assert View() == s.(sems := s.sems[i := m.(value := m.value - 1, waits := m.waits + 1)]);
      }
      FosScheduler();
    }

    // its first step: the value goes up
    method Raise(i: nat)
      requires Valid() && i < slots.Length
      modifies slots
      ensures Valid()
      ensures View() == var s := old(View());
        var m := s.sems[i];
        s.(sems := s.sems[i := m.(value := m.value + 1, signals := m.signals + 1)])
      ensures slots[i].value == old(slots[i].value) + 1
    {
      hide Queues.Valid;
      OwnFields();
      slots[i] := slots[i].(value := slots[i].value + 1, signals := slots[i].signals + 1);
      assert View().sems == old(View().sems)[i := View().sems[i]];
    }

    // signalSemaphore
    method SignalSemaphore(owner: int, name: string)
      requires Valid() && FindSem(View().sems, owner, name, 0) < slots.Length
      requires Sound(View())
      modifies this, slots, queues, queues.lists, queues.members`next, queues.members`prev
      ensures Valid() && View() == Scheduling.Signal(old(View()), FindSem(old(View()).sems, owner, name, 0))
    {
      hide Queues.Valid, Sound;
      var i := GetSemaphoreId(owner, name);
      SomebodyWaits(View(), i);
      Raise(i);
      if slots[i].value <= 0 {
        ReleaseFrom(i);
      }
    }
  }

  lemma SomebodyWaits(s: State, i: nat)
    requires Sound(s) && i < |s.sems| && !s.sems[i].empty
    ensures s.sems[i].value + 1 <= 0 ==> s.sems[i].queue != []
  {
    hide Places, StatusOk;
    assert SemOk(s.sems[i]);
  }

  /** Nobody is on the NEW queue twice. */
  lemma NewDistinct(s: State)
    requires Sound(s)
    ensures forall i, j :: 0 <= i < j < |s.newcomers| ==> s.newcomers[i] != s.newcomers[j]
  {
    forall i, j | 0 <= i < j < |s.newcomers| ensures s.newcomers[i] != s.newcomers[j] {
      var e := s.newcomers[i];
      assert Places(s, e) <= 1;
      hide WaitTimes, SemsOk, StatusOk, Times, Without;
      WithoutTimes(s.newcomers, i, e);
      TimesOf(Without(s.newcomers, i), e);
      assert Without(s.newcomers, i)[j - 1] == s.newcomers[j];
    }
  }

  /** Somebody new or ready is not running. */
  lemma ExitingNew(s: State, e: nat)
    requires Sound(s)
    ensures e in s.newcomers || e in s.ready ==> s.cur != Some(e)
  {
    assert Places(s, e) <= 1;
    OnlyOnce(s, e);
  }
}
