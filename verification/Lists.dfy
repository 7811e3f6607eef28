/**
 The intrusive doubly linked lists of inc/queue.h.

 A `Node` carries the two link fields that LIST_ENTRY adds to a structure; a `List` is the
 structure that LIST_HEAD declares.  Every macro is a method that rewrites the same pointers in
 the same order, specified by what it does to the ghost sequence `nodes`.
 */
module Lists {

  class Node<T> {
    var next: Node?<T>
    var prev: Node?<T>
    var data: T

    constructor (data: T)
      ensures this.data == data && next == null && prev == null
    {
      this.data := data;
      next, prev := null, null;
    }
  }

  /** The data of a sequence of nodes. */
  ghost function Data<T>(ns: seq<Node<T>>): (s: seq<T>)
    reads ns`data
    ensures |s| == |ns|
    ensures forall i :: 0 <= i < |s| ==> s[i] == ns[i].data
  {
    if ns == [] then [] else Data(ns[..|ns| - 1]) + [ns[|ns| - 1].data]
  }

  lemma DataSplice<T>(ns: seq<Node<T>>, q: nat, mid: seq<Node<T>>, r: nat)
    requires q <= r <= |ns|
    ensures Data(ns[..q] + mid + ns[r..]) == Data(ns)[..q] + Data(mid) + Data(ns)[r..]
  {
    hide Data;
  }

  /** A sequence with `x` put in at place `k`. */
  function With<T>(s: seq<T>, k: nat, x: T): (r: seq<T>)
    requires k <= |s|
    ensures |r| == |s| + 1 && r[k] == x
    ensures (forall i :: 0 <= i < k ==> r[i] == s[i]) && forall i :: k < i < |r| ==> r[i] == s[i - 1]
  {
    s[..k] + [x] + s[k..]
  }

  lemma WithIs<T>(s: seq<T>, k: nat, x: T)
    requires k <= |s|
    ensures With(s, k, x) == s[..k] + [x] + s[k..]
  {
  }

  class List<T> {
    var first: Node?<T>
    var last: Node?<T>
    var size: nat
    ghost var nodes: seq<Node<T>>
    ghost var members: set<Node<T>>   // the footprint: every node of the list is in it

    /** The links, the two ends and the size field all describe the sequence `nodes`. */
    ghost predicate Valid()
      reads this, members
    {
      && (forall i :: 0 <= i < |nodes| ==> nodes[i] in members)
      && size == |nodes|
      && first == (if |nodes| == 0 then null else nodes[0])
      && last == (if |nodes| == 0 then null else nodes[|nodes| - 1])
      && (forall i, j :: 0 <= i < j < |nodes| ==> nodes[i] != nodes[j])
      && (forall i {:trigger nodes[i].next} :: 0 <= i < |nodes| ==>
            nodes[i].next == if i + 1 < |nodes| then nodes[i + 1] else null)
      && (forall i {:trigger nodes[i].prev} :: 0 <= i < |nodes| ==>
            nodes[i].prev == if i > 0 then nodes[i - 1] else null)
    }

    /** What the list holds, in order. */
    ghost function Contents(): (s: seq<T>)
      reads this, nodes`data
      ensures |s| == |nodes|
      ensures forall i :: 0 <= i < |s| ==> s[i] == nodes[i].data
    {
      Data(nodes)
    }

    /** Where the head is, and on what its elements are. */
    lemma First()
      requires Valid() && nodes != []
      ensures first == nodes[0] && first in members
    {
    }

    // LIST_INIT
    constructor ()
      ensures Valid() && nodes == [] && members == {}
    {
      first, last, size := null, null, 0;
      nodes, members := [], {};
    }

    // LIST_INSERT_HEAD
    method InsertHead(elm: Node<T>)
      requires Valid() && elm !in members
      modifies this, members`prev, elm`next, elm`prev
      ensures Valid() && nodes == [elm] + old(nodes)
      ensures members == old(members) + {elm}
    {
      elm.next := first;
      if first != null {
        first.prev := elm;
      } else {
        last := elm;
      }
      first := elm;
      elm.prev := null;
      size := size + 1;
      nodes, members := [elm] + nodes, members + {elm};
    }

    // LIST_INSERT_TAIL
    method InsertTail(elm: Node<T>)
      requires Valid() && elm !in members
      modifies this, members`next, elm`next, elm`prev
      ensures Valid() && nodes == old(nodes) + [elm]
      ensures members == old(members) + {elm}
    {
      elm.prev := last;
      if last != null {
        last.next := elm;
      } else {
        first := elm;
      }
      last := elm;
      elm.next := null;
      size := size + 1;
      nodes, members := nodes + [elm], members + {elm};
    }

    // LIST_INSERT_AFTER; `k` is the place of `listElm`
    method InsertAfter(listElm: Node<T>, elm: Node<T>, ghost k: nat)
      requires Valid() && elm !in members
      requires k < |nodes| && nodes[k] == listElm
      modifies this, members`next, members`prev, elm`next, elm`prev
      ensures Valid() && nodes == old(nodes)[..k + 1] + [elm] + old(nodes)[k + 1..]
      ensures members == old(members) + {elm}
    {
      hide With;
      ghost var was := nodes;
      assert listElm.next == if k + 1 < |was| then was[k + 1] else null;
      elm.next := listElm.next;
      if elm.next != null {
        listElm.next.prev := elm;
      }
      listElm.next := elm;
      elm.prev := listElm;
      if elm.next == null {
        last := elm;
      }
      size := size + 1;
      nodes, members := With(was, k + 1, elm), members + {elm};
      WithIs(was, k + 1, elm);
    }

    // LIST_INSERT_BEFORE; `k` is the place of `listElm`
    method InsertBefore(listElm: Node<T>, elm: Node<T>, ghost k: nat)
      requires Valid() && elm !in members
      requires k < |nodes| && nodes[k] == listElm
      modifies this, members`next, members`prev, elm`next, elm`prev
      ensures Valid() && nodes == old(nodes)[..k] + [elm] + old(nodes)[k..]
      ensures members == old(members) + {elm}
    {
      hide With;
      ghost var was := nodes;
      assert listElm.prev == if k > 0 then was[k - 1] else null;
      elm.prev := listElm.prev;
      elm.next := listElm;
      if listElm.prev != null {
        listElm.prev.next := elm;
      } else {
        first := elm;
      }
      listElm.prev := elm;
      size := size + 1;
      nodes, members := With(was, k, elm), members + {elm};
      WithIs(was, k, elm);
    }

    // LIST_REMOVE; `k` is the place of `elm`
    method Remove(elm: Node<T>, ghost k: nat)
      requires Valid()
      requires k < |nodes| && nodes[k] == elm
      modifies this, members`next, members`prev
      ensures Valid() && nodes == old(nodes)[..k] + old(nodes)[k + 1..]
      ensures members == old(members) - {elm}
      ensures elm.next == null && elm.prev == null
    {
      ghost var was := nodes;
      assert elm.prev == if k > 0 then was[k - 1] else null;
      assert elm.next == if k + 1 < |was| then was[k + 1] else null;
      if elm.next != null {
        elm.next.prev := elm.prev;
      } else {
        last := elm.prev;
      }
      if elm.prev != null {
        elm.prev.next := elm.next;
      } else {
        first := elm.next;
      }
      elm.next := null;
      elm.prev := null;
      size := size - 1;
      nodes, members := was[..k] + was[k + 1..], members - {elm};
      assert forall i :: 0 <= i < k ==> nodes[i] == was[i];
      assert forall i :: k <= i < |nodes| ==> nodes[i] == was[i + 1];
    }
  }

  function Reverse<T>(s: seq<T>): (r: seq<T>)
    ensures |r| == |s| && forall i :: 0 <= i < |r| ==> r[i] == s[|s| - 1 - i]
  {
    seq(|s|, i requires 0 <= i < |s| => s[|s| - 1 - i])
  }
}
