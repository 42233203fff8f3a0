/**
 * The circular doubly linked list of wl_list: a ring of links in which every
 * link knows both its neighbours. The sequence of its links, the list head
 * first, is what the operations are specified on.
 */
module LinkRing {
  import opened Sequences

  class Link {
    var prev: Link?
    var next: Link?
    constructor ()
      ensures prev == null && next == null
    {
      prev, next := null, null;
    }
  }

  ghost predicate Distinct(nodes: seq<Link>) {
    forall i, j :: 0 <= i < j < |nodes| ==> nodes[i] != nodes[j]
  }

  function Successor(i: nat, n: nat): nat { if i + 1 < n then i + 1 else 0 }

  function Predecessor(i: nat, n: nat): nat
    requires n > 0
  {
    if i > 0 then i - 1 else n - 1
  }

  ghost predicate NextInOrder(nodes: seq<Link>)
    reads nodes
  {
    forall i {:trigger nodes[i].next} :: 0 <= i < |nodes| ==> nodes[i].next == nodes[Successor(i, |nodes|)]
  }

  ghost predicate PrevInOrder(nodes: seq<Link>)
    reads nodes
  {
    forall i {:trigger nodes[i].prev} :: 0 <= i < |nodes| ==> nodes[i].prev == nodes[Predecessor(i, |nodes|)]
  }

  /** The links form one ring, in the order of nodes. */
  ghost predicate IsRing(nodes: seq<Link>)
    reads nodes
  {
    nodes != [] && Distinct(nodes) && NextInOrder(nodes) && PrevInOrder(nodes)
  }

  function InsertAfter<T>(s: seq<T>, i: nat, x: T): seq<T>
    requires i < |s|
  {
    s[..i + 1] + [x] + s[i + 1..]
  }

  lemma SamePlace(nodes: seq<Link>, i: nat, j: nat)
    requires Distinct(nodes) && i < |nodes| && j < |nodes| && nodes[i] == nodes[j]
    ensures i == j
  {
  }

  /** wl_list_remove. */
  method Remove(x: Link, ghost nodes: seq<Link>, ghost k: nat)
    requires IsRing(nodes) && 0 < k < |nodes| && nodes[k] == x
    modifies nodes
    ensures IsRing(RemoveAt(nodes, k)) && x !in RemoveAt(nodes, k)
    ensures x.prev == null && x.next == null
  {
    ghost var n := |nodes|;
    ghost var before, after := nodes[k - 1], nodes[Successor(k, n)];
    x.prev.next := x.next;
    x.next.prev := x.prev;
    x.next, x.prev := null, null;
    ghost var rest := RemoveAt(nodes, k);
    assert before.next == after && after.prev == before;
    assert NextInOrder(rest) by {
      forall i {:trigger rest[i].next} | 0 <= i < |rest|
        ensures rest[i].next == rest[Successor(i, |rest|)]
      {
        ghost var j := if i < k then i else i + 1;
        assert rest[i] == nodes[j];
        if j != k - 1 { assert nodes[j].next == old(nodes[j].next) == nodes[Successor(j, n)]; }
      }
    }
    assert PrevInOrder(rest) by {
      forall i {:trigger rest[i].prev} | 0 <= i < |rest|
        ensures rest[i].prev == rest[Predecessor(i, |rest|)]
      {
        ghost var j := if i < k then i else i + 1;
        assert rest[i] == nodes[j];
        if j != Successor(k, n) { assert nodes[j].prev == old(nodes[j].prev) == nodes[Predecessor(j, n)]; }
      }
    }
  }

  lemma StaysDistinct(nodes: seq<Link>, k: nat, x: Link)
    requires Distinct(nodes) && k < |nodes| && x !in nodes
    ensures Distinct(InsertAfter(nodes, k, x))
  {
    var all := InsertAfter(nodes, k, x);
    forall i, j | 0 <= i < j < |all|
      ensures all[i] != all[j]
    {
      assert i != k + 1 ==> all[i] == nodes[if i <= k then i else i - 1];
      assert j != k + 1 ==> all[j] == nodes[if j <= k then j else j - 1];
    }
  }

  /** wl_list_insert: puts x after list. */
  method Insert(list: Link, x: Link, ghost nodes: seq<Link>, ghost k: nat)
    requires IsRing(nodes) && k < |nodes| && nodes[k] == list && x !in nodes
    modifies nodes, x
    ensures IsRing(InsertAfter(nodes, k, x))
  {
    ghost var n := |nodes|;
    ghost var after := nodes[Successor(k, n)];
    x.prev := list;
    x.next := list.next;
    list.next := x;
    x.next.prev := x;
    ghost var all := InsertAfter(nodes, k, x);
    assert x.prev == list && list.next == x && x.next == after && after.prev == x;
    StaysDistinct(nodes, k, x);
    assert NextInOrder(all) by {
      forall i {:trigger all[i].next} | 0 <= i < |all|
        ensures all[i].next == all[Successor(i, |all|)]
      {
        ghost var j := if i <= k then i else i - 1;
        if i != k + 1 {
          assert all[i] == nodes[j];
          if j != k { assert nodes[j].next == old(nodes[j].next) == nodes[Successor(j, n)]; }
        }
      }
    }
    assert PrevInOrder(all) by {
      forall i {:trigger all[i].prev} | 0 <= i < |all|
        ensures all[i].prev == all[Predecessor(i, |all|)]
      {
        ghost var j := if i <= k then i else i - 1;
        if i != k + 1 {
          assert all[i] == nodes[j];
          if j != Successor(k, n) { assert nodes[j].prev == old(nodes[j].prev) == nodes[Predecessor(j, n)]; }
        }
      }
    }
  }
}
