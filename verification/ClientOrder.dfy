/**
 * The tiling order of the clients, and the key bindings that change it by
 * relinking the ring: swapping two clients, moving one up or down the stack,
 * and zooming one to the front.
 */
module ClientOrder {
  import opened Sequences
  import opened LinkRing

  /* ---- what the operations mean for the order ---- */

  function Swapped<T>(s: seq<T>, i: nat, j: nat): seq<T>
    requires i < |s| && j < |s|
  {
    s[i := s[j]][j := s[i]]
  }

  function InsertAt<T>(s: seq<T>, i: nat, x: T): (r: seq<T>)
    requires i <= |s|
    ensures |r| == |s| + 1 && r[i] == x
    ensures forall j :: 0 <= j < i ==> r[j] == s[j]
    ensures forall j :: i < j < |r| ==> r[j] == s[j - 1]
  {
    s[..i] + [x] + s[i..]
  }

  /** Takes element i out and puts it back at place to among the others. */
  function Moved<T>(s: seq<T>, i: nat, to: nat): seq<T>
    requires i < |s| && to < |s|
  {
    InsertAt(RemoveAt(s, i), to, s[i])
  }

  /** A move changes the place of one element and keeps the order of the rest. */
  lemma MovesOne<T>(s: seq<T>, i: nat, to: nat)
    requires i < |s| && to < |s|
    ensures |Moved(s, i, to)| == |s| && Moved(s, i, to)[to] == s[i]
    ensures RemoveAt(Moved(s, i, to), to) == RemoveAt(s, i)
    ensures multiset(Moved(s, i, to)) == multiset(s)
  {
    var r := RemoveAt(s, i);
    assert RemoveAt(Moved(s, i, to), to) == r;
    MultisetRemoveAt(s, i);
    MultisetRemoveAt(Moved(s, i, to), to);
  }

  lemma SwapPermutes<T>(s: seq<T>, i: nat, j: nat)
    requires i < |s| && j < |s|
    ensures var t := Swapped(s, i, j);
      && |t| == |s| && t[i] == s[j] && t[j] == s[i]
      && (forall k :: 0 <= k < |s| && k != i && k != j ==> t[k] == s[k])
    ensures multiset(Swapped(s, i, j)) == multiset(s)
    ensures Swapped(Swapped(s, i, j), i, j) == s
  {
  }

  /** The first visible place after i, or the length. */
  ghost function NextVisible(order: seq<Link>, i: nat, visible: set<Link>): (j: nat)
    requires i <= |order|
    ensures i <= j <= |order| && (j < |order| ==> order[j] in visible)
    ensures forall k :: i <= k < j ==> order[k] !in visible
    decreases |order| - i
  {
    if i == |order| || order[i] in visible then i else NextVisible(order, i + 1, visible)
  }

  /** One more than the last visible place before i, or 0. */
  ghost function PastVisible(order: seq<Link>, i: nat, visible: set<Link>): (j: nat)
    requires i <= |order|
    ensures j <= i && (j > 0 ==> order[j - 1] in visible)
    ensures forall k :: j <= k < i ==> order[k] !in visible
  {
    if i == 0 || order[i - 1] in visible then i else PastVisible(order, i - 1, visible)
  }

  /** Where element i goes when moved down: behind the next visible one, or to the front. */
  ghost function DownPlace(order: seq<Link>, i: nat, visible: set<Link>): (to: nat)
    requires i < |order|
    ensures to < |order|
  {
    var j := NextVisible(order, i + 1, visible);
    if j < |order| then j else 0
  }

  /** Where it goes when moved up: before the previous visible one, or to the end. */
  ghost function UpPlace(order: seq<Link>, i: nat, visible: set<Link>): (to: nat)
    requires i < |order|
    ensures to < |order|
  {
    var j := PastVisible(order, i, visible);
    if j > 0 then j - 1 else |order| - 1
  }

  /**
   * Zooming brings a tiled client to the front, or the next tiled one if it
   * is the first already; with no other tiled client nothing moves.
   */
  ghost function Zoomed(order: seq<Link>, i: nat, tiled: set<Link>): (r: seq<Link>)
    requires i < |order|
  {
    var other := NextVisible(order, i + 1, tiled);
    if NextVisible(order, 0, tiled) < i then Moved(order, i, 0)
    else if other < |order| then Moved(order, other, 0)
    else order
  }

  /**
   * The place a move up computes is behind the last client. With sel last
   * and nothing else visible that is behind sel itself.
   */
  ghost predicate LosesItself(order: seq<Link>, i: nat, visible: set<Link>)
    requires i < |order|
  {
    i == |order| - 1 && forall k :: 0 <= k < i ==> order[k] !in visible
  }

  ghost function MovedUp(order: seq<Link>, i: nat, visible: set<Link>): seq<Link>
    requires i < |order|
  {
    if LosesItself(order, i, visible) then RemoveAt(order, i) else Moved(order, i, UpPlace(order, i, visible))
  }

  /** A move up keeps every client exactly unless the moved one is last and the only visible one. */
  lemma MoveUpKeepsAll(order: seq<Link>, i: nat, visible: set<Link>)
    requires i < |order|
    ensures multiset(MovedUp(order, i, visible)) == multiset(order) <==> !LosesItself(order, i, visible)
    ensures !LosesItself(order, i, visible) ==>
      RemoveAt(MovedUp(order, i, visible), UpPlace(order, i, visible)) == RemoveAt(order, i)
  {
    if LosesItself(order, i, visible) {
      assert |multiset(RemoveAt(order, i))| == |order| - 1;
      assert |multiset(order)| == |order|;
    } else {
      MovesOne(order, i, UpPlace(order, i, visible));
    }
  }

  /** Of two clients the last one, the only one visible, moved up: it is gone from the list. */
  lemma OnlyVisibleIsLost(a: Link, b: Link)
    requires a != b
    ensures LosesItself([a, b], 1, {b}) && MovedUp([a, b], 1, {b}) == [a] && b !in MovedUp([a, b], 1, {b})
  {
    assert RemoveAt([a, b], 1) == [a];
  }

  class Clients {
    const head: Link
    ghost var order: seq<Link>

    ghost predicate Valid()
      reads this, head, order
    {
      IsRing([head] + order)
    }

    /** wl_list_init */
    constructor ()
      ensures Valid() && fresh(head) && order == []
    {
      var link := new Link();
      head := link;
      order := [];
      new;
      head.prev, head.next := head, head;
    }

    ghost predicate Has(c: Link, i: nat)
      reads this
    {
      i < |order| && order[i] == c
    }

    /** Takes c out of the order. */
    method TakeOut(c: Link, ghost i: nat)
      requires Valid() && Has(c, i)
      modifies this, head, order
      ensures Valid() && order == RemoveAt(old(order), i)
      ensures c.prev == null && c.next == null && c != head && c !in order
    {
      Remove(c, [head] + order, i + 1);
      assert RemoveAt([head] + order, i + 1) == [head] + RemoveAt(order, i);
      order := RemoveAt(order, i);
    }

    /** Puts c behind the first i elements, that is after link. */
    method PutAfter(link: Link, c: Link, ghost i: nat)
      requires Valid() && i <= |order| && ([head] + order)[i] == link
      requires c != head && c !in order
      modifies this, head, order, c
      ensures Valid() && order == InsertAt(old(order), i, c)
    {
      Insert(link, c, [head] + order, i);
      assert InsertAfter([head] + order, i, c) == [head] + InsertAt(order, i, c);
      order := InsertAt(order, i, c);
    }

    /** layout_swap_clients */
    method Swap(first: Link, second: Link, ghost i: nat, ghost j: nat)
      requires Valid() && Has(first, i) && Has(second, j) && first != second
      modifies this, head, order
      ensures Valid() && order == Swapped(old(order), i, j)
    {
      ghost var s := order;
      ghost var n := [head] + order;
      assert n[i + 1] == first && n[j + 1] == second;
      var firstPrev := first.prev;
      var secondPrev := second.prev;
      assert firstPrev == n[i] && secondPrev == n[j];
      if firstPrev == second {
        assert i == j + 1;
        TakeOut(first, i);
        PutAfter(secondPrev, first, j);
      } else if secondPrev == first {
        assert j == i + 1;
        TakeOut(second, j);
        PutAfter(firstPrev, second, i);
      } else {
        SwapApart(first, second, firstPrev, secondPrev, i, j);
      }
      assert order == Swapped(s, i, j);
    }

    method SwapApart(first: Link, second: Link, firstPrev: Link, secondPrev: Link, ghost i: nat, ghost j: nat)
      requires Valid() && Has(first, i) && Has(second, j) && i != j && i != j + 1 && j != i + 1
      requires firstPrev == ([head] + order)[i] && secondPrev == ([head] + order)[j]
      modifies this, head, order
      ensures Valid() && order == Swapped(old(order), i, j)
    {
      hide RemoveAt;
      hide InsertAt;
      hide Swapped;
      ghost var k := if j > i then j - 1 else j;
      SwapStages(head, order, i, j);
      TakeOut(first, i);
      TakeOut(second, k);
      PutAfter(secondPrev, first, k);
      PutAfter(firstPrev, second, i);
    }

    /** Whether there is at most one client; counts them as wl_list_length does. */
    method Length() returns (count: nat)
      requires Valid()
      ensures count == |order|
    {
      count := 0;
      ghost var n := [head] + order;
      var link: Link? := head.next;
      assert n[0] == head;
      while link != head
        invariant count <= |order|
        invariant link == if count < |order| then n[count + 1] else head
        decreases |order| - count
      {
        count := count + 1;
        link := link.next;
      }
    }

    /**
     * The first visible client below place i, or the head when the search
     * gets there; the head is always met before sel comes round again.
     */
    method FindBelow(sel: Link, visible: set<Link>, ghost i: nat) returns (client: Link)
      requires Valid() && Has(sel, i)
      ensures var j := NextVisible(order, i + 1, visible);
        client == if j < |order| then order[j] else head
    {
      ghost var n := [head] + order;
      ghost var c := i + 1;
      assert n[i + 1] == sel;
      client := sel.next;
      while true
        invariant i < c <= |order| && client == n[Successor(c, |n|)]
        invariant NextVisible(order, i + 1, visible) == NextVisible(order, c, visible)
        decreases |order| - c
      {
        if client == head {
          SamePlace(n, Successor(c, |n|), 0);
          return;
        }
        if client in visible { return; }
        c := c + 1;
        client := client.next;
      }
    }

    /** The first visible client above place i, or the head when the search gets there. */
    method FindAbove(sel: Link, visible: set<Link>, ghost i: nat) returns (client: Link)
      requires Valid() && Has(sel, i)
      ensures client == ([head] + order)[PastVisible(order, i, visible)]
    {
      ghost var n := [head] + order;
      ghost var c := i;
      assert n[i + 1] == sel;
      client := sel.prev;
      while true
        invariant 0 <= c <= i && client == n[c]
        invariant PastVisible(order, i, visible) == PastVisible(order, c, visible)
        decreases c
      {
        if client == head {
          SamePlace(n, c, 0);
          return;
        }
        if client in visible { return; }
        c := c - 1;
        client := client.prev;
      }
    }

    /** wl_list_insert of a removed link after itself: it becomes a ring of its own. */
    static method InsertAfterItself(x: Link)
      modifies x
      ensures x.prev == x && x.next == x
    {
      x.prev := x;
      x.next := x.next;
      x.next := x;
      x.next.prev := x;
    }

    /** layout_move_stack, downwards */
    method MoveStackDown(sel: Link?, visible: set<Link>, ghost i: nat)
      requires Valid() && (sel != null ==> Has(sel, i))
      modifies this, head, order
      ensures Valid()
      ensures order == if sel == null || |old(order)| <= 1 then old(order)
                       else Moved(old(order), i, DownPlace(old(order), i, visible))
    {
      if sel == null { return; }
      var length := Length();
      if length <= 1 { return; }
      ghost var s := order;
      var client := FindBelow(sel, visible, i);
      ghost var to := DownPlace(order, i, visible);
      TakeOut(sel, i);
      assert ([head] + order)[to] == client;
      PutAfter(client, sel, to);
    }

    /** layout_move_stack, upwards */
    method MoveStackUp(sel: Link?, visible: set<Link>, ghost i: nat)
      requires Valid() && (sel != null ==> Has(sel, i))
      modifies this, head, order
      ensures Valid()
      ensures sel == null || |old(order)| <= 1 ==> order == old(order)
      ensures sel != null && |old(order)| > 1 ==>
        && order == MovedUp(old(order), i, visible)
        && (LosesItself(old(order), i, visible) ==> sel.prev == sel && sel.next == sel)
    {
      if sel == null { return; }
      var length := Length();
      if length <= 1 { return; }
      ghost var n := [head] + order;
      var client := FindAbove(sel, visible, i);
      ghost var to := UpPlace(order, i, visible);
      ghost var above := PastVisible(order, i, visible);
      assert client == n[above] && n[i + 1] == sel;
      client := client.prev;
      assert client == n[if above > 0 then to else to + 1];
      TakeOut(sel, i);
      if client == sel {
        InsertAfterItself(sel);
      } else {
        assert ([head] + order)[to] == client;
        PutAfter(client, sel, to);
      }
    }

    /**
     * The first tiled client that is not sel, or the head; passed tells
     * whether sel came before it.
     */
    method FindOther(sel: Link, visible: set<Link>, floating: set<Link>, ghost i: nat)
      returns (client: Link, passed: bool, ghost c: nat)
      requires Valid() && Has(sel, i) && sel in visible - floating
      ensures c <= |order| && client == if c < |order| then order[c] else head
      ensures passed == (NextVisible(order, 0, visible - floating) == i)
      ensures c == NextVisible(order, if passed then i + 1 else 0, visible - floating)
      ensures !passed ==> c < i
    {
      ghost var n := [head] + order;
      ghost var tiled := visible - floating;
      c := 0;
      var mark: Link? := sel;
      assert n[0] == head && n[i + 1] == sel;
      client := head.next;
      while client != head
        invariant 0 <= c <= |order| && client == n[Successor(c, |n|)]
        invariant mark == if c <= i then sel else null
        invariant c <= i ==> NextVisible(order, 0, tiled) == NextVisible(order, c, tiled)
        invariant c > i ==> NextVisible(order, 0, tiled) == i
        invariant c > i ==> NextVisible(order, i + 1, tiled) == NextVisible(order, c, tiled)
        decreases |order| - c
      {
        if client in visible && client !in floating {
          if client != mark { break; }
          SamePlace(n, c + 1, i + 1);
          mark := null;
        }
        c := c + 1;
        client := client.next;
      }
      if client == head {
        SamePlace(n, Successor(c, |n|), 0);
      }
      passed := mark == null;
    }

    /** layout_zoom */
    method Zoom(sel: Link?, visible: set<Link>, floating: set<Link>, ghost i: nat)
      requires Valid() && (sel != null ==> Has(sel, i) && sel in visible)
      modifies this, head, order
      ensures Valid()
      ensures order == if sel == null || sel in floating then old(order)
                       else Zoomed(old(order), i, visible - floating)
    {
      if sel == null || sel in floating { return; }
      var client, passed, c := FindOther(sel, visible, floating, i);
      if client == head {
        SamePlace([head] + order, if c < |order| then c + 1 else 0, 0);
        return;
      }
      ghost var from := if passed then c else i;
      var chosen := if passed then client else sel;
      TakeOut(chosen, from);
      PutAfter(head, chosen, 0);
    }
  }

  /** The four stages of a swap of two that are not neighbours. */
  lemma SwapStages<T>(head: T, s: seq<T>, i: nat, j: nat)
    requires i < |s| && j < |s| && i != j && i != j + 1 && j != i + 1
    ensures var k := if j > i then j - 1 else j;
      var r := RemoveAt(RemoveAt(s, i), k);
      && RemoveAt(s, i)[k] == s[j]
      && ([head] + r)[k] == ([head] + s)[j]
      && ([head] + InsertAt(r, k, s[i]))[i] == ([head] + s)[i]
      && InsertAt(InsertAt(r, k, s[i]), i, s[j]) == Swapped(s, i, j)
  {
    hide RemoveAt;
    hide InsertAt;
    var k := if j > i then j - 1 else j;
    var r := RemoveAt(s, i);
    var q := RemoveAt(r, k);
    var u := InsertAt(q, k, s[i]);
    var v := InsertAt(u, i, s[j]);
    forall m | 0 <= m < |s|
      ensures v[m] == Swapped(s, i, j)[m]
    {
      if m != i {
        var a := if m < i then m else m - 1;
        assert v[m] == u[a];
        if a != k {
          var b := if a < k then a else a - 1;
          assert u[a] == q[b];
          var c := if b < k then b else b + 1;
          assert q[b] == r[c] == s[if c < i then c else c + 1];
        }
      }
    }
  }
}
