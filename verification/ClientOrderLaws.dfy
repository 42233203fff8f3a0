/** What the stack commands do to the clients that can be seen: the invisible ones between them do not count. */
module ClientOrderLaws {
  import opened Sequences
  import opened LinkRing
  import opened ClientOrder

  /** Those of the order that are in a set, in order. */
  ghost function Among(order: seq<Link>, which: set<Link>): (r: seq<Link>)
    ensures |r| <= |order|
  {
    if order == [] then [] else (if order[0] in which then [order[0]] else []) + Among(order[1..], which)
  }

  ghost function Kept(x: Link, which: set<Link>): seq<Link> { if x in which then [x] else [] }

  lemma {:induction false} AmongJoins(a: seq<Link>, b: seq<Link>, which: set<Link>)
    ensures Among(a + b, which) == Among(a, which) + Among(b, which)
  {
    if a == [] {
      assert a + b == b;
    } else {
      AmongFirst(a, which);
      AmongFirst(a + b, which);
      assert (a + b)[1..] == a[1..] + b;
      hide *;
      AmongJoins(a[1..], b, which);
      JoinsLast(Kept(a[0], which), Among(a[1..], which), Among(b, which));
    }
  }

  lemma AmongFirst(order: seq<Link>, which: set<Link>)
    requires order != []
    ensures Among(order, which) == Kept(order[0], which) + Among(order[1..], which)
  {
  }

  lemma JoinsLast<T>(a: seq<T>, b: seq<T>, c: seq<T>)
    ensures a + (b + c) == a + b + c
  {
  }

  /** Three parts of an order, and the ones that do not count left out. */
  lemma AmongThree(a: seq<Link>, b: seq<Link>, c: seq<Link>, which: set<Link>)
    ensures Among(a + b + c, which) == Among(a, which) + Among(b, which) + Among(c, which)
  {
    AmongJoins(a + b, c, which);
    AmongJoins(a, b, which);
    hide Among;
  }

  lemma AmongOne(x: Link, which: set<Link>)
    ensures Among([x], which) == if x in which then [x] else []
  {
    assert [x][1..] == [];
  }

  lemma {:induction false} AmongNone(order: seq<Link>, which: set<Link>)
    requires forall k :: 0 <= k < |order| ==> order[k] !in which
    ensures Among(order, which) == []
  {
    if order != [] { AmongNone(order[1..], which); }
  }

  /** The order cut around element i. */
  lemma AmongAround(order: seq<Link>, i: nat, which: set<Link>)
    requires i < |order|
    ensures Among(order, which) ==
      Among(order[..i], which) + (if order[i] in which then [order[i]] else []) + Among(order[i + 1..], which)
  {
    assert order == order[..i] + [order[i]] + order[i + 1..];
    AmongJoins(order[..i] + [order[i]], order[i + 1..], which);
    AmongJoins(order[..i], [order[i]], which);
    AmongOne(order[i], which);
  }

  /** A stretch between i and the next one that is in the set, or the end, counts for nothing. */
  lemma AmongFrom(order: seq<Link>, i: nat, which: set<Link>)
    requires i <= |order|
    ensures var j := NextVisible(order, i, which);
      Among(order[i..], which) == if j < |order| then [order[j]] + Among(order[j + 1..], which) else []
  {
    var j := NextVisible(order, i, which);
    AmongNone(order[i..j], which);
    if j < |order| {
      assert order[i..] == order[i..j] + ([order[j]] + order[j + 1..]);
      AmongJoins(order[i..j], [order[j]] + order[j + 1..], which);
      AmongJoins([order[j]], order[j + 1..], which);
      AmongOne(order[j], which);
    } else {
      assert order[i..] == order[i..j];
    }
  }

  lemma AmongUpTo(order: seq<Link>, i: nat, which: set<Link>)
    requires i <= |order|
    ensures var j := PastVisible(order, i, which);
      Among(order[..i], which) == if j > 0 then Among(order[..j - 1], which) + [order[j - 1]] else []
  {
    var j := PastVisible(order, i, which);
    AmongNone(order[j..i], which);
    if j > 0 {
      assert order[..i] == order[..j - 1] + [order[j - 1]] + order[j..i];
      AmongJoins(order[..j - 1] + [order[j - 1]], order[j..i], which);
      AmongJoins(order[..j - 1], [order[j - 1]], which);
      AmongOne(order[j - 1], which);
    } else {
      assert order[..i] == order[j..i];
    }
  }

  /** A client brought to the front. */
  lemma ToFront(order: seq<Link>, i: nat, which: set<Link>)
    requires i < |order| && order[i] in which
    ensures Among(Moved(order, i, 0), which) == [order[i]] + Among(order[..i], which) + Among(order[i + 1..], which)
  {
    assert Moved(order, i, 0) == [order[i]] + order[..i] + order[i + 1..];
    AmongThree([order[i]], order[..i], order[i + 1..], which);
    AmongOne(order[i], which);
    hide *;
  }

  /** Before and after a client in the order of those that can be seen. */
  ghost function Left(order: seq<Link>, i: nat, visible: set<Link>): seq<Link>
    requires i < |order|
  {
    Among(order[..i], visible)
  }

  ghost function Right(order: seq<Link>, i: nat, visible: set<Link>): seq<Link>
    requires i < |order|
  {
    Among(order[i + 1..], visible)
  }

  /**
   * To the eye, moving a visible client down swaps it with its neighbour
   * below, and moving the last one down brings it to the front.
   */
  lemma DownSwapsVisible(order: seq<Link>, i: nat, visible: set<Link>)
    requires i < |order| && order[i] in visible
    ensures var moved := Moved(order, i, DownPlace(order, i, visible));
      var left, right := Left(order, i, visible), Right(order, i, visible);
      && Among(order, visible) == left + [order[i]] + right
      && Among(moved, visible) ==
         if right == [] then [order[i]] + left else left + [right[0]] + [order[i]] + right[1..]
  {
    AmongAround(order, i, visible);
    if NextVisible(order, i + 1, visible) < |order| {
      DownBehind(order, i, NextVisible(order, i + 1, visible), visible);
    } else {
      AmongFrom(order, i + 1, visible);
      ToFront(order, i, visible);
      hide *;
    }
  }

  /** An order with two clients in its middle. */
  ghost predicate HasPair(order: seq<Link>, a: seq<Link>, x: Link, y: Link, b: seq<Link>) {
    order == a + [x] + [y] + b
  }

  lemma DownBehind(order: seq<Link>, i: nat, j: nat, visible: set<Link>)
    requires i < |order| && order[i] in visible && NextVisible(order, i + 1, visible) == j < |order|
    ensures var left, right := Among(order[..i], visible), Right(order, i, visible);
      right != [] && HasPair(Among(Moved(order, i, j), visible), left, right[0], order[i], right[1..])
  {
    RightIs(order, i, visible);
    PutBehind(order, i, j, visible);
    hide *;
  }

  /** Only the first and the last of a stretch can be seen, and the first one goes behind the last. */
  lemma PutBehind(order: seq<Link>, i: nat, j: nat, visible: set<Link>)
    requires i < j < |order| && order[i] in visible && order[j] in visible
    requires forall k :: i < k < j ==> order[k] !in visible
    ensures HasPair(Among(Moved(order, i, j), visible),
                    Among(order[..i], visible), order[j], order[i], Among(order[j + 1..], visible))
  {
    MovedBehind(order, i, j);
    DownJoins(order[..i], order[i + 1..j], order[j], order[i], order[j + 1..], visible);
    hide Among;
    hide Moved;
  }

  /** The first one on the right, and the others. */
  lemma RightIs(order: seq<Link>, i: nat, visible: set<Link>)
    requires i < |order|
    ensures var j := NextVisible(order, i + 1, visible); var right := Right(order, i, visible);
      if j < |order| then right != [] && right[0] == order[j] && right[1..] == Among(order[j + 1..], visible)
      else right == []
  {
    AmongFrom(order, i + 1, visible);
    hide Among;
    hide NextVisible;
  }

  lemma MovedBehind<T>(s: seq<T>, i: nat, j: nat)
    requires i < j < |s|
    ensures Moved(s, i, j) == s[..i] + (s[i + 1..j] + [s[j]]) + [s[i]] + s[j + 1..]
  {
  }

  lemma DownJoins(a: seq<Link>, hidden: seq<Link>, x: Link, sel: Link, rest: seq<Link>, visible: set<Link>)
    requires forall k :: 0 <= k < |hidden| ==> hidden[k] !in visible
    requires x in visible && sel in visible
    ensures Among(a + (hidden + [x]) + [sel] + rest, visible) == Among(a, visible) + [x] + [sel] + Among(rest, visible)
  {
    AmongNone(hidden, visible);
    AmongOne(x, visible);
    AmongOne(sel, visible);
    AmongJoins(hidden, [x], visible);
    assert Among(hidden + [x], visible) == [x];
    hide *;
    AmongThree(a + (hidden + [x]), [sel], rest, visible);
    AmongJoins(a, hidden + [x], visible);
  }

  /** Moving it up swaps it with its neighbour above, and moving the first one up brings it to the end. */
  lemma UpSwapsVisible(order: seq<Link>, i: nat, visible: set<Link>)
    requires i < |order| && order[i] in visible && !LosesItself(order, i, visible)
    ensures var left, right := Left(order, i, visible), Right(order, i, visible);
      && Among(order, visible) == left + [order[i]] + right
      && Among(MovedUp(order, i, visible), visible) ==
         if left == [] then right + [order[i]]
         else left[..|left| - 1] + [order[i]] + [left[|left| - 1]] + right
  {
    AmongAround(order, i, visible);
    if PastVisible(order, i, visible) > 0 {
      UpBefore(order, i, visible);
    } else {
      AmongUpTo(order, i, visible);
      ToEnd(order, i, visible);
      assert MovedUp(order, i, visible) == Moved(order, i, |order| - 1);
      assert Left(order, i, visible) == [];
      hide *;
      assert [] + Right(order, i, visible) == Right(order, i, visible);
    }
  }

  /** A client brought to the end. */
  lemma ToEnd(order: seq<Link>, i: nat, which: set<Link>)
    requires i < |order| && order[i] in which
    ensures Among(Moved(order, i, |order| - 1), which) ==
            Among(order[..i], which) + Among(order[i + 1..], which) + [order[i]]
  {
    assert Moved(order, i, |order| - 1) == order[..i] + order[i + 1..] + [order[i]];
    AmongThree(order[..i], order[i + 1..], [order[i]], which);
    AmongOne(order[i], which);
    hide *;
  }

  lemma UpBefore(order: seq<Link>, i: nat, visible: set<Link>)
    requires i < |order| && order[i] in visible && PastVisible(order, i, visible) > 0
    ensures var left, right := Left(order, i, visible), Right(order, i, visible);
      left != [] &&
      HasPair(Among(MovedUp(order, i, visible), visible), left[..|left| - 1], order[i], left[|left| - 1], right)
  {
    var j := PastVisible(order, i, visible);
    LeftIs(order, i, visible);
    PutBefore(order, i, j - 1, visible);
    assert MovedUp(order, i, visible) == Moved(order, i, j - 1);
    assert Right(order, i, visible) == Among(order[i + 1..], visible);
    hide *;
  }

  /** The last one on the left, and the others. */
  lemma LeftIs(order: seq<Link>, i: nat, visible: set<Link>)
    requires i < |order|
    ensures var j := PastVisible(order, i, visible); var left := Left(order, i, visible);
      if j > 0 then
        left != [] && left[|left| - 1] == order[j - 1] && left[..|left| - 1] == Among(order[..j - 1], visible)
      else left == []
  {
    AmongUpTo(order, i, visible);
    hide Among;
    hide PastVisible;
  }

  /** Only the first and the last of a stretch can be seen, and the last one goes before the first. */
  lemma PutBefore(order: seq<Link>, i: nat, j: nat, visible: set<Link>)
    requires j < i < |order| && order[i] in visible && order[j] in visible
    requires forall k :: j < k < i ==> order[k] !in visible
    ensures HasPair(Among(Moved(order, i, j), visible),
                    Among(order[..j], visible), order[i], order[j], Among(order[i + 1..], visible))
  {
    MovedBefore(order, i, j);
    UpJoins(order[..j], order[i], order[j], order[j + 1..i], order[i + 1..], visible);
    hide Among;
    hide Moved;
  }

  lemma MovedBefore<T>(s: seq<T>, i: nat, j: nat)
    requires j < i < |s|
    ensures Moved(s, i, j) == s[..j] + [s[i]] + ([s[j]] + s[j + 1..i]) + s[i + 1..]
  {
  }

  lemma UpJoins(a: seq<Link>, sel: Link, x: Link, hidden: seq<Link>, rest: seq<Link>, visible: set<Link>)
    requires forall k :: 0 <= k < |hidden| ==> hidden[k] !in visible
    requires x in visible && sel in visible
    ensures Among(a + [sel] + ([x] + hidden) + rest, visible) == Among(a, visible) + [sel] + [x] + Among(rest, visible)
  {
    AmongNone(hidden, visible);
    AmongOne(x, visible);
    AmongOne(sel, visible);
    AmongJoins([x], hidden, visible);
    assert Among([x] + hidden, visible) == [x];
    hide *;
    AmongThree(a + [sel], [x] + hidden, rest, visible);
    AmongJoins(a, [sel], visible);
  }

  /**
   * Zooming brings a tiled client to the head of the tiled ones, or the second
   * of them if it is there already; the others keep their order.
   */
  lemma ZoomLeads(order: seq<Link>, i: nat, tiled: set<Link>)
    requires i < |order| && order[i] in tiled
    ensures var left, right := Left(order, i, tiled), Right(order, i, tiled);
      && Among(order, tiled) == left + [order[i]] + right
      && Among(Zoomed(order, i, tiled), tiled) ==
         if left != [] then [order[i]] + left + right
         else if right != [] then [right[0]] + [order[i]] + right[1..]
         else [order[i]]
  {
    AmongAround(order, i, tiled);
    ZoomFirst(order, i, tiled);
    if NextVisible(order, 0, tiled) < i {
      ToFront(order, i, tiled);
      hide *;
      Regroup([order[i]], Left(order, i, tiled), Right(order, i, tiled));
    } else {
      SecondLeads(order, i, tiled);
      hide *;
      OnlyMiddle(Left(order, i, tiled), [order[i]], Right(order, i, tiled));
    }
  }

  lemma Regroup<T>(a: seq<T>, b: seq<T>, c: seq<T>)
    ensures a + b + c == a + (b + c)
  {
  }

  lemma OnlyMiddle<T>(a: seq<T>, b: seq<T>, c: seq<T>)
    requires a == []
    ensures a + b + c == b + c && (c == [] ==> a + b + c == b)
  {
  }

  lemma SecondLeads(order: seq<Link>, i: nat, tiled: set<Link>)
    requires i < |order| && order[i] in tiled && NextVisible(order, 0, tiled) >= i
    requires Left(order, i, tiled) == []
    ensures var right := Right(order, i, tiled);
      if right != [] then Among(Zoomed(order, i, tiled), tiled) == [right[0]] + [order[i]] + right[1..]
      else Zoomed(order, i, tiled) == order
  {
    var other := NextVisible(order, i + 1, tiled);
    RightIs(order, i, tiled);
    if other < |order| {
      ToFront(order, other, tiled);
      ZoomOther(order, i, other, tiled);
      assert Zoomed(order, i, tiled) == Moved(order, other, 0);
      hide *;
    }
  }

  /** There is a tiled client before i exactly when the first one is. */
  lemma ZoomFirst(order: seq<Link>, i: nat, tiled: set<Link>)
    requires i < |order| && order[i] in tiled
    ensures NextVisible(order, 0, tiled) < i <==> Left(order, i, tiled) != []
  {
    var first := NextVisible(order, 0, tiled);
    if first < i {
      AmongAround(order[..i], first, tiled);
    } else {
      AmongNone(order[..i], tiled);
    }
  }

  lemma ZoomOther(order: seq<Link>, i: nat, other: nat, tiled: set<Link>)
    requires i < other < |order| && order[i] in tiled && Left(order, i, tiled) == []
    requires forall k :: i < k < other ==> order[k] !in tiled
    ensures Among(order[..other], tiled) == [order[i]]
  {
    var part := order[..other];
    AmongAround(part, i, tiled);
    assert part[..i] == order[..i];
    AmongNone(part[i + 1..], tiled);
  }
}
