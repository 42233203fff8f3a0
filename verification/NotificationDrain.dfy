/** The order in which queued notifications come up once nothing new arrives. */
module NotificationDrain {
  import opened Sequences
  import opened Notifications
  import opened NotificationInvariant

  predicate SeenCritical(n: Notification) { n.urgency == Critical && n.seen }

  function Filter(q: seq<Notification>, p: Notification -> bool): seq<Notification> {
    if q == [] then [] else (if p(q[0]) then [q[0]] else []) + Filter(q[1..], p)
  }

  /** Unseen criticals, then expiring ones, then criticals already seen, each in queue order. */
  function DrainOrder(q: seq<Notification>): seq<Notification> {
    Filter(q, UnseenCritical) + Filter(q, Expiring) + Filter(q, SeenCritical)
  }

  function Ids(q: seq<Notification>): (ids: seq<nat>)
    ensures |ids| == |q| && forall i :: 0 <= i < |q| ==> ids[i] == q[i].id
  {
    seq(|q|, i requires 0 <= i < |q| => q[i].id)
  }

  lemma {:induction false} FilterWithout(q: seq<Notification>, i: nat, p: Notification -> bool)
    requires i < |q| && !p(q[i])
    ensures Filter(RemoveAt(q, i), p) == Filter(q, p)
  {
    if i == 0 {
      assert RemoveAt(q, 0) == q[1..];
    } else {
      assert RemoveAt(q, i)[1..] == RemoveAt(q[1..], i - 1);
      FilterWithout(q[1..], i - 1, p);
    }
  }

  lemma {:induction false} FilterFirst(q: seq<Notification>, i: nat, p: Notification -> bool)
    requires i < |q| && p(q[i]) && forall j :: 0 <= j < i ==> !p(q[j])
    ensures Filter(q, p) == [q[i]] + Filter(RemoveAt(q, i), p)
  {
    if i == 0 {
      assert RemoveAt(q, 0) == q[1..];
    } else {
      assert RemoveAt(q, i)[1..] == RemoveAt(q[1..], i - 1);
      FilterFirst(q[1..], i - 1, p);
    }
  }

  lemma {:induction false} FilterNone(q: seq<Notification>, p: Notification -> bool)
    requires forall j :: 0 <= j < |q| ==> !p(q[j])
    ensures Filter(q, p) == []
  {
    if q != [] { FilterNone(q[1..], p); }
  }

  /** Taking out the first entry p accepts, where no other class accepts it, takes it out of p's class only. */
  lemma TakeFirst(q: seq<Notification>, i: nat, p: Notification -> bool,
                  a: Notification -> bool, b: Notification -> bool)
    requires i < |q| && p(q[i]) && !a(q[i]) && !b(q[i])
    requires forall j :: 0 <= j < i ==> !p(q[j])
    ensures var r := RemoveAt(q, i);
      && Filter(q, p) == [q[i]] + Filter(r, p)
      && Filter(q, a) == Filter(r, a) && Filter(q, b) == Filter(r, b)
  {
    FilterFirst(q, i, p);
    FilterWithout(q, i, a);
    FilterWithout(q, i, b);
  }

  /** What notify_show_next picks is the head of the drain order; the rest keeps its order. */
  lemma NextHeadsDrainOrder(q: seq<Notification>)
    requires q != [] && AllProper(q)
    ensures DrainOrder(q) == [q[NextIndex(q)]] + DrainOrder(RemoveAt(q, NextIndex(q)))
  {
    var i := NextIndex(q);
    assert Proper(q[i]);
    if FirstUnseenCritical(q) < |q| {
      TakeFirst(q, i, UnseenCritical, Expiring, SeenCritical);
    } else {
      FilterNone(q, UnseenCritical);
      if FirstExpiring(q) < |q| {
        TakeFirst(q, i, Expiring, UnseenCritical, SeenCritical);
      } else {
        FilterNone(q, Expiring);
        TakeFirst(q, 0, SeenCritical, UnseenCritical, Expiring);
      }
    }
  }

  /** The entries as notify_show_next picks them one by one. */
  function PickOrder(q: seq<Notification>): seq<Notification>
    decreases |q|
  {
    if q == [] then [] else [q[NextIndex(q)]] + PickOrder(RemoveAt(q, NextIndex(q)))
  }

  lemma {:induction false} PicksInDrainOrder(q: seq<Notification>)
    requires AllProper(q)
    ensures PickOrder(q) == DrainOrder(q)
    ensures multiset(PickOrder(q)) == multiset(q)
    decreases |q|
  {
    if q != [] {
      var i := NextIndex(q);
      NextHeadsDrainOrder(q);
      PicksInDrainOrder(RemoveAt(q, i));
      MultisetRemoveAt(q, i);
    }
  }

  /** From here on the event loop arms the timer whenever it is asked to. */
  ghost predicate TimersWork(s: State) {
    forall k :: k >= s.calls ==> s.timerOutcomes(k) == TimerOutcome(true, true)
  }

  lemma ShowWorks(s: State)
    requires TimersWork(s)
    ensures Show(s).active && TimersWork(Show(s))
  {
    assert s.timerOutcomes(s.calls) == TimerOutcome(true, true);
  }

  lemma ClearShowsNext(s: State, reason: Reason)
    requires Tidy(s) && s.active && TimersWork(s)
    ensures var t := Clear(s, reason);
      && TimersWork(t) && Tidy(t)
      && (if s.queue == [] then !t.active && t.queue == []
          else t.active && t.cur.id == s.queue[NextIndex(s.queue)].id
               && t.queue == RemoveAt(s.queue, NextIndex(s.queue)))
  {
    ClearTidy(s, reason);
    var u := TakeDown(s, reason);
    if u.queue != [] {
      var i := NextIndex(u.queue);
      ShowWorks(Unqueue(u, i).(cur := u.queue[i]));
      assert ShowNext(ShowQueued(u)) == ShowQueued(u);
    }
  }

  /** The ids that come on screen as one notification after another is taken down. */
  function Showings(s: State, reasons: seq<Reason>): seq<nat>
    decreases |reasons|
  {
    if reasons == [] then []
    else
      var t := Clear(s, reasons[0]);
      (if t.active then [t.cur.id] else []) + Showings(t, reasons[1..])
  }

  lemma IdsOfPicks(q: seq<Notification>)
    requires q != []
    ensures Ids(PickOrder(q)) == [q[NextIndex(q)].id] + Ids(PickOrder(RemoveAt(q, NextIndex(q))))
  {
  }

  lemma {:induction false} ShowingsArePicks(s: State, reasons: seq<Reason>)
    requires Tidy(s) && s.active && TimersWork(s)
    requires |reasons| == |s.queue|
    ensures Showings(s, reasons) == Ids(PickOrder(s.queue))
    decreases |reasons|
  {
    if reasons != [] {
      ClearShowsNext(s, reasons[0]);
      ShowingsArePicks(Clear(s, reasons[0]), reasons[1..]);
      IdsOfPicks(s.queue);
    }
  }

  /** No starvation: as many clears as there are entries show every one, in drain order. */
  lemma EveryQueuedIsShown(s: State, reasons: seq<Reason>)
    requires Tidy(s) && s.active && TimersWork(s)
    requires |reasons| == |s.queue|
    ensures Showings(s, reasons) == Ids(DrainOrder(s.queue))
    ensures multiset(DrainOrder(s.queue)) == multiset(s.queue)
  {
    ShowingsArePicks(s, reasons);
    PicksInDrainOrder(s.queue);
  }
}
