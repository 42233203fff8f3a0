/**
 * Conservation in the notification server. Two kinds of thing enter it and
 * must leave it exactly once: an id that becomes live leaves by one
 * NotificationClosed signal, and an icon leaves by being destroyed. Both obey
 * one law, received == spent + kept, proved here for every step.
 */
module NotificationBalance {
  import opened Sequences
  import opened Notifications

  datatype Token = TheId(id: nat) | TheIcon(icon: Icon)

  function Weight(n: Notification, tok: Token): nat {
    match tok
    case TheId(id) => if n.id == id then 1 else 0
    case TheIcon(icon) => if n.icon == Some(icon) then 1 else 0
  }

  function Total(q: seq<Notification>, tok: Token): nat {
    if q == [] then 0 else Weight(q[0], tok) + Total(q[1..], tok)
  }

  /** How many NotificationClosed signals went out for an id. */
  function ClosedCount(signals: seq<Signal>, id: nat): nat {
    if signals == [] then 0
    else
      var last := |signals| - 1;
      ClosedCount(signals[..last], id) + if signals[last].Closed? && signals[last].id == id then 1 else 0
  }

  /** How often the token entered the server. */
  function Received(s: State, tok: Token): nat {
    match tok
    case TheId(id) => multiset(s.arrivals)[id]
    case TheIcon(icon) => multiset(s.created)[icon]
  }

  /** How often it left for good. */
  function Spent(s: State, tok: Token): nat {
    match tok
    case TheId(id) => ClosedCount(s.signals, id)
    case TheIcon(icon) => multiset(s.freed)[icon]
  }

  /** How many owners it has now; the history keeps icons but not live ids. */
  function Kept(s: State, tok: Token): nat {
    (if s.active then Weight(s.cur, tok) else 0) + Total(s.queue, tok) +
    (if tok.TheIcon? then Total(s.hist, tok) else 0)
  }

  function Balance(s: State, tok: Token): nat { Spent(s, tok) + Kept(s, tok) }

  predicate AllNamed(q: seq<Notification>) { forall i :: 0 <= i < |q| ==> q[i].id != 0 }

  /* ---- totals over sequences ---- */

  lemma {:induction false} TotalConcat(a: seq<Notification>, b: seq<Notification>, tok: Token)
    ensures Total(a + b, tok) == Total(a, tok) + Total(b, tok)
  {
    if a == [] {
      assert a + b == b;
    } else {
      assert (a + b)[1..] == a[1..] + b;
      TotalConcat(a[1..], b, tok);
    }
  }

  lemma TotalOne(n: Notification, tok: Token)
    ensures Total([n], tok) == Weight(n, tok)
  {
    assert [n][1..] == [];
  }

  lemma TotalRemoveAt(q: seq<Notification>, i: nat, tok: Token)
    requires i < |q|
    ensures Total(q, tok) == Total(RemoveAt(q, i), tok) + Weight(q[i], tok)
  {
    assert q == q[..i] + ([q[i]] + q[i + 1..]);
    TotalConcat(q[..i], [q[i]] + q[i + 1..], tok);
    TotalConcat([q[i]], q[i + 1..], tok);
    TotalConcat(q[..i], q[i + 1..], tok);
    TotalOne(q[i], tok);
  }

  lemma TotalUpdate(q: seq<Notification>, i: nat, n: Notification, tok: Token)
    requires i < |q|
    ensures Total(q[i := n], tok) + Weight(q[i], tok) == Total(q, tok) + Weight(n, tok)
  {
    TotalRemoveAt(q, i, tok);
    TotalRemoveAt(q[i := n], i, tok);
    assert RemoveAt(q[i := n], i) == RemoveAt(q, i);
  }

  /* ---- what each part of queue.c does to the balance ---- */

  lemma SendClosedSpends(s: State, id: nat, reason: Reason, tok: Token)
    requires id != 0
    ensures var t := SendClosed(s, id, reason);
      && Kept(t, tok) == Kept(s, tok)
      && Spent(t, tok) == Spent(s, tok) + if tok == TheId(id) then 1 else 0
  {
    var signal := Closed(id, reason);
    assert (s.signals + [signal])[..|s.signals|] == s.signals;
  }

  lemma ReleaseSpends(s: State, n: Notification, tok: Token)
    ensures var t := Release(s, n);
      && Kept(t, tok) == Kept(s, tok)
      && Spent(t, tok) == Spent(s, tok) + if tok.TheIcon? then Weight(n, tok) else 0
  {
  }

  lemma RemoveHistoryBalances(s: State, i: nat, tok: Token)
    ensures Balance(RemoveHistory(s, i), tok) == Balance(s, tok)
    ensures Spent(RemoveHistory(s, i), tok) >= Spent(s, tok)
  {
    if i < |s.hist| {
      ReleaseSpends(s, s.hist[i], tok);
      TotalRemoveAt(s.hist, i, tok);
    }
  }

  lemma PushHistoryKeeps(s: State, n: Notification, tok: Token)
    ensures var t := PushHistory(s, n);
      && Balance(t, tok) == Balance(s, tok) + (if tok.TheIcon? then Weight(n, tok) else 0)
      && Spent(t, tok) >= Spent(s, tok)
  {
    ReleaseSpends(s, n, tok);
    if !n.transient {
      var i := HistoryVictim(s.hist, n);
      var t := if i < |s.hist| then RemoveHistory(s, i) else s;
      RemoveHistoryBalances(s, i, tok);
      TotalConcat([n], t.hist, tok);
      TotalOne(n, tok);
      assert PushHistory(s, n) == t.(hist := [n] + t.hist);
    }
  }

  /** Closing a notification on the way to the history settles its whole weight. */
  lemma RetireSettles(s: State, n: Notification, reason: Reason, tok: Token)
    requires n.id != 0
    ensures var t := PushHistory(SendClosed(s, n.id, reason), n);
      && Balance(t, tok) == Balance(s, tok) + Weight(n, tok)
      && Spent(t, tok) >= Spent(s, tok)
  {
    SendClosedSpends(s, n.id, reason, tok);
    PushHistoryKeeps(SendClosed(s, n.id, reason), n, tok);
  }

  lemma DiscardSettles(s: State, n: Notification, reason: Reason, tok: Token)
    requires n.id != 0
    ensures var t := Release(SendClosed(s, n.id, reason), n);
      && Balance(t, tok) == Balance(s, tok) + Weight(n, tok)
      && Spent(t, tok) == Spent(s, tok) + Weight(n, tok)
  {
    SendClosedSpends(s, n.id, reason, tok);
    ReleaseSpends(SendClosed(s, n.id, reason), n, tok);
  }

  lemma UnqueueGives(s: State, i: nat, tok: Token)
    requires i < |s.queue|
    ensures var t := Unqueue(s, i);
      && Balance(t, tok) + Weight(s.queue[i], tok) == Balance(s, tok)
      && Spent(t, tok) == Spent(s, tok)
  {
    TotalRemoveAt(s.queue, i, tok);
  }

  lemma EnqueueTakes(s: State, n: Notification, front: bool, tok: Token)
    requires AllNamed(s.queue)
    ensures var t := Enqueue(s, n, front);
      && Balance(t, tok) == Balance(s, tok) + Weight(n, tok)
      && Spent(t, tok) >= Spent(s, tok)
  {
    var t := s;
    if |s.queue| == QUEUE_MAX {
      var i := Evicted(s.queue);
      UnqueueGives(s, i, tok);
      RetireSettles(Unqueue(s, i), s.queue[i], Undefined, tok);
      t := Evict(s);
    }
    TotalConcat([n], t.queue, tok);
    TotalConcat(t.queue, [n], tok);
    TotalOne(n, tok);
  }

  lemma ShowBalances(s: State, tok: Token)
    ensures var t := Show(s);
      && Balance(t.(active := true), tok) == Balance(s.(active := true), tok)
      && Balance(t.(active := false), tok) == Balance(s.(active := false), tok)
      && Spent(t, tok) == Spent(s, tok)
  {
    hide Arm;
    hide Armed;
    hide Total;
    hide ClosedCount;
  }

  lemma DropSettles(s: State, tok: Token)
    requires !s.active && s.cur.id != 0
    ensures Balance(Drop(s), tok) == Balance(s.(active := true), tok)
    ensures Spent(Drop(s), tok) >= Spent(s, tok)
  {
    RetireSettles(s, s.cur, Undefined, tok);
  }

  /** Showing an entry, or dropping it when that fails, moves it and loses nothing. */
  lemma ShowOrDropBalances(s: State, tok: Token)
    requires s.cur.id != 0
    ensures var t := Show(s);
      var u := if t.active then t else Drop(t);
      && Balance(u, tok) == Balance(s.(active := true), tok)
      && Spent(u, tok) >= Spent(s, tok)
  {
    ShowBalances(s, tok);
    var t := Show(s);
    if !t.active {
      DropSettles(t, tok);
    } else {
      assert t == t.(active := true);
    }
  }

  lemma ShowQueuedBalances(s: State, tok: Token)
    requires s.queue != [] && !s.active && AllNamed(s.queue)
    ensures Balance(ShowQueued(s), tok) == Balance(s, tok)
    ensures Spent(ShowQueued(s), tok) >= Spent(s, tok)
  {
    var i := NextIndex(s.queue);
    UnqueueGives(s, i, tok);
    ShowOrDropBalances(Unqueue(s, i).(cur := s.queue[i]), tok);
  }

  lemma {:induction false} ShowNextBalances(s: State, tok: Token)
    requires AllNamed(s.queue)
    ensures Balance(ShowNext(s), tok) == Balance(s, tok)
    ensures Spent(ShowNext(s), tok) >= Spent(s, tok)
    decreases |s.queue|
  {
    if !s.active && s.queue != [] {
      ShowQueuedBalances(s, tok);
      ShowQueuedShrinks(s);
      ShowNextBalances(ShowQueued(s), tok);
    }
  }

  lemma ShowOrNextBalances(s: State, tok: Token)
    requires s.cur.id != 0 && AllNamed(s.queue)
    ensures Balance(ShowOrNext(s), tok) == Balance(s.(active := true), tok)
    ensures Spent(ShowOrNext(s), tok) >= Spent(s, tok)
  {
    ShowOrDropBalances(s, tok);
    var t := Show(s);
    if !t.active {
      ShowNextBalances(Drop(t), tok);
    }
  }

  lemma TakeDownSettles(s: State, reason: Reason, tok: Token)
    requires s.active && s.cur.id != 0
    ensures Balance(TakeDown(s, reason), tok) == Balance(s, tok)
    ensures Spent(TakeDown(s, reason), tok) >= Spent(s, tok)
    ensures reason == ByCall ==> Spent(TakeDown(s, reason), tok) == Spent(s, tok) + Weight(s.cur, tok)
  {
    var t := Arm(s.(active := false, held := false), 0);
    assert Balance(t, tok) + Weight(s.cur, tok) == Balance(s, tok);
    RetireSettles(t, s.cur, reason, tok);
    DiscardSettles(t, s.cur, reason, tok);
    var v := SendClosed(t, s.cur.id, reason);
    var u := if reason == ByCall then Release(v, s.cur) else PushHistory(v, s.cur);
    assert Balance(u, tok) == Balance(s, tok) && Spent(u, tok) >= Spent(s, tok);
    IconlessCur(u, tok);
  }

  /** An inactive slot owns nothing, so clearing its icon field changes nothing. */
  lemma IconlessCur(s: State, tok: Token)
    requires !s.active
    ensures var t := s.(cur := s.cur.(icon := None));
      Balance(t, tok) == Balance(s, tok) && Spent(t, tok) == Spent(s, tok)
  {
  }

  lemma ClearBalances(s: State, reason: Reason, tok: Token)
    requires AllNamed(s.queue) && (s.active ==> s.cur.id != 0)
    ensures Balance(Clear(s, reason), tok) == Balance(s, tok)
    ensures Spent(Clear(s, reason), tok) >= Spent(s, tok)
    ensures s.active && reason == ByCall ==> Spent(Clear(s, reason), tok) >= Spent(s, tok) + Weight(s.cur, tok)
  {
    if s.active {
      TakeDownSettles(s, reason, tok);
      ShowNextBalances(TakeDown(s, reason), tok);
    }
  }

  lemma {:induction false} DrainDismissedBalances(s: State, tok: Token)
    requires AllNamed(s.queue)
    ensures Balance(DrainDismissed(s), tok) == Balance(s, tok)
    ensures Spent(DrainDismissed(s), tok) >= Spent(s, tok)
    decreases |s.queue|
  {
    if s.queue != [] {
      var n := s.queue[0];
      UnqueueGives(s, 0, tok);
      RetireSettles(Unqueue(s, 0), n, Dismissed, tok);
      DrainDismissedBalances(PushHistory(SendClosed(Unqueue(s, 0), n.id, Dismissed), n), tok);
    }
  }

  /** Dismissing all closes every live id as often as it was live, and loses no icon. */
  lemma DismissAllBalances(s: State, tok: Token)
    requires AllNamed(s.queue) && (s.active ==> s.cur.id != 0)
    ensures Balance(DismissAll(s), tok) == Balance(s, tok)
    ensures Spent(DismissAll(s), tok) >= Spent(s, tok)
    ensures s.active && tok.TheId? ==>
      Kept(DismissAll(s), tok) == 0 && Spent(DismissAll(s), tok) == Spent(s, tok) + Kept(s, tok)
  {
    if s.active {
      var t := Arm(s.(active := false), 0);
      RetireSettles(t, s.cur, Dismissed, tok);
      var u := PushHistory(SendClosed(t, s.cur.id, Dismissed), s.cur);
      IconlessCur(u, tok);
      DrainDismissedBalances(u.(cur := u.cur.(icon := None)), tok);
    }
  }

  lemma PromoteBalances(s: State, i: nat, tok: Token)
    requires s.active && i < |s.queue| && AllNamed(s.queue) && s.cur.id != 0
    ensures Balance(Promote(s, i), tok) == Balance(s, tok)
    ensures Spent(Promote(s, i), tok) >= Spent(s, tok)
  {
    UnqueueGives(s, i, tok);
    var t := Unqueue(s, i).(active := false);
    EnqueueTakes(t, s.cur, true, tok);
    var u := Enqueue(t, s.cur, true);
    EnqueueNamed(t, s.cur, true);
    ShowOrNextBalances(u.(cur := s.queue[i]), tok);
  }

  lemma EnqueueNamed(s: State, n: Notification, front: bool)
    requires AllNamed(s.queue) && n.id != 0
    ensures AllNamed(Enqueue(s, n, front).queue)
  {
  }

  lemma ResumeBalances(s: State, tok: Token)
    ensures Balance(Resume(s), tok) == Balance(s, tok)
    ensures Spent(Resume(s), tok) >= Spent(s, tok)
  {
  }

  lemma HoldBalances(s: State, hold: bool, tok: Token)
    requires AllNamed(s.queue) && (s.active ==> s.cur.id != 0)
    ensures Balance(Hold(s, hold), tok) == Balance(s, tok)
    ensures Spent(Hold(s, hold), tok) >= Spent(s, tok)
  {
    if s.active && hold != s.held && !hold {
      var i := FirstUnseenCritical(s.queue);
      if i < |s.queue| && s.cur.urgency != Critical {
        PromoteBalances(s.(held := false), i, tok);
      } else {
        ResumeBalances(s, tok);
      }
    }
  }

  lemma OtherSignalFree(signals: seq<Signal>, signal: Signal, id: nat)
    requires !signal.Closed?
    ensures ClosedCount(signals + [signal], id) == ClosedCount(signals, id)
  {
    assert (signals + [signal])[..|signals|] == signals;
  }

  /** The signals of an action are not closings. */
  lemma ActionSignalsFree(s: State, key: string, token: bool, tok: Token)
    ensures Balance(SignalAction(s, key, token), tok) == Balance(s, tok)
    ensures Spent(SignalAction(s, key, token), tok) == Spent(s, tok)
  {
    if tok.TheId? {
      var t := if token then s.signals + [ActivationToken(s.cur.id)] else s.signals;
      OtherSignalFree(s.signals, ActivationToken(s.cur.id), tok.id);
      OtherSignalFree(t, ActionInvoked(s.cur.id, key), tok.id);
    }
  }

  lemma InvokeActionBalances(s: State, key: string, token: bool, tok: Token)
    requires AllNamed(s.queue) && (s.active ==> s.cur.id != 0)
    ensures Balance(InvokeAction(s, key, token), tok) == Balance(s, tok)
    ensures Spent(InvokeAction(s, key, token), tok) >= Spent(s, tok)
  {
    ActionSignalsFree(s, key, token, tok);
    HoldBalances(SignalAction(s, key, token), false, tok);
    ClearBalances(SignalAction(s, key, token), Dismissed, tok);
  }

  /** Whether n would be a new live notification rather than an update in place. */
  predicate IsNew(s: State, id: nat) {
    !(s.active && s.cur.id == id) && FirstWithId(s.queue, id) == |s.queue|
  }

  lemma PlaceUpdateBalances(s: State, n: Notification, tok: Token)
    requires AllNamed(s.queue) && (s.active ==> s.cur.id != 0) && n.id != 0
    requires !IsNew(s, n.id)
    ensures Balance(Place(s, n), tok) == Balance(s, tok) + (if tok.TheIcon? then Weight(n, tok) else 0)
    ensures Spent(Place(s, n), tok) >= Spent(s, tok)
  {
    if s.active && s.cur.id == n.id {
      ReleaseSpends(s, s.cur, tok);
      ShowOrNextBalances(Release(s, s.cur).(cur := n), tok);
    } else {
      var i := FirstWithId(s.queue, n.id);
      ReleaseSpends(s, s.queue[i], tok);
      TotalUpdate(s.queue, i, n, tok);
    }
  }

  lemma CoverBalances(s: State, n: Notification, tok: Token)
    requires AllNamed(s.queue) && (s.active ==> s.cur.id != 0) && n.id != 0
    ensures Balance(Cover(s, n), tok) == Balance(s, tok) + Weight(n, tok)
    ensures Spent(Cover(s, n), tok) >= Spent(s, tok)
  {
    var t := s;
    if s.active {
      var u := Arm(s, 0).(active := false);
      t := Enqueue(u, s.cur, true);
      EnqueueTakes(u, s.cur, true, tok);
      EnqueueNamed(u, s.cur, true);
    }
    ShowOrNextBalances(t.(cur := n), tok);
  }

  lemma PlaceNewBalances(s: State, n: Notification, tok: Token)
    requires AllNamed(s.queue) && (s.active ==> s.cur.id != 0) && n.id != 0
    ensures Balance(PlaceNew(s, n), tok) == Balance(s, tok) + Weight(n, tok)
    ensures Spent(PlaceNew(s, n), tok) >= Spent(s, tok)
  {
    if s.held {
      EnqueueTakes(s, n, n.urgency == Critical, tok);
    } else if !s.active || s.cur.timeoutMs == 0 || n.urgency == Critical {
      CoverBalances(s, n, tok);
    } else {
      EnqueueTakes(s, n, false, tok);
    }
  }

  /** The notification that is closed: its id gets a signal and its icon is destroyed. */
  lemma CloseByIdBalances(s: State, id: nat, tok: Token)
    requires AllNamed(s.queue) && (s.active ==> s.cur.id != 0)
    ensures Balance(CloseById(s, id), tok) == Balance(s, tok)
    ensures Spent(CloseById(s, id), tok) >= Spent(s, tok)
    ensures s.active && s.cur.id == id ==> Spent(CloseById(s, id), tok) >= Spent(s, tok) + Weight(s.cur, tok)
    ensures var i := FirstWithId(s.queue, id);
      !(s.active && s.cur.id == id) && id != 0 && i < |s.queue| ==>
        Spent(CloseById(s, id), tok) == Spent(s, tok) + Weight(s.queue[i], tok)
  {
    ClearBalances(s, ByCall, tok);
    var i := FirstWithId(s.queue, id);
    if !(s.active && id == s.cur.id) && id != 0 && i < |s.queue| {
      var n := s.queue[i];
      UnqueueGives(s, i, tok);
      ReleaseSpends(Unqueue(s, i), n, tok);
      SendClosedSpends(Release(Unqueue(s, i), n), id, ByCall, tok);
    }
  }

  lemma {:induction false} DrainStoppedBalances(s: State, tok: Token)
    requires AllNamed(s.queue)
    ensures Balance(DrainStopped(s), tok) == Balance(s, tok)
    ensures Spent(DrainStopped(s), tok) >= Spent(s, tok)
    ensures DrainStopped(s).queue == []
    decreases |s.queue|
  {
    if s.queue != [] {
      var n := s.queue[0];
      UnqueueGives(s, 0, tok);
      DiscardSettles(Unqueue(s, 0), n, Undefined, tok);
      DrainStoppedBalances(Release(SendClosed(Unqueue(s, 0), n.id, Undefined), n), tok);
    }
  }

  lemma {:induction false} FreeHistoryBalances(s: State, tok: Token)
    ensures Balance(FreeHistory(s), tok) == Balance(s, tok)
    ensures Spent(FreeHistory(s), tok) >= Spent(s, tok)
    ensures FreeHistory(s).hist == []
    decreases |s.hist|
  {
    if s.hist != [] {
      var last := |s.hist| - 1;
      assert s.hist[..last] == RemoveAt(s.hist, last);
      ReleaseSpends(s, s.hist[last], tok);
      TotalRemoveAt(s.hist, last, tok);
      FreeHistoryBalances(Release(s, s.hist[last]).(hist := s.hist[..last]), tok);
    }
  }

  lemma StopBalances(s: State, tok: Token)
    requires AllNamed(s.queue) && (s.active ==> s.cur.id != 0)
    ensures Balance(Stop(s), tok) == Balance(s, tok)
    ensures Spent(Stop(s), tok) >= Spent(s, tok)
  {
    hide Total;
    hide ClosedCount;
    hide DrainStopped;
    hide FreeHistory;
    hide Clear;
    if s.running {
      DrainStoppedBalances(s, tok);
      ClearBalances(DrainStopped(s), Undefined, tok);
      FreeHistoryBalances(Clear(DrainStopped(s), Undefined), tok);
    }
  }
}
