/**
 * What each operation of the notification server does to the screen, the
 * queue, the history and the bus, said of its outcome.
 */
module NotificationEffects {
  import opened Sequences
  import opened Notifications
  import opened NotificationInvariant
  import opened NotificationBalance
  import opened NotificationDrain

  /** n as it stands on screen from now on. */
  function OnScreen(s: State, n: Notification): Notification { n.(shownMs := s.now, seen := true) }

  /* ---- where a new notification goes ---- */

  /**
   * A critical one, and any one over a free or a sticky box, takes the box at
   * once; what it covers leads the queue.
   */
  lemma NewTakesTheBox(s: State, n: Notification)
    requires TimersWork(s) && Tidy(s) && IsNew(s, n.id) && !s.held
    requires n.urgency == Critical || !s.active || s.cur.urgency == Critical
    ensures var t := Place(s, n);
      && t.active && !t.held && t.cur == OnScreen(s, n)
      && (s.active ==> t.queue != [] && t.queue[0] == s.cur)
      && (s.active && |s.queue| < QUEUE_MAX ==>
            t.queue == [s.cur] + s.queue && t.hist == s.hist && t.signals == s.signals)
      && (!s.active ==> t.queue == s.queue && t.hist == s.hist && t.signals == s.signals)
  {
    var u := s.(arrivals := s.arrivals + [n.id]);
    hide Evict;
    if s.active {
      assert u.timerOutcomes(u.calls) == TimerOutcome(true, true);
      ShowWorks(Enqueue(Arm(u, 0).(active := false), s.cur, true).(cur := n));
    } else {
      ShowWorks(u.(cur := n));
    }
  }

  /** Under a hold, or when it is not critical and an expiring one is shown, it waits: a held critical at the front. */
  lemma NewWaits(s: State, n: Notification)
    requires Tidy(s) && s.active && IsNew(s, n.id) && |s.queue| < QUEUE_MAX
    requires s.held || (n.urgency != Critical && s.cur.urgency != Critical)
    ensures var t := Place(s, n);
      && t.active && t.cur == s.cur && t.held == s.held && t.hist == s.hist && t.signals == s.signals
      && t.queue == if s.held && n.urgency == Critical then [n] + s.queue else s.queue + [n]
  {
  }

  /** An update keeps its place, on screen or in the queue, and nothing else moves. */
  lemma UpdateKeepsItsPlace(s: State, n: Notification)
    requires TimersWork(s) && Tidy(s) && Proper(n) && !IsNew(s, n.id)
    ensures var t := Place(s, n); var i := FirstWithId(s.queue, n.id);
      && t.active == s.active && t.held == s.held && t.hist == s.hist && t.signals == s.signals
      && (if s.active && s.cur.id == n.id then t.cur == OnScreen(s, n) && t.queue == s.queue
          else t.cur == s.cur && i < |s.queue| && t.queue == s.queue[i := n])
  {
    if s.active && s.cur.id == n.id {
      ShowWorks(Release(s, s.cur).(cur := n));
    }
  }

  /** When the queue is full, its oldest expiring entry, or else its head, is closed and leads the history. */
  lemma FullQueueGivesUpOne(s: State, n: Notification, front: bool)
    requires |s.queue| == QUEUE_MAX
    ensures var t := Enqueue(s, n, front); var i := Evicted(s.queue); var gone := s.queue[i];
      && (forall j :: 0 <= j < i ==> s.queue[j].timeoutMs == 0)
      && (gone.timeoutMs != 0 || (i == 0 && forall j :: 0 <= j < |s.queue| ==> s.queue[j].timeoutMs == 0))
      && t.queue == (if front then [n] + RemoveAt(s.queue, i) else RemoveAt(s.queue, i) + [n])
      && (gone.id != 0 ==> t.signals == s.signals + [Closed(gone.id, Undefined)])
      && (!gone.transient ==> t.hist != [] && t.hist[0] == gone)
      && (gone.transient ==> t.hist == s.hist)
  {
    var i := Evicted(s.queue);
    assert forall j :: 0 <= j < FirstExpiring(s.queue) ==> !Expiring(s.queue[j]);
  }

  /* ---- the history ---- */

  /**
   * A push leads the history; the entry for its slot, or else the oldest of a
   * full one, goes, and the rest keep their order.
   */
  lemma PushLeads(s: State, n: Notification)
    requires !n.transient
    ensures var t := PushHistory(s, n); var i := FirstSlot(s.hist, n);
      && t.hist != [] && t.hist[0] == n
      && (i < |s.hist| ==> SameSlot(s.hist[i], n) && t.hist[1..] == RemoveAt(s.hist, i))
      && (i == |s.hist| != HISTORY_MAX ==> t.hist[1..] == s.hist)
      && (i == |s.hist| == HISTORY_MAX ==> t.hist[1..] == s.hist[..HISTORY_MAX - 1])
  {
    var rest := PushHistory(s, n).hist[1..];
    assert rest == if HistoryVictim(s.hist, n) < |s.hist| then RemoveAt(s.hist, HistoryVictim(s.hist, n)) else s.hist;
    if FirstSlot(s.hist, n) == |s.hist| == HISTORY_MAX {
      assert RemoveAt(s.hist, HISTORY_MAX - 1) == s.hist[..HISTORY_MAX - 1];
    }
  }

  lemma TransientIsNotKept(s: State, n: Notification)
    requires n.transient
    ensures PushHistory(s, n).hist == s.hist
  {
  }

  /* ---- taking down ---- */

  /** What is on screen is closed for that reason, and kept unless its client closed it; no other signal is sent. */
  lemma ClearTells(s: State, reason: Reason)
    requires TimersWork(s) && Tidy(s) && s.active
    ensures var t := Clear(s, reason);
      && t.signals == s.signals + [Closed(s.cur.id, reason)]
      && (reason == ByCall ==> t.hist == s.hist)
      && (reason != ByCall ==> t.hist == PushHistory(s, s.cur).hist)
  {
    hide HistoryVictim;
    var u := TakeDown(s, reason);
    assert u.hist == if reason == ByCall then s.hist else PushHistory(s, s.cur).hist;
    assert TimersWork(u);
    if u.queue != [] {
      var i := NextIndex(u.queue);
      ShowWorks(Unqueue(u, i).(cur := u.queue[i]));
      assert ShowNext(ShowQueued(u)) == ShowQueued(u);
    }
  }

  /** The timer expires it, the user dismisses it, its client closes it. */
  lemma EachEventHasItsReason(s: State)
    requires TimersWork(s) && Tidy(s) && s.active && s.running
    ensures Handle(s, TimerFired).signals == s.signals + [Closed(s.cur.id, Expired)]
    ensures Handle(s, DismissOne).signals == s.signals + [Closed(s.cur.id, Dismissed)]
    ensures Handle(s, CloseNotification(s.cur.id)).signals == s.signals + [Closed(s.cur.id, ByCall)]
    ensures Handle(s, CloseNotification(s.cur.id)).hist == s.hist
  {
    ClearTells(s, Expired);
    ClearTells(s, Dismissed);
    ClearTells(s, ByCall);
    HandledAsClears(s);
    hide *;
  }

  lemma HandledAsClears(s: State)
    requires s.active && s.running
    ensures Handle(s, TimerFired) == Clear(s, Expired) && Handle(s, DismissOne) == Clear(s, Dismissed)
    ensures Handle(s, CloseNotification(s.cur.id)) == Clear(s, ByCall)
  {
    hide Clear;
  }

  /** A queued one that its client closes goes without a trace but its signal. */
  lemma QueuedIsClosed(s: State, i: nat)
    requires Tidy(s) && i < |s.queue| && FirstWithId(s.queue, s.queue[i].id) == i
    requires !(s.active && s.cur.id == s.queue[i].id)
    ensures var t := CloseById(s, s.queue[i].id);
      && t.queue == RemoveAt(s.queue, i) && t.signals == s.signals + [Closed(s.queue[i].id, ByCall)]
      && t.hist == s.hist && t.active == s.active && t.cur == s.cur
  {
  }

  function Closings(q: seq<Notification>, reason: Reason): seq<Signal> {
    seq(|q|, i requires 0 <= i < |q| => Closed(q[i].id, reason))
  }

  lemma ClosingsFirst(q: seq<Notification>, reason: Reason)
    requires q != []
    ensures Closings(q, reason) == [Closed(q[0].id, reason)] + Closings(q[1..], reason)
  {
  }

  lemma Joined<T>(a: seq<T>, x: T, b: seq<T>)
    ensures a + [x] + b == a + ([x] + b)
  {
  }

  lemma DismissFirst(s: State) returns (t: State)
    requires s.queue != [] && AllNamed(s.queue)
    ensures DrainDismissed(s) == DrainDismissed(t) && AllNamed(t.queue)
    ensures t.queue == s.queue[1..] && t.signals == s.signals + [Closed(s.queue[0].id, Dismissed)]
  {
    hide HistoryVictim;
    t := PushHistory(SendClosed(Unqueue(s, 0), s.queue[0].id, Dismissed), s.queue[0]);
  }

  lemma StopFirst(s: State) returns (t: State)
    requires s.queue != [] && AllNamed(s.queue)
    ensures DrainStopped(s) == DrainStopped(t) && AllNamed(t.queue)
    ensures t.queue == s.queue[1..] && t.signals == s.signals + [Closed(s.queue[0].id, Undefined)]
  {
    t := Release(SendClosed(Unqueue(s, 0), s.queue[0].id, Undefined), s.queue[0]);
  }

  lemma {:induction false} DrainedAreTold(s: State)
    requires AllNamed(s.queue)
    ensures DrainDismissed(s).signals == s.signals + Closings(s.queue, Dismissed)
    decreases |s.queue|
  {
    if s.queue != [] {
      var t := DismissFirst(s);
      hide *;
      DrainedAreTold(t);
      ClosingsFirst(s.queue, Dismissed);
      Joined(s.signals, Closed(s.queue[0].id, Dismissed), Closings(s.queue[1..], Dismissed));
    }
  }

  /** Dismissing all tells of the shown one and then of the queued ones in order. */
  lemma DismissAllTells(s: State)
    requires Tidy(s) && s.active
    ensures DismissAll(s).signals == s.signals + [Closed(s.cur.id, Dismissed)] + Closings(s.queue, Dismissed)
  {
    var t := SendClosed(Arm(s.(active := false), 0), s.cur.id, Dismissed);
    var u := PushHistory(t, t.cur);
    DrainedAreTold(u.(cur := u.cur.(icon := None)));
  }

  lemma {:induction false} StoppedAreTold(s: State)
    requires AllNamed(s.queue)
    ensures DrainStopped(s).signals == s.signals + Closings(s.queue, Undefined) && DrainStopped(s).queue == []
    decreases |s.queue|
  {
    if s.queue != [] {
      var t := StopFirst(s);
      hide *;
      StoppedAreTold(t);
      ClosingsFirst(s.queue, Undefined);
      Joined(s.signals, Closed(s.queue[0].id, Undefined), Closings(s.queue[1..], Undefined));
    }
  }

  lemma {:induction false} FreeingIsSilent(s: State)
    ensures FreeHistory(s).signals == s.signals
    decreases |s.hist|
  {
  }

  /** A stop tells of the queued ones in order and then of the shown one. */
  lemma StopTells(s: State)
    requires Tidy(s) && s.running
    ensures Stop(s).signals ==
      s.signals + Closings(s.queue, Undefined) + if s.active then [Closed(s.cur.id, Undefined)] else []
  {
    StoppedAreTold(s);
    var t := DrainStopped(s);
    FreeingIsSilent(Clear(t, Undefined));
    hide FreeHistory;
    if t.active {
      assert ShowNext(TakeDown(t, Undefined)) == TakeDown(t, Undefined);
      hide HistoryVictim;
    }
  }

  /** One that cannot be shown is closed, of no known reason, and leads the history. */
  lemma UnshownIsDropped(s: State)
    requires s.cur.id != 0 && !s.cur.transient && !Show(s).active
    ensures var t := Drop(Show(s));
      t.signals == s.signals + [Closed(s.cur.id, Undefined)] && t.hist != [] && t.hist[0] == OnScreen(s, s.cur)
  {
  }

  /* ---- actions ---- */

  function ActionSignals(id: nat, key: string, token: bool): seq<Signal> {
    (if token then [ActivationToken(id)] else []) + [ActionInvoked(id, key)]
  }

  /** An action dismisses a notification that is not resident, after it was told of. */
  lemma ActionDismisses(s: State, key: string, token: bool)
    requires TimersWork(s) && Tidy(s) && s.active && !s.cur.resident
    ensures var t := InvokeAction(s, key, token);
      && t.signals == s.signals + ActionSignals(s.cur.id, key, token) + [Closed(s.cur.id, Dismissed)]
      && t.hist == PushHistory(s, s.cur).hist
  {
    var t := SignalAction(s, key, token);
    assert t.signals == s.signals + ActionSignals(s.cur.id, key, token);
    assert Tidy(t);
    ClearTells(t, Dismissed);
    hide Clear;
  }

  /** A resident one stays, released from its hold, unless a critical waits to take the box from it. */
  lemma ResidentStays(s: State, key: string, token: bool)
    requires Tidy(s) && s.active && s.cur.resident
    requires s.held ==> s.cur.urgency == Critical || FirstUnseenCritical(s.queue) == |s.queue|
    ensures var t := InvokeAction(s, key, token);
      && t.signals == s.signals + ActionSignals(s.cur.id, key, token)
      && t.active && !t.held && t.cur.(shownMs := 0) == s.cur.(shownMs := 0)
      && t.queue == s.queue && t.hist == s.hist
  {
    assert SignalAction(s, key, token).signals == s.signals + ActionSignals(s.cur.id, key, token);
  }

  /** Opening a notification runs its default action, or dismisses it if it has none. */
  lemma OpeningRunsTheDefault(s: State, token: bool)
    requires TimersWork(s) && Tidy(s) && s.active && !s.cur.resident
    ensures Invoke(s, token).signals == s.signals
      + (if s.cur.hasDefault then ActionSignals(s.cur.id, "default", token) else []) + [Closed(s.cur.id, Dismissed)]
  {
    ActionDismisses(s, "default", token);
    ClearTells(s, Dismissed);
    hide Clear;
    hide InvokeAction;
  }

  /** An action of the list is run by its own key. */
  lemma PickedActionIsRun(s: State, i: nat, token: bool)
    requires TimersWork(s) && Tidy(s) && s.active && !s.cur.resident && i < |s.cur.actions|
    ensures InvokeNth(s, i, token).signals ==
            s.signals + ActionSignals(s.cur.id, s.cur.actions[i], token) + [Closed(s.cur.id, Dismissed)]
  {
    ActionDismisses(s, s.cur.actions[i], token);
    hide InvokeAction;
  }

  /* ---- holds ---- */

  /** A hold keeps what is shown and stops its timer. */
  lemma HoldKeepsTheBox(s: State)
    requires TimersWork(s) && s.active && !s.held && (s.alarm.Some? ==> s.timer)
    ensures var t := Hold(s, true);
      && t.active && t.held && t.alarm == None && t.cur == s.cur && t.queue == s.queue
      && t.hist == s.hist && t.signals == s.signals
  {
    assert s.timerOutcomes(s.calls) == TimerOutcome(true, true);
  }

  /** On its release the first unseen critical takes the box from one that is not critical, which leads the queue. */
  lemma ReleasePromotes(s: State, i: nat)
    requires TimersWork(s) && Tidy(s) && s.active && s.held && s.cur.urgency != Critical
    requires i == FirstUnseenCritical(s.queue) < |s.queue|
    ensures var t := Hold(s, false);
      && t.active && !t.held && t.cur == OnScreen(s, s.queue[i]) && t.queue == [s.cur] + RemoveAt(s.queue, i)
      && t.hist == s.hist && t.signals == s.signals
  {
    var u := Enqueue(Unqueue(s.(held := false), i).(active := false), s.cur, true).(cur := s.queue[i]);
    assert u == s.(held := false, active := false, cur := s.queue[i], queue := [s.cur] + RemoveAt(s.queue, i));
    ShowWorks(u);
  }

  /** Otherwise it stays, and its clock goes on. */
  lemma ReleaseKeepsTheBox(s: State)
    requires Tidy(s) && s.active && s.held
    requires s.cur.urgency == Critical || FirstUnseenCritical(s.queue) == |s.queue|
    ensures var t := Hold(s, false);
      && t.active && !t.held && t.cur.(shownMs := 0) == s.cur.(shownMs := 0) && t.queue == s.queue
      && t.hist == s.hist && t.signals == s.signals
  {
  }

  /* ---- what a Notify asks for ---- */

  /** A critical never expires; any other for as long as asked, at most 60 s, or the default if nothing was. */
  lemma TimeoutAskedFor(s: State, r: Request)
    ensures r.urgency == Critical ==> EffectiveTimeout(s, r) == 0
    ensures r.urgency != Critical && 0 < r.expireTimeout <= 60_000 ==> EffectiveTimeout(s, r) == r.expireTimeout
    ensures r.urgency != Critical && r.expireTimeout > 60_000 ==> EffectiveTimeout(s, r) == 60_000
    ensures r.urgency != Critical && r.expireTimeout <= 0 ==> EffectiveTimeout(s, r) == s.defaultMs
    ensures var n := Build(s, r, ChosenId(s, r));
      n.timeoutMs == EffectiveTimeout(s, r) && !n.seen && n.urgency == r.urgency
  {
  }

  /** The default is the seconds asked for, 1 to 60. */
  lemma DefaultAskedFor(seconds: nat)
    ensures 1 <= seconds <= 60 ==> ClampTimeout(seconds) == seconds * 1000
    ensures seconds == 0 ==> ClampTimeout(seconds) == 1000
    ensures seconds > 60 ==> ClampTimeout(seconds) == 60_000
  {
  }

  /** The counter counts, and skips 0 when it wraps. */
  lemma IdsCount(lastId: nat)
    ensures lastId < 0xFFFF_FFFF ==> NextId(lastId) == lastId + 1
    ensures NextId(0xFFFF_FFFF) == 1
  {
  }

  /** A Notify with the app and stack tag of what is shown updates it, whatever is queued. */
  lemma TagUpdatesTheShown(s: State, r: Request)
    requires TimersWork(s) && Tidy(s) && s.active && r.replacesId == 0
    requires r.tag != "" && s.cur.tag == r.tag && s.cur.app == r.app
    ensures var t := Receive(s, r);
      && t.active && t.cur == OnScreen(s, Build(s, r, s.cur.id)) && t.queue == s.queue
      && t.hist == s.hist && t.signals == s.signals && t.lastId == s.lastId
  {
    assert ChosenId(s, r) == s.cur.id;
    BuildProper(s, r);
    UpdateKeepsItsPlace(TakeIn(s, r), Build(s, r, s.cur.id));
    hide Place;
    hide Build;
  }

  /** With none like it shown, it updates the first such entry of the queue. */
  lemma TagUpdatesTheQueued(s: State, r: Request, i: nat)
    requires Tidy(s) && r.replacesId == 0 && r.tag != "" && i < |s.queue|
    requires s.active ==> !(s.cur.tag == r.tag && s.cur.app == r.app)
    requires s.queue[i].tag == r.tag && s.queue[i].app == r.app
    requires forall j :: 0 <= j < i ==> !(s.queue[j].tag == r.tag && s.queue[j].app == r.app)
    ensures ChosenId(s, r) == s.queue[i].id
  {
    var n := Build(s, r, 0);
    var k := FirstSlot(s.queue, n);
    assert SameSlot(s.queue[i], n);
    assert k <= i;
    if k < |s.queue| {
      assert s.queue[k].id != 0 && SameSlot(s.queue[k], n);
    }
  }
}
