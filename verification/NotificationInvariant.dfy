/**
 * What holds of the notification server after every run: bounded stores,
 * well-formed entries, unique live ids and the conservation law. Two more
 * facts, a hold means something is on screen and an empty screen means an
 * empty queue, hold exactly as long as nobody dismisses everything during a
 * hold.
 */
module NotificationInvariant {
  import opened Sequences
  import opened Notifications
  import opened NotificationBalance

  predicate Proper(n: Notification) {
    n.id != 0 && n.timeoutMs <= TIMEOUT_MAX && (n.urgency == Critical <==> n.timeoutMs == 0)
  }

  predicate AllProper(q: seq<Notification>) { forall i :: 0 <= i < |q| ==> Proper(q[i]) }

  /** What the screen promises while something is on it. */
  predicate Shown(s: State) {
    && Proper(s.cur) && s.cur.seen
    && s.cur.shownMs <= s.now
    && (s.held ==> ClockStopped(s))
  }

  /** The time left under a hold lies within the timeout and within the past. */
  predicate ClockStopped(s: State) {
    && s.heldLeft <= s.cur.timeoutMs
    && (s.cur.timeoutMs != 0 ==> s.heldLeft >= 1)
    && s.cur.timeoutMs - s.heldLeft <= s.now
  }

  predicate Stores(s: State) {
    && |s.queue| <= QUEUE_MAX && |s.hist| <= HISTORY_MAX
    && AllProper(s.queue) && AllProper(s.hist)
    && 1000 <= s.defaultMs <= TIMEOUT_MAX
  }

  predicate Tidy(s: State) {
    Stores(s) && (if s.active then Shown(s) else s.cur.icon == None)
  }

  ghost predicate Balanced(s: State) { forall tok :: Received(s, tok) == Balance(s, tok) }

  ghost predicate UniqueIds(s: State) { forall id :: Kept(s, TheId(id)) <= 1 }

  /** Holds after every run whatsoever. */
  ghost predicate Sound(s: State) { Tidy(s) && Balanced(s) && UniqueIds(s) }

  /** Holds as long as no dismiss-all happens during a hold. */
  predicate Settled(s: State) { (s.held ==> s.active) && (s.queue != [] ==> s.active) }

  /* ---- stores ---- */

  lemma PushHistoryStores(s: State, n: Notification)
    requires Stores(s) && Proper(n)
    ensures Stores(PushHistory(s, n))
  {
  }

  lemma EvictStores(s: State)
    requires Stores(s) && s.queue != []
    ensures Stores(Evict(s)) && |Evict(s).queue| == |s.queue| - 1
  {
    var i := Evicted(s.queue);
    PushHistoryStores(SendClosed(Unqueue(s, i), s.queue[i].id, Undefined), s.queue[i]);
  }

  lemma EnqueueStores(s: State, n: Notification, front: bool)
    requires Stores(s) && Proper(n)
    ensures Stores(Enqueue(s, n, front))
    ensures Enqueue(s, n, front).queue != []
  {
    if |s.queue| == QUEUE_MAX {
      EvictStores(s);
    }
  }

  /* ---- showing ---- */

  lemma ShowShows(s: State)
    requires Proper(s.cur)
    ensures Show(s).active ==> Shown(Show(s))
    ensures Proper(Show(s).cur)
    ensures s.held ==> Show(s).active
  {
  }

  lemma ShowOrDropTidy(s: State)
    requires Stores(s) && Proper(s.cur)
    ensures var t := Show(s); Tidy(if t.active then t else Drop(t))
  {
    ShowShows(s);
    var t := Show(s);
    if !t.active {
      PushHistoryStores(SendClosed(t, t.cur.id, Undefined), t.cur);
    }
  }

  lemma ShowQueuedTidy(s: State)
    requires Stores(s) && s.queue != []
    ensures Tidy(ShowQueued(s))
  {
    ShowOrDropTidy(Unqueue(s, NextIndex(s.queue)).(cur := s.queue[NextIndex(s.queue)]));
  }

  lemma {:induction false} ShowNextSettles(s: State)
    requires Tidy(s) && (s.held ==> s.active)
    ensures Tidy(ShowNext(s)) && Settled(ShowNext(s))
    decreases |s.queue|
  {
    if !s.active && s.queue != [] {
      ShowQueuedTidy(s);
      ShowQueuedShrinks(s);
      ShowNextSettles(ShowQueued(s));
    }
  }

  lemma ShowOrNextSettles(s: State)
    requires Stores(s) && Proper(s.cur)
    ensures Tidy(ShowOrNext(s)) && Settled(ShowOrNext(s))
  {
    ShowOrDropTidy(s);
    ShowShows(s);
    var t := Show(s);
    if !t.active {
      ShowNextSettles(Drop(t));
    }
  }

  /* ---- the operations ---- */

  lemma TakeDownTidy(s: State, reason: Reason)
    requires Tidy(s) && s.active
    ensures Tidy(TakeDown(s, reason)) && !TakeDown(s, reason).held
  {
    var t := SendClosed(Arm(s.(active := false, held := false), 0), s.cur.id, reason);
    PushHistoryStores(t, t.cur);
  }

  lemma ClearTidy(s: State, reason: Reason)
    requires Tidy(s)
    ensures Tidy(Clear(s, reason))
    ensures s.active || Settled(s) ==> Settled(Clear(s, reason))
  {
    if s.active {
      TakeDownTidy(s, reason);
      ShowNextSettles(TakeDown(s, reason));
    }
  }

  lemma {:induction false} DrainDismissedTidy(s: State)
    requires Tidy(s) && !s.active
    ensures Tidy(DrainDismissed(s)) && DrainDismissed(s).queue == []
    decreases |s.queue|
  {
    if s.queue != [] {
      var n := s.queue[0];
      var t := SendClosed(Unqueue(s, 0), n.id, Dismissed);
      PushHistoryStores(t, n);
      DrainDismissedTidy(PushHistory(t, n));
    }
  }

  /** Dismissing everything leaves a settled server exactly when no hold was on. */
  lemma DismissAllTidy(s: State)
    requires Tidy(s)
    ensures Tidy(DismissAll(s))
    ensures Settled(s) ==> (Settled(DismissAll(s)) <==> !s.held)
    ensures s.active ==> DismissAll(s).queue == [] && !DismissAll(s).active
  {
    if s.active {
      var t := SendClosed(Arm(s.(active := false), 0), s.cur.id, Dismissed);
      PushHistoryStores(t, t.cur);
      var u := PushHistory(t, t.cur);
      DrainDismissedTidy(u.(cur := u.cur.(icon := None)));
    }
  }

  lemma PromoteTidy(s: State, i: nat)
    requires Tidy(s) && s.active && i < |s.queue|
    ensures Tidy(Promote(s, i)) && Settled(Promote(s, i))
  {
    var t := Unqueue(s, i).(active := false);
    EnqueueStores(t, s.cur, true);
    ShowOrNextSettles(Enqueue(t, s.cur, true).(cur := s.queue[i]));
  }

  /** The clock goes on: what is left now is what was left when the hold began. */
  lemma ResumeKeepsTime(s: State)
    requires Tidy(s) && s.active && s.held && s.cur.timeoutMs != 0
    ensures var t := Resume(s);
      t.cur.shownMs + t.cur.timeoutMs == s.now + s.heldLeft && t.cur.shownMs <= s.now
  {
  }

  lemma HoldTidy(s: State, hold: bool)
    requires Tidy(s)
    ensures Tidy(Hold(s, hold))
    ensures s.active || Settled(s) ==> Settled(Hold(s, hold))
  {
    if s.active && hold != s.held && !hold {
      var i := FirstUnseenCritical(s.queue);
      if i < |s.queue| && s.cur.urgency != Critical {
        PromoteTidy(s.(held := false), i);
      } else if s.cur.timeoutMs != 0 {
        ResumeKeepsTime(s);
      }
    }
  }

  lemma InvokeActionTidy(s: State, key: string, token: bool)
    requires Tidy(s) && s.active
    ensures Tidy(InvokeAction(s, key, token)) && Settled(InvokeAction(s, key, token))
  {
    var t := SignalAction(s, key, token);
    HoldTidy(t, false);
    ClearTidy(t, Dismissed);
  }

  lemma CoverTidy(s: State, n: Notification)
    requires Tidy(s) && Proper(n)
    ensures Tidy(Cover(s, n)) && Settled(Cover(s, n))
  {
    var t := s;
    if s.active {
      var u := Arm(s, 0).(active := false);
      EnqueueStores(u, s.cur, true);
      t := Enqueue(u, s.cur, true);
    }
    ShowOrNextSettles(t.(cur := n));
  }

  lemma EnqueueTidy(s: State, n: Notification, front: bool)
    requires Tidy(s) && Proper(n)
    ensures Tidy(Enqueue(s, n, front))
    ensures s.active ==> Settled(Enqueue(s, n, front))
  {
    EnqueueStores(s, n, front);
  }

  lemma PlaceNewTidy(s: State, n: Notification)
    requires Tidy(s) && Proper(n)
    ensures Tidy(PlaceNew(s, n))
    ensures Settled(s) ==> Settled(PlaceNew(s, n))
  {
    if s.held {
      EnqueueTidy(s, n, n.urgency == Critical);
    } else if !s.active || s.cur.timeoutMs == 0 || n.urgency == Critical {
      CoverTidy(s, n);
    } else {
      EnqueueTidy(s, n, false);
    }
  }

  lemma PlaceTidy(s: State, n: Notification)
    requires Tidy(s) && Proper(n)
    ensures Tidy(Place(s, n))
    ensures Settled(s) ==> Settled(Place(s, n))
  {
    var i := FirstWithId(s.queue, n.id);
    if s.active && s.cur.id == n.id {
      ShowOrNextSettles(Release(s, s.cur).(cur := n));
    } else if i == |s.queue| {
      PlaceNewTidy(s.(arrivals := s.arrivals + [n.id]), n);
    }
  }

  lemma BuildProper(s: State, r: Request)
    requires Tidy(s)
    ensures Proper(Build(s, r, ChosenId(s, r)))
  {
  }

  lemma CloseByIdTidy(s: State, id: nat)
    requires Tidy(s)
    ensures Tidy(CloseById(s, id))
    ensures Settled(s) ==> Settled(CloseById(s, id))
  {
    var i := FirstWithId(s.queue, id);
    if s.active && id == s.cur.id {
      ClearTidy(s, ByCall);
    } else if id != 0 && i < |s.queue| {
      var t := Unqueue(s, i);
      assert Tidy(t);
    }
  }

  lemma {:induction false} DrainStoppedTidy(s: State)
    requires Tidy(s)
    ensures Tidy(DrainStopped(s)) && DrainStopped(s).queue == []
    decreases |s.queue|
  {
    if s.queue != [] {
      var n := s.queue[0];
      DrainStoppedTidy(Release(SendClosed(Unqueue(s, 0), n.id, Undefined), n));
    }
  }

  lemma {:induction false} FreeHistoryTidy(s: State)
    requires Tidy(s)
    ensures Tidy(FreeHistory(s)) && FreeHistory(s).hist == []
    decreases |s.hist|
  {
    if s.hist != [] {
      var last := |s.hist| - 1;
      FreeHistoryTidy(Release(s, s.hist[last]).(hist := s.hist[..last]));
    }
  }

  /** After a stop nothing is on screen, queued or kept. */
  lemma StopEmpties(s: State)
    requires Tidy(s) && s.running
    ensures Tidy(Stop(s))
    ensures var t := Stop(s); !t.running && !t.active && t.queue == [] && t.hist == []
    ensures Settled(s) ==> Settled(Stop(s))
  {
    DrainStoppedTidy(s);
    var t := DrainStopped(s);
    ClearTidy(t, Undefined);
    if t.active {
      assert ShowNext(TakeDown(t, Undefined)) == TakeDown(t, Undefined);
    }
    FreeHistoryTidy(Clear(t, Undefined));
  }

  lemma InvokeTidy(s: State, token: bool)
    requires Tidy(s)
    ensures Tidy(Invoke(s, token))
    ensures Settled(s) ==> Settled(Invoke(s, token))
  {
    if s.active {
      if s.cur.hasDefault {
        InvokeActionTidy(s, "default", token);
      } else {
        ClearTidy(s, Dismissed);
      }
    }
  }

  lemma RemoveHistoryTidy(s: State, i: nat)
    requires Tidy(s)
    ensures Tidy(RemoveHistory(s, i))
    ensures Settled(s) ==> Settled(RemoveHistory(s, i))
  {
  }

  lemma SetTimeoutTidy(s: State, seconds: nat)
    requires Tidy(s)
    ensures var t := s.(defaultMs := ClampTimeout(seconds)); Tidy(t) && (Settled(s) ==> Settled(t))
  {
  }

  lemma PickTidy(s: State, i: nat, token: bool)
    requires Tidy(s)
    ensures Tidy(InvokeNth(s, i, token))
    ensures Settled(s) ==> Settled(InvokeNth(s, i, token))
  {
    if s.active && i < |s.cur.actions| { InvokeActionTidy(s, s.cur.actions[i], token); }
  }

  lemma ShutdownTidy(s: State)
    requires Tidy(s)
    ensures Tidy(Stop(s))
    ensures Settled(s) ==> Settled(Stop(s))
  {
    if s.running { StopEmpties(s); }
  }

  lemma HandleTidy(s: State, e: Event)
    requires Tidy(s)
    ensures Tidy(Handle(s, e))
    ensures Settled(s) && (e == DismissEvery ==> !s.held) ==> Settled(Handle(s, e))
  {
    hide Tidy;
    hide Settled;
    hide Receive;
    hide CloseById;
    hide Clear;
    hide DismissAll;
    hide Invoke;
    hide InvokeNth;
    hide Hold;
    hide RemoveHistory;
    hide Stop;
    match e
    case Notify(r) => if s.running { ReceiveTidy(s, r); }
    case CloseNotification(id) => CloseByIdTidy(s, id);
    case TimerFired => ClearTidy(s, Expired);
    case DismissOne => ClearTidy(s, Dismissed);
    case DismissEvery => DismissAllTidy(s);
    case InvokeDefault(token) => InvokeTidy(s, token);
    case PickAction(i, token) => PickTidy(s, i, token);
    case SetHold(hold) => HoldTidy(s, hold);
    case ForgetEntry(i) => RemoveHistoryTidy(s, i);
    case SetTimeout(seconds) => SetTimeoutTidy(s, seconds);
    case Shutdown => ShutdownTidy(s);
  }

  lemma ReceiveTidy(s: State, r: Request)
    requires Tidy(s)
    ensures Tidy(Receive(s, r))
    ensures Settled(s) ==> Settled(Receive(s, r))
  {
    BuildProper(s, r);
    PlaceTidy(TakeIn(s, r), Build(s, r, ChosenId(s, r)));
  }

  /* ---- the conservation law and unique ids ---- */

  lemma {:induction false} TotalOfAbsentId(q: seq<Notification>, id: nat)
    requires forall i :: 0 <= i < |q| ==> q[i].id != id
    ensures Total(q, TheId(id)) == 0
  {
    if q != [] {
      TotalOfAbsentId(q[1..], id);
    }
  }

  lemma TidyNamed(s: State)
    requires Tidy(s)
    ensures AllNamed(s.queue) && (s.active ==> s.cur.id != 0)
  {
  }

  /** Events other than Notify receive nothing, and settle all they remove. */
  lemma HandleBalances(s: State, e: Event, tok: Token)
    requires Tidy(s) && !e.Notify?
    ensures Balance(Handle(s, e), tok) == Balance(s, tok)
    ensures Spent(Handle(s, e), tok) >= Spent(s, tok)
  {
    TidyNamed(s);
    hide Tidy;
    hide Balance;
    hide Spent;
    hide CloseById;
    hide Clear;
    hide DismissAll;
    hide InvokeAction;
    hide Hold;
    hide RemoveHistory;
    hide Stop;
    match e
    case CloseNotification(id) => CloseByIdBalances(s, id, tok);
    case TimerFired => ClearBalances(s, Expired, tok);
    case DismissOne => ClearBalances(s, Dismissed, tok);
    case DismissEvery => DismissAllBalances(s, tok);
    case InvokeDefault(token) =>
      ClearBalances(s, Dismissed, tok);
      InvokeActionBalances(s, "default", token, tok);
    case PickAction(i, token) =>
      if i < |s.cur.actions| { InvokeActionBalances(s, s.cur.actions[i], token, tok); }
    case SetHold(hold) => HoldBalances(s, hold, tok);
    case ForgetEntry(i) => RemoveHistoryBalances(s, i, tok);
    case SetTimeout(seconds) => SetTimeoutBalances(s, seconds, tok);
    case Shutdown => StopBalances(s, tok);
  }

  lemma SetTimeoutBalances(s: State, seconds: nat, tok: Token)
    ensures var t := s.(defaultMs := ClampTimeout(seconds));
      Balance(t, tok) == Balance(s, tok) && Spent(t, tok) == Spent(s, tok)
  {
  }

  /** Everything but Notify leaves the record of what came in alone. */
  lemma HandleReceives(s: State, e: Event)
    requires !e.Notify?
    ensures Handle(s, e).arrivals == s.arrivals && Handle(s, e).created == s.created
  {
  }

  lemma PlaceReceives(s: State, n: Notification)
    ensures Place(s, n).created == s.created
    ensures Place(s, n).arrivals == if IsNew(s, n.id) then s.arrivals + [n.id] else s.arrivals
  {
  }

  /** The part of n that Place takes in as new. */
  function Gain(s: State, n: Notification, tok: Token): nat {
    if tok == TheId(n.id) && !IsNew(s, n.id) then 0 else Weight(n, tok)
  }

  lemma PlaceBalances(s: State, n: Notification, tok: Token)
    requires AllNamed(s.queue) && (s.active ==> s.cur.id != 0) && n.id != 0
    ensures Balance(Place(s, n), tok) == Balance(s, tok) + Gain(s, n, tok)
    ensures Spent(Place(s, n), tok) >= Spent(s, tok)
  {
    if IsNew(s, n.id) {
      PlaceNewBalances(s.(arrivals := s.arrivals + [n.id]), n, tok);
    } else {
      PlaceUpdateBalances(s, n, tok);
    }
  }

  lemma TakeInReceives(s: State, r: Request, tok: Token)
    ensures var t := TakeIn(s, r); var n := Build(s, r, ChosenId(s, r));
      && Balance(t, tok) == Balance(s, tok) && Spent(t, tok) == Spent(s, tok)
      && Received(Place(t, n), tok) == Received(s, tok) + Gain(s, n, tok)
  {
    PlaceReceives(TakeIn(s, r), Build(s, r, ChosenId(s, r)));
    hide Place;
    hide ChosenId;
    hide Total;
    hide ClosedCount;
  }

  /**
   * Only a new id counts as an arrival; its icon counts always. Replacing
   * settles the icon that was there before.
   */
  lemma ReceiveBalances(s: State, r: Request, tok: Token)
    requires Tidy(s)
    ensures var t := Receive(s, r); var got := Gain(s, Build(s, r, ChosenId(s, r)), tok);
      && Received(t, tok) == Received(s, tok) + got
      && Balance(t, tok) == Balance(s, tok) + got
      && Spent(t, tok) >= Spent(s, tok)
  {
    TidyNamed(s);
    BuildProper(s, r);
    TakeInReceives(s, r, tok);
    PlaceBalances(TakeIn(s, r), Build(s, r, ChosenId(s, r)), tok);
  }

  lemma NewIdIsAbsent(s: State, id: nat)
    requires IsNew(s, id)
    ensures Kept(s, TheId(id)) == 0
  {
    TotalOfAbsentId(s.queue, id);
  }

  lemma HandleSound(s: State, e: Event)
    requires Sound(s)
    ensures Sound(Handle(s, e))
  {
    HandleTidy(s, e);
    var t := Handle(s, e);
    forall tok
      ensures Received(t, tok) == Balance(t, tok)
      ensures tok.TheId? ==> Kept(t, tok) <= 1
    {
      assert Received(s, tok) == Balance(s, tok);
      assert tok.TheId? ==> Kept(s, tok) <= 1;
      if e.Notify? {
        if s.running {
          ReceiveBalances(s, e.request, tok);
          if tok == TheId(ChosenId(s, e.request)) && IsNew(s, tok.id) {
            NewIdIsAbsent(s, tok.id);
          }
        }
      } else {
        HandleBalances(s, e, tok);
        HandleReceives(s, e);
      }
    }
  }

  lemma WaitingSound(s: State, elapsed: nat)
    requires Sound(s)
    ensures Sound(Wait(s, elapsed))
  {
    var t := Wait(s, elapsed);
    forall tok ensures Received(t, tok) == Balance(t, tok) {
      assert Received(s, tok) == Balance(s, tok);
    }
    forall id ensures Kept(t, TheId(id)) <= 1 {
      assert Kept(s, TheId(id)) <= 1;
    }
  }

  /* ---- every run ---- */

  lemma StepSound(s: State, e: TimedEvent)
    requires Sound(s)
    ensures Sound(Step(s, e))
  {
    WaitingSound(s, e.elapsed);
    HandleSound(Wait(s, e.elapsed), e.event);
  }

  lemma StartSound(timerOutcomes: nat -> TimerOutcome, now: nat, seconds: nat, running: bool)
    ensures var s := Start(timerOutcomes, now, seconds, running); Sound(s) && Settled(s)
  {
  }

  /**
   * Whatever the clients, the user and the timer do: the stores stay within
   * bounds, live ids stay unique, and every id that became live was closed
   * once or is live now, as every icon was destroyed once or has one owner.
   */
  lemma {:induction false} EveryRunSound(s: State, es: seq<TimedEvent>)
    requires Sound(s)
    ensures Sound(Run(s, es))
    decreases |es|
  {
    if es != [] {
      StepSound(s, es[0]);
      EveryRunSound(Step(s, es[0]), es[1..]);
    }
  }

  /** No dismiss-all comes while a hold is on. */
  predicate Considerate(s: State, es: seq<TimedEvent>)
    decreases |es|
  {
    es != [] ==>
      && (es[0].event == DismissEvery ==> !s.held)
      && Considerate(Step(s, es[0]), es[1..])
  }

  /** Under that condition the screen is never empty with something queued or held. */
  lemma {:induction false} ConsiderateRunSettled(s: State, es: seq<TimedEvent>)
    requires Sound(s) && Settled(s) && Considerate(s, es)
    ensures Settled(Run(s, es))
    decreases |es|
  {
    if es != [] {
      StepSound(s, es[0]);
      HandleTidy(Wait(s, es[0].elapsed), es[0].event);
      ConsiderateRunSettled(Step(s, es[0]), es[1..]);
    }
  }

  /** The facts of a settled server hold at the start, after each event and at the end of a run. */
  predicate AlwaysSettled(s: State, es: seq<TimedEvent>)
    decreases |es|
  {
    Settled(s) && (es != [] ==> AlwaysSettled(Step(s, es[0]), es[1..]))
  }

  lemma {:induction false} AlwaysSettledIsEveryPrefix(s: State, es: seq<TimedEvent>)
    ensures AlwaysSettled(s, es) <==> forall k :: 0 <= k <= |es| ==> Settled(Run(s, es[..k]))
    decreases |es|
  {
    hide Settled;
    hide Step;
    assert es[..0] == [];
    if es != [] {
      var t, rest := Step(s, es[0]), es[1..];
      AlwaysSettledIsEveryPrefix(t, rest);
      forall k | 1 <= k <= |es|
        ensures Run(s, es[..k]) == Run(t, rest[..k - 1])
      {
        assert es[..k][1..] == rest[..k - 1];
      }
      if forall k :: 0 <= k <= |es| ==> Settled(Run(s, es[..k])) {
        forall k | 0 <= k <= |rest|
          ensures Settled(Run(t, rest[..k]))
        {
          assert Run(s, es[..k + 1]) == Run(t, rest[..k]);
        }
      }
    }
  }

  /**
   * All along a run a hold means something is on screen, and an empty screen
   * an empty queue, exactly when no dismiss-all comes while a hold is on.
   */
  lemma {:induction false} SettledExactlyWhenConsiderate(s: State, es: seq<TimedEvent>)
    requires Tidy(s) && Settled(s)
    ensures AlwaysSettled(s, es) <==> Considerate(s, es)
    decreases |es|
  {
    if es != [] {
      var w := Wait(s, es[0].elapsed);
      assert Tidy(w) && Settled(w) && w.held == s.held;
      HandleTidy(w, es[0].event);
      if es[0].event == DismissEvery { DismissAllTidy(w); }
      hide Handle;
      hide Tidy;
      if Settled(Step(s, es[0])) {
        SettledExactlyWhenConsiderate(Step(s, es[0]), es[1..]);
      }
    }
  }

  /** After a stop every id that ever became live was closed, every icon destroyed. */
  lemma StopSettlesAll(s: State, tok: Token)
    requires Sound(s) && s.running
    ensures Kept(Stop(s), tok) == 0
    ensures Spent(Stop(s), tok) == Received(s, tok)
  {
    StopEmpties(s);
    TidyNamed(s);
    StopBalances(s, tok);
    assert Received(s, tok) == Balance(s, tok);
  }

  /* ---- what unique ids mean entry by entry ---- */

  lemma TotalOfTwo(q: seq<Notification>, i: nat, j: nat, tok: Token)
    requires i < j < |q|
    ensures Total(q, tok) >= Weight(q[i], tok) + Weight(q[j], tok)
  {
    TotalRemoveAt(q, j, tok);
    TotalRemoveAt(RemoveAt(q, j), i, tok);
  }

  lemma LiveIdsDiffer(s: State)
    requires Sound(s)
    ensures forall i, j :: 0 <= i < j < |s.queue| ==> s.queue[i].id != s.queue[j].id
    ensures s.active ==> forall i :: 0 <= i < |s.queue| ==> s.queue[i].id != s.cur.id
  {
    forall i, j | 0 <= i < j < |s.queue|
      ensures s.queue[i].id != s.queue[j].id
    {
      TotalOfTwo(s.queue, i, j, TheId(s.queue[i].id));
      assert Kept(s, TheId(s.queue[i].id)) <= 1;
    }
    forall i | 0 <= i < |s.queue| && s.active
      ensures s.queue[i].id != s.cur.id
    {
      TotalRemoveAt(s.queue, i, TheId(s.cur.id));
      assert Kept(s, TheId(s.cur.id)) <= 1;
    }
  }

  /* ---- updates in place ---- */

  /** An update in place sends no signal, unless it is on screen and cannot be shown again. */
  lemma UpdateIsSilent(s: State, n: Notification)
    requires Tidy(s) && Proper(n) && !IsNew(s, n.id)
    ensures Place(s, n).signals == s.signals <==>
            s.active && s.cur.id == n.id ==> Show(Release(s, s.cur).(cur := n)).active
  {
    if s.active && s.cur.id == n.id {
      var t := Show(Release(s, s.cur).(cur := n));
      if !t.active {
        SendClosedSpends(t, n.id, Undefined, TheId(n.id));
        TidyNamed(s);
        ShowNextBalances(Drop(t), TheId(n.id));
      }
    }
  }

  /* ---- ids handed out ---- */

  /**
   * A sender that names no id and no known stack tag should get a
   * notification of its own. Its Notify brings a new live id exactly when the
   * counter's next value is not live; a client may have picked that value for
   * itself.
   */
  lemma FreshIdIsNew(s: State, r: Request)
    requires AskedId(s, r) == 0
    ensures Receive(s, r).arrivals == s.arrivals + [NextId(s.lastId)] <==> Kept(s, TheId(NextId(s.lastId))) == 0
  {
    FreshIdIsAbsent(s, r);
    PlaceReceives(TakeIn(s, r), Build(s, r, ChosenId(s, r)));
    hide Place;
    hide Kept;
    assert s.arrivals != s.arrivals + [NextId(s.lastId)] by {
      assert |s.arrivals| != |s.arrivals + [NextId(s.lastId)]|;
    }
  }

  lemma FreshIdIsAbsent(s: State, r: Request)
    requires AskedId(s, r) == 0
    ensures IsNew(s, ChosenId(s, r)) <==> Kept(s, TheId(NextId(s.lastId))) == 0
  {
    var id := NextId(s.lastId);
    if IsNew(s, id) {
      NewIdIsAbsent(s, id);
    } else {
      var i := FirstWithId(s.queue, id);
      if i < |s.queue| { TotalRemoveAt(s.queue, i, TheId(id)); }
    }
  }

  /**
   * When that value is live, the notification that has it is overwritten where
   * it stands, by the new sender's; its own client gets no signal, and it
   * goes to no history. On screen that takes showing again to work.
   */
  lemma FreshIdOverwrites(s: State, r: Request)
    requires AskedId(s, r) == 0 && Kept(s, TheId(NextId(s.lastId))) > 0
    ensures var id := NextId(s.lastId); var n := Build(s, r, id); var t := Receive(s, r);
      var i := FirstWithId(s.queue, id);
      if s.active && s.cur.id == id then
        s.held || Armed(s, n.timeoutMs) ==>
          && t.active && t.cur == n.(shownMs := s.now, seen := true)
          && t.queue == s.queue && t.hist == s.hist && t.signals == s.signals && t.arrivals == s.arrivals
      else
        && i < |s.queue| && t.queue == s.queue[i := n]
        && t.active == s.active && t.cur == s.cur
        && t.hist == s.hist && t.signals == s.signals && t.arrivals == s.arrivals
  {
    FreshIdIsAbsent(s, r);
  }

  /**
   * One client picks id 1; the next one asks for a new id, and its
   * notification is on screen in the other's place. The first one is neither
   * queued nor kept, and nothing has been sent to its client.
   */
  lemma FreshIdTakesOver(timerOutcomes: nat -> TimerOutcome, first: Request, second: Request)
    requires first.replacesId == 1 && second.replacesId == 0 && second.tag == ""
    requires timerOutcomes(0) == TimerOutcome(true, true) && timerOutcomes(1) == TimerOutcome(true, true)
    ensures var s := Receive(Start(timerOutcomes, 0, 5, true), first); var t := Receive(s, second);
      && s.active && s.cur == Build(s, first, 1).(seen := true) && s.queue == [] && s.signals == []
      && t.active && t.cur == Build(s, second, 1).(seen := true)
      && t.queue == [] && t.hist == [] && t.signals == []
  {
    FirstIsShown(timerOutcomes, first);
    var s := Receive(Start(timerOutcomes, 0, 5, true), first);
    hide Receive;
    FreshIdOverwrites(s, second);
  }

  lemma FirstIsShown(timerOutcomes: nat -> TimerOutcome, first: Request)
    requires first.replacesId == 1 && timerOutcomes(0) == TimerOutcome(true, true)
    ensures var start := Start(timerOutcomes, 0, 5, true); var s := Receive(start, first);
      s == start.(created := s.created, arrivals := [1], active := true, calls := 1, timer := s.timer, alarm := s.alarm,
                  cur := Build(start, first, 1).(seen := true))
  {
    var n := Build(Start(timerOutcomes, 0, 5, true), first, 1);
    hide Build;
    assert [1] == [] + [n.id];
  }

  /* ---- dismissing everything during a hold ---- */

  predicate Stuck(s: State) { s.held && !s.active }

  lemma DismissAllWhileHeldSticks(s: State)
    requires Tidy(s) && s.active && s.held
    ensures Stuck(DismissAll(s))
  {
    DismissAllTidy(s);
  }

  /** Such a run: a notification is shown and held, then all are dismissed. */
  lemma HeldAndDismissedSticks(timerOutcomes: nat -> TimerOutcome, r: Request)
    requires r.replacesId == 1 && timerOutcomes(0) == TimerOutcome(true, true)
    ensures var start := Start(timerOutcomes, 0, 5, true);
      var es := [After(0, Notify(r)), After(0, SetHold(true)), After(0, DismissEvery)];
      !Stuck(Run(start, es[..2])) && Run(start, es[..2]).active && Stuck(Run(start, es))
  {
    var start := Start(timerOutcomes, 0, 5, true);
    var es := [After(0, Notify(r)), After(0, SetHold(true)), After(0, DismissEvery)];
    var shown := Receive(start, r);
    var kept := Hold(shown, true);
    StartSound(timerOutcomes, 0, 5, true);
    ReceiveTidy(start, r);
    FirstIsShown(timerOutcomes, r);
    HoldTidy(shown, true);
    assert kept.active && kept.held;
    DismissAllWhileHeldSticks(kept);
    RunTwo(start, es[0], es[1]);
    RunThree(start, es[0], es[1], es[2]);
    hide Receive;
    hide Hold;
    hide DismissAll;
    hide Run;
    assert Wait(start, 0) == start && Wait(shown, 0) == shown && Wait(kept, 0) == kept;
    assert es[..2] == [es[0], es[1]];
  }

  /** From then on nothing is ever shown again, whatever arrives. */
  lemma {:induction false} StuckForever(s: State, es: seq<TimedEvent>)
    requires Stuck(s)
    ensures Stuck(Run(s, es))
    decreases |es|
  {
    if es != [] {
      var t := Wait(s, es[0].elapsed);
      StuckOnce(t, es[0].event);
      StuckForever(Step(s, es[0]), es[1..]);
    }
  }

  lemma StuckOnce(s: State, e: Event)
    requires Stuck(s)
    ensures Stuck(Handle(s, e))
  {
  }
}
