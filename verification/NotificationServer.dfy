/**
 * The notification server as the program runs it: one object whose fields
 * and arrays every operation updates in place. The ghost field state is the
 * abstract state; Valid ties it to the real fields, and each method is
 * proved to take it where the function of the same name in
 * Notifications.dfy does.
 */
module NotificationServer {
  import opened Sequences
  import opened Notifications
  import opened NotificationInvariant

  class Server {
    ghost var state: State
    const timerOutcomes: nat -> TimerOutcome
    const queue: array<Notification>
    const hist: array<Notification>
    var calls: nat
    var timer: bool
    var alarm: Option<nat>
    var now: nat
    var defaultMs: nat
    var lastId: nat
    var running: bool
    var active: bool
    var held: bool
    var heldLeft: nat
    var cur: Notification
    var nqueue: nat
    var nhist: nat
    var sent: seq<Signal>      // on the bus
    var destroyed: seq<Icon>

    ghost predicate Valid()
      reads this, queue, hist
    {
      && queue.Length == QUEUE_MAX && hist.Length == HISTORY_MAX && queue != hist
      && nqueue <= QUEUE_MAX && nhist <= HISTORY_MAX
      && state == State(timerOutcomes, calls, timer, alarm, now, defaultMs, lastId, running, active, held,
                        heldLeft, cur, queue[..nqueue], hist[..nhist],
                        state.arrivals, sent, state.created, destroyed)
    }

    /** owned: the bus gave it the name; registered: the object path could be registered. */
    constructor (timerOutcomes: nat -> TimerOutcome, now: nat, seconds: nat, owned: bool, registered: bool)
      ensures Valid() && fresh(queue) && fresh(hist)
      ensures state == Start(timerOutcomes, now, seconds, owned && registered)
      ensures Sound(state) && Settled(state)
    {
      this.timerOutcomes := timerOutcomes;
      queue := new Notification[QUEUE_MAX](_ => BLANK);
      hist := new Notification[HISTORY_MAX](_ => BLANK);
      calls, timer, alarm, this.now := 0, false, None, now;
      defaultMs := ClampTimeout(seconds);
      lastId, running, active, held, heldLeft := 0, owned && registered, false, false, 0;
      cur, nqueue, nhist, sent, destroyed := BLANK, 0, 0, [], [];
      state := Start(timerOutcomes, now, seconds, owned && registered);
      new;
      StartSound(timerOutcomes, now, seconds, owned && registered);
    }

    /* ---- memmove and searches ---- */

    /** Moves a[i + 1..n] one slot down over a[i]. */
    static method CloseGap(a: array<Notification>, i: nat, n: nat)
      requires i < n <= a.Length
      modifies a
      ensures a[..n - 1] == RemoveAt(old(a[..n]), i)
    {
      var j := i;
      while j + 1 < n
        invariant i <= j < n
        invariant forall k :: 0 <= k < i ==> a[k] == old(a[k])
        invariant forall k :: i <= k < j ==> a[k] == old(a[k + 1])
        invariant forall k :: j < k < n ==> a[k] == old(a[k])
      {
        a[j] := a[j + 1];
        j := j + 1;
      }
    }

    /** Moves a[..n] one slot up and puts e in front. */
    static method PushFront(a: array<Notification>, n: nat, e: Notification)
      requires n < a.Length
      modifies a
      ensures a[..n + 1] == [e] + old(a[..n])
    {
      var j := n;
      while j > 0
        invariant 0 <= j <= n
        invariant forall k :: 0 <= k < j ==> a[k] == old(a[k])
        invariant forall k :: j < k <= n ==> a[k] == old(a[k - 1])
      {
        a[j] := a[j - 1];
        j := j - 1;
      }
      a[0] := e;
    }

    static method FindSlot(a: array<Notification>, count: nat, n: Notification) returns (i: nat)
      requires count <= a.Length
      ensures i == FirstSlot(a[..count], n)
    {
      i := 0;
      while i < count && !SameSlot(a[i], n)
        invariant i <= count
        invariant forall j :: 0 <= j < i ==> !SameSlot(a[..count][j], n)
      {
        i := i + 1;
      }
    }

    method FindQueued(id: nat) returns (i: nat)
      requires Valid()
      ensures i == FirstWithId(state.queue, id)
    {
      i := 0;
      while i < nqueue && queue[i].id != id
        invariant i <= nqueue
        invariant forall j :: 0 <= j < i ==> state.queue[j].id != id
      {
        i := i + 1;
      }
    }

    method FindUnseenCritical() returns (i: nat)
      requires Valid()
      ensures i == FirstUnseenCritical(state.queue)
    {
      i := 0;
      while i < nqueue && !UnseenCritical(queue[i])
        invariant i <= nqueue
        invariant forall j :: 0 <= j < i ==> !UnseenCritical(state.queue[j])
      {
        i := i + 1;
      }
    }

    method FindExpiring() returns (i: nat)
      requires Valid()
      ensures i == FirstExpiring(state.queue)
    {
      i := 0;
      while i < nqueue && queue[i].timeoutMs == 0
        invariant i <= nqueue
        invariant forall j :: 0 <= j < i ==> !Expiring(state.queue[j])
      {
        i := i + 1;
      }
    }

    /* ---- queue.c ---- */

    method SendClosed(id: nat, reason: Reason)
      requires Valid()
      modifies this
      ensures Valid() && state == Notifications.SendClosed(old(state), id, reason)
      ensures cur == old(cur)
    {
      state := Notifications.SendClosed(state, id, reason);
      if id == 0 { return; }
      sent := sent + [Closed(id, reason)];
    }

    method Release(n: Notification)
      requires Valid()
      modifies this
      ensures Valid() && state == Notifications.Release(old(state), n)
      ensures nhist == old(nhist)
    {
      state := Notifications.Release(state, n);
      if n.icon.Some? {
        destroyed := destroyed + [n.icon.value];
      }
    }

    /** The current notification no longer refers to its icon. */
    method ForgetIcon()
      requires Valid()
      modifies this
      ensures Valid() && state == old(state).(cur := old(state).cur.(icon := None))
    {
      cur := cur.(icon := None);
      state := state.(cur := cur);
    }

    method RemoveHistory(i: nat)
      requires Valid()
      modifies this, hist
      ensures Valid() && state == Notifications.RemoveHistory(old(state), i)
    {
      if i >= nhist { return; }
      Release(hist[i]);
      CloseGap(hist, i, nhist);
      nhist := nhist - 1;
      state := state.(hist := hist[..nhist]);
    }

    /** Puts n at the head of a history with room. */
    method PushEntry(n: Notification)
      requires Valid() && nhist < HISTORY_MAX
      modifies this, hist
      ensures Valid() && state == old(state).(hist := [n] + old(state).hist)
    {
      PushFront(hist, nhist, n);
      nhist := nhist + 1;
      state := state.(hist := hist[..nhist]);
    }

    method PushHistory(n: Notification)
      requires Valid()
      modifies this, hist
      ensures Valid() && state == Notifications.PushHistory(old(state), n)
    {
      if n.transient {
        Release(n);
        return;
      }
      var i := FindSlot(hist, nhist, n);
      if i == nhist && nhist == HISTORY_MAX {
        i := nhist - 1;
      }
      RemoveHistory(i);
      PushEntry(n);
    }

    method Unqueue(i: nat) returns (n: Notification)
      requires Valid() && i < nqueue
      modifies this, queue
      ensures Valid() && state == Notifications.Unqueue(old(state), i)
      ensures n == old(state).queue[i]
    {
      n := queue[i];
      CloseGap(queue, i, nqueue);
      nqueue := nqueue - 1;
      state := state.(queue := queue[..nqueue]);
    }

    method Evict()
      requires Valid() && nqueue != 0
      modifies this, queue, hist
      ensures Valid() && state == Notifications.Evict(old(state))
    {
      var i := FindExpiring();
      var gone := Unqueue(if i < nqueue then i else 0);
      SendClosed(gone.id, Undefined);
      PushHistory(gone);
    }

    /** Puts n at one end of a queue with room. */
    method AddQueued(n: Notification, front: bool)
      requires Valid() && nqueue < QUEUE_MAX
      modifies this, queue
      ensures Valid()
      ensures state == old(state).(queue := if front then [n] + old(state).queue else old(state).queue + [n])
    {
      if front {
        PushFront(queue, nqueue, n);
      } else {
        queue[nqueue] := n;
      }
      nqueue := nqueue + 1;
      state := state.(queue := queue[..nqueue]);
    }

    method Enqueue(n: Notification, front: bool)
      requires Valid()
      modifies this, queue, hist
      ensures Valid() && state == Notifications.Enqueue(old(state), n, front)
    {
      if nqueue == QUEUE_MAX {
        Evict();
      }
      AddQueued(n, front);
    }

    /** Asks the event loop for the timer if there is none yet, and then for ms milliseconds. */
    method AskLoop(ms: nat) returns (answer: TimerOutcome)
      requires Valid()
      modifies this
      ensures Valid() && answer == timerOutcomes(old(state).calls)
      ensures state == old(state).(calls := old(state).calls + 1, timer := HasTimer(old(state), ms))
    {
      answer := timerOutcomes(calls);
      calls := calls + 1;
      if !timer && ms != 0 {
        timer := answer.added;
      }
      state := state.(calls := calls, timer := timer);
    }

    method SetAlarm(alarm: Option<nat>)
      requires Valid()
      modifies this
      ensures Valid() && state == old(state).(alarm := alarm)
    {
      this.alarm := alarm;
      state := state.(alarm := alarm);
    }

    method Arm(ms: nat) returns (ok: bool)
      requires Valid()
      modifies this
      ensures Valid() && state == Notifications.Arm(old(state), ms)
      ensures ok == Armed(old(state), ms)
    {
      var answer := AskLoop(ms);
      if !timer { return ms == 0; }
      ok := answer.updated;
      if ok {
        SetAlarm(if ms == 0 then None else Some(now + ms));
      }
    }

    /** Assignments that empty or fill the slot on screen. */
    method SetSlot(active: bool, held: bool, cur: Notification)
      requires Valid()
      modifies this
      ensures Valid() && state == old(state).(active := active, held := held, cur := cur)
    {
      this.active, this.held, this.cur := active, held, cur;
      state := state.(active := active, held := held, cur := cur);
    }

    method Show() returns (ok: bool)
      requires Valid()
      modifies this
      ensures Valid() && state == Notifications.Show(old(state))
      ensures ok == state.active
    {
      SetSlot(active, held, cur.(shownMs := now, seen := true));
      if held {
        state := state.(heldLeft := cur.timeoutMs, active := true);
        heldLeft, active := cur.timeoutMs, true;
        return true;
      }
      ok := Arm(cur.timeoutMs);
      SetSlot(ok, held, cur);
    }

    method Drop()
      requires Valid()
      modifies this, hist
      ensures Valid() && state == Notifications.Drop(old(state))
    {
      SendClosed(cur.id, Undefined);
      PushHistory(cur);
      ForgetIcon();
    }

    method FindNext() returns (i: nat)
      requires Valid() && nqueue != 0
      ensures i == NextIndex(state.queue)
    {
      i := FindUnseenCritical();
      if i == nqueue {
        i := FindExpiring();
      }
      if i == nqueue {
        i := 0;
      }
    }

    method ShowQueued()
      requires Valid() && nqueue != 0
      modifies this, queue, hist
      ensures Valid() && state == Notifications.ShowQueued(old(state))
    {
      var i := FindNext();
      var n := Unqueue(i);
      SetSlot(active, held, n);
      var ok := Show();
      if !ok {
        Drop();
      }
    }

    method ShowNext()
      requires Valid()
      modifies this, queue, hist
      ensures Valid() && state == Notifications.ShowNext(old(state))
    {
      while !active && nqueue != 0
        invariant Valid()
        invariant Notifications.ShowNext(state) == Notifications.ShowNext(old(state))
        decreases |state.queue|
      {
        ShowQueuedShrinks(state);
        ShowQueued();
      }
    }

    /** Show, and what every caller does when it fails. */
    method ShowOrNext()
      requires Valid()
      modifies this, queue, hist
      ensures Valid() && state == Notifications.ShowOrNext(old(state))
    {
      var ok := Show();
      if !ok {
        Drop();
        ShowNext();
      }
    }

    method TakeDown(reason: Reason)
      requires Valid()
      modifies this, hist
      ensures Valid() && state == Notifications.TakeDown(old(state), reason)
    {
      SetSlot(false, false, cur);
      var _ := Arm(0);
      SendClosed(cur.id, reason);
      if reason == ByCall {
        Release(cur);
      } else {
        PushHistory(cur);
      }
      ForgetIcon();
    }

    method Clear(reason: Reason)
      requires Valid()
      modifies this, queue, hist
      ensures Valid() && state == Notifications.Clear(old(state), reason)
    {
      if !active { return; }
      TakeDown(reason);
      ShowNext();
    }

    method DismissAll()
      requires Valid()
      modifies this, queue, hist
      ensures Valid() && state == Notifications.DismissAll(old(state))
    {
      if !active { return; }
      SetSlot(false, held, cur);
      var _ := Arm(0);
      SendClosed(cur.id, Dismissed);
      PushHistory(cur);
      ForgetIcon();
      ghost var cleared := state;
      while nqueue != 0
        invariant Valid()
        invariant DrainDismissed(state) == DrainDismissed(cleared)
        decreases |state.queue|
      {
        var n := Unqueue(0);
        SendClosed(n.id, Dismissed);
        PushHistory(n);
      }
    }

    /** Reads the time left off the clock. */
    method ReadClock()
      requires Valid()
      modifies this
      ensures Valid() && state == old(state).(heldLeft := TimeLeft(old(state)))
    {
      var end := cur.shownMs + cur.timeoutMs;
      SetLeft(if cur.timeoutMs == 0 then 0 else if end > now then end - now else 1);
    }

    method SetLeft(left: nat)
      requires Valid()
      modifies this
      ensures Valid() && state == old(state).(heldLeft := left)
    {
      heldLeft := left;
      state := state.(heldLeft := left);
    }

    method Pause()
      requires Valid()
      modifies this
      ensures Valid() && state == Notifications.Pause(old(state))
    {
      ReadClock();
      var _ := Arm(0);
      SetSlot(active, true, cur);
    }

    method Resume()
      requires Valid()
      modifies this
      ensures Valid() && state == Notifications.Resume(old(state))
    {
      SetSlot(active, false, cur);
      if cur.timeoutMs != 0 {
        var elapsed := MinusMod(cur.timeoutMs, heldLeft, UINT_RANGE);
        SetSlot(active, held, cur.(shownMs := MinusMod(now, elapsed, UINT64_RANGE)));
        var _ := Arm(heldLeft);
      }
    }

    method Promote(i: nat)
      requires Valid() && i < nqueue
      modifies this, queue, hist
      ensures Valid() && state == Notifications.Promote(old(state), i)
    {
      var promoted := Unqueue(i);
      SetSlot(false, held, cur);
      Enqueue(cur, true);
      SetSlot(active, held, promoted);
      ShowOrNext();
    }

    method Hold(hold: bool)
      requires Valid()
      modifies this, queue, hist
      ensures Valid() && state == Notifications.Hold(old(state), hold)
    {
      if !active || hold == held { return; }
      if hold {
        Pause();
        return;
      }
      var i := FindUnseenCritical();
      if i < nqueue && cur.urgency != Critical {
        SetSlot(active, false, cur);
        Promote(i);
      } else {
        Resume();
      }
    }

    method SignalAction(key: string, token: bool)
      requires Valid()
      modifies this
      ensures Valid() && state == Notifications.SignalAction(old(state), key, token)
    {
      if token {
        sent := sent + [ActivationToken(cur.id)];
      }
      sent := sent + [ActionInvoked(cur.id, key)];
      state := state.(signals := sent);
    }

    method InvokeAction(key: string, token: bool)
      requires Valid()
      modifies this, queue, hist
      ensures Valid() && state == Notifications.InvokeAction(old(state), key, token)
    {
      SignalAction(key, token);
      if cur.resident {
        Hold(false);
      } else {
        Clear(Dismissed);
      }
    }

    method Invoke(token: bool)
      requires Valid()
      modifies this, queue, hist
      ensures Valid() && state == Notifications.Invoke(old(state), token)
    {
      if !active { return; }
      if cur.hasDefault {
        InvokeAction("default", token);
      } else {
        Clear(Dismissed);
      }
    }

    method InvokeNth(i: nat, token: bool)
      requires Valid()
      modifies this, queue, hist
      ensures Valid() && state == Notifications.InvokeNth(old(state), i, token)
    {
      if active && i < |cur.actions| {
        InvokeAction(cur.actions[i], token);
      }
    }

    /* ---- message.c ---- */

    /** Reads the arguments that decide how the notification is shown; its id is still open. */
    method ReadRequest(r: Request) returns (n: Notification)
      requires Valid()
      ensures n == Build(state, r, 0)
    {
      var timeout := r.expireTimeout;
      if timeout <= 0 {
        timeout := defaultMs;
      } else if timeout > TIMEOUT_MAX {
        timeout := TIMEOUT_MAX;
      }
      n := Notification(0, r.urgency, r.hasDefault, r.resident, false, r.transient,
                        if r.urgency == Critical then 0 else timeout, 0,
                        r.app, r.tag, r.text, r.actions, r.icon);
    }

    method FindTagged(r: Request, n: Notification) returns (id: nat)
      requires Valid() && n == Build(state, r, 0)
      ensures id == TaggedId(state, r)
    {
      if r.tag == "" { return 0; }
      if active && SameSlot(cur, n) { return cur.id; }
      var i := FindSlot(queue, nqueue, n);
      id := if i < nqueue then queue[i].id else 0;
    }

    /** Counts on; 0 means "no notification" and is skipped when the counter wraps. */
    method CountOn()
      requires Valid()
      modifies this
      ensures Valid() && state == old(state).(lastId := NextId(old(state).lastId))
    {
      lastId := (lastId + 1) % UINT_RANGE;
      if lastId == 0 {
        lastId := 1;
      }
      state := state.(lastId := lastId);
    }

    method ChooseId(r: Request, n: Notification) returns (id: nat)
      requires Valid() && n == Build(state, r, 0)
      modifies this
      ensures Valid() && state == TakeIn(old(state), r)
      ensures id == ChosenId(old(state), r)
    {
      id := r.replacesId;
      if id == 0 {
        id := FindTagged(r, n);
      }
      if id == 0 {
        CountOn();
        id := lastId;
      }
      Create(r.icon);
    }

    /** The icon a request brought now exists. */
    method Create(icon: Option<Icon>)
      requires Valid()
      modifies this
      ensures Valid()
      ensures state ==
        old(state).(created := if icon.Some? then old(state).created + [icon.value] else old(state).created)
    {
      if icon.Some? {
        state := state.(created := state.created + [icon.value]);
      }
    }

    method Cover(n: Notification)
      requires Valid()
      modifies this, queue, hist
      ensures Valid() && state == Notifications.Cover(old(state), n)
    {
      if active {
        var _ := Arm(0);
        SetSlot(false, held, cur);
        Enqueue(cur, true);
      }
      SetSlot(active, held, n);
      ShowOrNext();
    }

    method PlaceNew(n: Notification)
      requires Valid()
      modifies this, queue, hist
      ensures Valid() && state == Notifications.PlaceNew(old(state), n)
    {
      if held {
        Enqueue(n, n.urgency == Critical);
      } else if !active || cur.timeoutMs == 0 || n.urgency == Critical {
        Cover(n);
      } else {
        Enqueue(n, false);
      }
    }

    method UpdateQueued(i: nat, n: Notification)
      requires Valid() && i < nqueue
      modifies this, queue
      ensures Valid()
      ensures var s := old(state); state == Notifications.Release(s, s.queue[i]).(queue := s.queue[i := n])
    {
      Release(queue[i]);
      queue[i] := n;
      state := state.(queue := queue[..nqueue]);
    }

    method Place(n: Notification)
      requires Valid()
      modifies this, queue, hist
      ensures Valid() && state == Notifications.Place(old(state), n)
    {
      var i := FindQueued(n.id);
      if active && cur.id == n.id {
        Release(cur);
        SetSlot(active, held, n);
        ShowOrNext();
      } else if i < nqueue {
        UpdateQueued(i, n);
      } else {
        state := state.(arrivals := state.arrivals + [n.id]);
        PlaceNew(n);
      }
    }

    method Receive(r: Request) returns (id: nat)
      requires Valid()
      modifies this, queue, hist
      ensures Valid() && state == Notifications.Receive(old(state), r)
      ensures id == ChosenId(old(state), r)
    {
      var n := ReadRequest(r);
      id := ChooseId(r, n);
      Place(n.(id := id));
    }

    method CloseById(id: nat)
      requires Valid()
      modifies this, queue, hist
      ensures Valid() && state == Notifications.CloseById(old(state), id)
    {
      var i := FindQueued(id);
      if active && id == cur.id {
        Clear(ByCall);
      } else if id != 0 && i < nqueue {
        var n := Unqueue(i);
        Release(n);
        SendClosed(id, ByCall);
      }
    }

    /* ---- notify.c ---- */

    method DrainQueue()
      requires Valid()
      modifies this, queue
      ensures Valid() && state == DrainStopped(old(state))
    {
      while nqueue != 0
        invariant Valid()
        invariant DrainStopped(state) == DrainStopped(old(state))
        decreases |state.queue|
      {
        var n := Unqueue(0);
        SendClosed(n.id, Undefined);
        Release(n);
      }
    }

    method DrainHistory()
      requires Valid()
      modifies this
      ensures Valid() && state == FreeHistory(old(state))
    {
      while nhist != 0
        invariant Valid()
        invariant FreeHistory(state) == FreeHistory(old(state))
        decreases |state.hist|
      {
        ghost var entries := state.hist;
        Release(hist[nhist - 1]);
        nhist := nhist - 1;
        state := state.(hist := hist[..nhist]);
        assert state.hist == entries[..|entries| - 1];
      }
    }

    method Stop()
      requires Valid()
      modifies this, queue, hist
      ensures Valid() && state == Notifications.Stop(old(state))
    {
      if !running { return; }
      DrainQueue();
      Clear(Undefined);
      DrainHistory();
      Halt();
    }

    method Halt()
      requires Valid()
      modifies this
      ensures Valid() && state == old(state).(timer := false, alarm := None, running := false)
    {
      timer, alarm, running := false, None, false;
      state := state.(timer := false, alarm := None, running := false);
    }

    method SetDefaultTimeout(seconds: nat)
      requires Valid()
      modifies this
      ensures Valid() && state == old(state).(defaultMs := ClampTimeout(seconds))
    {
      defaultMs := if seconds > TIMEOUT_MAX / 1000 then TIMEOUT_MAX
                   else (if seconds != 0 then seconds else 1) * 1000;
      state := state.(defaultMs := defaultMs);
    }

    /* ---- runs ---- */

    method Dispatch(e: Event)
      requires Valid()
      modifies this, queue, hist
      ensures Valid() && state == Handle(old(state), e)
    {
      match e
      case Notify(r) => if running { var _ := Receive(r); }
      case CloseNotification(id) => if running { CloseById(id); }
      case TimerFired => Clear(Expired);
      case DismissOne => Clear(Dismissed);
      case DismissEvery => DismissAll();
      case InvokeDefault(token) => Invoke(token);
      case PickAction(i, token) => InvokeNth(i, token);
      case SetHold(hold) => Hold(hold);
      case ForgetEntry(i) => RemoveHistory(i);
      case SetTimeout(seconds) => SetDefaultTimeout(seconds);
      case Shutdown => Stop();
    }

    /** Events one after another, each some milliseconds after the last. */
    method Serve(es: seq<TimedEvent>)
      requires Valid() && Sound(state)
      modifies this, queue, hist
      ensures Valid() && Sound(state) && state == Run(old(state), es)
      ensures Settled(old(state)) && Considerate(old(state), es) ==> Settled(state)
    {
      EveryRunSound(state, es);
      if Settled(state) && Considerate(state, es) {
        ConsiderateRunSettled(state, es);
      }
      var i := 0;
      while i < |es|
        invariant 0 <= i <= |es|
        invariant Valid() && Run(state, es[i..]) == Run(old(state), es)
      {
        now := now + es[i].elapsed;
        state := Wait(state, es[i].elapsed);
        Dispatch(es[i].event);
        assert es[i..][1..] == es[i + 1..];
        i := i + 1;
      }
    }
  }
}
