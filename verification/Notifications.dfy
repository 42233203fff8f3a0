/**
 * The notification server as a transition system on values: one slot on
 * screen, a bounded queue behind it and a bounded history, one timer and a
 * hold mode. NotificationServer.dfy runs the same steps in place on arrays;
 * the properties are proved in the files beside it.
 */
module Notifications {
  import opened Sequences

  const QUEUE_MAX := 32
  const HISTORY_MAX := 32
  const TIMEOUT_MAX := 60000
  const UINT_RANGE: nat := 0x1_0000_0000
  const UINT64_RANGE: nat := 0x1_0000_0000_0000_0000

  datatype Urgency = Low | Normal | Critical

  datatype Reason = Expired | Dismissed | ByCall | Undefined

  /** What the server sends on the bus. */
  datatype Signal =
    | Closed(id: nat, reason: Reason)
    | ActivationToken(id: nat)
    | ActionInvoked(id: nat, key: string)

  type Icon = nat

  datatype Notification = Notification(
    id: nat,
    urgency: Urgency,
    hasDefault: bool,
    resident: bool,
    seen: bool,
    transient: bool,
    timeoutMs: nat,
    shownMs: nat,
    app: string,
    tag: string,
    text: string,
    actions: seq<string>,
    icon: Option<Icon>)

  /** A Notify call whose arguments and hints have been read. */
  datatype Request = Request(
    replacesId: nat,
    expireTimeout: int,
    urgency: Urgency,
    hasDefault: bool,
    resident: bool,
    transient: bool,
    app: string,
    tag: string,
    text: string,
    actions: seq<string>,
    icon: Option<Icon>)

  /** What the event loop answers to one attempt to arm the timer. */
  datatype TimerOutcome = TimerOutcome(added: bool, updated: bool)

  /**
   * timerOutcomes is the event loop's behaviour, unknown to the server: its
   * calls-th answer is used next; alarm is when the timer will fire. The last
   * four fields are the history of the run: ids that came on screen or into
   * the queue anew, signals sent, icons received and icons destroyed.
   */
  datatype State = State(
    timerOutcomes: nat -> TimerOutcome,
    calls: nat,
    timer: bool,
    alarm: Option<nat>,
    now: nat,
    defaultMs: nat,
    lastId: nat,
    running: bool,
    active: bool,
    held: bool,
    heldLeft: nat,
    cur: Notification,
    queue: seq<Notification>,
    hist: seq<Notification>,
    arrivals: seq<nat>,
    signals: seq<Signal>,
    created: seq<Icon>,
    freed: seq<Icon>)

  const BLANK := Notification(0, Low, false, false, false, false, 0, 0, "", "", "", [], None)

  /* ---- notify.c ---- */

  function ClampTimeout(seconds: nat): (ms: nat)
    ensures 1000 <= ms <= TIMEOUT_MAX
  {
    if seconds > TIMEOUT_MAX / 1000 then TIMEOUT_MAX
    else (if seconds != 0 then seconds else 1) * 1000
  }

  /** The server once started; it does not run if another one has the name or the path cannot be registered. */
  function Start(timerOutcomes: nat -> TimerOutcome, now: nat, seconds: nat, running: bool): State {
    State(timerOutcomes, 0, false, None, now, ClampTimeout(seconds), 0, running, false, false, 0,
          BLANK, [], [], [], [], [], [])
  }

  /* ---- queue.c ---- */

  function SendClosed(s: State, id: nat, reason: Reason): (r: State)
    ensures r == s.(signals := r.signals)
  {
    if id == 0 then s else s.(signals := s.signals + [Closed(id, reason)])
  }

  function Release(s: State, n: Notification): (r: State)
    ensures r == s.(freed := r.freed)
  {
    if n.icon.Some? then s.(freed := s.freed + [n.icon.value]) else s
  }

  predicate SameSlot(first: Notification, second: Notification) {
    first.id == second.id ||
    (first.tag != "" && first.tag == second.tag && first.app == second.app)
  }

  predicate Expiring(n: Notification) { n.timeoutMs != 0 }

  predicate UnseenCritical(n: Notification) { n.urgency == Critical && !n.seen }

  function FirstSlot(q: seq<Notification>, n: Notification): (i: nat)
    ensures i <= |q|
    ensures forall j :: 0 <= j < i ==> !SameSlot(q[j], n)
    ensures i < |q| ==> SameSlot(q[i], n)
  {
    FirstIndex(q, (e: Notification) => SameSlot(e, n))
  }

  function FirstWithId(q: seq<Notification>, id: nat): (i: nat)
    ensures i <= |q|
    ensures forall j :: 0 <= j < i ==> q[j].id != id
    ensures i < |q| ==> q[i].id == id
  {
    FirstIndex(q, (e: Notification) => e.id == id)
  }

  function FirstExpiring(q: seq<Notification>): (i: nat)
    ensures i <= |q|
    ensures forall j :: 0 <= j < i ==> !Expiring(q[j])
    ensures i < |q| ==> Expiring(q[i])
  {
    FirstIndex(q, Expiring)
  }

  function FirstUnseenCritical(q: seq<Notification>): (i: nat)
    ensures i <= |q|
    ensures forall j :: 0 <= j < i ==> !UnseenCritical(q[j])
    ensures i < |q| ==> UnseenCritical(q[i])
  {
    FirstIndex(q, UnseenCritical)
  }

  /** The history entry a push of n takes out: the same slot, else the oldest when full. */
  function HistoryVictim(hist: seq<Notification>, n: Notification): (i: nat)
    ensures i <= |hist|
  {
    var i := FirstSlot(hist, n);
    if i == |hist| == HISTORY_MAX then |hist| - 1 else i
  }

  function PushHistory(s: State, n: Notification): (r: State)
    ensures r == s.(hist := r.hist, freed := r.freed)
  {
    if n.transient then Release(s, n)
    else
      var i := HistoryVictim(s.hist, n);
      var t := if i < |s.hist|
               then Release(s, s.hist[i]).(hist := RemoveAt(s.hist, i)) else s;
      t.(hist := [n] + t.hist)
  }

  function RemoveHistory(s: State, i: nat): (r: State)
    ensures r.arrivals == s.arrivals && r.created == s.created
  {
    if i >= |s.hist| then s
    else Release(s, s.hist[i]).(hist := RemoveAt(s.hist, i))
  }

  function Unqueue(s: State, i: nat): State
    requires i < |s.queue|
  {
    s.(queue := RemoveAt(s.queue, i))
  }

  /** The queue entry a full queue gives up: the oldest expiring one, else the head. */
  function Evicted(q: seq<Notification>): (i: nat)
    ensures q != [] ==> i < |q|
  {
    var i := FirstExpiring(q);
    if i < |q| then i else 0
  }

  function Evict(s: State): (r: State)
    ensures r == s.(queue := r.queue, hist := r.hist, freed := r.freed, signals := r.signals)
    requires s.queue != []
  {
    var gone := s.queue[Evicted(s.queue)];
    PushHistory(SendClosed(Unqueue(s, Evicted(s.queue)), gone.id, Undefined), gone)
  }

  function Enqueue(s: State, n: Notification, front: bool): (r: State)
    ensures r == s.(queue := r.queue, hist := r.hist, freed := r.freed, signals := r.signals)
  {
    var t := if |s.queue| == QUEUE_MAX then Evict(s) else s;
    t.(queue := if front then [n] + t.queue else t.queue + [n])
  }

  /** Whether the event loop has a timer for us once ms milliseconds are asked of it. */
  predicate HasTimer(s: State, ms: nat) {
    s.timer || (ms != 0 && s.timerOutcomes(s.calls).added)
  }

  /** Whether asking for ms milliseconds succeeds; 0 disarms. */
  predicate Armed(s: State, ms: nat) {
    if HasTimer(s, ms) then s.timerOutcomes(s.calls).updated else ms == 0
  }

  /** The state after asking. */
  function Arm(s: State, ms: nat): (r: State)
    ensures r == s.(calls := s.calls + 1, timer := r.timer, alarm := r.alarm)
  {
    s.(calls := s.calls + 1, timer := HasTimer(s, ms),
       alarm := if !(HasTimer(s, ms) && Armed(s, ms)) then s.alarm
                else if ms == 0 then None else Some(s.now + ms))
  }

  /** Puts cur on screen; active says whether that worked. */
  function Show(s: State): (r: State)
    ensures r == s.(cur := r.cur, active := r.active, heldLeft := r.heldLeft,
                    calls := r.calls, timer := r.timer, alarm := r.alarm)
  {
    var t := s.(cur := s.cur.(shownMs := s.now, seen := true));
    if s.held then t.(heldLeft := t.cur.timeoutMs, active := true)
    else Arm(t, t.cur.timeoutMs).(active := Armed(t, t.cur.timeoutMs))
  }

  /** The queue entry that comes up next. */
  function NextIndex(q: seq<Notification>): (i: nat)
    ensures q != [] ==> i < |q|
  {
    if FirstUnseenCritical(q) < |q| then FirstUnseenCritical(q)
    else if FirstExpiring(q) < |q| then FirstExpiring(q)
    else 0
  }

  /** cur could not be shown: it is closed and goes to the history. */
  function Drop(s: State): (r: State)
    ensures r == s.(cur := r.cur, hist := r.hist, freed := r.freed, signals := r.signals)
  {
    var t := PushHistory(SendClosed(s, s.cur.id, Undefined), s.cur);
    t.(cur := t.cur.(icon := None))
  }

  /** Takes the next queue entry as cur and tries to show it. */
  function ShowQueued(s: State): State
    requires s.queue != []
  {
    var i := NextIndex(s.queue);
    var t := Show(Unqueue(s, i).(cur := s.queue[i]));
    if t.active then t else Drop(t)
  }

  lemma ShowQueuedShrinks(s: State)
    requires s.queue != []
    ensures ShowQueued(s).queue == RemoveAt(s.queue, NextIndex(s.queue))
  {
  }

  function ShowNext(s: State): (r: State)
    ensures r == s.(cur := r.cur, queue := r.queue, hist := r.hist, freed := r.freed, signals := r.signals,
                    active := r.active, heldLeft := r.heldLeft, calls := r.calls, timer := r.timer, alarm := r.alarm)
    decreases |s.queue|
  {
    if s.active || s.queue == [] then s
    else
      ShowQueuedShrinks(s);
      ShowNext(ShowQueued(s))
  }

  /** Show, and what every caller does when it fails. */
  function ShowOrNext(s: State): (r: State)
    ensures r == s.(cur := r.cur, queue := r.queue, hist := r.hist, freed := r.freed, signals := r.signals,
                    active := r.active, heldLeft := r.heldLeft, calls := r.calls, timer := r.timer, alarm := r.alarm)
  {
    var t := Show(s);
    if t.active then t else ShowNext(Drop(t))
  }

  /** Takes the current notification down. */
  function TakeDown(s: State, reason: Reason): (r: State)
    ensures r == s.(cur := r.cur, hist := r.hist, freed := r.freed, signals := r.signals,
                    active := false, held := false, calls := r.calls, timer := r.timer, alarm := r.alarm)
  {
    var t := SendClosed(Arm(s.(active := false, held := false), 0), s.cur.id, reason);
    var u := if reason == ByCall then Release(t, t.cur) else PushHistory(t, t.cur);
    u.(cur := u.cur.(icon := None))
  }

  function Clear(s: State, reason: Reason): (r: State)
    ensures r == s.(cur := r.cur, queue := r.queue, hist := r.hist, freed := r.freed, signals := r.signals,
                    active := r.active, held := r.held, heldLeft := r.heldLeft,
                    calls := r.calls, timer := r.timer, alarm := r.alarm)
  {
    if !s.active then s else ShowNext(TakeDown(s, reason))
  }

  function DrainDismissed(s: State): (r: State)
    ensures r == s.(queue := [], hist := r.hist, freed := r.freed, signals := r.signals)
    decreases |s.queue|
  {
    if s.queue == [] then s
    else
      var n := s.queue[0];
      var t := PushHistory(SendClosed(Unqueue(s, 0), n.id, Dismissed), n);
      DrainDismissed(t)
  }

  function DismissAll(s: State): (r: State)
    ensures r.arrivals == s.arrivals && r.created == s.created
  {
    if !s.active then s
    else
      var t := SendClosed(Arm(s.(active := false), 0), s.cur.id, Dismissed);
      var u := PushHistory(t, t.cur);
      DrainDismissed(u.(cur := u.cur.(icon := None)))
  }

  /** Time cur has left when a hold begins; 1 ms when its deadline has passed. */
  function TimeLeft(s: State): nat {
    var end := s.cur.shownMs + s.cur.timeoutMs;
    if s.cur.timeoutMs == 0 then 0 else if end > s.now then end - s.now else 1
  }

  /** Unsigned subtraction, wrapping round at modulus. */
  function MinusMod(a: nat, b: nat, modulus: nat): nat
    requires modulus > 0
  {
    if a >= b then a - b else (a - b) % modulus
  }

  function Promote(s: State, i: nat): (r: State)
    requires i < |s.queue|
    ensures r.arrivals == s.arrivals && r.created == s.created
  {
    var promoted := s.queue[i];
    var t := Enqueue(Unqueue(s, i).(active := false), s.cur, true);
    ShowOrNext(t.(cur := promoted))
  }

  /** A hold begins: the clock stops with TimeLeft on it. */
  function Pause(s: State): (r: State)
    ensures r.arrivals == s.arrivals && r.created == s.created
  {
    Arm(s.(heldLeft := TimeLeft(s)), 0).(held := true)
  }

  /** A hold ends without a promotion: the clock goes on from heldLeft. */
  function Resume(s: State): (r: State)
    ensures r.arrivals == s.arrivals && r.created == s.created
  {
    if s.cur.timeoutMs == 0 then s.(held := false)
    else
      var elapsed := MinusMod(s.cur.timeoutMs, s.heldLeft, UINT_RANGE);
      var shown := MinusMod(s.now, elapsed, UINT64_RANGE);
      Arm(s.(held := false, cur := s.cur.(shownMs := shown)), s.heldLeft)
  }

  function Hold(s: State, hold: bool): (r: State)
    ensures r.arrivals == s.arrivals && r.created == s.created
  {
    if !s.active || hold == s.held then s
    else if hold then Pause(s)
    else
      var i := FirstUnseenCritical(s.queue);
      if i < |s.queue| && s.cur.urgency != Critical then Promote(s.(held := false), i)
      else Resume(s)
  }

  /** The signals of an action: the token goes first, so the client can raise its window. */
  function SignalAction(s: State, key: string, token: bool): (r: State)
    ensures r == s.(signals := r.signals)
  {
    var t := if token then s.(signals := s.signals + [ActivationToken(s.cur.id)]) else s;
    t.(signals := t.signals + [ActionInvoked(s.cur.id, key)])
  }

  function InvokeAction(s: State, key: string, token: bool): (r: State)
    ensures r.arrivals == s.arrivals && r.created == s.created
  {
    var t := SignalAction(s, key, token);
    if t.cur.resident then Hold(t, false) else Clear(t, Dismissed)
  }

  function Invoke(s: State, token: bool): (r: State)
    ensures r.arrivals == s.arrivals && r.created == s.created
  {
    if !s.active then s
    else if s.cur.hasDefault then InvokeAction(s, "default", token)
    else Clear(s, Dismissed)
  }

  function InvokeNth(s: State, i: nat, token: bool): (r: State)
    ensures r.arrivals == s.arrivals && r.created == s.created
  {
    if s.active && i < |s.cur.actions| then InvokeAction(s, s.cur.actions[i], token) else s
  }

  /* ---- message.c ---- */

  function EffectiveTimeout(s: State, r: Request): nat {
    if r.urgency == Critical then 0
    else if r.expireTimeout <= 0 then s.defaultMs
    else if r.expireTimeout > TIMEOUT_MAX then TIMEOUT_MAX
    else r.expireTimeout
  }

  function Build(s: State, r: Request, id: nat): Notification {
    Notification(id, r.urgency, r.hasDefault, r.resident, false, r.transient,
                 EffectiveTimeout(s, r), 0, r.app, r.tag, r.text, r.actions, r.icon)
  }

  function NextId(lastId: nat): (id: nat)
    ensures 0 < id < UINT_RANGE
  {
    var id := (lastId + 1) % UINT_RANGE;
    if id != 0 then id else 1
  }

  /** The id of a live notification of the same app and stack tag, 0 if there is none. */
  function TaggedId(s: State, r: Request): nat {
    if r.tag == "" then 0
    else if s.active && SameSlot(s.cur, Build(s, r, 0)) then s.cur.id
    else
      var i := FirstSlot(s.queue, Build(s, r, 0));
      if i < |s.queue| then s.queue[i].id else 0
  }

  /** The id the sender asked for or its stack tag stands for, 0 for a new one. */
  function AskedId(s: State, r: Request): nat {
    if r.replacesId != 0 then r.replacesId else TaggedId(s, r)
  }

  function ChosenId(s: State, r: Request): nat {
    if AskedId(s, r) != 0 then AskedId(s, r) else NextId(s.lastId)
  }

  /** A new notification takes the box; what it covers goes to the front of the queue. */
  function Cover(s: State, n: Notification): State {
    var t := if s.active then Enqueue(Arm(s, 0).(active := false), s.cur, true) else s;
    ShowOrNext(t.(cur := n))
  }

  function PlaceNew(s: State, n: Notification): State {
    if s.held then Enqueue(s, n, n.urgency == Critical)
    else if !s.active || s.cur.timeoutMs == 0 || n.urgency == Critical then Cover(s, n)
    else Enqueue(s, n, false)
  }

  /** What becomes of a notification whose id is settled. */
  function Place(s: State, n: Notification): State {
    var i := FirstWithId(s.queue, n.id);
    if s.active && s.cur.id == n.id then ShowOrNext(Release(s, s.cur).(cur := n))
    else if i < |s.queue| then Release(s, s.queue[i]).(queue := s.queue[i := n])
    else PlaceNew(s.(arrivals := s.arrivals + [n.id]), n)
  }

  /** The counter moves only for an id it handed out itself. */
  function TakeIn(s: State, r: Request): (t: State)
    ensures t == s.(lastId := t.lastId, created := t.created)
  {
    s.(lastId := if AskedId(s, r) == 0 then ChosenId(s, r) else s.lastId,
       created := if r.icon.Some? then s.created + [r.icon.value] else s.created)
  }

  function Receive(s: State, r: Request): State {
    Place(TakeIn(s, r), Build(s, r, ChosenId(s, r)))
  }

  function CloseById(s: State, id: nat): (r: State)
    ensures r.arrivals == s.arrivals && r.created == s.created
  {
    var i := FirstWithId(s.queue, id);
    if s.active && id == s.cur.id then Clear(s, ByCall)
    else if id != 0 && i < |s.queue| then
      SendClosed(Release(Unqueue(s, i), s.queue[i]), id, ByCall)
    else s
  }

  function DrainStopped(s: State): (r: State)
    ensures r == s.(queue := r.queue, freed := r.freed, signals := r.signals)
    decreases |s.queue|
  {
    if s.queue == [] then s
    else
      var n := s.queue[0];
      var t := Release(SendClosed(Unqueue(s, 0), n.id, Undefined), n);
      DrainStopped(t)
  }

  /** Frees the history from its oldest entry on. */
  function FreeHistory(s: State): (r: State)
    ensures r == s.(hist := r.hist, freed := r.freed)
    decreases |s.hist|
  {
    if s.hist == [] then s
    else
      var last := |s.hist| - 1;
      var t := Release(s, s.hist[last]).(hist := s.hist[..last]);
      FreeHistory(t)
  }

  function Stop(s: State): (r: State)
    ensures r.arrivals == s.arrivals && r.created == s.created
  {
    if !s.running then s
    else FreeHistory(Clear(DrainStopped(s), Undefined)).(timer := false, alarm := None, running := false)
  }

  /* ---- runs ---- */

  datatype Event =
    | Notify(request: Request)
    | CloseNotification(id: nat)
    | TimerFired
    | DismissOne
    | DismissEvery
    | InvokeDefault(token: bool)
    | PickAction(index: nat, token: bool)
    | SetHold(hold: bool)
    | ForgetEntry(index: nat)
    | SetTimeout(seconds: nat)
    | Shutdown

  function Handle(s: State, e: Event): State {
    match e
    case Notify(r) => if s.running then Receive(s, r) else s
    case CloseNotification(id) => if s.running then CloseById(s, id) else s
    case TimerFired => Clear(s, Expired)
    case DismissOne => Clear(s, Dismissed)
    case DismissEvery => DismissAll(s)
    case InvokeDefault(token) => Invoke(s, token)
    case PickAction(i, token) => InvokeNth(s, i, token)
    case SetHold(hold) => Hold(s, hold)
    case ForgetEntry(i) => RemoveHistory(s, i)
    case SetTimeout(seconds) => s.(defaultMs := ClampTimeout(seconds))
    case Shutdown => Stop(s)
  }

  /** An event, after the given number of milliseconds. */
  datatype TimedEvent = After(elapsed: nat, event: Event)

  function Wait(s: State, elapsed: nat): State { s.(now := s.now + elapsed) }

  function Step(s: State, e: TimedEvent): State { Handle(Wait(s, e.elapsed), e.event) }

  function Run(s: State, es: seq<TimedEvent>): State
    decreases |es|
  {
    if es == [] then s else Run(Step(s, es[0]), es[1..])
  }

  lemma RunTwo(s: State, a: TimedEvent, b: TimedEvent)
    ensures Run(s, [a, b]) == Step(Step(s, a), b)
  {
    assert [a, b][1..] == [b] && [b][1..] == [];
    hide Handle;
    assert Run(Step(s, a), [b]) == Run(Step(Step(s, a), b), []);
  }

  lemma RunThree(s: State, a: TimedEvent, b: TimedEvent, c: TimedEvent)
    ensures Run(s, [a, b, c]) == Step(Step(Step(s, a), b), c)
  {
    assert [a, b, c][1..] == [b, c];
    RunTwo(Step(s, a), b, c);
  }
}
