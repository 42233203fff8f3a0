/** The expiry timer, and what holding a notification does to its time on screen. */
module NotificationClock {
  import opened Sequences
  import opened Notifications
  import opened NotificationInvariant
  import opened NotificationDrain

  /** When the timer should fire: at the end of the shown notification's time, if it has one. */
  function DueAlarm(s: State): Option<nat> {
    if s.active && !s.held && s.cur.timeoutMs != 0
    then Some(s.cur.shownMs + s.cur.timeoutMs) else None
  }

  /** The timer is set for the notification on screen and for nothing else. */
  ghost predicate OnTime(s: State) {
    TimersWork(s) && s.alarm == DueAlarm(s) && (s.alarm.Some? ==> s.timer)
  }

  /** Nothing is armed. */
  ghost predicate Quiet(s: State) { TimersWork(s) && s.alarm == None }

  lemma DisarmQuiets(s: State)
    requires TimersWork(s) && (s.alarm.Some? ==> s.timer)
    ensures Quiet(Arm(s, 0))
  {
    assert s.timerOutcomes(s.calls) == TimerOutcome(true, true);
  }

  lemma ShowOnTime(s: State)
    requires TimersWork(s) && (s.held ==> s.alarm == None) && (s.cur.timeoutMs == 0 ==> s.alarm.Some? ==> s.timer)
    ensures OnTime(Show(s)) && Show(s).active
  {
    ShowWorks(s);
    assert s.timerOutcomes(s.calls) == TimerOutcome(true, true);
  }

  lemma ShowNextOnTime(s: State)
    requires OnTime(s) && (s.held ==> s.active)
    ensures OnTime(ShowNext(s))
  {
    if !s.active && s.queue != [] {
      var i := NextIndex(s.queue);
      ShowOnTime(Unqueue(s, i).(cur := s.queue[i]));
      assert ShowNext(s) == ShowQueued(s);
    }
  }

  lemma ClearOnTime(s: State, reason: Reason)
    requires OnTime(s)
    ensures OnTime(Clear(s, reason))
  {
    if s.active {
      DisarmQuiets(s.(active := false, held := false));
      ShowNextOnTime(TakeDown(s, reason));
    }
  }

  lemma DismissAllOnTime(s: State)
    requires OnTime(s)
    ensures OnTime(DismissAll(s))
  {
    if s.active {
      DisarmQuiets(s.(active := false));
      var t := PushHistory(SendClosed(Arm(s.(active := false), 0), s.cur.id, Dismissed), s.cur);
      assert OnTime(DrainDismissed(t.(cur := t.cur.(icon := None))));
    }
  }

  lemma ResumeOnTime(s: State)
    requires Tidy(s) && OnTime(s) && s.active && s.held
    ensures OnTime(Resume(s))
  {
    if s.cur.timeoutMs != 0 {
      ResumeKeepsTime(s);
      assert s.timerOutcomes(s.calls) == TimerOutcome(true, true);
    }
  }

  lemma HoldOnTime(s: State, hold: bool)
    requires Tidy(s) && OnTime(s)
    ensures OnTime(Hold(s, hold))
  {
    if s.active && hold != s.held {
      if hold {
        DisarmQuiets(s.(heldLeft := TimeLeft(s)));
      } else {
        var i := FirstUnseenCritical(s.queue);
        if i < |s.queue| && s.cur.urgency != Critical {
          var t := Enqueue(Unqueue(s.(held := false), i).(active := false), s.cur, true);
          ShowOnTime(t.(cur := s.queue[i]));
        } else {
          ResumeOnTime(s);
        }
      }
    }
  }

  lemma InvokeActionOnTime(s: State, key: string, token: bool)
    requires Tidy(s) && OnTime(s)
    ensures OnTime(InvokeAction(s, key, token))
  {
    HoldOnTime(SignalAction(s, key, token), false);
    ClearOnTime(SignalAction(s, key, token), Dismissed);
  }

  lemma CoverOnTime(s: State, n: Notification)
    requires OnTime(s) && !s.held
    ensures OnTime(Cover(s, n))
  {
    var t := s;
    if s.active {
      DisarmQuiets(s);
      t := Enqueue(Arm(s, 0).(active := false), s.cur, true);
    }
    ShowOnTime(t.(cur := n));
  }

  lemma PlaceOnTime(s: State, n: Notification)
    requires OnTime(s)
    ensures OnTime(Place(s, n))
  {
    var i := FirstWithId(s.queue, n.id);
    if s.active && s.cur.id == n.id {
      ShowOnTime(Release(s, s.cur).(cur := n));
    } else if i == |s.queue| {
      var t := s.(arrivals := s.arrivals + [n.id]);
      if !s.held && (!s.active || s.cur.timeoutMs == 0 || n.urgency == Critical) {
        CoverOnTime(t, n);
      }
    }
  }

  lemma StopOnTime(s: State)
    requires Tidy(s) && OnTime(s)
    ensures OnTime(Stop(s))
  {
    if s.running {
      ClearOnTime(DrainStopped(s), Undefined);
      StopEmpties(s);
    }
  }

  lemma InvokeOnTime(s: State, token: bool)
    requires Tidy(s) && OnTime(s)
    ensures OnTime(Invoke(s, token))
  {
    ClearOnTime(s, Dismissed);
    InvokeActionOnTime(s, "default", token);
  }

  lemma CloseByIdOnTime(s: State, id: nat)
    requires OnTime(s)
    ensures OnTime(CloseById(s, id))
  {
    if s.active && id == s.cur.id {
      ClearOnTime(s, ByCall);
    }
  }

  lemma HandleOnTime(s: State, e: Event)
    requires Tidy(s) && OnTime(s)
    ensures OnTime(Handle(s, e))
  {
    match e
    case Notify(r) =>
      PlaceOnTime(TakeIn(s, r), Build(s, r, ChosenId(s, r)));
    case CloseNotification(id) => CloseByIdOnTime(s, id);
    case TimerFired => ClearOnTime(s, Expired);
    case DismissOne => ClearOnTime(s, Dismissed);
    case DismissEvery => DismissAllOnTime(s);
    case InvokeDefault(token) => InvokeOnTime(s, token);
    case PickAction(i, token) =>
      if i < |s.cur.actions| { InvokeActionOnTime(s, s.cur.actions[i], token); }
    case SetHold(hold) => HoldOnTime(s, hold);
    case ForgetEntry(i) =>
    case SetTimeout(seconds) =>
    case Shutdown => StopOnTime(s);
  }

  lemma StepTidy(s: State, e: TimedEvent)
    requires Tidy(s)
    ensures Tidy(Step(s, e))
  {
    HandleTidy(Wait(s, e.elapsed), e.event);
  }

  lemma StepOnTime(s: State, e: TimedEvent)
    requires Tidy(s) && OnTime(s)
    ensures OnTime(Step(s, e))
  {
    HandleOnTime(Wait(s, e.elapsed), e.event);
  }

  lemma {:induction false} EveryRunOnTime(s: State, es: seq<TimedEvent>)
    requires Tidy(s) && OnTime(s)
    ensures OnTime(Run(s, es))
    decreases |es|
  {
    if es != [] {
      StepTidy(s, es[0]);
      StepOnTime(s, es[0]);
      EveryRunOnTime(Step(s, es[0]), es[1..]);
    }
  }

  lemma StartOnTime(timerOutcomes: nat -> TimerOutcome, now: nat, seconds: nat, running: bool)
    requires forall k: nat :: timerOutcomes(k) == TimerOutcome(true, true)
    ensures OnTime(Start(timerOutcomes, now, seconds, running))
  {
  }

  /* ---- holding stops the clock ---- */

  /** Some time on screen, a hold, some time under it, and its release. */
  datatype Cycle = Cycle(before: nat, during: nat)

  function HoldOnce(s: State, c: Cycle): State {
    Hold(Wait(Hold(Wait(s, c.before), true), c.during), false)
  }

  function HoldOften(s: State, cs: seq<Cycle>): State
    decreases |cs|
  {
    if cs == [] then s else HoldOften(HoldOnce(s, cs[0]), cs[1..])
  }

  /** Milliseconds to the deadline, negative once it has passed. */
  function Left(s: State): int { s.cur.shownMs + s.cur.timeoutMs - s.now }

  /** A hold begun at or past the deadline gives back the time past it and 1 ms. */
  function GivenBack(left: int, before: nat): nat {
    if before < left then 0 else before - left + 1
  }

  function TotalGivenBack(left: int, cs: seq<Cycle>): nat
    decreases |cs|
  {
    if cs == [] then 0
    else
      var g := GivenBack(left, cs[0].before);
      g + TotalGivenBack(left - cs[0].before + g, cs[1..])
  }

  function TimeUnheld(cs: seq<Cycle>): nat {
    if cs == [] then 0 else cs[0].before + TimeUnheld(cs[1..])
  }

  /** On screen, running down, and nothing in the queue to promote on release. */
  predicate Ticking(s: State) {
    && Tidy(s) && s.active && !s.held && s.cur.timeoutMs != 0
    && FirstUnseenCritical(s.queue) == |s.queue|
  }

  lemma HoldOnceKeepsTime(s: State, c: Cycle)
    requires Ticking(s)
    ensures Ticking(HoldOnce(s, c))
    ensures Left(HoldOnce(s, c)) == Left(s) - c.before + GivenBack(Left(s), c.before)
    ensures HoldOnce(s, c).cur.(shownMs := 0) == s.cur.(shownMs := 0)
  {
    var t := Wait(s, c.before);
    HoldTidy(t, true);
    var u := Wait(Hold(t, true), c.during);
    assert Tidy(u);
    ResumeKeepsTime(u);
    HoldTidy(u, false);
    assert HoldOnce(s, c) == Resume(u);
  }

  /**
   * However often it is held, a notification has exactly its time on screen
   * outside the holds, plus what late holds gave back.
   */
  lemma {:induction false} HoldsKeepTime(s: State, cs: seq<Cycle>)
    requires Ticking(s)
    ensures Ticking(HoldOften(s, cs))
    ensures TimeUnheld(cs) + Left(HoldOften(s, cs)) == Left(s) + TotalGivenBack(Left(s), cs)
    decreases |cs|
  {
    if cs != [] {
      var t := HoldOnce(s, cs[0]);
      assert Ticking(t) && Left(t) == Left(s) - cs[0].before + GivenBack(Left(s), cs[0].before) by {
        HoldOnceKeepsTime(s, cs[0]);
      }
      HoldsKeepTime(t, cs[1..]);
    }
  }

  /** How many holds begin at or past the deadline they are up against. */
  function Late(left: int, cs: seq<Cycle>): nat
    decreases |cs|
  {
    if cs == [] then 0
    else
      var c := cs[0];
      (if c.before >= left then 1 else 0) + Late(left - c.before + GivenBack(left, c.before), cs[1..])
  }

  /** No hold begins after the deadline it is up against; at the deadline it still may. */
  predicate Punctual(left: int, cs: seq<Cycle>)
    decreases |cs|
  {
    cs != [] ==>
      cs[0].before <= left && Punctual(left - cs[0].before + GivenBack(left, cs[0].before), cs[1..])
  }

  /**
   * Every late hold gives back 1 ms at least, and all of them no more than
   * that exactly when none begins after its deadline.
   */
  lemma {:induction false} LateHoldsGiveBack(left: int, cs: seq<Cycle>)
    ensures Late(left, cs) <= |cs| && TotalGivenBack(left, cs) >= Late(left, cs)
    ensures TotalGivenBack(left, cs) == Late(left, cs) <==> Punctual(left, cs)
    decreases |cs|
  {
    if cs != [] {
      LateHoldsGiveBack(left - cs[0].before + GivenBack(left, cs[0].before), cs[1..]);
    }
  }

  /**
   * The time unheld until expiry is the timeout plus at most 1 ms for each
   * hold begun at or past the deadline exactly when no hold begins after it.
   */
  lemma UnheldTimeIsTheTimeout(s: State, cs: seq<Cycle>)
    requires Ticking(s)
    ensures Ticking(HoldOften(s, cs))
    ensures TimeUnheld(cs) + Left(HoldOften(s, cs)) <= Left(s) + Late(Left(s), cs) <==> Punctual(Left(s), cs)
    ensures TimeUnheld(cs) + Left(HoldOften(s, cs)) >= Left(s) + Late(Left(s), cs)
  {
    HoldsKeepTime(s, cs);
    LateHoldsGiveBack(Left(s), cs);
  }

  /** Whatever is ticking, one hold begun late by some milliseconds gives all of them back and one more. */
  lemma LateHoldOverstays(s: State, late: nat)
    requires Ticking(s) && late > 0 && Left(s) + late >= 0
    ensures var cs := [Cycle(Left(s) + late, 0)];
      && !Punctual(Left(s), cs) && Late(Left(s), cs) == 1
      && TimeUnheld(cs) + Left(HoldOften(s, cs)) == Left(s) + late + 1
  {
    var cs := [Cycle(Left(s) + late, 0)];
    assert cs[1..] == [];
    HoldsKeepTime(s, cs);
  }

  /** A server just started, on which the timer works. */
  function Fresh(): State { Start(_ => TimerOutcome(true, true), 0, 5, true) }

  /** A notification shown by it for 5 s. */
  function Shown5s(): State { Receive(Fresh(), Request(0, 5000, Normal, false, false, false, "a", "", "t", [], None)) }

  lemma Shown5sIsTicking()
    ensures Ticking(Shown5s()) && Left(Shown5s()) == 5000
  {
    var r := Request(0, 5000, Normal, false, false, false, "a", "", "t", [], None);
    ReceiveTidy(Fresh(), r);
    assert FirstUnseenCritical([]) == 0;
    hide Tidy;
  }

  /** Held 5 ms past its deadline it stays 6 ms too long, with one hold that was late. */
  lemma FiveMillisecondsLate()
    ensures var s := Shown5s(); var cs := [Cycle(5005, 0)];
      && Ticking(s) && Left(s) == 5000 && Late(5000, cs) == 1 && !Punctual(5000, cs)
      && TimeUnheld(cs) + Left(HoldOften(s, cs)) == 5006
  {
    Shown5sIsTicking();
    hide Shown5s;
    hide HoldOften;
    hide Ticking;
    LateHoldOverstays(Shown5s(), 5);
  }
}
