/** When the history has one entry for a slot at most, and when a push spoils that. */
module NotificationHistory {
  import opened Sequences
  import opened Notifications

  /** Same app and stack tag. */
  predicate SameTag(a: Notification, b: Notification) {
    a.tag != "" && a.tag == b.tag && a.app == b.app
  }

  /** No two entries are for one slot. */
  predicate NoTwins(hist: seq<Notification>) {
    forall i, j :: 0 <= i < j < |hist| ==> !SameSlot(hist[i], hist[j])
  }

  /** One entry has n's id and another its app and stack tag. */
  predicate Straddles(hist: seq<Notification>, n: Notification) {
    exists i, j :: 0 <= i < |hist| && 0 <= j < |hist| && i != j && hist[i].id == n.id && SameTag(hist[j], n)
  }

  /**
   * A push replaces the entry for the same id or stack tag: it keeps the
   * history free of twins exactly when n does not stand astride two entries,
   * for only the first of them goes. A transient one is never kept.
   */
  lemma PushKeepsSlotsApart(s: State, n: Notification)
    requires NoTwins(s.hist)
    ensures NoTwins(PushHistory(s, n).hist) <==> n.transient || !Straddles(s.hist, n)
  {
    if !n.transient {
      var i := HistoryVictim(s.hist, n);
      var rest := if i < |s.hist| then RemoveAt(s.hist, i) else s.hist;
      assert PushHistory(s, n).hist == [n] + rest;
      RestIsApart(s.hist, i);
      hide RemoveAt;
      if Straddles(s.hist, n) {
        StraddledLeavesTwin(s.hist, n);
        TwinOfHead(n, rest);
      } else {
        OneEntryAtMost(s.hist, n);
        HeadStandsApart(n, rest);
      }
    }
  }

  lemma RestIsApart(hist: seq<Notification>, i: nat)
    requires NoTwins(hist)
    ensures i < |hist| ==> NoTwins(RemoveAt(hist, i))
  {
  }

  /** The head of a history has a twin in the rest. */
  lemma TwinOfHead(n: Notification, rest: seq<Notification>)
    requires exists k :: 0 <= k < |rest| && SameSlot(rest[k], n)
    ensures !NoTwins([n] + rest)
  {
    var k :| 0 <= k < |rest| && SameSlot(rest[k], n);
    assert ([n] + rest)[0] == n && ([n] + rest)[k + 1] == rest[k];
  }

  lemma HeadStandsApart(n: Notification, rest: seq<Notification>)
    requires NoTwins(rest) && forall k :: 0 <= k < |rest| ==> !SameSlot(rest[k], n)
    ensures NoTwins([n] + rest)
  {
  }

  lemma StraddledLeavesTwin(hist: seq<Notification>, n: Notification)
    requires Straddles(hist, n)
    ensures var i := HistoryVictim(hist, n);
      i < |hist| && exists k :: 0 <= k < |hist| - 1 && SameSlot(RemoveAt(hist, i)[k], n)
  {
    var a, b :| 0 <= a < |hist| && 0 <= b < |hist| && a != b && hist[a].id == n.id && SameTag(hist[b], n);
    assert SameSlot(hist[a], n) && SameSlot(hist[b], n);
    var i := HistoryVictim(hist, n);
    var other := if i == a then b else a;
    var k := if other < i then other else other - 1;
    assert RemoveAt(hist, i)[k] == hist[other];
  }

  lemma OneEntryAtMost(hist: seq<Notification>, n: Notification)
    requires NoTwins(hist) && !Straddles(hist, n)
    ensures var i := HistoryVictim(hist, n); var rest := if i < |hist| then RemoveAt(hist, i) else hist;
      forall k :: 0 <= k < |rest| ==> !SameSlot(rest[k], n)
  {
    var i := HistoryVictim(hist, n);
    if i < |hist| && SameSlot(hist[i], n) {
      forall j | 0 <= j < |hist| && j != i
        ensures !SameSlot(hist[j], n)
      {
        assert !SameSlot(hist[if i < j then i else j], hist[if i < j then j else i]);
      }
    }
  }

  /* ---- a run that leaves twins ---- */

  /** The history after a push. */
  function Pushed(hist: seq<Notification>, n: Notification): seq<Notification> {
    if n.transient then hist
    else [n] + if HistoryVictim(hist, n) < |hist| then RemoveAt(hist, HistoryVictim(hist, n)) else hist
  }

  /** Running, with nothing to show and a timer that works. */
  ghost predicate Idle(s: State) {
    && s.running && !s.active && !s.held && s.queue == []
    && forall k: nat :: s.timerOutcomes(k) == TimerOutcome(true, true)
  }

  function ShownAs(s: State, r: Request): Notification {
    Build(s, r, r.replacesId).(seen := true, shownMs := s.now)
  }

  /** A Notify and a dismissal. */
  function ShowAndDismiss(s: State, r: Request): State {
    Run(s, [After(0, Notify(r)), After(0, DismissOne)])
  }

  lemma IdleShows(s: State, r: Request)
    requires Idle(s) && r.replacesId != 0
    ensures var u := Receive(s, r);
      && u.active && u.cur == ShownAs(s, r) && u.queue == [] && u.hist == s.hist && !u.held
      && u.timerOutcomes == s.timerOutcomes && u.running
  {
    hide Build;
  }

  lemma ShownIsPushed(s: State, r: Request)
    requires Idle(s) && r.replacesId != 0
    ensures var t := ShowAndDismiss(s, r); Idle(t) && t.hist == Pushed(s.hist, ShownAs(s, r))
  {
    IdleShows(s, r);
    var u := Receive(s, r);
    RunTwo(s, After(0, Notify(r)), After(0, DismissOne));
    DismissedIsPushed(u);
    hide Receive;
    hide Clear;
    hide Pushed;
    hide Run;
    assert Wait(s, 0) == s && Wait(u, 0) == u;
    assert ShowAndDismiss(s, r) == Clear(u, Dismissed);
  }

  lemma DismissedIsPushed(u: State)
    requires u.active && u.queue == []
    ensures var t := Clear(u, Dismissed);
      !t.active && !t.held && t.queue == [] && t.hist == Pushed(u.hist, u.cur) &&
      t.timerOutcomes == u.timerOutcomes && t.running == u.running
  {
    hide HistoryVictim;
    assert ShowNext(TakeDown(u, Dismissed)) == TakeDown(u, Dismissed);
  }

  lemma ThreePushes(a: Notification, b: Notification, c: Notification)
    requires !a.transient && !b.transient && !c.transient
    requires a.id == c.id != b.id && a.tag == "" && SameTag(b, c)
    ensures Pushed([], a) == [a] && Pushed([a], b) == [b, a] && NoTwins([b, a])
    ensures Straddles([b, a], c) && Pushed([b, a], c) == [c, a] && !NoTwins([c, a])
  {
    assert FirstSlot([a], b) == 1;
    var hist := [b, a];
    assert hist[0] == b && hist[1] == a;
    assert FirstSlot(hist, c) == 0;
    assert RemoveAt(hist, 0) == [a];
    var twins := [c, a];
    assert twins[0] == c && twins[1] == a;
  }

  /**
   * A client shows id 1 without a tag, then id 2 with one, then id 1 with that
   * tag, each dismissed: the history is left with two entries for id 1.
   */
  lemma TwoEntriesForOneId(timerOutcomes: nat -> TimerOutcome, first: Request, second: Request, third: Request)
    requires forall k: nat :: timerOutcomes(k) == TimerOutcome(true, true)
    requires !first.transient && !second.transient && !third.transient
    requires first.replacesId == third.replacesId == 1 && second.replacesId == 2
    requires first.tag == "" && second.tag == third.tag != "" && second.app == third.app
    ensures var s := ShowAndDismiss(Start(timerOutcomes, 0, 5, true), first);
      var t := ShowAndDismiss(s, second); var u := ShowAndDismiss(t, third);
      && NoTwins(t.hist) && Straddles(t.hist, ShownAs(t, third))
      && |u.hist| == 2 && u.hist[0].id == 1 && u.hist[1].id == 1 && !NoTwins(u.hist)
  {
    hide ShowAndDismiss;
    hide Pushed;
    hide NoTwins;
    hide Straddles;
    var start := Start(timerOutcomes, 0, 5, true);
    var s := ShowAndDismiss(start, first);
    var t := ShowAndDismiss(s, second);
    ShownIsPushed(start, first);
    ShownIsPushed(s, second);
    ShownIsPushed(t, third);
    ThreePushes(ShownAs(start, first), ShownAs(s, second), ShownAs(t, third));
  }
}
