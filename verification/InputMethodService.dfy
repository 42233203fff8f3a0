/**
 * Who the input method serves and what exactly it is told: the answer to each
 * event, message by message, and the log of a run read back as who is served.
 */
module InputMethodService {
  import opened Sequences
  import opened InputMethod

  /** The messages that let go of the served text input, if there is one. */
  function Goodbye(s: State): seq<Message> { if s.served.Some? then [Deactivate, Done] else [] }

  /** A text input that is served again has its content sent; a new one takes over from the old. */
  predicate IsServed(s: State, t: State, id: nat) {
    && t.served == Some(id)
    && t.log == s.log + (if s.served == Some(id) then [Content(id), Done]
                         else Goodbye(s) + [Activate, Content(id), Done])
  }

  predicate NothingSaid(s: State, t: State) { t.served == s.served && t.log == s.log }

  predicate LetGo(s: State, t: State) { t.served.None? && t.log == s.log + Goodbye(s) }

  lemma QuietLetsGo(s: State)
    requires s.served.Some? ==> s.connected
    ensures LetGo(s, Quiet(s))
  {
  }

  lemma UpdateServes(s: State, input: Input)
    requires s.connected && input.focus.Some? && input.enabled
    ensures IsServed(s, Update(s, input), input.id)
  {
    var said := [Activate, Content(input.id), Done];
    assert (s.log + Goodbye(s)) + said == s.log + (Goodbye(s) + said);
  }

  /** Enabling a text input that has entered a surface has it served at once, whoever was served before. */
  lemma EnablingServes(s: State, id: nat)
    requires Sound(s) && s.connected && Known(s.inputs, id) && Lookup(s.inputs, id).focus.Some?
    ensures IsServed(s, Handle(s, Enable(id)), id)
    ensures Known(Handle(s, Enable(id)).inputs, id) && Lookup(Handle(s, Enable(id)).inputs, id).enabled
  {
    hide Replay;
    var input := Lookup(s.inputs, id).(enabled := true);
    ChangedSound(s, id, input);
    UpdateKeeps(Changed(s, id, input), input);
    UpdateServes(Changed(s, id, input), input);
    hide Update;
    hide Sound;
    hide IndexOf;
  }

  /** A commit of a text input that is enabled and has entered a surface does the same. */
  lemma CommittingServes(s: State, id: nat)
    requires s.connected && Known(s.inputs, id)
    requires Lookup(s.inputs, id).enabled && Lookup(s.inputs, id).focus.Some?
    ensures IsServed(s, Handle(s, Commit(id)), id)
  {
    UpdateServes(s, Lookup(s.inputs, id));
  }

  /** Nothing is said about one that has entered no surface, is not enabled, or has no input method to serve it. */
  lemma NotReadyIsNotServed(s: State, id: nat)
    requires Known(s.inputs, id)
    requires !s.connected || Lookup(s.inputs, id).focus.None?
    ensures NothingSaid(s, Handle(s, Enable(id))) && NothingSaid(s, Handle(s, Commit(id)))
  {
  }

  lemma NotEnabledIsNotServed(s: State, id: nat)
    requires Known(s.inputs, id) && !Lookup(s.inputs, id).enabled
    ensures NothingSaid(s, Handle(s, Commit(id)))
  {
  }

  /** Disabling or destroying the served text input lets go of it; any other one goes unnoticed. */
  lemma DisablingLetsGo(s: State, id: nat)
    requires Sound(s) && Known(s.inputs, id)
    ensures var t := Handle(s, Disable(id));
      && (if s.served == Some(id) then LetGo(s, t) else NothingSaid(s, t))
      && Known(t.inputs, id) && !Lookup(t.inputs, id).enabled
  {
    hide Replay;
    hide IndexOf;
    var input := Lookup(s.inputs, id).(enabled := false);
    SameIds(s.inputs, s.inputs[IndexOf(s.inputs, id) := input], id);
    QuietKeeps(Changed(s, id, input));
    QuietLetsGo(Changed(s, id, input));
    hide Quiet;
  }

  lemma DestroyingLetsGo(s: State, id: nat)
    requires Sound(s) && Known(s.inputs, id)
    ensures var t := Handle(s, Destroy(id));
      && (if s.served == Some(id) then LetGo(s, t) else NothingSaid(s, t))
      && !Known(t.inputs, id) && |t.inputs| == |s.inputs| - 1
  {
    hide Replay;
    RemovedIsUnknown(s.inputs, s.nextId, id);
    QuietKeeps(s);
    QuietLetsGo(s);
    hide Quiet;
    hide IndexOf;
  }

  lemma RemovedIsUnknown(inputs: seq<Input>, nextId: nat, id: nat)
    requires Distinct(inputs, nextId) && Known(inputs, id)
    ensures !Known(RemoveAt(inputs, IndexOf(inputs, id)), id)
  {
    hide IndexOf;
    var i := IndexOf(inputs, id);
    var r := RemoveAt(inputs, i);
    assert forall j :: 0 <= j < |r| ==> r[j] == inputs[if j < i then j else j + 1];
    hide RemoveAt;
    assert forall j :: 0 <= j < |r| ==> r[j].id != id;
  }

  /** A surface that goes is left by the text input on it, and nobody hears of it until the focus changes. */
  lemma SurfaceGoesUnheard(s: State, id: nat)
    requires Known(s.inputs, id)
    ensures var t := Handle(s, SurfaceGone(id));
      && NothingSaid(s, t)
      && t.inputs == s.inputs[IndexOf(s.inputs, id) := Lookup(s.inputs, id).(focus := None)]
  {
  }

  /** The served text input stays served exactly while it is on the surface in focus. */
  lemma FocusDecides(s: State, surface: Option<Surface>)
    requires Sound(s)
    ensures var t := Handle(s, FocusChange(surface));
      if s.served.Some? && Lookup(s.inputs, s.served.value).focus.Some?
        && Lookup(s.inputs, s.served.value).focus == surface
      then NothingSaid(s, t) else LetGo(s, t)
  {
    hide Replay;
    hide IndexOf;
    hide FollowAll;
    QuietLetsGo(s.(focus := surface));
    hide Quiet;
    assert s.served.None? ==> s.log + [] == s.log;
  }

  /** An input method that comes is told nothing but that; the text inputs of the client in focus have entered. */
  lemma MethodFindsInputs(s: State, i: nat)
    requires Sound(s) && !s.connected && i < |s.inputs|
    ensures var t := Handle(s, NewMethod);
      && t.connected && t.served.None? && t.log == s.log + [Connect]
      && |t.inputs| == |s.inputs|
      && t.inputs[i].focus == (if s.focus.Some? && s.focus.value.client == s.inputs[i].client then s.focus else None)
  {
    hide Replay;
    assert Placed(s.inputs[i], Target(s, s.focus));
    assert s.served.None?;
  }

  /** One that goes takes the service with it, and every text input leaves. */
  lemma MethodLeavesAll(s: State, i: nat)
    requires s.connected && i < |s.inputs|
    ensures var t := Handle(s, MethodGone);
      && !t.connected && t.served.None? && t.log == s.log + [Disconnect]
      && |t.inputs| == |s.inputs| && t.inputs[i].focus.None?
  {
  }

  /** A new text input comes first in the list, enters its client's surface, and is not enabled. */
  lemma NewInputEnters(s: State, client: nat)
    requires Sound(s)
    ensures var t := Handle(s, NewInput(client));
      var surface := if s.connected && s.focus.Some? && s.focus.value.client == client then s.focus else None;
      |t.inputs| == |s.inputs| + 1 && t.inputs[0] == Input(s.nextId, client, surface, false)
  {
    QuietKeeps(s.(inputs := [Input(s.nextId, client, None, false)] + s.inputs, nextId := s.nextId + 1));
    hide Quiet;
    hide Replay;
    hide IndexOf;
  }

  /* ---- the log read back ---- */

  /** Who is served after a log: the one whose content came last, unless it was let go. */
  function ToldOf(log: seq<Message>): Option<nat> {
    if log == [] then None else
      match log[|log| - 1]
      case Content(id) => Some(id)
      case Deactivate => None
      case Disconnect => None
      case Connect => ToldOf(log[..|log| - 1])
      case Activate => ToldOf(log[..|log| - 1])
      case Done => ToldOf(log[..|log| - 1])
  }

  lemma ToldAfter(log: seq<Message>, m: Message)
    ensures ToldOf(log + [m]) ==
      match m
        case Content(id) => Some(id)
        case Deactivate => None
        case Disconnect => None
        case Connect => ToldOf(log)
        case Activate => ToldOf(log)
        case Done => ToldOf(log)
  {
    assert (log + [m])[..|log|] == log;
  }

  predicate Told(s: State) { ToldOf(s.log) == s.served }

  lemma QuietTold(s: State)
    requires Told(s) && (s.served.Some? ==> s.connected)
    ensures Told(Quiet(s))
  {
    hide ToldOf;
    ToldAfter(s.log, Deactivate);
    ToldAfter(s.log + [Deactivate], Done);
    assert s.log + [Deactivate, Done] == s.log + [Deactivate] + [Done];
  }

  lemma UpdateTold(s: State, input: Input)
    requires Told(s) && (s.served.Some? ==> s.connected)
    ensures Told(Update(s, input))
  {
    hide ToldOf;
    var log := Quiet(s).log;
    ToldAfter(log, Activate);
    ToldAfter(log + [Activate], Content(input.id));
    ToldAfter(log + [Activate] + [Content(input.id)], Done);
    assert log + [Activate, Content(input.id), Done] == log + [Activate] + [Content(input.id)] + [Done];
    ToldAfter(s.log, Content(input.id));
    ToldAfter(s.log + [Content(input.id)], Done);
    assert s.log + [Content(input.id), Done] == s.log + [Content(input.id)] + [Done];
    hide Quiet;
  }

  lemma SyncTold(s: State, focus: Option<Surface>)
    requires Told(s) && (s.served.Some? ==> s.connected)
    ensures Told(Sync(s, focus))
  {
    hide ToldOf;
    QuietTold(s);
    hide Quiet;
    hide LosesServed;
  }

  lemma HandleTold(s: State, e: Event)
    requires Sound(s) && Told(s)
    ensures Told(Handle(s, e))
  {
    hide ToldOf;
    hide Replay;
    ToldAfter(s.log, Connect);
    ToldAfter(s.log, Disconnect);
    match e
    case NewMethod =>
      hide Sync;
      if !s.connected { SyncTold(Say(s.(connected := true), [Connect]), s.focus); }
    case MethodGone =>
      hide Sync;
      if s.connected { SyncTold(Say(s.(connected := false, served := None), [Disconnect]), None); }
    case NewInput(client) =>
      hide Sync;
      SyncTold(s.(inputs := [Input(s.nextId, client, None, false)] + s.inputs, nextId := s.nextId + 1), s.focus);
    case Enable(id) =>
      hide Update;
      if Known(s.inputs, id) {
        var input := Lookup(s.inputs, id).(enabled := true);
        UpdateTold(Changed(s, id, input), input);
      }
    case Commit(id) =>
      hide Update;
      if Known(s.inputs, id) { UpdateTold(s, Lookup(s.inputs, id)); }
    case Disable(id) =>
      hide Quiet;
      if Known(s.inputs, id) { QuietTold(Changed(s, id, Lookup(s.inputs, id).(enabled := false))); }
    case Destroy(id) =>
      hide Quiet;
      QuietTold(s);
    case FocusChange(surface) =>
      hide Sync;
      SyncTold(s.(focus := surface), surface);
    case SurfaceGone(id) =>
  }

  /** On every run the bridge serves exactly the text input the messages it sent speak of. */
  lemma EveryRunTold(focus: Option<Surface>, es: seq<Event>)
    ensures Told(Run(Initial(focus), es))
  {
    RunTold(Initial(focus), es);
  }

  lemma {:induction false} RunTold(s: State, es: seq<Event>)
    requires Sound(s) && Told(s)
    ensures Told(Run(s, es))
    decreases |es|
  {
    hide Handle;
    hide Sound;
    hide Told;
    if es != [] {
      HandleTold(s, es[0]);
      HandleSound(s, es[0]);
      RunTold(Handle(s, es[0]), es[1..]);
    }
  }
}
