/**
 * The bridge between text inputs and the input method, as a transition system:
 * what each event does to the state and what it sends to the input method.
 */
module InputMethod {
  import opened Sequences

  datatype Surface = Surface(id: nat, client: nat)

  /** A client's text input: the surface it has entered and whether its client enabled it. */
  datatype Input = Input(id: nat, client: nat, focus: Option<Surface>, enabled: bool)

  /** What the connected input method sees, and when one comes and goes. */
  datatype Message = Connect | Activate | Content(input: nat) | Deactivate | Done | Disconnect

  datatype State = State(connected: bool, served: Option<nat>, inputs: seq<Input>, focus: Option<Surface>,
                         nextId: nat, log: seq<Message>)

  datatype Event =
    | NewMethod
    | MethodGone
    | NewInput(client: nat)
    | Enable(id: nat)
    | Commit(id: nat)
    | Disable(id: nat)
    | Destroy(id: nat)
    | FocusChange(surface: Option<Surface>)
    | SurfaceGone(id: nat)

  function Initial(focus: Option<Surface>): State {
    State(false, None, [], focus, 0, [])
  }

  predicate HasId(id: nat, input: Input) { input.id == id }

  function IndexOf(inputs: seq<Input>, id: nat): (i: nat)
    ensures i <= |inputs| && (i < |inputs| ==> inputs[i].id == id)
    ensures forall j :: 0 <= j < i ==> inputs[j].id != id
  {
    FirstIndex(inputs, (input: Input) => HasId(id, input))
  }

  predicate Known(inputs: seq<Input>, id: nat) { IndexOf(inputs, id) < |inputs| }

  function Lookup(inputs: seq<Input>, id: nat): Input
    requires Known(inputs, id)
  {
    inputs[IndexOf(inputs, id)]
  }

  function Say(s: State, messages: seq<Message>): State { s.(log := s.log + messages) }

  function Quiet(s: State): State {
    if s.served.None? then s
    else Say(s.(served := None), if s.connected then [Deactivate, Done] else [])
  }

  function Serve(s: State, id: nat): State {
    Say(Quiet(s).(served := Some(id)), [Activate, Content(id), Done])
  }

  function Update(s: State, input: Input): State {
    if !s.connected || input.focus.None? || !input.enabled then s
    else if s.served != Some(input.id) then Serve(s, input.id)
    else Say(s, [Content(input.id), Done])
  }

  /** A text input follows the surface, and only enters one of its own client. */
  function Follow(input: Input, surface: Option<Surface>): Input {
    if input.focus == surface then input
    else if surface.Some? && surface.value.client == input.client then input.(focus := surface)
    else input.(focus := None)
  }

  function FollowAll(inputs: seq<Input>, surface: Option<Surface>): (r: seq<Input>)
    ensures |r| == |inputs| && forall i :: 0 <= i < |r| ==> r[i] == Follow(inputs[i], surface)
  {
    seq(|inputs|, i requires 0 <= i < |inputs| => Follow(inputs[i], surface))
  }

  /** The surface the text inputs follow: none without an input method. */
  function Target(s: State, focus: Option<Surface>): Option<Surface> {
    if s.connected then focus else None
  }

  predicate LosesServed(s: State, surface: Option<Surface>) {
    s.served.Some? && Known(s.inputs, s.served.value) &&
    (Lookup(s.inputs, s.served.value).focus.None? || Lookup(s.inputs, s.served.value).focus != surface)
  }

  function Sync(s: State, focus: Option<Surface>): State {
    var surface := Target(s, focus);
    var s' := if LosesServed(s, surface) then Quiet(s) else s;
    s'.(inputs := FollowAll(s'.inputs, surface))
  }

  function Changed(s: State, id: nat, input: Input): State
    requires Known(s.inputs, id)
  {
    s.(inputs := s.inputs[IndexOf(s.inputs, id) := input])
  }

  /** What an event does. One about a text input that does not exist does nothing. */
  function Handle(s: State, e: Event): State {
    match e
    case NewMethod => if s.connected then s else Sync(Say(s.(connected := true), [Connect]), s.focus)
    case MethodGone =>
      if !s.connected then s else Sync(Say(s.(connected := false, served := None), [Disconnect]), None)
    case NewInput(client) =>
      Sync(s.(inputs := [Input(s.nextId, client, None, false)] + s.inputs, nextId := s.nextId + 1), s.focus)
    case Enable(id) =>
      if !Known(s.inputs, id) then s else
        var input := Lookup(s.inputs, id).(enabled := true);
        Update(Changed(s, id, input), input)
    case Commit(id) => if !Known(s.inputs, id) then s else Update(s, Lookup(s.inputs, id))
    case Disable(id) =>
      if !Known(s.inputs, id) then s else
        var s' := Changed(s, id, Lookup(s.inputs, id).(enabled := false));
        if s.served == Some(id) then Quiet(s') else s'
    case Destroy(id) =>
      if !Known(s.inputs, id) then s else
        var s' := if s.served == Some(id) then Quiet(s) else s;
        s'.(inputs := RemoveAt(s.inputs, IndexOf(s.inputs, id)))
    case FocusChange(surface) => Sync(s.(focus := surface), surface)
    case SurfaceGone(id) =>
      if !Known(s.inputs, id) then s else Changed(s, id, Lookup(s.inputs, id).(focus := None))
  }

  function Run(s: State, es: seq<Event>): State
    decreases |es|
  {
    if es == [] then s else Run(Handle(s, es[0]), es[1..])
  }

  /* ---- the protocol the input method sees ---- */

  /** Where a conversation with the input method stands. */
  datatype Phase = Absent | Idle | Activated | Described | Serving | Closing | Broken

  function Next(p: Phase, m: Message): Phase {
    match (p, m)
    case (Absent, Connect) => Idle
    case (Idle, Activate) => Activated
    case (Activated, Content(_)) => Described
    case (Described, Done) => Serving
    case (Serving, Content(_)) => Described
    case (Serving, Deactivate) => Closing
    case (Closing, Done) => Idle
    case (Idle, Disconnect) => Absent
    case (Serving, Disconnect) => Absent
    case (_, _) => Broken
  }

  function Replay(p: Phase, log: seq<Message>): Phase {
    if log == [] then p else Next(Replay(p, log[..|log| - 1]), log[|log| - 1])
  }

  /** The phase a state is in after a complete event. */
  function PhaseOf(s: State): Phase {
    if !s.connected then Absent else if s.served.None? then Idle else Serving
  }

  /* ---- the invariant ---- */

  /** Ids are distinct and already given out, so a new text input is never mistaken for another. */
  predicate Distinct(inputs: seq<Input>, nextId: nat) {
    && (forall i :: 0 <= i < |inputs| ==> inputs[i].id < nextId)
    && (forall i, j :: 0 <= i < j < |inputs| ==> inputs[i].id != inputs[j].id)
  }

  /** A text input has entered nothing, or the surface in focus when that is its own client's. */
  predicate Placed(input: Input, surface: Option<Surface>) {
    input.focus.Some? ==> input.focus == surface && input.focus.value.client == input.client
  }

  predicate AllPlaced(inputs: seq<Input>, surface: Option<Surface>) {
    forall i :: 0 <= i < |inputs| ==> Placed(inputs[i], surface)
  }

  /** The served text input exists and is enabled, and an input method is there to serve it. */
  predicate ServedIsLive(s: State) {
    s.served.Some? ==>
      s.connected && Known(s.inputs, s.served.value) && Lookup(s.inputs, s.served.value).enabled
  }

  predicate Sound(s: State) {
    && Distinct(s.inputs, s.nextId)
    && AllPlaced(s.inputs, Target(s, s.focus))
    && ServedIsLive(s)
    && Replay(Absent, s.log) == PhaseOf(s)
  }

  lemma ReplayThree(log: seq<Message>, a: Message, b: Message, c: Message)
    ensures Replay(Absent, log + [a, b, c]) == Next(Next(Next(Replay(Absent, log), a), b), c)
  {
    ReplayTwo(log, a, b);
    assert (log + [a, b, c])[..|log| + 2] == log + [a, b];
  }

  lemma ReplayTwo(log: seq<Message>, a: Message, b: Message)
    ensures Replay(Absent, log + [a, b]) == Next(Next(Replay(Absent, log), a), b)
  {
    assert (log + [a, b])[..|log| + 1] == log + [a];
    ReplayOne(log, a);
  }

  lemma ReplayOne(log: seq<Message>, a: Message)
    ensures Replay(Absent, log + [a]) == Next(Replay(Absent, log), a)
  {
    assert (log + [a])[..|log|] == log;
  }

  lemma SameIds(a: seq<Input>, b: seq<Input>, id: nat)
    requires |a| == |b| && forall i :: 0 <= i < |a| ==> a[i].id == b[i].id
    ensures IndexOf(a, id) == IndexOf(b, id)
  {
    hide IndexOf;
    var i, j := IndexOf(a, id), IndexOf(b, id);
    assert i < |a| ==> b[i].id == id;
    assert j < |b| ==> a[j].id == id;
  }

  /* ---- what each part keeps ---- */

  predicate LogFits(s: State) { Replay(Absent, s.log) == PhaseOf(s) }

  lemma QuietFits(s: State)
    requires LogFits(s)
    ensures LogFits(Quiet(s)) && Quiet(s).served.None?
  {
    hide Replay;
    ReplayTwo(s.log, Deactivate, Done);
    assert s.log + [] == s.log;
  }

  lemma UpdateFits(s: State, input: Input)
    requires LogFits(s)
    ensures LogFits(Update(s, input))
  {
    hide Replay;
    hide Quiet;
    if s.connected {
      assert Quiet(s).connected by { QuietKeeps(s); }
      QuietFits(s);
      ReplayThree(Quiet(s).log, Activate, Content(input.id), Done);
      ReplayTwo(s.log, Content(input.id), Done);
    }
  }

  lemma QuietKeeps(s: State)
    ensures Quiet(s) == s.(served := None, log := Quiet(s).log)
  {
  }

  lemma UpdateKeeps(s: State, input: Input)
    ensures Update(s, input) == s.(served := Update(s, input).served, log := Update(s, input).log)
    ensures Update(s, input).served != s.served ==>
      s.connected && input.enabled && Update(s, input).served == Some(input.id)
  {
    hide Replay;
    QuietKeeps(s);
    hide Quiet;
  }

  /** Every text input that has entered a surface has entered one of its own client's. */
  predicate OwnSurfaces(inputs: seq<Input>) {
    forall i :: 0 <= i < |inputs| ==> (inputs[i].focus.Some? ==> inputs[i].focus.value.client == inputs[i].client)
  }

  lemma SyncSound(s: State, focus: Option<Surface>)
    requires Distinct(s.inputs, s.nextId) && OwnSurfaces(s.inputs) && ServedIsLive(s) && LogFits(s)
    requires Target(s, focus) == Target(s, s.focus)
    ensures Sound(Sync(s, focus))
  {
    hide Replay;
    hide IndexOf;
    QuietFits(s);
    QuietKeeps(s);
    hide Quiet;
    var r := Sync(s, focus);
    forall id: nat
      ensures IndexOf(r.inputs, id) == IndexOf(s.inputs, id)
    {
      SameIds(s.inputs, r.inputs, id);
    }
  }

  /** A text input's focus or its enabling changes in place. */
  lemma ChangedSound(s: State, id: nat, input: Input)
    requires Sound(s) && Known(s.inputs, id) && input.id == id
    requires Placed(input, Target(s, s.focus)) && (s.served == Some(id) ==> input.enabled)
    ensures Sound(Changed(s, id, input)) && Known(Changed(s, id, input).inputs, id)
    ensures Lookup(Changed(s, id, input).inputs, id) == input
  {
    hide Replay;
    hide IndexOf;
    var r := Changed(s, id, input);
    forall other: nat
      ensures IndexOf(r.inputs, other) == IndexOf(s.inputs, other)
    {
      SameIds(s.inputs, r.inputs, other);
    }
  }

  lemma UpdateSound(s: State, id: nat)
    requires Sound(s) && Known(s.inputs, id)
    ensures Sound(Update(s, Lookup(s.inputs, id)))
  {
    var input := Lookup(s.inputs, id);
    UpdateFits(s, input);
    UpdateKeeps(s, input);
    hide Replay;
    hide Update;
  }

  lemma AddedSound(s: State, client: nat)
    requires Sound(s)
    ensures Sound(Handle(s, NewInput(client)))
  {
    hide Replay;
    hide Sync;
    var added := Input(s.nextId, client, None, false);
    var s' := s.(inputs := [added] + s.inputs, nextId := s.nextId + 1);
    assert s'.inputs[1..] == s.inputs;
    assert ServedIsLive(s') by {
      if s.served.Some? {
        var k := IndexOf(s.inputs, s.served.value);
        assert s.inputs[k] == s'.inputs[k + 1];
        AddedIndex(added, s.inputs, s.served.value);
      }
    }
    hide IndexOf;
    SyncSound(s', s.focus);
  }

  lemma AddedIndex(added: Input, inputs: seq<Input>, id: nat)
    requires added.id != id
    ensures IndexOf([added] + inputs, id) == IndexOf(inputs, id) + 1
  {
    assert ([added] + inputs)[1..] == inputs;
  }

  lemma RemovedIndex(inputs: seq<Input>, nextId: nat, id: nat, other: nat)
    requires Distinct(inputs, nextId) && Known(inputs, id) && Known(inputs, other) && id != other
    ensures var r := RemoveAt(inputs, IndexOf(inputs, id)); Known(r, other) && Lookup(r, other) == Lookup(inputs, other)
  {
    hide IndexOf;
    var i, k := IndexOf(inputs, id), IndexOf(inputs, other);
    var r := RemoveAt(inputs, i);
    var at := if k < i then k else k - 1;
    assert r[at] == inputs[k];
    hide RemoveAt;
    var found := IndexOf(r, other);
    assert found <= at;
    assert r[found].id == other;
    assert r[found] == inputs[if found < i then found else found + 1];
  }

  lemma RemovedStaysDistinct(inputs: seq<Input>, nextId: nat, surface: Option<Surface>, i: nat)
    requires Distinct(inputs, nextId) && AllPlaced(inputs, surface) && i < |inputs|
    ensures Distinct(RemoveAt(inputs, i), nextId) && AllPlaced(RemoveAt(inputs, i), surface)
  {
    var r := RemoveAt(inputs, i);
    assert forall j :: 0 <= j < |r| ==> r[j] == inputs[if j < i then j else j + 1];
    hide RemoveAt;
  }

  lemma RemovedSound(s: State, id: nat)
    requires Sound(s) && Known(s.inputs, id)
    ensures Sound(Handle(s, Destroy(id)))
  {
    QuietFits(s);
    QuietKeeps(s);
    hide Quiet;
    hide Replay;
    hide IndexOf;
    RemovedStaysDistinct(s.inputs, s.nextId, Target(s, s.focus), IndexOf(s.inputs, id));
    hide RemoveAt;
    hide Distinct;
    hide AllPlaced;
    if s.served.Some? && s.served.value != id {
      RemovedIndex(s.inputs, s.nextId, id, s.served.value);
    }
  }

  lemma DisabledSound(s: State, id: nat)
    requires Sound(s) && Known(s.inputs, id)
    ensures Sound(Handle(s, Disable(id)))
  {
    hide Replay;
    var input := Lookup(s.inputs, id).(enabled := false);
    if s.served == Some(id) {
      var mid := Quiet(s);
      QuietFits(s);
      QuietKeeps(s);
      ChangedSound(mid, id, input);
      assert Quiet(Changed(s, id, input)) == Changed(mid, id, input);
    } else {
      ChangedSound(s, id, input);
    }
  }

  lemma MethodComesSound(s: State)
    requires Sound(s) && !s.connected
    ensures Sound(Handle(s, NewMethod))
  {
    hide Sync;
    hide Replay;
    ReplayOne(s.log, Connect);
    SyncSound(Say(s.(connected := true), [Connect]), s.focus);
  }

  lemma MethodGoesSound(s: State)
    requires Sound(s) && s.connected
    ensures Sound(Handle(s, MethodGone))
  {
    hide Sync;
    hide Replay;
    ReplayOne(s.log, Disconnect);
    SyncSound(Say(s.(connected := false, served := None), [Disconnect]), None);
  }

  lemma HandleSound(s: State, e: Event)
    requires Sound(s)
    ensures Sound(Handle(s, e))
  {
    hide Replay;
    match e
    case NewMethod => if !s.connected { MethodComesSound(s); }
    case MethodGone => if s.connected { MethodGoesSound(s); }
    case NewInput(client) => AddedSound(s, client);
    case Enable(id) =>
      if Known(s.inputs, id) {
        var input := Lookup(s.inputs, id).(enabled := true);
        ChangedSound(s, id, input);
        UpdateSound(Changed(s, id, input), id);
      }
    case Commit(id) => if Known(s.inputs, id) { UpdateSound(s, id); }
    case Disable(id) => if Known(s.inputs, id) { DisabledSound(s, id); }
    case Destroy(id) => if Known(s.inputs, id) { RemovedSound(s, id); }
    case FocusChange(surface) =>
      hide Sync;
      SyncSound(s.(focus := surface), surface);
    case SurfaceGone(id) =>
      if Known(s.inputs, id) { ChangedSound(s, id, Lookup(s.inputs, id).(focus := None)); }
  }

  /**
   * On every run, whatever connects, goes or changes focus in whatever order:
   * activate and deactivate alternate and each is completed by a done,
   * nothing is said to an input method that is not there, and a served text
   * input exists, is enabled, and has an input method.
   */
  lemma EveryRunSound(focus: Option<Surface>, es: seq<Event>)
    ensures Sound(Run(Initial(focus), es))
    ensures var s := Run(Initial(focus), es); Replay(Absent, s.log) == PhaseOf(s) && (s.served.Some? ==> s.connected)
  {
    RunSound(Initial(focus), es);
  }

  lemma {:induction false} RunSound(s: State, es: seq<Event>)
    requires Sound(s)
    ensures Sound(Run(s, es))
    decreases |es|
  {
    hide Handle;
    hide Sound;
    if es != [] {
      HandleSound(s, es[0]);
      RunSound(Handle(s, es[0]), es[1..]);
    }
  }

  /** A log that ends in a whole phase never had a step out of turn: every prefix was in turn too. */
  lemma {:induction false} NeverOutOfTurn(log: seq<Message>, k: nat)
    requires k <= |log| && Replay(Absent, log) != Broken
    ensures Replay(Absent, log[..k]) != Broken
    decreases |log| - k
  {
    if k == |log| {
      assert log[..k] == log;
    } else {
      NeverOutOfTurn(log, k + 1);
      assert log[..k + 1][..k] == log[..k];
    }
  }

  /** Between an activate and the next one there is a deactivate, or the input method has gone. */
  lemma ActivationsAlternate(log: seq<Message>, i: nat, j: nat)
    requires i < j < |log| && log[i] == Activate && log[j] == Activate && Replay(Absent, log) != Broken
    ensures exists k :: i < k < j && (log[k] == Deactivate || log[k] == Disconnect)
  {
    if forall k :: i < k < j ==> log[k] != Deactivate && log[k] != Disconnect {
      NeverOutOfTurn(log, i + 1);
      StaysActive(log, i, j);
      NeverOutOfTurn(log, j + 1);
      assert log[..j + 1][..j] == log[..j];
    }
  }

  predicate Active(p: Phase) { p == Activated || p == Described || p == Serving }

  lemma {:induction false} StaysActive(log: seq<Message>, i: nat, j: nat)
    requires i < j <= |log| && log[i] == Activate && Replay(Absent, log) != Broken
    requires forall k :: i < k < j ==> log[k] != Deactivate && log[k] != Disconnect
    ensures Active(Replay(Absent, log[..j]))
    decreases j
  {
    NeverOutOfTurn(log, j);
    assert log[..j][..j - 1] == log[..j - 1];
    if i + 1 < j {
      StaysActive(log, i, j - 1);
    }
  }

  /**
   * After a change of focus every text input has entered the new surface if
   * it is its own client's and an input method is there, and nothing
   * otherwise; and the one still served is on that surface.
   */
  lemma FocusChangeMovesAll(s: State, surface: Option<Surface>, i: nat)
    requires Sound(s) && i < |s.inputs|
    ensures var r := Handle(s, FocusChange(surface));
      && |r.inputs| == |s.inputs|
      && r.inputs[i].focus == (if s.connected && surface.Some? && surface.value.client == s.inputs[i].client
                               then surface else None)
      && (r.served == Some(s.inputs[i].id) ==> surface.Some? && r.inputs[i].focus == surface)
  {
    hide Replay;
    QuietKeeps(s.(focus := surface));
    hide Quiet;
    hide IndexOf;
    IndexOfIs(s.inputs, s.nextId, i);
  }

  lemma IndexOfIs(inputs: seq<Input>, nextId: nat, i: nat)
    requires Distinct(inputs, nextId) && i < |inputs|
    ensures IndexOf(inputs, inputs[i].id) == i
  {
    hide IndexOf;
  }
}
