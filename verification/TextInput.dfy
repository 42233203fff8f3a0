/** The bridge as it runs: handlers that assign its fields and walk its list. */
module TextInput {
  import opened Sequences
  import opened InputMethod

  class Bridge {
    var connected: bool
    var served: Option<nat>
    var inputs: seq<Input>
    var focus: Option<Surface>
    var nextId: nat
    ghost var log: seq<Message>

    ghost function Now(): State
      reads this
    {
      State(connected, served, inputs, focus, nextId, log)
    }

    constructor (surface: Option<Surface>)
      ensures Now() == Initial(surface)
    {
      connected, served, inputs, focus, nextId, log := false, None, [], surface, 0, [];
    }

    method Deactivate()
      modifies this
      ensures Now() == Quiet(old(Now()))
    {
      if served.None? { return; }
      served := None;
      if connected {
        log := log + [Message.Deactivate, Done];
      } else {
        assert log + [] == log;
      }
    }

    method Activate(id: nat)
      modifies this
      ensures Now() == Serve(old(Now()), id)
    {
      if served.Some? { Deactivate(); }
      served := Some(id);
      log := log + [Message.Activate, Content(id), Done];
    }

    method UpdateInput(input: Input)
      modifies this
      ensures Now() == Update(old(Now()), input)
    {
      if !connected || input.focus.None? || !input.enabled { return; }
      if Some(input.id) != served {
        Activate(input.id);
      } else {
        log := log + [Content(input.id), Done];
      }
    }

    /** Everyone who has to leaves, and everyone who may enters. */
    method SyncFocus(newFocus: Option<Surface>)
      modifies this
      ensures Now() == Sync(old(Now()), newFocus)
    {
      var surface := if connected then newFocus else None;
      if served.Some? {
        var k := IndexOf(inputs, served.value);
        if k < |inputs| && (inputs[k].focus.None? || inputs[k].focus != surface) {
          Deactivate();
        }
      }
      Follow(surface);
    }

    method Follow(surface: Option<Surface>)
      modifies `inputs
      ensures inputs == FollowAll(old(inputs), surface)
    {
      var i: nat := 0;
      while i < |inputs|
        invariant i <= |inputs| == |old(inputs)|
        invariant forall j :: 0 <= j < i ==> inputs[j] == InputMethod.Follow(old(inputs)[j], surface)
        invariant forall j :: i <= j < |inputs| ==> inputs[j] == old(inputs)[j]
      {
        var input := inputs[i];
        if input.focus != surface {
          if input.focus.Some? {
            input := input.(focus := None);
          }
          if surface.Some? && surface.value.client == input.client {
            input := input.(focus := surface);
          }
          inputs := inputs[i := input];
        }
        i := i + 1;
      }
    }

    method On(e: Event)
      modifies this
      ensures Now() == Handle(old(Now()), e)
    {
      hide Update;
      hide Sync;
      hide Quiet;
      hide IndexOf;
      match e
      case NewMethod =>
        if connected { return; }
        connected := true;
        log := log + [Connect];
        SyncFocus(focus);
      case MethodGone =>
        if !connected { return; }
        connected := false;
        served := None;
        log := log + [Disconnect];
        SyncFocus(None);
      case NewInput(client) =>
        inputs := [Input(nextId, client, None, false)] + inputs;
        nextId := nextId + 1;
        SyncFocus(focus);
      case Enable(id) =>
        var k := IndexOf(inputs, id);
        if k < |inputs| {
          inputs := inputs[k := inputs[k].(enabled := true)];
          UpdateInput(inputs[k]);
        }
      case Commit(id) =>
        var k := IndexOf(inputs, id);
        if k < |inputs| { UpdateInput(inputs[k]); }
      case Disable(id) =>
        var k := IndexOf(inputs, id);
        if k < |inputs| {
          inputs := inputs[k := inputs[k].(enabled := false)];
          if Some(id) == served { Deactivate(); }
        }
      case Destroy(id) =>
        var k := IndexOf(inputs, id);
        if k < |inputs| {
          if Some(id) == served { Deactivate(); }
          QuietKeeps(old(Now()));
          inputs := RemoveAt(inputs, k);
        }
      case FocusChange(surface) =>
        focus := surface;
        SyncFocus(surface);
      case SurfaceGone(id) =>
        var k := IndexOf(inputs, id);
        if k < |inputs| { inputs := inputs[k := inputs[k].(focus := None)]; }
    }
  }

  /** A run from the start, event by event, in a state where the whole conversation has been in turn. */
  method Converse(surface: Option<Surface>, es: seq<Event>) returns (bridge: Bridge)
    ensures bridge.Now() == Run(Initial(surface), es) && Sound(bridge.Now())
  {
    bridge := new Bridge(surface);
    var i: nat := 0;
    assert es[0..] == es;
    while i < |es|
      invariant i <= |es| && fresh(bridge)
      invariant Run(bridge.Now(), es[i..]) == Run(Initial(surface), es)
    {
      hide Handle;
      assert es[i..][1..] == es[i + 1..];
      bridge.On(es[i]);
      i := i + 1;
    }
    EveryRunSound(surface, es);
  }
}
