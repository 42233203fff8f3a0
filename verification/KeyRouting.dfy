/**
 * Which keys of a keyboard are taken for the input method and which are left
 * to the client in focus. A key that is taken is sent to the grab that is
 * there now: a release may find another one than its press did, or none, and
 * is then sent to that one, or to nobody.
 */
module KeyRouting {

  const KEY_COUNT: nat := 0x300

  const NO_GRAB: nat := 0

  /** A key event as it reaches the routing; grab is the keyboard grab there is then, each with a number of its own. */
  datatype Key = Key(code: nat, pressed: bool, grab: nat)

  /** Whether the input method takes the key, when it holds the presses of these. */
  predicate Takes(held: set<nat>, e: Key) {
    e.code < KEY_COUNT && (if e.pressed then e.grab != NO_GRAB else e.code in held)
  }

  function Held(held: set<nat>, e: Key): set<nat> {
    if !Takes(held, e) then held else if e.pressed then held + {e.code} else held - {e.code}
  }

  /** The events that are taken, or those that are left to the client. */
  function Share(held: set<nat>, es: seq<Key>, taken: bool): seq<Key>
    decreases |es|
  {
    if es == [] then []
    else (if Takes(held, es[0]) == taken then [es[0]] else []) + Share(Held(held, es[0]), es[1..], taken)
  }

  /** The events of a key press and release it in turn, starting from down. */
  predicate InTurn(es: seq<Key>, code: nat, down: bool) {
    es == [] ||
    if es[0].code != code then InTurn(es[1..], code, down)
    else es[0].pressed == !down && InTurn(es[1..], code, es[0].pressed)
  }

  /**
   * The key is not pressed while it is down. A release may come without its
   * press, as when the press was a binding's and did not get here.
   */
  predicate NoRepeat(es: seq<Key>, code: nat, down: bool) {
    es == [] ||
    if es[0].code != code then NoRepeat(es[1..], code, down)
    else (es[0].pressed ==> !down) && NoRepeat(es[1..], code, es[0].pressed)
  }

  lemma NoRepeatOf(e: Key, es: seq<Key>, code: nat, down: bool)
    ensures NoRepeat([e] + es, code, down) ==
      (if e.code != code then NoRepeat(es, code, down) else (e.pressed ==> !down) && NoRepeat(es, code, e.pressed))
  {
    assert ([e] + es)[1..] == es;
  }

  /** Presses and releases in turn are more than that. */
  lemma {:induction false} InTurnNoRepeat(es: seq<Key>, code: nat, down: bool)
    requires InTurn(es, code, down)
    ensures NoRepeat(es, code, down)
  {
    if es != [] {
      InTurnNoRepeat(es[1..], code, if es[0].code == code then es[0].pressed else down);
    }
  }

  lemma InTurnOf(e: Key, es: seq<Key>, code: nat, down: bool)
    ensures InTurn([e] + es, code, down) ==
      (if e.code != code then InTurn(es, code, down) else e.pressed == !down && InTurn(es, code, e.pressed))
  {
    assert ([e] + es)[1..] == es;
  }

  /** Whether a key is down after these events, when down says if it was before. */
  predicate DownAfter(es: seq<Key>, code: nat, down: bool) {
    if es == [] then down else DownAfter(es[1..], code, if es[0].code == code then es[0].pressed else down)
  }

  lemma DownAfterOf(e: Key, es: seq<Key>, code: nat, down: bool)
    ensures DownAfter([e] + es, code, down) == DownAfter(es, code, if e.code == code then e.pressed else down)
  {
    assert ([e] + es)[1..] == es;
  }

  /** The key goes up and down in turn, and ends up or down as it should. */
  predicate Keeps(es: seq<Key>, code: nat, down: bool, end: bool) {
    InTurn(es, code, down) && DownAfter(es, code, down) == end
  }

  function HeldAfter(held: set<nat>, es: seq<Key>): set<nat>
    decreases |es|
  {
    if es == [] then held else HeldAfter(Held(held, es[0]), es[1..])
  }

  /**
   * However grabs come and go, as long as a key is not pressed while it is
   * down: the events of it that are taken are in turn, the client never gets a
   * press while it has the key down, and at the end the key is down for the
   * client exactly if it is down and not taken. With presses and releases in
   * turn the client sees it in turn.
   */
  lemma {:induction false} TakenAndLeftInTurn(held: set<nat>, es: seq<Key>, code: nat, down: bool)
    requires forall c :: c in held ==> c < KEY_COUNT
    requires NoRepeat(es, code, down) && (code in held ==> down)
    ensures code in HeldAfter(held, es) ==> DownAfter(es, code, down)
    ensures Keeps(Share(held, es, true), code, code in held, code in HeldAfter(held, es))
    ensures NoRepeat(Share(held, es, false), code, down && code !in held)
    ensures DownAfter(Share(held, es, false), code, down && code !in held) ==
            (DownAfter(es, code, down) && code !in HeldAfter(held, es))
    ensures InTurn(es, code, down) ==> InTurn(Share(held, es, false), code, down && code !in held)
    decreases |es|
  {
    if es != [] {
      var e := es[0];
      TakenAndLeftInTurn(Held(held, e), es[1..], code, if e.code == code then e.pressed else down);
      ShareOf(held, es, code, true, code in held);
      ShareOf(held, es, code, false, down && code !in held);
    }
  }

  /** The first event of a share, if it is there, and the rest. */
  lemma ShareOf(held: set<nat>, es: seq<Key>, code: nat, taken: bool, down: bool)
    requires es != []
    ensures var e := es[0]; var rest := Share(Held(held, e), es[1..], taken); var all := Share(held, es, taken);
      if Takes(held, e) != taken then all == rest
      else
        var down' := if e.code == code then e.pressed else down;
        && InTurn(all, code, down) == ((e.code == code ==> e.pressed == !down) && InTurn(rest, code, down'))
        && NoRepeat(all, code, down) == ((e.code == code && e.pressed ==> !down) && NoRepeat(rest, code, down'))
        && DownAfter(all, code, down) == DownAfter(rest, code, down')
  {
    var rest := Share(Held(held, es[0]), es[1..], taken);
    InTurnOf(es[0], rest, code, down);
    NoRepeatOf(es[0], rest, code, down);
    DownAfterOf(es[0], rest, code, down);
    assert [] + rest == rest;
  }

  /* ---- what the input method is sent ---- */

  /** Of the keys that were taken, those that found a grab. */
  function SentOf(es: seq<Key>): seq<Key> {
    if es == [] then [] else (if es[0].grab != NO_GRAB then [es[0]] else []) + SentOf(es[1..])
  }

  /** What is sent of a run, to whatever grabs. */
  function Sent(held: set<nat>, es: seq<Key>): seq<Key> { SentOf(Share(held, es, true)) }

  /** Of the keys that were sent, those that went to this grab. */
  function OfGrab(es: seq<Key>, g: nat): seq<Key> {
    if es == [] then [] else (if es[0].grab == g then [es[0]] else []) + OfGrab(es[1..], g)
  }

  /** What a grab is sent of a run. */
  function SentTo(held: set<nat>, es: seq<Key>, g: nat): seq<Key> { OfGrab(Sent(held, es), g) }

  lemma SentStep(held: set<nat>, es: seq<Key>)
    requires es != []
    ensures var e := es[0];
      Sent(held, es) == (if Takes(held, e) && e.grab != NO_GRAB then [e] else []) + Sent(Held(held, e), es[1..])
  {
    var rest := Share(Held(held, es[0]), es[1..], true);
    assert ([es[0]] + rest)[1..] == rest;
    assert [] + rest == rest && [] + SentOf(rest) == SentOf(rest);
  }

  lemma SentToStep(held: set<nat>, es: seq<Key>, g: nat)
    requires es != [] && g != NO_GRAB
    ensures var e := es[0];
      SentTo(held, es, g) == (if Takes(held, e) && e.grab == g then [e] else []) + SentTo(Held(held, e), es[1..], g)
  {
    SentStep(held, es);
    var rest := Sent(Held(held, es[0]), es[1..]);
    assert ([es[0]] + rest)[1..] == rest;
    assert [] + rest == rest && [] + OfGrab(rest, g) == OfGrab(rest, g);
  }

  /** The same for what a grab sees of one key. */
  lemma SentToKeeps(held: set<nat>, es: seq<Key>, g: nat, code: nat, down: bool, end: bool)
    requires es != [] && g != NO_GRAB
    ensures var e := es[0]; var rest := SentTo(Held(held, e), es[1..], g); var all := SentTo(held, es, g);
      if !(Takes(held, e) && e.grab == g) then all == rest
      else if e.code != code then Keeps(all, code, down, end) == Keeps(rest, code, down, end)
      else Keeps(all, code, down, end) == (e.pressed == !down && Keeps(rest, code, e.pressed, end))
  {
    SentToStep(held, es, g);
    var rest := SentTo(Held(held, es[0]), es[1..], g);
    InTurnOf(es[0], rest, code, down);
    DownAfterOf(es[0], rest, code, down);
    assert [] + rest == rest;
  }

  /** The grab a key's last press found, while the key is down; owner says which before. */
  function Owner(es: seq<Key>, code: nat, owner: nat): nat {
    if es == [] then owner
    else Owner(es[1..], code, if es[0].code != code then owner else if es[0].pressed then es[0].grab else NO_GRAB)
  }

  /** Whenever a press found a grab, its release finds that same grab. */
  predicate SameGrab(es: seq<Key>, code: nat, owner: nat) {
    es == [] ||
    if es[0].code != code then SameGrab(es[1..], code, owner)
    else if es[0].pressed then SameGrab(es[1..], code, es[0].grab)
    else (owner != NO_GRAB ==> es[0].grab == owner) && SameGrab(es[1..], code, NO_GRAB)
  }

  lemma {:induction false} SameGrabSeesKeyInTurn(held: set<nat>, es: seq<Key>, code: nat, down: bool, owner: nat,
                                                 g: nat)
    requires code < KEY_COUNT && NoRepeat(es, code, down) && (code in held ==> down) && g != NO_GRAB
    requires code in held <==> owner != NO_GRAB
    requires SameGrab(es, code, owner)
    ensures Keeps(SentTo(held, es, g), code, owner == g, Owner(es, code, owner) == g)
    decreases |es|
  {
    if es != [] {
      var e := es[0];
      SentToKeeps(held, es, g, code, owner == g, Owner(es, code, owner) == g);
      if e.code != code {
        SameGrabSeesKeyInTurn(Held(held, e), es[1..], code, down, owner, g);
      } else {
        SameGrabSeesKeyInTurn(Held(held, e), es[1..], code, e.pressed, if e.pressed then e.grab else NO_GRAB, g);
      }
    }
  }

  /**
   * Once some grab, like lost, believes a key down that is not held for it,
   * there is one to the end of the run that has seen the key out of turn or
   * has it down without owning it.
   */
  lemma {:induction false} LostReleaseShows(held: set<nat>, es: seq<Key>, code: nat, down: bool, owner: nat,
                                            believers: set<nat>, lost: nat)
    returns (g: nat)
    requires code < KEY_COUNT && NoRepeat(es, code, down) && (code in held ==> down)
    requires code in held <==> owner != NO_GRAB
    requires NO_GRAB !in believers && (owner != NO_GRAB ==> owner in believers)
    requires lost in believers && lost != owner
    ensures g != NO_GRAB && !Keeps(SentTo(held, es, g), code, g in believers, Owner(es, code, owner) == g)
    decreases |es|
  {
    if es == [] {
      g := lost;
    } else {
      var e := es[0];
      var held' := Held(held, e);
      if e.code != code {
        g := LostReleaseShows(held', es[1..], code, down, owner, believers, lost);
      } else if !Takes(held, e) {
        g := LostReleaseShows(held', es[1..], code, e.pressed, NO_GRAB, believers, lost);
      } else if e.grab == NO_GRAB {
        g := LostReleaseShows(held', es[1..], code, false, NO_GRAB, believers, lost);
      } else if e.pressed == (e.grab in believers) {
        g := e.grab;
      } else if e.pressed {
        g := LostReleaseShows(held', es[1..], code, true, e.grab, believers + {e.grab}, lost);
      } else {
        var stillLost := if e.grab == lost then owner else lost;
        g := LostReleaseShows(held', es[1..], code, false, NO_GRAB, believers - {e.grab}, stillLost);
      }
      SentToKeeps(held, es, g, code, g in believers, Owner(es, code, owner) == g);
    }
  }

  /** The first release that does not find the grab of its press leaves some grab with the key wrong. */
  lemma {:induction false} OtherGrabShows(held: set<nat>, es: seq<Key>, code: nat, down: bool, owner: nat)
    returns (g: nat)
    requires code < KEY_COUNT && NoRepeat(es, code, down) && (code in held ==> down)
    requires code in held <==> owner != NO_GRAB
    requires !SameGrab(es, code, owner)
    ensures g != NO_GRAB && !Keeps(SentTo(held, es, g), code, owner == g, Owner(es, code, owner) == g)
    decreases |es|
  {
    var e := es[0];
    var held' := Held(held, e);
    if e.code != code {
      g := OtherGrabShows(held', es[1..], code, down, owner);
    } else if e.pressed {
      g := OtherGrabShows(held', es[1..], code, true, e.grab);
    } else if owner == NO_GRAB || e.grab == owner {
      g := OtherGrabShows(held', es[1..], code, false, NO_GRAB);
    } else if e.grab != NO_GRAB {
      g := e.grab;
    } else {
      g := LostReleaseShows(held', es[1..], code, false, NO_GRAB, {owner}, owner);
    }
    SentToKeeps(held, es, g, code, owner == g, Owner(es, code, owner) == g);
  }

  /**
   * Every grab sees a key in turn, and has it down at the end exactly if it is
   * held for that grab, exactly when each press that found a grab has its
   * release find the same one.
   */
  lemma GrabsSeeKeyInTurn(held: set<nat>, es: seq<Key>, code: nat, down: bool, owner: nat)
    requires code < KEY_COUNT && NoRepeat(es, code, down) && (code in held ==> down)
    requires code in held <==> owner != NO_GRAB
    ensures (forall g: nat :: g != NO_GRAB ==>
               Keeps(SentTo(held, es, g), code, owner == g, Owner(es, code, owner) == g)) <==>
            SameGrab(es, code, owner)
  {
    if SameGrab(es, code, owner) {
      forall g: nat | g != NO_GRAB
        ensures Keeps(SentTo(held, es, g), code, owner == g, Owner(es, code, owner) == g)
      {
        SameGrabSeesKeyInTurn(held, es, code, down, owner, g);
      }
    } else {
      var g := OtherGrabShows(held, es, code, down, owner);
    }
  }

  lemma {:induction false} OwnedIsDown(es: seq<Key>, code: nat, down: bool, owner: nat)
    requires owner != NO_GRAB ==> down
    ensures Owner(es, code, owner) != NO_GRAB ==> DownAfter(es, code, down)
  {
    if es != [] {
      var e := es[0];
      OwnedIsDown(es[1..], code, if e.code == code then e.pressed else down,
                  if e.code != code then owner else if e.pressed then e.grab else NO_GRAB);
    }
  }

  /**
   * For a run from the start at whose end a key is up: it is up for the client
   * too, which has seen it in turn if it came in turn. Every grab has seen it
   * in turn and up at the end exactly when each press that found a grab has
   * its release find the same one.
   */
  lemma NoKeyStaysDown(es: seq<Key>, code: nat)
    requires code < KEY_COUNT && NoRepeat(es, code, false) && !DownAfter(es, code, false)
    ensures !DownAfter(Share({}, es, false), code, false)
    ensures InTurn(es, code, false) ==> InTurn(Share({}, es, false), code, false)
    ensures (forall g: nat :: g != NO_GRAB ==> Keeps(SentTo({}, es, g), code, false, false)) <==>
            SameGrab(es, code, NO_GRAB)
  {
    TakenAndLeftInTurn({}, es, code, false);
    OwnedIsDown(es, code, false, NO_GRAB);
    hide Keeps;
    GrabsSeeKeyInTurn({}, es, code, false, NO_GRAB);
  }

  /**
   * A lock screen, say, that takes the grab away while a key is held leaves it
   * down for the input method, which is next sent a second press.
   */
  lemma GrabLostLeavesKeyDown()
    ensures var es := [Key(30, true, 1), Key(30, false, NO_GRAB)]; var more := es + [Key(30, true, 1)];
      && InTurn(es, 30, false) && !DownAfter(es, 30, false)
      && SentTo({}, es, 1) == [Key(30, true, 1)] && DownAfter(SentTo({}, es, 1), 30, false)
      && InTurn(more, 30, false)
      && SentTo({}, more, 1) == [Key(30, true, 1), Key(30, true, 1)] && !InTurn(SentTo({}, more, 1), 30, false)
  {
    var press, release := Key(30, true, 1), Key(30, false, NO_GRAB);
    var es := [press] + [release];
    var more := [press] + ([release] + [press]);
    assert es == [press, release] && more == es + [press];
    InTurnOf(press, [release], 30, false);
    InTurnOf(press, [release] + [press], 30, false);
    InTurnOf(release, [press], 30, true);
    InTurnOf(press, [press], 30, false);
    DownAfterOf(press, [release], 30, false);
    assert es[1..] == [release] && more[1..] == [release] + [press] && ([release] + [press])[1..] == [press];
    SentToStep({}, es, 1);
    SentToStep({30}, [release], 1);
    SentToStep({}, more, 1);
    SentToStep({30}, [release] + [press], 1);
    SentToStep({}, [press], 1);
    assert {30} - {30} == {} && {} + {30} == {30};
  }

  /**
   * The input method goes while a key is held and another one grabs the
   * keyboard: it is sent the release of a press it never had, and the first
   * one none.
   */
  lemma OtherGrabGetsRelease()
    ensures var es := [Key(30, true, 1), Key(30, false, 2)];
      && InTurn(es, 30, false) && !DownAfter(es, 30, false) && !SameGrab(es, 30, NO_GRAB)
      && SentTo({}, es, 1) == [Key(30, true, 1)] && DownAfter(SentTo({}, es, 1), 30, false)
      && SentTo({}, es, 2) == [Key(30, false, 2)] && !InTurn(SentTo({}, es, 2), 30, false)
  {
    var press, release := Key(30, true, 1), Key(30, false, 2);
    assert [press, release][1..] == [release];
    SentToStep({}, [press, release], 1);
    SentToStep({}, [press, release], 2);
    SentToStep({30}, [release], 1);
    SentToStep({30}, [release], 2);
    assert {} + {30} == {30};
  }

  lemma {:induction false} HeldAfterMore(held: set<nat>, es: seq<Key>, e: Key)
    ensures HeldAfter(held, es + [e]) == Held(HeldAfter(held, es), e)
    decreases |es|
  {
    if es == [] {
      assert es + [e] == [e];
      assert [e][1..] == [];
    } else {
      assert (es + [e])[1..] == es[1..] + [e];
      HeldAfterMore(Held(held, es[0]), es[1..], e);
    }
  }

  /** Events of other keys leave a key where it is. */
  lemma {:induction false} OthersLeaveIt(held: set<nat>, es: seq<Key>, code: nat)
    requires forall i :: 0 <= i < |es| ==> es[i].code != code
    ensures code in HeldAfter(held, es) <==> code in held
    decreases |es|
  {
    if es != [] {
      OthersLeaveIt(Held(held, es[0]), es[1..], code);
    }
  }

  /**
   * Whatever other keys and whatever grabs came between, a release is taken,
   * or left to the client, as its press was exactly unless the key was held
   * for the input method already and the press, finding no grab, was left to
   * the client. That takes a key pressed while it is down.
   */
  lemma ReleaseFollowsPress(held: set<nat>, press: Key, between: seq<Key>, release: Key)
    requires press.pressed && !release.pressed && press.code == release.code < KEY_COUNT
    requires forall i :: 0 <= i < |between| ==> between[i].code != press.code
    ensures Takes(HeldAfter(Held(held, press), between), release) == Takes(held, press) <==>
            press.code !in held || press.grab != NO_GRAB
    ensures press.code !in Held(HeldAfter(Held(held, press), between), release)
  {
    OthersLeaveIt(Held(held, press), between, press.code);
  }

  lemma {:induction false} HeldAfterBoth(held: set<nat>, a: seq<Key>, b: seq<Key>)
    ensures HeldAfter(held, a + b) == HeldAfter(HeldAfter(held, a), b)
    decreases |a|
  {
    if a == [] {
      assert a + b == b;
    } else {
      assert (a + b)[1..] == a[1..] + b;
      HeldAfterBoth(Held(held, a[0]), a[1..], b);
    }
  }

  /** A key about to be pressed is not held, if it is not pressed while it is down. */
  lemma {:induction false} NotHeldAtPress(held: set<nat>, es: seq<Key>, code: nat, down: bool, i: nat)
    requires forall c :: c in held ==> c < KEY_COUNT
    requires NoRepeat(es, code, down) && (code in held ==> down)
    requires i < |es| && es[i].code == code && es[i].pressed
    ensures code !in HeldAfter(held, es[..i])
    decreases i
  {
    if i > 0 {
      assert es[..i][1..] == es[1..][..i - 1];
      NotHeldAtPress(Held(held, es[0]), es[1..], code, if es[0].code == code then es[0].pressed else down, i - 1);
    }
  }

  /** On every run in which no key is pressed while it is down, each release is taken, or left, as its press was. */
  lemma EveryReleaseFollowsItsPress(es: seq<Key>, i: nat, j: nat)
    requires i < j < |es| && es[i].code == es[j].code && es[i].pressed && !es[j].pressed
    requires forall k :: i < k < j ==> es[k].code != es[i].code
    requires NoRepeat(es, es[i].code, false)
    ensures Takes(HeldAfter({}, es[..i]), es[i]) == Takes(HeldAfter({}, es[..j]), es[j])
  {
    var held := HeldAfter({}, es[..i]);
    var between := es[i + 1..j];
    NotHeldAtPress({}, es, es[i].code, false, i);
    assert es[..j] == es[..i] + ([es[i]] + between);
    HeldAfterBoth({}, es[..i], [es[i]] + between);
    assert ([es[i]] + between)[1..] == between;
    assert HeldAfter({}, es[..j]) == HeldAfter(Held(held, es[i]), between);
    if es[i].code < KEY_COUNT {
      ReleaseFollowsPress(held, es[i], between, es[j]);
    }
  }

  /** A key pressed twice without a release can be left with its release going the other way. */
  lemma SecondPressMisroutes()
    ensures var press, again, release := Key(30, true, 1), Key(30, true, NO_GRAB), Key(30, false, NO_GRAB);
      var held := Held(Held({}, press), again);
      !Takes(Held({}, press), again) && Takes(held, release)
  {
  }

  /** A keyboard with one flag a key for the presses the input method took. */
  class KeyboardGroup {
    const imkeys: array<bool>
    ghost var sent: seq<Key>

    ghost predicate Valid()
      reads this
    {
      imkeys.Length == KEY_COUNT
    }

    ghost function TakenKeys(): set<nat>
      requires Valid()
      reads this, imkeys
    {
      set c: nat | c < KEY_COUNT && imkeys[c]
    }

    constructor ()
      ensures Valid() && TakenKeys() == {} && sent == [] && fresh(imkeys)
    {
      imkeys := new bool[KEY_COUNT](i => false);
      sent := [];
    }

    /** Routes a key, and logs it if the grab is sent it. */
    method RouteKey(e: Key) returns (taken: bool)
      requires Valid()
      modifies this, imkeys
      ensures Valid()
      ensures taken == Takes(old(TakenKeys()), e) && TakenKeys() == Held(old(TakenKeys()), e)
      ensures sent == old(sent) + if taken && e.grab != NO_GRAB then [e] else []
    {
      taken := false;
      if e.code >= KEY_COUNT { return; }
      if e.pressed {
        if e.grab == NO_GRAB { return; }
        imkeys[e.code] := true;
      } else {
        if !imkeys[e.code] { return; }
        imkeys[e.code] := false;
        if e.grab == NO_GRAB { taken := true; return; }
      }
      sent := sent + [e];
      taken := true;
    }

    /** A whole run of keys: what is left to the client is what the routing says. */
    method RouteKeys(es: seq<Key>) returns (left: seq<Key>)
      requires Valid()
      modifies this, imkeys
      ensures Valid() && TakenKeys() == HeldAfter(old(TakenKeys()), es)
      ensures left == Share(old(TakenKeys()), es, false)
      ensures sent == old(sent) + Sent(old(TakenKeys()), es)
    {
      left := [];
      ghost var start, log := TakenKeys(), sent;
      var i: nat := 0;
      assert sent == log + [];
      while i < |es|
        invariant i <= |es| && Valid()
        invariant TakenKeys() == HeldAfter(start, es[..i])
        invariant left == Share(start, es[..i], false)
        invariant sent == log + SentOf(Share(start, es[..i], true))
      {
        hide Takes;
        hide Held;
        hide Share;
        hide HeldAfter;
        assert es[..i + 1] == es[..i] + [es[i]];
        HeldAfterMore(start, es[..i], es[i]);
        ShareMore(start, es[..i], es[i], true);
        ShareMore(start, es[..i], es[i], false);
        SentOfMore(Share(start, es[..i], true), es[i]);
        assert Share(start, es[..i], true) + [] == Share(start, es[..i], true);
        ghost var before := sent;
        var taken := RouteKey(es[i]);
        assert sent == before + if taken && es[i].grab != NO_GRAB then [es[i]] else [];
        assert before + [] == before;
        if !taken { left := left + [es[i]]; }
        i := i + 1;
      }
      assert es[..|es|] == es;
    }
  }

  lemma {:induction false} SentOfMore(es: seq<Key>, e: Key)
    ensures SentOf(es + [e]) == SentOf(es) + if e.grab != NO_GRAB then [e] else []
  {
    if es == [] {
      assert es + [e] == [e];
      assert [e][1..] == [];
    } else {
      assert (es + [e])[1..] == es[1..] + [e];
      SentOfMore(es[1..], e);
    }
  }

  lemma {:induction false} ShareMore(held: set<nat>, es: seq<Key>, e: Key, taken: bool)
    ensures Share(held, es + [e], taken)
         == Share(held, es, taken) + if Takes(HeldAfter(held, es), e) == taken then [e] else []
    decreases |es|
  {
    if es == [] {
      assert es + [e] == [e];
      assert [e][1..] == [];
    } else {
      assert (es + [e])[1..] == es[1..] + [e];
      ShareMore(Held(held, es[0]), es[1..], e, taken);
    }
  }
}
