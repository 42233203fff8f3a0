/** The loop that draws and measures a text, one decoded piece after another. */
module TextDrawing {
  import opened Sequences
  import opened Utf8
  import opened Utf8Decoder

  const UINT_RANGE: nat := 0x1_0000_0000

  /** A font: the advance of a codepoint's glyph, if it has one, and the kerning of two codepoints. */
  datatype Font = Font(glyph: nat -> Option<int>, kerning: (nat, nat) -> int)

  function Glyph(font: Font, cp: nat): Option<int> { (font.glyph)(cp) }

  /** The width left of w, an unsigned int. */
  function Narrowed(w: nat, advance: int): nat { (w - advance) % UINT_RANGE }

  function Kerning(font: Font, last: nat, cp: nat): int { if last != 0 then (font.kerning)(last, cp) else 0 }

  /**
   * The codepoints that get onto w pixels after last: those without a glyph
   * are passed over, the first too wide ends it.
   */
  function Fitting(font: Font, cps: seq<nat>, last: nat, w: nat): seq<nat>
    decreases |cps|
  {
    if cps == [] then []
    else
      match Glyph(font, cps[0])
      case None => Fitting(font, cps[1..], last, w)
      case Some(advance) =>
        if Kerning(font, last, cps[0]) + advance > w then []
        else [cps[0]] + Fitting(font, cps[1..], cps[0], Narrowed(w, advance))
  }

  /** Where the pen is after the codepoints that get onto w pixels. */
  function PenAfter(font: Font, cps: seq<nat>, last: nat, w: nat, x: int): int
    decreases |cps|
  {
    if cps == [] then x
    else
      match Glyph(font, cps[0])
      case None => PenAfter(font, cps[1..], last, w, x)
      case Some(advance) =>
        var kern := Kerning(font, last, cps[0]);
        if kern + advance > w then x
        else PenAfter(font, cps[1..], cps[0], Narrowed(w, advance), x + kern + advance)
  }

  /** The same two, from what is drawn so far. */
  function Measured(font: Font, cps: seq<nat>, last: nat, w: nat, drawn: seq<nat>, x: int): (seq<nat>, int) {
    (drawn + Fitting(font, cps, last, w), PenAfter(font, cps, last, w, x))
  }

  lemma MeasuredStep(font: Font, cp: nat, rest: seq<nat>, last: nat, w: nat, drawn: seq<nat>, x: int)
    ensures var glyph := Glyph(font, cp); var kern := Kerning(font, last, cp);
      Measured(font, [cp] + rest, last, w, drawn, x) ==
        if glyph.None? then Measured(font, rest, last, w, drawn, x)
        else if kern + glyph.value > w then (drawn, x)
        else Measured(font, rest, cp, Narrowed(w, glyph.value), drawn + [cp], x + kern + glyph.value)
  {
    assert ([cp] + rest)[1..] == rest;
    assert drawn + [] == drawn;
    var glyph := Glyph(font, cp);
    if glyph.Some? {
      var later := Fitting(font, rest, cp, Narrowed(w, glyph.value));
      assert drawn + ([cp] + later) == (drawn + [cp]) + later;
    }
  }

  lemma MeasuredStart(font: Font, cps: seq<nat>, w: nat)
    ensures Measured(font, cps, 0, w, [], 0) == (Fitting(font, cps, 0, w), PenAfter(font, cps, 0, w, 0))
  {
    assert [] + Fitting(font, cps, 0, w) == Fitting(font, cps, 0, w);
  }

  lemma MeasuredEnd(font: Font, last: nat, w: nat, drawn: seq<nat>, x: int)
    ensures Measured(font, [], last, w, drawn, x) == (drawn, x)
  {
    assert drawn + [] == drawn;
  }

  /** The codepoints of a text from p on, U+FFFD for what is ill-formed. */
  function CodepointsFrom(text: seq<Byte>, p: nat): (cps: seq<nat>)
    requires p <= |text|
    ensures |cps| <= |text| - p
  {
    AllDrawn(Pieces(text, p))
  }

  /** The next codepoint, and where the rest of the text starts. */
  method NextCodepoint(text: seq<Byte>, start: nat, before: nat) returns (p: nat, cp: nat)
    requires start < |text|
    ensures start < p <= |text| && CodepointsFrom(text, start) == [cp] + CodepointsFrom(text, p)
  {
    AllDrawnStep(text, start);
    hide Pieces;
    hide AllDrawn;
    p, cp := NextDrawn(text, start, before);
  }

  lemma FittingIsShort(font: Font, cps: seq<nat>, last: nat, w: nat)
    ensures |Fitting(font, cps, last, w)| <= |cps|
  {
    DrawnIsPrefix(font, cps, last, w);
  }

  /**
   * The loop with rendering off, which is how a text is measured: on every
   * byte string it goes a step further each time round, and so comes to an end.
   */
  method DrawText(text: seq<Byte>, font: Font, room: nat) returns (drawn: seq<nat>, x: int)
    ensures drawn == Fitting(font, CodepointsFrom(text, 0), 0, room)
    ensures x == PenAfter(font, CodepointsFrom(text, 0), 0, room, 0)
    ensures |drawn| <= |text|
  {
    MeasuredStart(font, CodepointsFrom(text, 0), room);
    FittingIsShort(font, CodepointsFrom(text, 0), 0, room);
    hide Narrowed;
    hide Glyph;
    hide Kerning;
    hide Measured;
    hide Fitting;
    hide PenAfter;
    hide CodepointsFrom;
    drawn, x := [], 0;
    var p: nat, w: nat := 0, room;
    var cp: nat, last: nat := 0, 0;
    while p < |text|
      invariant p <= |text|
      invariant Measured(font, CodepointsFrom(text, 0), 0, room, [], 0)
             == Measured(font, CodepointsFrom(text, p), last, w, drawn, x)
      decreases |text| - p
    {
      p, cp := NextCodepoint(text, p, cp);
      MeasuredStep(font, cp, CodepointsFrom(text, p), last, w, drawn, x);
      var glyph := Glyph(font, cp);
      if glyph.None? { continue; }
      var kern := Kerning(font, last, cp);
      last := cp;
      if kern + glyph.value > w { return; }
      drawn := drawn + [cp];
      x := x + kern + glyph.value;
      w := Narrowed(w, glyph.value);
    }
    PiecesEnd(text);
    MeasuredEnd(font, last, w, drawn, x);
  }

  lemma PiecesEnd(text: seq<Byte>)
    ensures CodepointsFrom(text, |text|) == []
  {
  }

  /** The codepoints the font has glyphs for. */
  function Having(font: Font, cps: seq<nat>): (r: seq<nat>)
    ensures |r| <= |cps|
  {
    if cps == [] then [] else (if Glyph(font, cps[0]).Some? then [cps[0]] else []) + Having(font, cps[1..])
  }

  /** What is drawn is how the codepoints that have glyphs begin. */
  lemma {:induction false} DrawnIsPrefix(font: Font, cps: seq<nat>, last: nat, w: nat)
    ensures Fitting(font, cps, last, w) <= Having(font, cps)
    decreases |cps|
  {
    if cps != [] {
      var glyph := Glyph(font, cps[0]);
      if glyph.None? {
        DrawnIsPrefix(font, cps[1..], last, w);
      } else {
        DrawnIsPrefix(font, cps[1..], cps[0], Narrowed(w, glyph.value));
      }
    }
  }

  /** On w pixels that are enough for the widest glyphs all of them are drawn. */
  lemma {:induction false} RoomForAll(font: Font, cps: seq<nat>, last: nat, w: nat, widest: nat, kern: nat)
    requires forall cp: nat :: Glyph(font, cp).Some? ==> 0 <= Glyph(font, cp).value <= widest
    requires forall a: nat, b: nat :: (font.kerning)(a, b) <= kern
    requires |cps| * widest + kern <= w < UINT_RANGE
    ensures Fitting(font, cps, last, w) == Having(font, cps)
    decreases |cps|
  {
    if cps != [] {
      var glyph := Glyph(font, cps[0]);
      assert |cps| * widest == |cps[1..]| * widest + widest;
      assert |cps[1..]| * widest >= 0;
      if glyph.None? {
        RoomForAll(font, cps[1..], last, w, widest, kern);
      } else {
        assert Narrowed(w, glyph.value) == w - glyph.value;
        RoomForAll(font, cps[1..], cps[0], w - glyph.value, widest, kern);
      }
    }
  }

  /** Text that was encoded, on enough room, is drawn codepoint by codepoint, but for what the font lacks. */
  lemma EncodedIsDrawn(font: Font, cps: seq<nat>, room: nat, widest: nat, kern: nat)
    requires AllEncodable(cps)
    requires forall cp: nat :: Glyph(font, cp).Some? ==> 0 <= Glyph(font, cp).value <= widest
    requires forall a: nat, b: nat :: (font.kerning)(a, b) <= kern
    requires |cps| * widest + kern <= room < UINT_RANGE
    ensures Fitting(font, CodepointsFrom(EncodeAll(cps), 0), 0, room) == Having(font, cps)
  {
    RoundTrip(cps);
    RoomForAll(font, cps, 0, room, widest, kern);
  }
}
