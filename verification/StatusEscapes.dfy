/** The escapes of the status text as they are written, and what each of them does. */
module StatusEscapes {
  import opened Division
  import opened Sequences
  import opened Utf8
  import opened StatusMarkup

  /** part stands in the text at i. */
  predicate Stands(text: seq<Byte>, i: nat, part: seq<Byte>) {
    i + |part| <= |text| && text[i..i + |part|] == part
  }

  lemma StandsAt(text: seq<Byte>, i: nat, part: seq<Byte>)
    requires Stands(text, i, part)
    ensures forall k :: 0 <= k < |part| ==> At(text, i + k) == part[k]
  {
    forall k | 0 <= k < |part|
      ensures At(text, i + k) == part[k]
    {
      assert text[i..i + |part|][k] == text[i + k];
    }
  }

  /* ---- colours ---- */

  /** A hex digit, in either case. */
  function HexDigit(v: nat, upper: bool): (b: Byte)
    requires v < 16
    ensures HexValue(b) == Some(v)
  {
    if v < 10 then '0' as int + v else if upper then 'A' as int + v - 10 else 'a' as int + v - 10
  }

  /** A channel as two hex digits. */
  function TwoDigits(v: nat, upper: bool): (s: seq<Byte>)
    requires v < 256
    ensures |s| == 2
  {
    [HexDigit(v / 16, upper), HexDigit(v % 16, upper)]
  }

  /** The three channels and the alpha, if there is one. */
  datatype Color = Color(red: nat, green: nat, blue: nat, alpha: Option<nat>)

  predicate IsColor(c: Color) {
    c.red < 256 && c.green < 256 && c.blue < 256 && (c.alpha.Some? ==> c.alpha.value < 256)
  }

  /** ^c#RRGGBB^ for the text and ^b#RRGGBB^ for what is behind it, with two digits more for the alpha. */
  function ColorEscape(front: bool, c: Color, upper: bool): (s: seq<Byte>)
    requires IsColor(c)
    ensures |s| == if c.alpha.Some? then 12 else 10
  {
    ['^' as int, if front then 'c' as int else 'b' as int, '#' as int] +
    TwoDigits(c.red, upper) + TwoDigits(c.green, upper) + TwoDigits(c.blue, upper) +
    (if c.alpha.Some? then TwoDigits(c.alpha.value, upper) else []) + ['^' as int]
  }

  /** The colour as a number, a byte to each channel, opaque unless an alpha is given. */
  function Packed(c: Color): nat {
    c.red * 0x100_0000 + c.green * 0x1_0000 + c.blue * 0x100 + if c.alpha.Some? then c.alpha.value else 0xFF
  }

  lemma RunEnds(text: seq<Byte>, i: nat, left: nat, color: nat)
    requires left == 0 || HexValue(At(text, i)).None?
    ensures HexRun(text, i, left, color) == (0, color)
  {
    hide HexValue;
    hide At;
  }

  lemma RunOfTwo(text: seq<Byte>, i: nat, left: nat, color: nat, v: nat, upper: bool)
    requires v < 256 && left >= 2 && Stands(text, i, TwoDigits(v, upper))
    ensures var r := HexRun(text, i + 2, left - 2, color * 256 + v);
      HexRun(text, i, left, color) == (r.0 + 2, r.1)
  {
    StandsAt(text, i, TwoDigits(v, upper));
    assert At(text, i + 0) == HexDigit(v / 16, upper) && At(text, i + 1) == HexDigit(v % 16, upper);
    hide HexValue;
    hide At;
    assert (color * 16 + v / 16) * 16 + v % 16 == color * 256 + v;
  }

  /** The number that the three channels spell. */
  function Three(c: Color): nat { (c.red * 256 + c.green) * 256 + c.blue }

  lemma ThreeRead(text: seq<Byte>, i: nat, c: Color, upper: bool)
    requires IsColor(c)
    requires Stands(text, i, TwoDigits(c.red, upper)) && Stands(text, i + 2, TwoDigits(c.green, upper))
    requires Stands(text, i + 4, TwoDigits(c.blue, upper))
    ensures var r := HexRun(text, i + 6, 2, Three(c)); HexRun(text, i, 8, 0) == (r.0 + 6, r.1)
  {
    hide HexRun;
    hide Stands;
    hide TwoDigits;
    RunOfTwo(text, i, 8, 0, c.red, upper);
    RunOfTwo(text, i + 2, 6, c.red, c.green, upper);
    RunOfTwo(text, i + 4, 4, c.red * 256 + c.green, c.blue, upper);
  }

  lemma PartOfPart(text: seq<Byte>, i: nat, part: seq<Byte>, at: nat, n: nat)
    requires Stands(text, i, part) && at + n <= |part|
    ensures Stands(text, i + at, part[at..at + n])
  {
    var whole := text[i..i + |part|];
    assert forall k :: 0 <= k < |part| ==> whole[k] == text[i + k];
    assert text[i + at..i + at + n] == whole[at..at + n];
  }

  lemma DigitsInPlace(front: bool, c: Color, upper: bool)
    requires IsColor(c)
    ensures var s := ColorEscape(front, c, upper);
      && s[3..5] == TwoDigits(c.red, upper) && s[5..7] == TwoDigits(c.green, upper)
      && s[7..9] == TwoDigits(c.blue, upper) && s[|s| - 1] == CARET
      && (c.alpha.Some? ==> s[9..11] == TwoDigits(c.alpha.value, upper))
  {
    hide TwoDigits;
  }

  /** Where the digits of an escape stand in the text. */
  lemma DigitsStand(text: seq<Byte>, i: nat, front: bool, c: Color, upper: bool)
    requires IsColor(c) && Stands(text, i, ColorEscape(front, c, upper))
    ensures Stands(text, i + 3, TwoDigits(c.red, upper)) && Stands(text, i + 3 + 2, TwoDigits(c.green, upper))
    ensures Stands(text, i + 3 + 4, TwoDigits(c.blue, upper))
    ensures c.alpha.Some? ==> Stands(text, i + 3 + 6, TwoDigits(c.alpha.value, upper))
  {
    var s := ColorEscape(front, c, upper);
    DigitsInPlace(front, c, upper);
    hide *;
    PartOfPart(text, i, s, 3, 2);
    PartOfPart(text, i, s, 5, 2);
    PartOfPart(text, i, s, 7, 2);
    if c.alpha.Some? { PartOfPart(text, i, s, 9, 2); }
  }

  lemma FrameStands(text: seq<Byte>, i: nat, front: bool, c: Color, upper: bool)
    requires IsColor(c) && Stands(text, i, ColorEscape(front, c, upper))
    ensures At(text, i) == CARET && At(text, i + 1) == (if front then LETTER_C else LETTER_B) && At(text, i + 2) == HASH
    ensures At(text, i + |ColorEscape(front, c, upper)| - 1) == CARET
  {
    var s := ColorEscape(front, c, upper);
    assert s[0] == CARET && s[1] == (if front then LETTER_C else LETTER_B) && s[2] == HASH && s[|s| - 1] == CARET;
    StandsAt(text, i, s);
    hide *;
    assert At(text, i + 0) == s[0] && At(text, i + 1) == s[1] && At(text, i + 2) == s[2];
    assert At(text, i + (|s| - 1)) == s[|s| - 1];
  }

  lemma CaretIsNoDigit()
    ensures HexValue(CARET).None?
  {
  }

  /** The digits of a colour are read as the number they spell. */
  lemma DigitsAreRead(text: seq<Byte>, i: nat, front: bool, c: Color, upper: bool)
    requires IsColor(c) && Stands(text, i, ColorEscape(front, c, upper))
    ensures HexRun(text, i + 3, 8, 0) ==
      (if c.alpha.Some? then (8, Three(c) * 256 + c.alpha.value) else (6, Three(c)))
  {
    DigitsStand(text, i, front, c, upper);
    FrameStands(text, i, front, c, upper);
    CaretIsNoDigit();
    assert c.alpha.None? ==> At(text, i + 3 + 6) == CARET;
    hide *;
    ThreeRead(text, i + 3, c, upper);
    if c.alpha.Some? {
      LastTwo(text, i + 3 + 6, Three(c), c.alpha.value, upper);
    } else {
      RunEnds(text, i + 3 + 6, 2, Three(c));
    }
  }

  lemma LastTwo(text: seq<Byte>, i: nat, color: nat, v: nat, upper: bool)
    requires v < 256 && Stands(text, i, TwoDigits(v, upper))
    ensures HexRun(text, i, 2, color) == (2, color * 256 + v)
  {
    RunOfTwo(text, i, 2, color, v, upper);
    RunEnds(text, i + 2, 0, color * 256 + v);
    hide HexRun;
    hide Stands;
  }

  /** A colour escape is taken whole and sets its colour, that of the text or that behind it, and leaves the other. */
  lemma ColorEscapeSets(text: seq<Byte>, i: nat, front: bool, c: Color, upper: bool, scheme: Scheme, normal: Scheme)
    requires IsColor(c) && Stands(text, i, ColorEscape(front, c, upper))
    ensures Escape(text, i) == |ColorEscape(front, c, upper)|
    ensures Recolor(text, i, scheme, normal) ==
            if front then Scheme(Packed(c), scheme.bg) else Scheme(scheme.fg, Packed(c))
    ensures MarkAt(text, i) == Neither
  {
    FrameStands(text, i, front, c, upper);
    DigitsAreRead(text, i, front, c, upper);
    hide ColorEscape;
    hide HexRun;
    hide At;
    hide CaretFrom;
  }

  /** ^d^ brings back both colours. */
  lemma ResetEscape(text: seq<Byte>, i: nat, scheme: Scheme, normal: Scheme)
    requires Stands(text, i, ['^' as int, 'd' as int, '^' as int])
    ensures Escape(text, i) == 3 && Recolor(text, i, scheme, normal) == normal && MarkAt(text, i) == Neither
  {
    var s: seq<Byte> := ['^' as int, 'd' as int, '^' as int];
    StandsAt(text, i, s);
    assert At(text, i + 0) == s[0] && At(text, i + 1) == s[1] && At(text, i + 2) == s[2];
    hide At;
    hide CaretFrom;
  }

  /* ---- click areas ---- */

  /** ^sN!command^, where N may be left out for the first button. */
  function AreaEscape(button: nat, named: bool, command: seq<Byte>): (s: seq<Byte>)
    requires button < BUTTONS && (!named ==> button == 0)
    ensures |s| == |command| + if named then 5 else 4
  {
    ['^' as int, 's' as int] + (if named then ['1' as int + button] else []) + ['!' as int] + command + ['^' as int]
  }

  lemma {:induction false} CaretBehind(text: seq<Byte>, i: nat, j: nat)
    requires i <= j && At(text, j) == CARET && forall k :: i <= k < j ==> At(text, k) != CARET && At(text, k) != 0
    ensures CaretFrom(text, i) == j
    decreases j - i
  {
    if i < j { CaretBehind(text, i + 1, j); }
  }

  /** Opening an area is taken whole; its button then runs this command, as much of it as the buffer takes. */
  lemma AreaEscapeOpens(text: seq<Byte>, i: nat, button: nat, named: bool, command: seq<Byte>,
                        scheme: Scheme, normal: Scheme, size: nat)
    requires button < BUTTONS && (!named ==> button == 0) && size > 0
    requires command != [] && 0 !in command && CARET !in command
    requires Stands(text, i, AreaEscape(button, named, command))
    ensures Escape(text, i) == |AreaEscape(button, named, command)|
    ensures Recolor(text, i, scheme, normal) == scheme
    ensures MarkAt(text, i).Opens? && MarkAt(text, i).button == button
    ensures CommandText(text, MarkAt(text, i).cmd, size) == command[..Min(|command|, size - 1)]
  {
    var from := if named then 4 else 3;
    AreaParts(text, i, button, named, command);
    CaretBehind(text, i + from, i + from + |command|);
    CommandStands(text, i + from, command, size);
    hide AreaEscape;
    hide Stands;
    hide At;
    hide CaretFrom;
  }

  lemma AreaParts(text: seq<Byte>, i: nat, button: nat, named: bool, command: seq<Byte>)
    requires button < BUTTONS && (!named ==> button == 0)
    requires command != [] && 0 !in command && CARET !in command
    requires Stands(text, i, AreaEscape(button, named, command))
    ensures var from := if named then 4 else 3;
      && At(text, i) == CARET && At(text, i + 1) == LETTER_S
      && (named ==> At(text, i + 2) == ONE + button) && At(text, i + from - 1) == BANG
      && Stands(text, i + from, command) && At(text, i + from + |command|) == CARET
      && forall k :: i + from <= k < i + from + |command| ==> At(text, k) != CARET && At(text, k) != 0
  {
    var s := AreaEscape(button, named, command);
    var from := if named then 4 else 3;
    assert s[0] == CARET && s[1] == LETTER_S && s[from - 1] == BANG && s[|s| - 1] == CARET;
    assert named ==> s[2] == ONE + button;
    assert s[from..from + |command|] == command;
    StandsAt(text, i, s);
    PartOfPart(text, i, s, from, |command|);
    hide AreaEscape;
    hide Stands;
    assert At(text, i + 0) == s[0] && At(text, i + 1) == s[1] && At(text, i + 2) == s[2];
    assert At(text, i + (from - 1)) == s[from - 1] && At(text, i + (|s| - 1)) == s[|s| - 1];
    forall k | i + from <= k < i + from + |command|
      ensures At(text, k) != CARET && At(text, k) != 0
    {
      assert At(text, i + (k - i)) == s[k - i];
      assert s[from..from + |command|][k - i - from] in command;
    }
  }

  lemma CommandStands(text: seq<Byte>, at: nat, command: seq<Byte>, size: nat)
    requires size > 0 && Stands(text, at, command) && CaretFrom(text, at) == at + |command|
    ensures CommandText(text, at, size) == command[..Min(|command|, size - 1)]
  {
    var n := Min(|command|, size - 1);
    PartOfPart(text, at, command, 0, n);
    hide CaretFrom;
    assert command[0..n] == command[..n];
  }

  /** ^e^ and ^e!^ close every area. */
  lemma EndEscape(text: seq<Byte>, i: nat, bang: bool, scheme: Scheme, normal: Scheme)
    requires Stands(text, i, ['^' as int, 'e' as int] + (if bang then ['!' as int] else []) + ['^' as int])
    ensures Escape(text, i) == (if bang then 4 else 3)
    ensures MarkAt(text, i) == Closes && Recolor(text, i, scheme, normal) == scheme
  {
    var s: seq<Byte> := ['^' as int, 'e' as int] + (if bang then ['!' as int] else []) + ['^' as int];
    StandsAt(text, i, s);
    assert At(text, i + 0) == s[0] && At(text, i + 1) == s[1] && At(text, i + 2) == s[2];
    assert bang ==> At(text, i + 3) == s[3];
    hide At;
    hide CaretFrom;
  }

  /* ---- literal text ---- */

  /** Text with its carets doubled. */
  function Doubled(s: seq<Byte>): (r: seq<Byte>)
    ensures |r| >= |s|
  {
    if s == [] then [] else (if s[0] == CARET then [CARET, CARET] else [s[0]]) + Doubled(s[1..])
  }

  /** An escape, or the end of the text, ends a stretch. */
  predicate EndsStretch(text: seq<Byte>, j: nat) { j == |text| || Escape(text, j) > 0 }

  lemma {:induction false} DoubledStretch(text: seq<Byte>, i: nat, s: seq<Byte>, segment: seq<Byte>)
    requires Stands(text, i, Doubled(s)) && EndsStretch(text, i + |Doubled(s)|)
    requires 0 !in s && |segment| + |s| < SEGMENT_MAX
    ensures Stretch(text, i, segment) == (segment + s, i + |Doubled(s)|)
    decreases |s|
  {
    if s == [] {
      assert segment + [] == segment;
      NotDoubled(text, i);
    } else {
      var next := OneOfDoubled(text, i, s, segment);
      hide *;
      DoubledStretch(text, next, s[1..], segment + [s[0]]);
      Regroup(segment, s);
    }
  }

  lemma Regroup(segment: seq<Byte>, s: seq<Byte>)
    requires s != []
    ensures segment + [s[0]] + s[1..] == segment + s
  {
  }

  lemma OneOfDoubled(text: seq<Byte>, i: nat, s: seq<Byte>, segment: seq<Byte>) returns (next: nat)
    requires Stands(text, i, Doubled(s)) && s != [] && 0 !in s && |segment| + 1 < SEGMENT_MAX
    ensures next + |Doubled(s[1..])| == i + |Doubled(s)| && Stands(text, next, Doubled(s[1..]))
    ensures Stretch(text, i, segment) == Stretch(text, next, segment + [s[0]])
  {
    var head: seq<Byte> := if s[0] == CARET then [CARET, CARET] else [s[0]];
    var rest := Doubled(s[1..]);
    assert Doubled(s) == head + rest;
    StandsAt(text, i, Doubled(s));
    assert At(text, i + 0) == head[0] && (s[0] == CARET ==> At(text, i + 1) == head[1]);
    PartOfPart(text, i, Doubled(s), |head|, |rest|);
    assert Doubled(s)[|head|..|head| + |rest|] == rest;
    hide Escape;
    hide Stands;
    hide Doubled;
    next := i + |head|;
  }

  lemma NotDoubled(text: seq<Byte>, j: nat)
    requires j <= |text| && EndsStretch(text, j)
    ensures At(text, j) == 0 || (At(text, j) == CARET && At(text, j + 1) != CARET && Escape(text, j) > 0)
  {
  }

  /** A segment s that ends at j, and the spans behind the escape there, in the colours it leaves. */
  function FromSegment(text: seq<Byte>, s: seq<Byte>, j: nat, scheme: Scheme, normal: Scheme): seq<Span>
    requires j <= |text|
  {
    [Span(s, scheme, MarkAt(text, j))] + Spans(text, j + Escape(text, j), Recolor(text, j, scheme, normal), normal)
  }

  /**
   * Text with its carets doubled, up to an escape or the end, is one segment:
   * the text itself, in the colours it started with; then the escape counts.
   */
  lemma DoubledIsLiteral(text: seq<Byte>, i: nat, s: seq<Byte>, scheme: Scheme, normal: Scheme)
    requires Stands(text, i, Doubled(s)) && EndsStretch(text, i + |Doubled(s)|)
    requires s != [] && 0 !in s && |s| < SEGMENT_MAX
    ensures Spans(text, i, scheme, normal) == FromSegment(text, s, i + |Doubled(s)|, scheme, normal)
  {
    DoubledStretch(text, i, s, []);
    FirstOfDoubled(text, i, s);
    hide *;
    FirstSpan(text, i, s, i + |Doubled(s)|, scheme, normal);
  }

  lemma FirstOfDoubled(text: seq<Byte>, i: nat, s: seq<Byte>)
    requires Stands(text, i, Doubled(s)) && s != [] && 0 !in s
    ensures i < |text| && text[i] != 0
  {
    assert text[i..i + |Doubled(s)|][0] == text[i];
    assert Doubled(s)[0] == s[0];
  }

  lemma FirstSpan(text: seq<Byte>, i: nat, s: seq<Byte>, j: nat, scheme: Scheme, normal: Scheme)
    requires i < |text| && text[i] != 0 && Stretch(text, i, []) == ([] + s, j)
    ensures Spans(text, i, scheme, normal) == FromSegment(text, s, j, scheme, normal)
  {
    assert [] + s == s;
    hide Stretch;
    hide Escape;
    hide MarkAt;
    hide Recolor;
  }

  /* ---- the bar ---- */

  /** Where the drawing has come to. */
  function EndOf(boxes: seq<Box>, x: int): int {
    if boxes == [] then x else boxes[|boxes| - 1].x + boxes[|boxes| - 1].width
  }

  /** Each box starts where the one before it ends. */
  predicate Touching(boxes: seq<Box>, x: int) {
    forall b :: 0 <= b < |boxes| ==> boxes[b].x == EndOf(boxes[..b], x)
  }

  /** The boxes start at x, touch, and come to an end at stop. */
  predicate Fill(boxes: seq<Box>, x: int, stop: int) { Touching(boxes, x) && EndOf(boxes, x) == stop }

  /** Where a text that wide stops when it is drawn from x up to end. */
  function Stop(x: int, total: nat, end: int): int { Max(x, Min(x + total, end)) }

  /** The boxes fill the bar without a break up to its end or that of the text. */
  lemma {:induction false} BoxesFill(spans: seq<Span>, k: nat, x: int, end: int, width: seq<Byte> -> nat)
    ensures Fill(Place(spans, k, x, end, width), x, Stop(x, Width(spans, width), end))
    decreases |spans|
  {
    if spans != [] {
      var w := width(spans[0].segment);
      var rest := Width(spans[1..], width);
      assert Width(spans, width) == w + rest;
      if w > 0 && x < end {
        var first, x' := FirstBox(spans, k, x, end, width);
        hide *;
        BoxesFill(spans[1..], k + 1, x', end, width);
        StopsLater(x, w, rest, end);
        FirstTouches(first, Place(spans[1..], k + 1, x', end, width), x, x', Stop(x, w + rest, end));
      } else {
        BoxesFill(spans[1..], k + 1, x, end, width);
        hide Fill;
        assert w == 0 || x >= end;
      }
    }
  }

  lemma FirstBox(spans: seq<Span>, k: nat, x: int, end: int, width: seq<Byte> -> nat) returns (first: Box, x': int)
    requires spans != [] && width(spans[0].segment) > 0 && x < end
    ensures var w := width(spans[0].segment); x' == if x + w > end then end else x + w
    ensures Place(spans, k, x, end, width) == [first] + Place(spans[1..], k + 1, x', end, width)
    ensures first.x == x && first.x + first.width == x'
  {
    first := Place(spans, k, x, end, width)[0];
    x' := first.x + first.width;
  }

  lemma StopsLater(x: int, w: nat, rest: nat, end: int)
    requires x < end
    ensures Stop(if x + w > end then end else x + w, rest, end) == Stop(x, w + rest, end)
  {
  }

  lemma FirstTouches(box: Box, rest: seq<Box>, x: int, x': int, stop: int)
    requires box.x == x && box.x + box.width == x' && Fill(rest, x', stop)
    ensures Fill([box] + rest, x, stop)
  {
    var boxes := [box] + rest;
    forall b | 0 <= b < |boxes|
      ensures boxes[b].x == EndOf(boxes[..b], x)
    {
      if b > 0 {
        assert boxes[..b] == [box] + rest[..b - 1];
        assert rest[b - 1].x == EndOf(rest[..b - 1], x');
      }
    }
  }
}
