/** Drawing the status text and finding the command under the pointer, as the two walks run. */
module StatusWalk {
  import opened Sequences
  import opened Utf8
  import opened StatusMarkup

  /** The loop over a command's bytes. */
  method FindCaret(text: seq<Byte>, start: nat) returns (i: nat)
    ensures i == CaretFrom(text, start)
  {
    i := start;
    while At(text, i) != 0 && At(text, i) != CARET
      invariant CaretFrom(text, i) == CaretFrom(text, start)
      decreases |text| - i
    {
      i := i + 1;
    }
  }

  lemma HexRunStep(text: seq<Byte>, i: nat, left: nat, color: nat)
    ensures HexRun(text, i, left, color)
         == if left == 0 || HexValue(At(text, i)).None? then (0, color)
            else
              var r := HexRun(text, i + 1, left - 1, color * 16 + HexValue(At(text, i)).value);
              (r.0 + 1, r.1)
  {
    hide HexValue;
    hide At;
  }

  /** The loop over a colour's hex digits. */
  method ReadHex(text: seq<Byte>, start: nat) returns (digits: nat, color: nat)
    ensures (digits, color) == HexRun(text, start, 8, 0)
  {
    hide HexValue;
    hide HexRun;
    hide At;
    digits, color := 0, 0;
    while digits < 8 && HexValue(At(text, start + digits)).Some?
      invariant digits <= 8
      invariant var r := HexRun(text, start + digits, 8 - digits, color);
        HexRun(text, start, 8, 0) == (digits + r.0, r.1)
    {
      HexRunStep(text, start + digits, 8 - digits, color);
      color := color * 16 + HexValue(At(text, start + digits)).value;
      digits := digits + 1;
    }
    HexRunStep(text, start + digits, 8 - digits, color);
  }

  /** One escape at i: the bytes it takes, and the colours after it. */
  method ReadEscape(text: seq<Byte>, i: nat, before: Scheme, normal: Scheme) returns (n: nat, scheme: Scheme)
    ensures n == Escape(text, i) && scheme == Recolor(text, i, before, normal)
  {
    hide CaretFrom;
    hide HexRun;
    hide At;
    scheme := before;
    if At(text, i) != CARET { return 0, scheme; }
    if At(text, i + 1) == LETTER_S {
      var bang := if ONE <= At(text, i + 2) <= 48 + BUTTONS then i + 3 else i + 2;
      var end := bang + 1;
      if At(text, bang) != BANG || At(text, end) == 0 || At(text, end) == CARET { return 0, scheme; }
      end := FindCaret(text, end);
      return if At(text, end) == CARET then end + 1 - i else 0, scheme;
    }
    if At(text, i + 1) == LETTER_E && At(text, i + 2) == CARET { return 3, scheme; }
    if At(text, i + 1) == LETTER_E && At(text, i + 2) == BANG && At(text, i + 3) == CARET { return 4, scheme; }
    if At(text, i + 1) == LETTER_D && At(text, i + 2) == CARET { return 3, normal; }
    if (At(text, i + 1) != LETTER_C && At(text, i + 1) != LETTER_B) || At(text, i + 2) != HASH { return 0, scheme; }
    var digits, color := ReadHex(text, i + 3);
    if (digits != 6 && digits != 8) || At(text, i + 3 + digits) != CARET { return 0, scheme; }
    if digits == 6 {
      color := color * 256 + 255;
    }
    if At(text, i + 1) == LETTER_C {
      scheme := scheme.(fg := color);
    } else {
      scheme := scheme.(bg := color);
    }
    return digits + 4, scheme;
  }

  /** The inner loop of both walks. */
  method ReadStretch(text: seq<Byte>, start: nat) returns (segment: seq<Byte>, i: nat)
    requires start <= |text|
    ensures (segment, i) == Stretch(text, start, [])
  {
    hide Escape;
    segment, i := [], start;
    while At(text, i) != 0 && |segment| + 1 < SEGMENT_MAX
      invariant i <= |text|
      invariant Stretch(text, i, segment) == Stretch(text, start, [])
      decreases |text| - i
    {
      if At(text, i) == CARET {
        if At(text, i + 1) == CARET {
          segment := segment + [CARET];
          i := i + 2;
          continue;
        }
        var n, _ := ReadEscape(text, i, Scheme(0, 0), Scheme(0, 0));
        if n > 0 { break; }
      }
      segment := segment + [At(text, i)];
      i := i + 1;
    }
  }

  lemma SpansUnfold(text: seq<Byte>, i: nat, scheme: Scheme, normal: Scheme)
    requires i < |text| && text[i] != 0
    ensures var (segment, j) := Stretch(text, i, []);
      && i < j + Escape(text, j) <= |text|
      && Spans(text, i, scheme, normal) == [Span(segment, scheme, MarkAt(text, j))]
         + Spans(text, j + Escape(text, j), Recolor(text, j, scheme, normal), normal)
  {
    hide Recolor;
    StretchMoves(text, i);
  }

  lemma SpansEnd(text: seq<Byte>, i: nat, scheme: Scheme, normal: Scheme)
    requires i <= |text| && At(text, i) == 0
    ensures Spans(text, i, scheme, normal) == []
  {
  }

  /** Placing one span, and then the others. */
  lemma PlaceOne(span: Span, rest: seq<Span>, k: nat, x: int, end: int, width: seq<Byte> -> nat)
    ensures var w := width(span.segment); var shown := if x + w > end then end - x else w;
      && Width([span] + rest, width) == w + Width(rest, width)
      && Place([span] + rest, k, x, end, width)
         == if w > 0 && x < end
            then [Box(x, shown, span.segment, span.scheme, k)] + Place(rest, k + 1, x + shown, end, width)
            else Place(rest, k + 1, x, end, width)
  {
    assert ([span] + rest)[1..] == rest;
  }

  lemma PlaceEnd(k: nat, x: int, end: int, width: seq<Byte> -> nat)
    ensures Width([], width) == 0 && Place([], k, x, end, width) == []
  {
  }

  lemma BoxMoves(all: seq<Box>, boxes: seq<Box>, box: Box, rest: seq<Box>)
    requires all == boxes + ([box] + rest)
    ensures all == (boxes + [box]) + rest
  {
  }

  /** Draws the text run by run from x on, and returns its width without the escapes. */
  method DrawStatus(text: seq<Byte>, x: int, room: int, render: bool, normal: Scheme, width: seq<Byte> -> nat)
    returns (total: nat, boxes: seq<Box>)
    ensures total == Width(Spans(text, 0, normal, normal), width)
    ensures boxes == if render then Place(Spans(text, 0, normal, normal), 0, x, x + room, width) else []
  {
    hide Escape;
    hide Stretch;
    hide Recolor;
    hide MarkAt;
    hide Spans;
    hide Width;
    hide Place;
    var end := x + room;
    var at := x;
    var i, k, scheme := 0, 0, normal;
    total, boxes := 0, [];
    while At(text, i) != 0
      invariant 0 <= i <= |text| && 0 <= k
      invariant Width(Spans(text, 0, normal, normal), width) == total + Width(Spans(text, i, scheme, normal), width)
      invariant render ==> Place(Spans(text, 0, normal, normal), 0, x, end, width)
                           == boxes + Place(Spans(text, i, scheme, normal), k, at, end, width)
      invariant !render ==> boxes == []
      decreases |text| - i
    {
      SpansUnfold(text, i, scheme, normal);
      ghost var next := Stretch(text, i, []).1;
      ghost var rest := Spans(text, next + Escape(text, next), Recolor(text, next, scheme, normal), normal);
      PlaceOne(Span(Stretch(text, i, []).0, scheme, MarkAt(text, next)), rest, k, at, end, width);
      var segment;
      segment, i := ReadStretch(text, i);
      var w := width(segment);
      total := total + w;
      if render && w > 0 && at < end {
        if at + w > end {
          w := end - at;
        }
        BoxMoves(Place(Spans(text, 0, normal, normal), 0, x, end, width), boxes, Box(at, w, segment, scheme, k),
                 Place(rest, k + 1, at + w, end, width));
        boxes := boxes + [Box(at, w, segment, scheme, k)];
        at := at + w;
      }
      var n;
      n, scheme := ReadEscape(text, i, scheme, normal);
      i := i + n;
      k := k + 1;
    }
    SpansEnd(text, i, scheme, normal);
    PlaceEnd(k, at, end, width);
  }

  /** Copies the command at c out of the text, cut to size. */
  method CopyCommand(text: seq<Byte>, c: nat, size: nat) returns (cmd: seq<Byte>)
    requires c <= |text| && size > 0
    ensures cmd == CommandText(text, c, size)
  {
    var end := FindCaret(text, c);
    var n := end - c;
    if n >= size {
      n := size - 1;
    }
    cmd := text[c..c + n];
  }

  /** What the escape at i does to the areas. */
  method UpdateAreas(text: seq<Byte>, i: nat, areas: Areas) returns (n: nat, next: Areas)
    ensures n == Escape(text, i) && next == Reopen(areas, MarkAt(text, i))
  {
    next := areas;
    var unused;
    n, unused := ReadEscape(text, i, Scheme(0, 0), Scheme(0, 0));
    if n > 0 {
      if At(text, i + 1) == LETTER_S && At(text, i + 2) == BANG {
        next := next[0 := Some(i + 3)];
      } else if At(text, i + 1) == LETTER_S {
        next := next[At(text, i + 2) - ONE := Some(i + 4)];
      } else if At(text, i + 1) == LETTER_E {
        next := NO_AREAS;
      }
    }
  }

  /** The command of an open area that starts inside the text. */
  function CommandOf(text: seq<Byte>, area: Option<nat>, size: nat): Option<seq<Byte>>
    requires size > 0
  {
    if area.Some? && area.value <= |text| then Some(CommandText(text, area.value, size)) else None
  }

  predicate AreasIn(text: seq<Byte>, areas: Areas) {
    forall b :: 0 <= b < BUTTONS ==> areas[b].Some? ==> areas[b].value < |text|
  }

  lemma ReopenIn(text: seq<Byte>, i: nat, areas: Areas)
    requires AreasIn(text, areas)
    ensures AreasIn(text, Reopen(areas, MarkAt(text, i)))
  {
    hide MarkAt;
  }

  /** What a button does at px pixels past the start of these spans, when these areas are open there. */
  function HitFrom(text: seq<Byte>, spans: seq<Span>, areas: Areas, px: int, button: nat, size: nat,
                   width: seq<Byte> -> nat): Option<seq<Byte>>
    requires button < BUTTONS && size > 0
    decreases |spans|
  {
    if spans == [] then None
    else if px < width(spans[0].segment) then CommandOf(text, areas[button], size)
    else HitFrom(text, spans[1..], Reopen(areas, spans[0].mark), px - width(spans[0].segment), button, size, width)
  }

  lemma {:induction false} HitFromIsHit(text: seq<Byte>, spans: seq<Span>, k: nat, px: int, button: nat, size: nat,
                                        width: seq<Byte> -> nat)
    requires button < BUTTONS && size > 0 && MarksWithin(spans, text) && k <= |spans|
    ensures var j := k + SpanAt(spans[k..], px, width);
      HitFrom(text, spans[k..], AreasAt(spans, k), px, button, size, width)
      == if j == |spans| then None else CommandOf(text, AreasAt(spans, j)[button], size)
    decreases |spans| - k
  {
    hide CommandOf;
    hide MarksWithin;
    hide Reopen;
    if k < |spans| {
      assert spans[k..][1..] == spans[k + 1..] && spans[k..][0] == spans[k];
      if px >= width(spans[k].segment) {
        HitFromIsHit(text, spans, k + 1, px - width(spans[k].segment), button, size, width);
        assert AreasAt(spans, k + 1) == Reopen(AreasAt(spans, k), spans[k].mark);
      }
    }
  }

  lemma HitIsHitFrom(text: seq<Byte>, spans: seq<Span>, px: int, button: nat, size: nat, width: seq<Byte> -> nat)
    requires MarksWithin(spans, text) && button < BUTTONS && size > 0
    ensures Hit(text, spans, px, button, size, width) == HitFrom(text, spans, NO_AREAS, px, button, size, width)
  {
    hide MarksWithin;
    hide CommandText;
    assert spans[0..] == spans;
    HitFromIsHit(text, spans, 0, px, button, size, width);
    AreasWithin(spans, text, SpanAt(spans, px, width), button);
  }

  /** The command for a button at px pixels into the status text; the colours do not matter. */
  method FindCommand(text: seq<Byte>, px: int, button: nat, size: nat, width: seq<Byte> -> nat, ghost normal: Scheme)
    returns (cmd: Option<seq<Byte>>)
    requires button < BUTTONS && size > 0
    ensures MarksWithin(Spans(text, 0, normal, normal), text)
    ensures cmd == Hit(text, Spans(text, 0, normal, normal), px, button, size, width)
  {
    ghost var spans := Spans(text, 0, normal, normal);
    SpansMarkWithin(text, 0, normal, normal);
    HitIsHitFrom(text, spans, px, button, size, width);
    hide Spans;
    hide Hit;
    hide HitFrom;
    hide MarksWithin;
    cmd := Walk(text, px, button, size, width, normal);
  }

  method Walk(text: seq<Byte>, px: int, button: nat, size: nat, width: seq<Byte> -> nat, ghost normal: Scheme)
    returns (cmd: Option<seq<Byte>>)
    requires button < BUTTONS && size > 0
    ensures cmd == HitFrom(text, Spans(text, 0, normal, normal), NO_AREAS, px, button, size, width)
  {
    ghost var scheme := normal;
    var areas: Areas := NO_AREAS;
    var endX := 0;
    var i := 0;
    hide Escape;
    hide Stretch;
    hide Recolor;
    hide MarkAt;
    hide Spans;
    hide Reopen;
    hide HitFrom;
    while At(text, i) != 0
      invariant 0 <= i <= |text| && AreasIn(text, areas)
      invariant HitFrom(text, Spans(text, 0, normal, normal), NO_AREAS, px, button, size, width)
             == HitFrom(text, Spans(text, i, scheme, normal), areas, px - endX, button, size, width)
      decreases |text| - i
    {
      SpansUnfold(text, i, scheme, normal);
      ghost var next := Stretch(text, i, []).1;
      ghost var rest := Spans(text, next + Escape(text, next), Recolor(text, next, scheme, normal), normal);
      HitFromStep(text, Span(Stretch(text, i, []).0, scheme, MarkAt(text, next)), rest, areas, px - endX,
                  button, size, width);
      var segment;
      segment, i := ReadStretch(text, i);
      endX := endX + width(segment);
      if px < endX {
        if areas[button].None? { return None; }
        var c := CopyCommand(text, areas[button].value, size);
        return Some(c);
      }
      var n;
      scheme := Recolor(text, i, scheme, normal);
      ReopenIn(text, i, areas);
      n, areas := UpdateAreas(text, i, areas);
      i := i + n;
    }
    SpansEnd(text, i, scheme, normal);
    HitFromStepEnd(text, areas, px - endX, button, size, width);
    return None;
  }

  lemma HitFromStep(text: seq<Byte>, span: Span, rest: seq<Span>, areas: Areas, px: int, button: nat, size: nat,
                    width: seq<Byte> -> nat)
    requires button < BUTTONS && size > 0
    ensures var w := width(span.segment);
      HitFrom(text, [span] + rest, areas, px, button, size, width)
      == if px < w then CommandOf(text, areas[button], size)
         else HitFrom(text, rest, Reopen(areas, span.mark), px - w, button, size, width)
  {
    assert ([span] + rest)[1..] == rest;
  }

  lemma HitFromStepEnd(text: seq<Byte>, areas: Areas, px: int, button: nat, size: nat, width: seq<Byte> -> nat)
    requires button < BUTTONS && size > 0
    ensures HitFrom(text, [], areas, px, button, size, width) == None
  {
  }
}
