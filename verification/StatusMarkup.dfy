/**
 * The status text's escapes. Text between two escapes is a stretch; drawing
 * and clicking both walk over the stretches, and are shown here to agree on
 * which of them, and which click area, is where.
 */
module StatusMarkup {
  import opened Sequences
  import opened Utf8

  const SEGMENT_MAX := 4096
  const BUTTONS := 5
  const CARET: Byte := 94
  const BANG: Byte := 33
  const HASH: Byte := 35
  const ONE: Byte := 49
  const LETTER_B: Byte := 98
  const LETTER_C: Byte := 99
  const LETTER_D: Byte := 100
  const LETTER_E: Byte := 101
  const LETTER_S: Byte := 115

  /** The byte at i, the terminator past the end. */
  function At(text: seq<Byte>, i: nat): Byte { if i < |text| then text[i] else 0 }

  /* ---- escapes ---- */

  function CaretFrom(text: seq<Byte>, i: nat): (j: nat)
    ensures i <= j && (i < |text| ==> j <= |text|)
    ensures At(text, j) == CARET || At(text, j) == 0
    ensures forall k :: i <= k < j ==> At(text, k) != CARET && At(text, k) != 0
    decreases |text| - i
  {
    if At(text, i) == 0 || At(text, i) == CARET then i else CaretFrom(text, i + 1)
  }

  /** The digit c stands for once its bit 0x20 is set, which also lets ten control bytes through. */
  function HexValue(c: Byte): Option<nat> {
    if 0x30 <= c <= 0x39 then Some(c - 0x30)
    else if 0x10 <= c <= 0x19 then Some(c - 0x10)
    else if 0x61 <= c <= 0x66 then Some(c - 0x61 + 10)
    else if 0x41 <= c <= 0x46 then Some(c - 0x41 + 10)
    else None
  }

  /** c with bit 0x20 set, which lowercases a letter and leaves a digit alone. */
  function Lowercased(c: Byte): Byte { if c / 32 % 2 == 1 then c else c + 32 }

  predicate IsHexDigit(c: Byte) { 0x30 <= c <= 0x39 || 0x61 <= c <= 0x66 || 0x41 <= c <= 0x46 }

  /**
   * The bytes taken for digits are those that the bit makes digits of: the hex
   * digits and the ten from 0x10 to 0x19.
   */
  lemma DigitsAndTheirShadows(c: Byte)
    ensures HexValue(c).Some? <==> 0x30 <= Lowercased(c) <= 0x39 || 0x61 <= Lowercased(c) <= 0x66
    ensures HexValue(c).Some? <==> IsHexDigit(c) || 0x10 <= c <= 0x19
    ensures HexValue(c).Some? ==> HexValue(c) == HexValue(Lowercased(c))
  {
  }

  /** A colour of six control bytes: ^c# and six times 0x10 and ^ is taken for ^c#000000^. */
  lemma ControlBytesColour()
    ensures var text := [CARET, LETTER_C, HASH, 0x10, 0x10, 0x10, 0x10, 0x10, 0x10, CARET];
      Escape(text, 0) == |text|
  {
  }

  /** The digits of a colour are a run of such bytes, and end early only at another byte. */
  lemma {:induction false} DigitsRun(text: seq<Byte>, i: nat, left: nat, color: nat)
    ensures var n := HexRun(text, i, left, color).0;
      && (forall k :: i <= k < i + n ==> HexValue(At(text, k)).Some?)
      && (n < left ==> HexValue(At(text, i + n)).None?)
    decreases left
  {
    if left != 0 && HexValue(At(text, i)).Some? {
      DigitsRun(text, i + 1, left - 1, color * 16 + HexValue(At(text, i)).value);
    }
  }

  /** The hex digits from i on, at most left of them, added to a colour. */
  function HexRun(text: seq<Byte>, i: nat, left: nat, color: nat): (r: (nat, nat))
    ensures r.0 <= left && (i <= |text| ==> i + r.0 <= |text|)
    decreases left
  {
    if left == 0 || HexValue(At(text, i)).None? then (0, color)
    else
      var (n, c) := HexRun(text, i + 1, left - 1, color * 16 + HexValue(At(text, i)).value);
      (n + 1, c)
  }

  /** Bytes the escape at i takes, 0 if there is none. */
  function Escape(text: seq<Byte>, i: nat): (n: nat)
    ensures n > 0 ==> At(text, i) == CARET && i + n <= |text| && n >= 3
  {
    if At(text, i) != CARET then 0
    else if At(text, i + 1) == LETTER_S then
      var bang := if ONE <= At(text, i + 2) < ONE + BUTTONS then i + 3 else i + 2;
      if At(text, bang) != BANG || At(text, bang + 1) == 0 || At(text, bang + 1) == CARET then 0
      else
        var end := CaretFrom(text, bang + 1);
        if At(text, end) == CARET then end + 1 - i else 0
    else if At(text, i + 1) == LETTER_E && At(text, i + 2) == CARET then 3
    else if At(text, i + 1) == LETTER_E && At(text, i + 2) == BANG && At(text, i + 3) == CARET then 4
    else if At(text, i + 1) == LETTER_D && At(text, i + 2) == CARET then 3
    else if (At(text, i + 1) == LETTER_C || At(text, i + 1) == LETTER_B) && At(text, i + 2) == HASH then
      var n := HexRun(text, i + 3, 8, 0).0;
      if (n == 6 || n == 8) && At(text, i + 3 + n) == CARET then n + 4 else 0
    else 0
  }

  datatype Scheme = Scheme(fg: nat, bg: nat)

  /** The colours after the escape at i. */
  function Recolor(text: seq<Byte>, i: nat, scheme: Scheme, normal: Scheme): Scheme {
    if Escape(text, i) == 0 then scheme
    else if At(text, i + 1) == LETTER_D then normal
    else if At(text, i + 1) == LETTER_C || At(text, i + 1) == LETTER_B then
      var (n, c) := HexRun(text, i + 3, 8, 0);
      var color := if n == 6 then c * 256 + 255 else c;
      if At(text, i + 1) == LETTER_C then scheme.(fg := color) else scheme.(bg := color)
    else scheme
  }

  /** What an escape means for clicking: cmd is where the command of a button starts. */
  datatype Mark = Opens(button: nat, cmd: nat) | Closes | Neither

  function MarkAt(text: seq<Byte>, i: nat): (m: Mark)
    ensures m.Opens? ==> m.button < BUTTONS && m.cmd < |text|
  {
    if Escape(text, i) == 0 then Neither
    else if At(text, i + 1) == LETTER_S then
      if At(text, i + 2) == BANG then Opens(0, i + 3) else Opens(At(text, i + 2) - ONE, i + 4)
    else if At(text, i + 1) == LETTER_E then Closes
    else Neither
  }

  /** Where the command open for each button starts. */
  type Areas = a: seq<Option<nat>> | |a| == BUTTONS witness [None, None, None, None, None]

  const NO_AREAS: Areas := [None, None, None, None, None]

  function Reopen(areas: Areas, m: Mark): Areas {
    if m.Opens? && m.button < BUTTONS then areas[m.button := Some(m.cmd)]
    else if m.Closes? then NO_AREAS
    else areas
  }

  /* ---- stretches ---- */

  /** The literal text from i on up to an escape, the end or a full segment, and where that is. */
  function Stretch(text: seq<Byte>, i: nat, segment: seq<Byte>): (r: (seq<Byte>, nat))
    requires i <= |text|
    ensures i <= r.1 <= |text|
    ensures r.1 == i ==> r.0 == segment
    decreases |text| - i
  {
    if At(text, i) == 0 || |segment| + 1 >= SEGMENT_MAX then (segment, i)
    else if At(text, i) == CARET && At(text, i + 1) == CARET then Stretch(text, i + 2, segment + [CARET])
    else if At(text, i) == CARET && Escape(text, i) > 0 then (segment, i)
    else Stretch(text, i + 1, segment + [At(text, i)])
  }

  /** Every round of the walk moves on: a stretch with nothing in it ends at an escape. */
  lemma StretchMoves(text: seq<Byte>, i: nat)
    requires i <= |text| && At(text, i) != 0
    ensures var j := Stretch(text, i, []).1; j + Escape(text, j) > i
  {
  }

  /** One round of either walk: a segment, the colours it is drawn in, and the mark after it. */
  datatype Span = Span(segment: seq<Byte>, scheme: Scheme, mark: Mark)

  function Spans(text: seq<Byte>, i: nat, scheme: Scheme, normal: Scheme): seq<Span>
    requires i <= |text|
    decreases |text| - i
  {
    if At(text, i) == 0 then []
    else
      StretchMoves(text, i);
      var (segment, j) := Stretch(text, i, []);
      [Span(segment, scheme, MarkAt(text, j))] +
      Spans(text, j + Escape(text, j), Recolor(text, j, scheme, normal), normal)
  }

  /* ---- drawing ---- */

  /** A segment put on the bar. */
  datatype Box = Box(x: int, width: nat, segment: seq<Byte>, scheme: Scheme, span: nat)

  function Width(spans: seq<Span>, width: seq<Byte> -> nat): nat {
    if spans == [] then 0 else width(spans[0].segment) + Width(spans[1..], width)
  }

  /** Puts spans from x up to end; the first one is number k of the text. */
  function Place(spans: seq<Span>, k: nat, x: int, end: int, width: seq<Byte> -> nat): seq<Box>
    decreases |spans|
  {
    if spans == [] then []
    else
      var w := width(spans[0].segment);
      if w > 0 && x < end then
        var shown := if x + w > end then end - x else w;
        [Box(x, shown, spans[0].segment, spans[0].scheme, k)] + Place(spans[1..], k + 1, x + shown, end, width)
      else Place(spans[1..], k + 1, x, end, width)
  }

  /* ---- clicking ---- */

  /** The span a pointer at px falls in, past its left neighbours; the number of spans if none. */
  function SpanAt(spans: seq<Span>, px: int, width: seq<Byte> -> nat): (k: nat)
    ensures k <= |spans|
  {
    if spans == [] || px < width(spans[0].segment) then 0
    else 1 + SpanAt(spans[1..], px - width(spans[0].segment), width)
  }

  /** The areas open at the k-th span. */
  function AreasAt(spans: seq<Span>, k: nat): Areas
    requires k <= |spans|
  {
    if k == 0 then NO_AREAS else Reopen(AreasAt(spans, k - 1), spans[k - 1].mark)
  }

  /** The k-th span lies inside the area for a button that mark m opened. */
  predicate Encloses(spans: seq<Span>, m: nat, k: nat, button: nat, cmd: nat)
    requires k <= |spans|
  {
    && m < k && spans[m].mark == Opens(button, cmd)
    && forall n :: m < n < k ==> !spans[n].mark.Closes? && !(spans[n].mark.Opens? && spans[n].mark.button == button)
  }

  /** Some area for the button is open at the k-th span, and cmd is its command. */
  predicate IsOpen(spans: seq<Span>, k: nat, button: nat, cmd: nat)
    requires k <= |spans|
  {
    exists m :: 0 <= m < k && Encloses(spans, m, k, button, cmd)
  }

  /** The areas the walk keeps are the enclosing ones. */
  lemma {:induction false} AreasEnclose(spans: seq<Span>, k: nat, button: nat, cmd: nat)
    requires k <= |spans| && button < BUTTONS
    ensures AreasAt(spans, k)[button] == Some(cmd) <==> IsOpen(spans, k, button, cmd)
  {
    if k > 0 {
      AreasEnclose(spans, k - 1, button, cmd);
      var mark := spans[k - 1].mark;
      if AreasAt(spans, k)[button] == Some(cmd) {
        if mark == Opens(button, cmd) {
          assert Encloses(spans, k - 1, k, button, cmd);
        } else {
          var m :| 0 <= m < k - 1 && Encloses(spans, m, k - 1, button, cmd);
          assert Encloses(spans, m, k, button, cmd);
        }
      }
      forall m: nat | Encloses(spans, m, k, button, cmd)
        ensures AreasAt(spans, k)[button] == Some(cmd)
      {
        if m < k - 1 {
          assert Encloses(spans, m, k - 1, button, cmd);
        }
      }
    }
  }

  /** A pixel of a box is the pixel of the span drawn there. */
  lemma {:induction false} BoxesAreSpans(spans: seq<Span>, k: nat, x: int, end: int,
                                         width: seq<Byte> -> nat, b: nat, px: int)
    requires b < |Place(spans, k, x, end, width)|
    requires var box := Place(spans, k, x, end, width)[b]; box.x <= x + px < box.x + box.width
    ensures var box := Place(spans, k, x, end, width)[b]; box.span == k + SpanAt(spans, px, width)
    ensures SpanAt(spans, px, width) < |spans|
    ensures var box := Place(spans, k, x, end, width)[b]; var span := spans[SpanAt(spans, px, width)];
      box.segment == span.segment && box.scheme == span.scheme
    decreases |spans|
  {
    if spans != [] {
      var w := width(spans[0].segment);
      var rest := Place(spans[1..], k + 1, x, end, width);
      BoxesStartAt(spans[1..], k + 1, if w > 0 && x < end then (if x + w > end then end else x + w) else x, end, width);
      if w > 0 && x < end {
        if b > 0 {
          if x + w > end {
            assert false;
          }
          BoxesAreSpans(spans[1..], k + 1, x + w, end, width, b - 1, px - w);
        }
      } else {
        if w > 0 {
          assert false;
        }
        BoxesAreSpans(spans[1..], k + 1, x, end, width, b, px);
      }
    }
  }

  /** No box lies left of where placing begins, or past the end. */
  lemma {:induction false} BoxesStartAt(spans: seq<Span>, k: nat, x: int, end: int, width: seq<Byte> -> nat)
    ensures forall b :: 0 <= b < |Place(spans, k, x, end, width)| ==>
      var box := Place(spans, k, x, end, width)[b]; x <= box.x && 0 < box.width && box.x + box.width <= end
    decreases |spans|
  {
    if spans != [] {
      var w := width(spans[0].segment);
      BoxesStartAt(spans[1..], k + 1, if w > 0 && x < end then (if x + w > end then end else x + w) else x, end, width);
    }
  }

  /* ---- the two walks agree ---- */

  /** The command that starts at c, up to its caret, cut to what a buffer of size bytes takes. */
  function CommandText(text: seq<Byte>, c: nat, size: nat): seq<Byte>
    requires c <= |text| && size > 0
  {
    var n := CaretFrom(text, c) - c;
    text[c..c + if n >= size then size - 1 else n]
  }

  /** Marks open commands inside the text. */
  predicate MarksWithin(spans: seq<Span>, text: seq<Byte>) {
    forall k :: 0 <= k < |spans| ==>
      spans[k].mark.Opens? ==> spans[k].mark.button < BUTTONS && spans[k].mark.cmd < |text|
  }

  lemma {:induction false} SpansMarkWithin(text: seq<Byte>, i: nat, scheme: Scheme, normal: Scheme)
    requires i <= |text|
    ensures MarksWithin(Spans(text, i, scheme, normal), text)
    decreases |text| - i
  {
    hide Stretch;
    hide Escape;
    hide MarkAt;
    hide Recolor;
    if At(text, i) != 0 {
      StretchMoves(text, i);
      var j := Stretch(text, i, []).1;
      SpansMarkWithin(text, j + Escape(text, j), Recolor(text, j, scheme, normal), normal);
    }
  }

  lemma {:induction false} AreasWithin(spans: seq<Span>, text: seq<Byte>, k: nat, b: nat)
    requires MarksWithin(spans, text) && k <= |spans| && b < BUTTONS
    ensures AreasAt(spans, k)[b].Some? ==> AreasAt(spans, k)[b].value < |text|
  {
    if k > 0 { AreasWithin(spans, text, k - 1, b); }
  }

  /** What a button (counted from 0) does at px pixels into the status text. */
  function Hit(text: seq<Byte>, spans: seq<Span>, px: int, button: nat, size: nat,
               width: seq<Byte> -> nat): Option<seq<Byte>>
    requires MarksWithin(spans, text) && button < BUTTONS && size > 0
  {
    var k := SpanAt(spans, px, width);
    if k == |spans| then None
    else
      AreasWithin(spans, text, k, button);
      var area := AreasAt(spans, k)[button];
      if area.None? then None else Some(CommandText(text, area.value, size))
  }

  /**
   * Wherever the pointer is on the drawn text, a button runs the command of
   * the area that encloses the very segment drawn there, and nothing if no
   * area does.
   */
  lemma ClicksHitWhatIsDrawn(text: seq<Byte>, normal: Scheme, x: int, end: int, width: seq<Byte> -> nat,
                             b: nat, px: int, button: nat, size: nat)
    requires var boxes := Place(Spans(text, 0, normal, normal), 0, x, end, width);
      b < |boxes| && boxes[b].x <= x + px < boxes[b].x + boxes[b].width
    requires button < BUTTONS && size > 0
    ensures var spans := Spans(text, 0, normal, normal); var box := Place(spans, 0, x, end, width)[b];
      && box.span < |spans| && spans[box.span].segment == box.segment && MarksWithin(spans, text)
      && (Hit(text, spans, px, button, size, width).None? <==> forall cmd: nat :: !IsOpen(spans, box.span, button, cmd))
      && (forall cmd: nat :: IsOpen(spans, box.span, button, cmd) ==>
            cmd < |text| && Hit(text, spans, px, button, size, width) == Some(CommandText(text, cmd, size)))
  {
    hide Escape;
    hide Stretch;
    hide Spans;
    hide IsOpen;
    hide Place;
    hide CommandText;
    var spans := Spans(text, 0, normal, normal);
    SpansMarkWithin(text, 0, normal, normal);
    BoxesAreSpans(spans, 0, x, end, width, b, px);
    var k := SpanAt(spans, px, width);
    AreasWithin(spans, text, k, button);
    forall cmd: nat
      ensures IsOpen(spans, k, button, cmd) <==> AreasAt(spans, k)[button] == Some(cmd)
    {
      AreasEnclose(spans, k, button, cmd);
    }
    if AreasAt(spans, k)[button].Some? {
      assert IsOpen(spans, k, button, AreasAt(spans, k)[button].value);
    }
  }
}
