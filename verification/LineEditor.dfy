/** The command prompt as its user sees it: a line of codepoints and a cursor between two of them. */
module LineEditor {
  import opened Utf8

  const CAPACITY := 256
  const SPACE := 0x20

  datatype Line = Line(text: seq<nat>, pos: nat)

  predicate Fits(l: Line) {
    AllEncodable(l.text) && l.pos <= |l.text| && |EncodeAll(l.text)| < CAPACITY
  }

  datatype Key =
    | Insert(cp: nat)
    | Backspace
    | Delete
    | Left     // also Ctrl-B
    | Right    // also Ctrl-F
    | Home     // also Ctrl-A
    | End      // also Ctrl-E
    | CutWord  // Ctrl-W
    | Wipe     // Ctrl-C

  /** Printable: not a C0, DEL or C1 control. */
  predicate Printable(cp: nat) { cp >= 0x20 && !(0x7f <= cp < 0xa0) }

  predicate Accepts(l: Line, cp: nat)
    requires AllEncodable(l.text)
  {
    Printable(cp) && Encodable(cp) && |EncodeAll(l.text)| + |Encode(cp)| < CAPACITY
  }

  function Cut(l: Line, from: nat, to: nat): Line
    requires from <= to <= |l.text|
  {
    Line(l.text[..from] + l.text[to..], from)
  }

  function SkipSpaces(text: seq<nat>, i: nat): (j: nat)
    requires i <= |text|
    ensures j <= i
  {
    if i > 0 && text[i - 1] == SPACE then SkipSpaces(text, i - 1) else i
  }

  function SkipWord(text: seq<nat>, i: nat): (j: nat)
    requires i <= |text|
    ensures j <= i
  {
    if i > 0 && text[i - 1] != SPACE then SkipWord(text, i - 1) else i
  }

  function Press(l: Line, k: Key): Line
    requires Fits(l)
  {
    match k
    case Insert(cp) =>
      if Accepts(l, cp) then Line(l.text[..l.pos] + [cp] + l.text[l.pos..], l.pos + 1) else l
    case Backspace => if l.pos > 0 then Cut(l, l.pos - 1, l.pos) else l
    case Delete => if l.pos < |l.text| then Cut(l, l.pos, l.pos + 1) else l
    case Left => if l.pos > 0 then l.(pos := l.pos - 1) else l
    case Right => if l.pos < |l.text| then l.(pos := l.pos + 1) else l
    case Home => l.(pos := 0)
    case End => l.(pos := |l.text|)
    case CutWord => Cut(l, SkipWord(l.text, SkipSpaces(l.text, l.pos)), l.pos)
    case Wipe => Line([], 0)
  }

  function PressAll(l: Line, ks: seq<Key>): (r: Line)
    requires Fits(l)
    ensures Fits(r)
    decreases |ks|
  {
    if ks == [] then l
    else
      PressFits(l, ks[0]);
      PressAll(Press(l, ks[0]), ks[1..])
  }

  /* ---- byte offsets ---- */

  /** Where the i-th codepoint starts in the encoded text. */
  function Offset(text: seq<nat>, i: nat): nat
    requires AllEncodable(text) && i <= |text|
  {
    |EncodeAll(text[..i])|
  }

  lemma SplitEncoding(text: seq<nat>, i: nat)
    requires AllEncodable(text) && i <= |text|
    ensures EncodeAll(text) == EncodeAll(text[..i]) + EncodeAll(text[i..])
    ensures Offset(text, i) <= |EncodeAll(text)|
    ensures EncodeAll(text)[..Offset(text, i)] == EncodeAll(text[..i])
    ensures EncodeAll(text)[Offset(text, i)..] == EncodeAll(text[i..])
  {
    assert text == text[..i] + text[i..];
    EncodeAllConcat(text[..i], text[i..]);
  }

  lemma OffsetEnds(text: seq<nat>)
    requires AllEncodable(text)
    ensures Offset(text, 0) == 0 && Offset(text, |text|) == |EncodeAll(text)|
  {
    assert text[..|text|] == text;
  }

  /** A codepoint's bytes lie between its offset and the next one. */
  lemma NextOffset(text: seq<nat>, i: nat)
    requires AllEncodable(text) && i < |text|
    ensures EncodeAll(text[..i + 1]) == EncodeAll(text[..i]) + Encode(text[i])
    ensures Offset(text, i + 1) == Offset(text, i) + |Encode(text[i])|
  {
    assert text[..i + 1] == text[..i] + [text[i]];
    EncodeAllConcat(text[..i], [text[i]]);
    EncodeAllOne(text[i]);
  }

  /** All the bytes of the i-th codepoint, where they are in the encoded text. */
  lemma BytesAt(text: seq<nat>, i: nat)
    requires AllEncodable(text) && i < |text|
    ensures var start := Offset(text, i); var c := Encode(text[i]);
      && start + |c| == Offset(text, i + 1) <= |EncodeAll(text)|
      && forall m :: start <= m < start + |c| ==> EncodeAll(text)[m] == c[m - start]
  {
    var start := Offset(text, i);
    var c := Encode(text[i]);
    var upTo := EncodeAll(text[..i]) + c;
    NextOffset(text, i);
    SplitEncoding(text, i + 1);
    assert EncodeAll(text)[..start + |c|] == upTo;
    forall m | start <= m < start + |c|
      ensures EncodeAll(text)[m] == c[m - start]
    {
      assert EncodeAll(text)[m] == upTo[m];
    }
  }

  lemma {:induction false} OffsetGrows(text: seq<nat>, i: nat, j: nat)
    requires AllEncodable(text) && i <= j <= |text|
    ensures Offset(text, i) <= Offset(text, j)
    decreases j - i
  {
    if i < j {
      NextOffset(text, i);
      OffsetGrows(text, i + 1, j);
    }
  }

  /** A cut of codepoints is the cut of their bytes. */
  lemma CutEncoding(text: seq<nat>, from: nat, to: nat)
    requires AllEncodable(text) && from <= to <= |text|
    ensures AllEncodable(text[..from] + text[to..])
    ensures Offset(text, from) <= Offset(text, to) <= |EncodeAll(text)|
    ensures EncodeAll(text[..from] + text[to..])
         == EncodeAll(text)[..Offset(text, from)] + EncodeAll(text)[Offset(text, to)..]
    ensures Offset(text[..from] + text[to..], from) == Offset(text, from)
  {
    OffsetGrows(text, from, to);
    SplitEncoding(text, from);
    SplitEncoding(text, to);
    EncodeAllConcat(text[..from], text[to..]);
    assert (text[..from] + text[to..])[..from] == text[..from];
  }

  lemma InsertEncoding(text: seq<nat>, i: nat, cp: nat)
    requires AllEncodable(text) && i <= |text| && Encodable(cp)
    ensures var r := text[..i] + [cp] + text[i..];
      && AllEncodable(r)
      && Offset(text, i) <= |EncodeAll(text)|
      && EncodeAll(r) == EncodeAll(text)[..Offset(text, i)] + Encode(cp) + EncodeAll(text)[Offset(text, i)..]
      && Offset(r, i + 1) == Offset(text, i) + |Encode(cp)|
  {
    var r := text[..i] + [cp] + text[i..];
    SplitEncoding(text, i);
    EncodeAllConcat(text[..i], [cp]);
    EncodeAllConcat(text[..i] + [cp], text[i..]);
    EncodeAllOne(cp);
    assert r[..i + 1] == text[..i] + [cp];
  }

  /** No byte of any other character is a space. */
  lemma SpaceBytes(cp: nat, i: nat)
    requires Encodable(cp) && i < |Encode(cp)|
    ensures Encode(cp)[i] == SPACE <==> cp == SPACE
  {
  }

  lemma PressFits(l: Line, k: Key)
    requires Fits(l)
    ensures Fits(Press(l, k))
  {
    match k
    case Insert(cp) => if Accepts(l, cp) { InsertEncoding(l.text, l.pos, cp); }
    case Backspace => if l.pos > 0 { CutEncoding(l.text, l.pos - 1, l.pos); }
    case Delete => if l.pos < |l.text| { CutEncoding(l.text, l.pos, l.pos + 1); }
    case CutWord => CutEncoding(l.text, SkipWord(l.text, SkipSpaces(l.text, l.pos)), l.pos);
    case _ =>
  }

  /* ---- what the editor promises its user ---- */

  /** Typing a codepoint the line takes and deleting it again changes nothing. */
  lemma TypingIsUndone(l: Line, cp: nat)
    requires Fits(l) && Accepts(l, cp)
    ensures Fits(Press(l, Insert(cp))) && Press(Press(l, Insert(cp)), Backspace) == l
    ensures Press(l, Insert(cp)) != l
  {
    PressFits(l, Insert(cp));
    var r := Press(l, Insert(cp));
    assert r.text[..l.pos] + r.text[l.pos + 1..] == l.text[..l.pos] + l.text[l.pos..] == l.text;
  }

  /** Ctrl-W takes the blanks before the cursor and the word before them, and nothing else. */
  lemma CutWordTakesAWord(text: seq<nat>, pos: nat)
    requires pos <= |text|
    ensures var blank := SkipSpaces(text, pos); var start := SkipWord(text, blank);
      && start <= blank <= pos
      && (forall i :: blank <= i < pos ==> text[i] == SPACE)
      && (forall i :: start <= i < blank ==> text[i] != SPACE)
      && (start > 0 ==> text[start - 1] == SPACE)
      && (blank > 0 ==> text[blank - 1] != SPACE)
  {
    SkipsOnlySpaces(text, pos);
    SkipsOnlyWord(text, SkipSpaces(text, pos));
  }

  lemma {:induction false} SkipsOnlySpaces(text: seq<nat>, i: nat)
    requires i <= |text|
    ensures forall k :: SkipSpaces(text, i) <= k < i ==> text[k] == SPACE
    ensures var j := SkipSpaces(text, i); j > 0 ==> text[j - 1] != SPACE
  {
    if i > 0 && text[i - 1] == SPACE { SkipsOnlySpaces(text, i - 1); }
  }

  lemma {:induction false} SkipsOnlyWord(text: seq<nat>, i: nat)
    requires i <= |text|
    ensures forall k :: SkipWord(text, i) <= k < i ==> text[k] != SPACE
    ensures var j := SkipWord(text, i); j > 0 ==> text[j - 1] == SPACE
  {
    if i > 0 && text[i - 1] != SPACE { SkipsOnlyWord(text, i - 1); }
  }
}
