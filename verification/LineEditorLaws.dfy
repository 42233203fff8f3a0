/** How the keys of the prompt relate to each other: laws that say what each of them does. */
module LineEditorLaws {
  import opened Utf8
  import opened LineEditor

  lemma FitsAfter(l: Line, k: Key)
    requires Fits(l)
    ensures Fits(Press(l, k))
  {
    PressFits(l, k);
  }

  /** Backspace takes the character left of the cursor, Delete the one right of it. */
  lemma BackspaceIsLeftDelete(l: Line)
    requires Fits(l) && l.pos > 0
    ensures Fits(Press(l, Left)) && Press(Press(l, Left), Delete) == Press(l, Backspace)
    ensures Press(l, Left).text == l.text && Press(l, Left).pos == l.pos - 1
    ensures var t := Press(l, Backspace);
      |t.text| == |l.text| - 1 && t.pos == l.pos - 1 && t.text[..t.pos] == l.text[..t.pos]
  {
    FitsAfter(l, Left);
  }

  lemma DeleteIsRightBackspace(l: Line)
    requires Fits(l) && l.pos < |l.text|
    ensures Fits(Press(l, Right)) && Press(Press(l, Right), Backspace) == Press(l, Delete)
    ensures Press(l, Right).text == l.text && Press(l, Right).pos == l.pos + 1
    ensures var t := Press(l, Delete);
      && |t.text| == |l.text| - 1 && t.pos == l.pos
      && t.text[..t.pos] == l.text[..t.pos] && t.text[t.pos..] == l.text[t.pos + 1..]
  {
    FitsAfter(l, Right);
  }

  /** Left and Right undo each other inside the line, and do nothing at its ends. */
  lemma LeftAndRight(l: Line)
    requires Fits(l)
    ensures Fits(Press(l, Left)) && Fits(Press(l, Right))
    ensures if l.pos > 0 then Press(Press(l, Left), Right) == l else Press(l, Left) == l
    ensures if l.pos < |l.text| then Press(Press(l, Right), Left) == l else Press(l, Right) == l
  {
    FitsAfter(l, Left);
    FitsAfter(l, Right);
  }

  /** Nothing is deleted past the ends. */
  lemma EndsAreEnds(l: Line)
    requires Fits(l)
    ensures l.pos == 0 ==> Press(l, Backspace) == l
    ensures l.pos == |l.text| ==> Press(l, Delete) == l
  {
  }

  /** Typing after Home puts a character before the text, typing after End behind it. */
  lemma HomeAndEnd(l: Line, cp: nat)
    requires Fits(l) && Accepts(l, cp)
    ensures Fits(Press(l, Home)) && Press(Press(l, Home), Insert(cp)) == Line([cp] + l.text, 1)
    ensures Fits(Press(l, End)) && Press(Press(l, End), Insert(cp)) == Line(l.text + [cp], |l.text| + 1)
  {
    FitsAfter(l, Home);
    FitsAfter(l, End);
  }

  /** What is typed stands before the cursor, between what stood on both its sides. */
  lemma TypedAtTheCursor(l: Line, cp: nat)
    requires Fits(l) && Accepts(l, cp)
    ensures var t := Press(l, Insert(cp));
      && |t.text| == |l.text| + 1 && t.pos == l.pos + 1 && t.text[l.pos] == cp
      && t.text[..l.pos] == l.text[..l.pos] && t.text[t.pos..] == l.text[l.pos..]
  {
  }

  /** Exactly the codepoints that are no control, no surrogate, in range and fit into 255 bytes are taken. */
  lemma TypedIfTaken(l: Line, cp: nat)
    requires Fits(l)
    ensures Press(l, Insert(cp)) != l <==>
      && 0x20 <= cp <= 0x10FFFF && !(0x7F <= cp < 0xA0) && !(0xD800 <= cp <= 0xDFFF)
      && |EncodeAll(l.text)| + |Encode(cp)| <= 255
  {
  }

  lemma WipeEmpties(l: Line)
    requires Fits(l)
    ensures Press(l, Wipe) == Line([], 0)
  {
  }

  /** Ctrl-W takes a word and the blanks behind it, as many Backspaces would, and leaves the rest. */
  lemma CutWordCuts(l: Line)
    requires Fits(l)
    ensures var t := Press(l, CutWord); var start := t.pos;
      && start <= l.pos && t.text == l.text[..start] + l.text[l.pos..]
      && (start > 0 ==> l.text[start - 1] == SPACE)
      && exists blank :: start <= blank <= l.pos && CutIsAWord(l.text, start, blank, l.pos)
  {
    CutWordTakesAWord(l.text, l.pos);
    var blank := SkipSpaces(l.text, l.pos);
    assert CutIsAWord(l.text, SkipWord(l.text, blank), blank, l.pos);
  }

  /** From start to blank there is no blank, from there to the end there is nothing else. */
  predicate CutIsAWord(text: seq<nat>, start: nat, blank: nat, end: nat)
    requires start <= blank <= end <= |text|
  {
    && (forall i :: start <= i < blank ==> text[i] != SPACE)
    && (forall i :: blank <= i < end ==> text[i] == SPACE)
    && (blank > 0 ==> start < blank)
  }

  function Backspaces(n: nat): seq<Key> { seq(n, _ => Backspace) }

  /** As many Backspaces take as many characters. */
  lemma {:induction false} BackspacesCut(l: Line, n: nat)
    requires Fits(l) && n <= l.pos
    ensures PressAll(l, Backspaces(n)) == Cut(l, l.pos - n, l.pos)
    decreases n
  {
    if n > 0 {
      FitsAfter(l, Backspace);
      BackspacesCut(Press(l, Backspace), n - 1);
      assert Backspaces(n)[1..] == Backspaces(n - 1);
    } else {
      assert l.text[..l.pos] + l.text[l.pos..] == l.text;
    }
  }
}
