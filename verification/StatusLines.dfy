/** Which line of the status stream is shown, said by where it stands in the stream. */
module StatusLines {
  import opened Utf8
  import opened StatusStream

  /** A stream, a line in it, and what is left after its last newline. */
  lemma LastLineIs(shown: seq<Byte>, before: seq<Byte>, line: seq<Byte>, after: seq<Byte>)
    requires 0 !in before && 0 !in line && 0 !in after && NEWLINE !in line && NEWLINE !in after
    requires before == [] || before[|before| - 1] == NEWLINE
    ensures LastLine(shown, before + line + [NEWLINE] + after) ==
      if |line| <= 4094 then line else LastLine(shown, before)
  {
    var last: seq<Byte> := line + [NEWLINE] + after;
    hide LastLine;
    hide Tail;
    hide LineEnd;
    Regrouped(before, line, [NEWLINE], after);
    TailEmpty(before);
    ReadingOn(shown, before, last);
    assert [] + last == last;
    OneLine(LastLine(shown, before), line, after);
  }

  lemma Regrouped<T>(a: seq<T>, b: seq<T>, c: seq<T>, d: seq<T>)
    ensures a + b + c + d == a + (b + c + d)
  {
  }

  lemma OneLine(shown: seq<Byte>, line: seq<Byte>, after: seq<Byte>)
    requires 0 !in line && 0 !in after && NEWLINE !in line && NEWLINE !in after
    ensures LastLine(shown, line + [NEWLINE] + after) == if |line| <= 4094 then line else shown
  {
    hide LastLine;
    hide Tail;
    hide LineEnd;
    AfterLine(shown, line, after);
    NoLine(if |line| <= STATUS_MAX - 2 then line else shown, after);
  }

  /** Nothing is left over behind a newline. */
  lemma {:induction false} TailEmpty(stream: seq<Byte>)
    requires 0 !in stream && (stream == [] || stream[|stream| - 1] == NEWLINE)
    ensures Tail(stream) == []
    decreases |stream|
  {
    if stream != [] {
      var i := LineEnd(stream);
      TailEmpty(stream[i + 1..]);
    }
  }

  /** Without a whole line what was shown stays. */
  lemma NothingShownYet(shown: seq<Byte>, stream: seq<Byte>)
    requires 0 !in stream && NEWLINE !in stream
    ensures LastLine(shown, stream) == shown
  {
    NoLine(shown, stream);
  }
}
