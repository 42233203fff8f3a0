/**
 * The command prompt as the program keeps it: UTF-8 bytes with a terminator
 * in a fixed buffer, and byte offsets. Every key is proved to do to the bytes
 * what LineEditor.Press does to the codepoints.
 */
module Prompt {
  import opened Utf8
  import opened LineEditor

  class Buffer {
    ghost var line: Line
    const bytes: array<Byte>
    var length: nat
    var cursor: nat

    ghost predicate Valid()
      reads this, bytes
    {
      && bytes.Length == CAPACITY && Fits(line)
      && length == |EncodeAll(line.text)| && bytes[..length] == EncodeAll(line.text)
      && bytes[length] == 0
      && cursor == Offset(line.text, line.pos)
    }

    constructor ()
      ensures Valid() && fresh(bytes) && line == Line([], 0)
    {
      bytes := new Byte[CAPACITY](_ => 0);
      length, cursor, line := 0, 0, Line([], 0);
    }

    /** The start of the character before offset i. */
    method Prev(i: nat, ghost k: nat) returns (j: nat)
      requires Valid() && k <= |line.text| && i == Offset(line.text, k)
      ensures j == Offset(line.text, if k > 0 then k - 1 else 0)
    {
      ghost var e := EncodeAll(line.text);
      ghost var start := if k > 0 then Offset(line.text, k - 1) else 0;
      assert forall m :: 0 <= m < length ==> bytes[m] == bytes[..length][m];
      j := i;
      OffsetEnds(line.text);
      if k > 0 { BytesAt(line.text, k - 1); }
      if i > 0 {
        j := j - 1;
        while j > 0 && IsContinuation(bytes[j])
          invariant start <= j < i
        {
          assert bytes[start] == e[start];
          j := j - 1;
        }
        assert bytes[j] == e[j];
      }
    }

    /** The start of the character after the one at offset i, or the end. */
    method Next(i: nat, ghost k: nat) returns (j: nat)
      requires Valid() && k <= |line.text| && i == Offset(line.text, k)
      ensures j == Offset(line.text, if k < |line.text| then k + 1 else k)
    {
      ghost var e := EncodeAll(line.text);
      ghost var end := if k < |line.text| then Offset(line.text, k + 1) else i;
      assert forall m :: 0 <= m < length ==> bytes[m] == bytes[..length][m];
      j := i;
      OffsetEnds(line.text);
      if k < |line.text| { BytesAt(line.text, k); }
      if k + 1 < |line.text| { BytesAt(line.text, k + 1); }
      if i < length {
        j := j + 1;
        while j < length && IsContinuation(bytes[j])
          invariant i < j <= end
        {
          assert bytes[j] == e[j];
          j := j + 1;
        }
        assert j < length ==> bytes[j] == e[j];
      }
    }

    /** Moves the bytes from to on, terminator included, down to from. */
    method MoveDown(from: nat, to: nat)
      requires bytes.Length == CAPACITY && from <= to <= length < CAPACITY
      modifies bytes
      ensures forall m :: 0 <= m < from ==> bytes[m] == old(bytes[m])
      ensures forall m :: from <= m <= length - (to - from) ==> bytes[m] == old(bytes[m + (to - from)])
    {
      ghost var before := bytes[..];
      var j := to;
      while j <= length
        invariant to <= j <= length + 1
        invariant forall m {:trigger bytes[m]} :: 0 <= m < from ==> bytes[m] == before[m]
        invariant forall m {:trigger bytes[m]} ::
          from <= m < j - (to - from) ==> bytes[m] == before[m + (to - from)]
        invariant forall m {:trigger bytes[m]} :: j <= m <= length ==> bytes[m] == before[m]
      {
        bytes[j - (to - from)] := bytes[j];
        j := j + 1;
      }
    }

    /** Moves the bytes from at on, terminator included, n up. */
    method MoveUp(at: nat, n: nat)
      requires bytes.Length == CAPACITY && at <= length && length + n < CAPACITY
      modifies bytes
      ensures forall m :: 0 <= m < at ==> bytes[m] == old(bytes[m])
      ensures forall m :: at + n <= m <= length + n ==> bytes[m] == old(bytes[m - n])
    {
      ghost var before := bytes[..];
      var j := length + 1;
      while j > at
        invariant at <= j <= length + 1
        invariant forall m {:trigger bytes[m]} :: 0 <= m < j ==> bytes[m] == before[m]
        invariant forall m {:trigger bytes[m]} :: j + n <= m <= length + n ==> bytes[m] == before[m - n]
      {
        j := j - 1;
        bytes[j + n] := bytes[j];
      }
    }

    /** Copies a short sequence into the buffer. */
    method CopyIn(at: nat, c: array<Byte>, n: nat)
      requires bytes.Length == CAPACITY && at + n <= CAPACITY && n <= c.Length && c != bytes
      modifies bytes
      ensures bytes[at..at + n] == c[..n]
      ensures forall m :: 0 <= m < CAPACITY && !(at <= m < at + n) ==> bytes[m] == old(bytes[m])
    {
      var j := 0;
      while j < n
        invariant 0 <= j <= n
        invariant forall m :: at <= m < at + j ==> bytes[m] == c[m - at]
        invariant forall m :: 0 <= m < CAPACITY && !(at <= m < at + j) ==> bytes[m] == old(bytes[m])
      {
        bytes[at + j] := c[j];
        j := j + 1;
      }
    }

    /** The bytes are those of l: takes its length and cursor over. */
    method Commit(length: nat, cursor: nat, ghost l: Line)
      requires bytes.Length == CAPACITY && Fits(l) && length == |EncodeAll(l.text)|
      requires bytes[..length] == EncodeAll(l.text) && bytes[length] == 0 && cursor == Offset(l.text, l.pos)
      modifies this
      ensures Valid() && line == l
    {
      this.length, this.cursor, line := length, cursor, l;
    }

    method RemoveBytes(from: nat, to: nat, ghost e: seq<Byte>)
      requires bytes.Length == CAPACITY && from <= to <= length < CAPACITY
      requires |e| == length && bytes[..length] == e && bytes[length] == 0
      modifies bytes
      ensures bytes[..length - (to - from)] == e[..from] + e[to..]
      ensures bytes[length - (to - from)] == 0
    {
      MoveDown(from, to);
      SpliceOut(old(bytes[..]), bytes[..], e, from, to);
    }

    /** Removes the bytes between two character starts and leaves the cursor there. */
    method CutBytes(from: nat, to: nat, ghost a: nat, ghost b: nat)
      requires Valid() && a <= b <= |line.text|
      requires from == Offset(line.text, a) && to == Offset(line.text, b)
      modifies this, bytes
      ensures Valid() && line == Cut(old(line), a, b)
    {
      CutEncoding(line.text, a, b);
      RemoveBytes(from, to, EncodeAll(line.text));
      Commit(length - (to - from), from, Cut(line, a, b));
    }

    /** What MoveDown leaves: the text without the cut, then the terminator. */
    static lemma SpliceOut(before: seq<Byte>, after: seq<Byte>, e: seq<Byte>, from: nat, to: nat)
      requires |before| == |after| > |e| && from <= to <= |e|
      requires before[..|e|] == e && before[|e|] == 0
      requires forall m :: 0 <= m < from ==> after[m] == before[m]
      requires forall m :: from <= m <= |e| - (to - from) ==> after[m] == before[m + (to - from)]
      ensures after[..|e| - (to - from)] == e[..from] + e[to..]
      ensures after[|e| - (to - from)] == 0
    {
      assert forall m :: 0 <= m < |e| ==> before[m] == before[..|e|][m];
    }

    /** Puts a typed codepoint in at the cursor if it is printable and fits. */
    method Type(cp: nat)
      requires Valid()
      modifies this, bytes
      ensures Valid() && line == Press(old(line), Insert(cp))
    {
      if cp < 0x20 || (cp >= 0x7f && cp < 0xa0) { return; }
      var encoded := new Byte[5](_ => 0);
      var n := PutCodepoint(encoded, 0, 5, cp);
      if n != 0 && length + n < CAPACITY {
        InsertBytes(encoded, n, cp);
      }
    }

    /** Opens a gap at the cursor and copies the bytes in. */
    method OpenAndCopy(encoded: array<Byte>, n: nat, ghost e: seq<Byte>)
      requires bytes.Length == CAPACITY && encoded != bytes && n <= encoded.Length && length + n < CAPACITY
      requires |e| == length && bytes[..length] == e && bytes[length] == 0 && cursor <= length
      modifies bytes
      ensures bytes[..length + n] == e[..cursor] + encoded[..n] + e[cursor..]
      ensures bytes[length + n] == 0
    {
      MoveUp(cursor, n);
      CopyIn(cursor, encoded, n);
      SpliceIn(old(bytes[..]), bytes[..], e, encoded[..n], cursor);
    }

    method InsertBytes(encoded: array<Byte>, n: nat, ghost cp: nat)
      requires Valid() && encoded != bytes && n <= encoded.Length
      requires Accepts(line, cp) && encoded[..n] == Encode(cp) && length + n < CAPACITY
      modifies this, bytes
      ensures Valid() && line == Press(old(line), Insert(cp))
    {
      InsertEncoding(line.text, line.pos, cp);
      OffsetGrows(line.text, line.pos, |line.text|);
      OffsetEnds(line.text);
      OpenAndCopy(encoded, n, EncodeAll(line.text));
      Commit(length + n, cursor + n, Press(line, Insert(cp)));
    }

    static lemma SpliceIn(before: seq<Byte>, after: seq<Byte>, e: seq<Byte>, c: seq<Byte>, at: nat)
      requires |before| == |after| > |e| + |c| && at <= |e|
      requires before[..|e|] == e && before[|e|] == 0
      requires forall m :: 0 <= m < at ==> after[m] == before[m]
      requires after[at..at + |c|] == c
      requires forall m :: at + |c| <= m <= |e| + |c| ==> after[m] == before[m - |c|]
      ensures after[..|e| + |c|] == e[..at] + c + e[at..]
      ensures after[|e| + |c|] == 0
    {
      assert after[..at] == before[..|e|][..at];
      assert after[at + |c|..|e| + |c|] == before[at..|e|] == before[..|e|][at..];
      assert after[..|e| + |c|] == after[..at] + after[at..at + |c|] + after[at + |c|..|e| + |c|];
    }

    /** Where the word before the cursor starts, byte by byte. */
    method WordStart() returns (start: nat)
      requires Valid()
      ensures start == Offset(line.text, SkipWord(line.text, SkipSpaces(line.text, line.pos)))
    {
      ghost var e := EncodeAll(line.text);
      ghost var k: nat := line.pos;
      OffsetGrows(line.text, k, |line.text|);
      OffsetEnds(line.text);
      assert forall m :: 0 <= m < length ==> bytes[m] == bytes[..length][m];
      start := cursor;
      while start > 0 && bytes[start - 1] == SPACE
        invariant k <= line.pos && start == Offset(line.text, k) <= length
        invariant SkipSpaces(line.text, k) == SkipSpaces(line.text, line.pos)
      {
        LastByte(line.text, k);
        k := k - 1;
        start := start - 1;
      }
      if k > 0 { LastByte(line.text, k); }
      assert k == SkipSpaces(line.text, line.pos);
      ghost var blank := k;
      while start > 0 && bytes[start - 1] != SPACE
        invariant k <= blank && Inside(line.text, start, k)
        invariant SkipWord(line.text, k) == SkipWord(line.text, blank)
      {
        StepBack(line.text, start, k);
        if start == Offset(line.text, k) { k := k - 1; }
        start := start - 1;
      }
      if start > 0 { StepBack(line.text, start, k); }
    }

    method Erase()
      requires Valid()
      modifies this, bytes
      ensures Valid() && line == Line([], 0)
    {
      length, cursor := 0, 0;
      bytes[0] := 0;
      line := Line([], 0);
    }

    method EraseBefore()
      requires Valid()
      modifies this, bytes
      ensures Valid() && line == Press(old(line), Backspace)
    {
      var from := Prev(cursor, line.pos);
      assert line.text[..0] + line.text[0..] == line.text;
      CutBytes(from, cursor, if line.pos > 0 then line.pos - 1 else 0, line.pos);
    }

    method EraseAfter()
      requires Valid()
      modifies this, bytes
      ensures Valid() && line == Press(old(line), Delete)
    {
      var to := Next(cursor, line.pos);
      assert line.text[..line.pos] + line.text[line.pos..] == line.text;
      CutBytes(cursor, to, line.pos, if line.pos < |line.text| then line.pos + 1 else line.pos);
    }

    method EraseWord()
      requires Valid()
      modifies this, bytes
      ensures Valid() && line == Press(old(line), CutWord)
    {
      var start := WordStart();
      CutBytes(start, cursor, SkipWord(line.text, SkipSpaces(line.text, line.pos)), line.pos);
    }

    method MoveTo(to: nat, ghost pos: nat)
      requires Valid() && pos <= |line.text| && to == Offset(line.text, pos)
      modifies this
      ensures Valid() && line == old(line).(pos := pos)
    {
      cursor := to;
      line := line.(pos := pos);
    }

    /** The editing keys of runner_key. */
    method PressKey(k: Key)
      requires Valid()
      modifies this, bytes
      ensures Valid() && line == Press(old(line), k)
    {
      match k
      case Insert(cp) => Type(cp);
      case Backspace => EraseBefore();
      case Delete => EraseAfter();
      case Left =>
        var to := Prev(cursor, line.pos);
        MoveTo(to, if line.pos > 0 then line.pos - 1 else 0);
      case Right =>
        var to := Next(cursor, line.pos);
        MoveTo(to, if line.pos < |line.text| then line.pos + 1 else line.pos);
      case Home =>
        OffsetEnds(line.text);
        MoveTo(0, 0);
      case End =>
        OffsetEnds(line.text);
        MoveTo(length, |line.text|);
      case CutWord => EraseWord();
      case Wipe => Erase();
    }

    /** Any run of keys: the bytes are the UTF-8 of the edited line all along. */
    method PressKeys(ks: seq<Key>)
      requires Valid()
      modifies this, bytes
      ensures Valid() && line == PressAll(old(line), ks)
      ensures length < CAPACITY && cursor <= length && bytes[length] == 0
    {
      var i := 0;
      while i < |ks|
        invariant 0 <= i <= |ks| && Valid()
        invariant PressAll(line, ks[i..]) == PressAll(old(line), ks)
      {
        assert ks[i..][1..] == ks[i + 1..];
        PressKey(ks[i]);
        i := i + 1;
      }
      OffsetGrows(line.text, line.pos, |line.text|);
      OffsetEnds(line.text);
    }
  }

  /** The byte before a character start is a space exactly when the codepoint before it is. */
  lemma LastByte(text: seq<nat>, k: nat)
    requires AllEncodable(text) && 0 < k <= |text|
    ensures 0 < Offset(text, k) <= |EncodeAll(text)|
    ensures EncodeAll(text)[Offset(text, k) - 1] == SPACE <==> text[k - 1] == SPACE
    ensures text[k - 1] == SPACE ==> Offset(text, k) == Offset(text, k - 1) + 1
  {
    BytesAt(text, k - 1);
    SpaceBytes(text[k - 1], |Encode(text[k - 1])| - 1);
  }

  /** start is where the k-th codepoint starts, or inside it, and then it is no space. */
  ghost predicate Inside(text: seq<nat>, start: nat, k: nat) {
    && AllEncodable(text) && k <= |text| && Offset(text, k) <= start <= |EncodeAll(text)|
    && (start > Offset(text, k) ==>
          k < |text| && start < Offset(text, k + 1) && text[k] != SPACE)
  }

  /** One byte back from inside a word stays inside it, and meets a space only at a character start. */
  lemma StepBack(text: seq<nat>, start: nat, k: nat)
    requires Inside(text, start, k) && start > 0
    ensures start == Offset(text, k) ==> k > 0
    ensures start == Offset(text, k) ==> (EncodeAll(text)[start - 1] == SPACE <==> text[k - 1] == SPACE)
    ensures start > Offset(text, k) ==> EncodeAll(text)[start - 1] != SPACE && Inside(text, start - 1, k)
    ensures start == Offset(text, k) && text[k - 1] != SPACE ==> Inside(text, start - 1, k - 1)
  {
    OffsetEnds(text);
    if start == Offset(text, k) {
      LastByte(text, k);
      BytesAt(text, k - 1);
    } else {
      BytesAt(text, k);
      SpaceBytes(text[k], start - 1 - Offset(text, k));
    }
  }
}
