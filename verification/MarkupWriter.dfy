/** The flattening as it runs: a cursor through the markup and a buffer that fills. */
module MarkupWriter {
  import opened Sequences
  import opened Utf8
  import opened Markup
  import Sanitizer

  method FindEntity(s: seq<Byte>) returns (k: nat)
    ensures k == EntityAt(s)
  {
    k := 0;
    while k < |ENTITIES| && !(ENTITIES[k].name <= s)
      invariant k <= |ENTITIES| && forall j :: 0 <= j < k ==> !(ENTITIES[j].name <= s)
    {
      k := k + 1;
    }
  }

  method FindTag(s: seq<Byte>) returns (k: nat, length: nat)
    ensures length == NameLength(s) && k == TagOf(s[..length])
  {
    length := 0;
    while length < |s| && !EndsName(s[length])
      invariant length <= |s| && forall i :: 0 <= i < length ==> !EndsName(s[i])
    {
      length := length + 1;
    }
    k := 0;
    while k < |TAGS| && !SameName(s[..length], TAGS[k])
      invariant k <= |TAGS| && forall j :: 0 <= j < k ==> !SameName(s[..length], TAGS[j])
    {
      k := k + 1;
    }
  }

  /** Writes what the text at the cursor becomes; tells how much it wrote and how much it took. */
  method WriteStep(dst: array<Byte>, size: nat, src: seq<Byte>, at: nat, written: nat) returns (wrote: nat, used: nat)
    requires written + 1 < size <= dst.Length && at < |src|
    modifies dst
    ensures var p := Step(src[at..], size - written - 1);
      used == p.used && wrote == |p.out| && dst[..written + wrote] == old(dst[..written]) + p.out
    ensures forall i :: size <= i < dst.Length ==> dst[i] == old(dst[i])
  {
    hide Reference;
    hide Tag;
    hide EntityAt;
    hide Encode;
    var s := src[at..];
    var room := size - written - 1;
    if s[0] == AMPERSAND {
      var k := FindEntity(s[1..]);
      if k < |ENTITIES| {
        dst[written] := ENTITIES[k].character;
        return 1, 1 + |ENTITIES[k].name|;
      }
      wrote, used := WriteReference(dst, size, s, written);
      if wrote > 0 { return; }
    } else if s[0] == LESS {
      var end := TagEnd(s);
      if end < |s| {
        var from := if s[1] == SLASH then 2 else 1;
        var k, length := FindTag(s[from..]);
        TagFound(s, from, length, k);
        if k < |TAGS| {
          if TAGS[k] == BREAK {
            dst[written] := SPACE;
            return 1, end + 1;
          }
          assert dst[..written + 0] == old(dst[..written]) + [];
          return 0, end + 1;
        }
      } else {
        NoTag(s);
      }
    }
    dst[written] := s[0];
    wrote, used := 1, 1;
  }

  lemma TagFound(s: seq<Byte>, from: nat, length: nat, k: nat)
    requires s != [] && s[0] == LESS && TagEnd(s) < |s| && from == (if s[1] == SLASH then 2 else 1) && from <= |s|
    requires length == NameLength(s[from..]) && k == TagOf(s[from..][..length])
    ensures Tag(s) == if k == |TAGS| then None else Some(Piece(if TAGS[k] == BREAK then [SPACE] else [], TagEnd(s) + 1))
  {
    hide TagEnd;
    hide NameLength;
    hide TagOf;
    assert s[from..from + length] == s[from..][..length];
  }

  lemma NoTag(s: seq<Byte>)
    requires TagEnd(s) == |s|
    ensures Tag(s).None?
  {
  }

  /** Writes the codepoint of a numeric reference, or nothing if there is none that fits. */
  method WriteReference(dst: array<Byte>, size: nat, s: seq<Byte>, written: nat) returns (wrote: nat, used: nat)
    requires written + 1 < size <= dst.Length && s != []
    modifies dst
    ensures var p := Reference(s, size - written - 1);
      if p.Some? then wrote > 0 && wrote == |p.value.out| && used == p.value.used &&
                      dst[..written + wrote] == old(dst[..written]) + p.value.out
      else wrote == 0 && dst[..written] == old(dst[..written])
    ensures forall i :: size <= i < dst.Length ==> dst[i] == old(dst[i])
  {
    hide ReadNumber;
    hide Encode;
    wrote, used := 0, 0;
    if |s| < 2 || s[1] != HASH { return; }
    var hex := |s| > 2 && (s[2] == 0x78 || s[2] == 0x58);
    var from := if hex then 3 else 2;
    var number := ReadNumber(s[from..], if hex then 16 else 10);
    var end := from + number.end;
    if end < |s| && s[end] == SEMICOLON && end > 2 {
      wrote := PutCodepoint(dst, written, size - written, number.value);
      used := end + 1;
      assert forall i :: 0 <= i < written ==> dst[i] == old(dst[i]);
      if wrote > 0 {
        assert dst[..written + wrote] == dst[..written] + dst[written..written + wrote];
      }
      assert dst[..written] == old(dst[..written]);
    }
  }

  /** Flattens src into dst, which has size bytes, and ends it with a NUL. */
  method Demarkup(dst: array<Byte>, size: nat, src: seq<Byte>)
    requires size <= dst.Length && 0 !in src
    modifies dst
    ensures size > 0 ==> var text := Flattened(src, size - 1);
      |text| < size && dst[..|text|] == text && dst[|text|] == 0
    ensures forall i :: size <= i < dst.Length ==> dst[i] == old(dst[i])
    ensures size == 0 ==> dst[..] == old(dst[..])
  {
    if size == 0 { return; }
    hide Flattened;
    var written := WriteAll(dst, size, src);
    dst[written] := 0;
  }

  method WriteAll(dst: array<Byte>, size: nat, src: seq<Byte>) returns (written: nat)
    requires 0 < size <= dst.Length
    modifies dst
    ensures written < size && dst[..written] == Flattened(src, size - 1)
    ensures forall i :: size <= i < dst.Length ==> dst[i] == old(dst[i])
  {
    hide Flattened;
    hide Step;
    written := 0;
    var at: nat := 0;
    ghost var rest := Flattened(src, size - 1);
    assert src[0..] == src;
    while at < |src| && written + 1 < size
      invariant at <= |src| && written < size && dst[..written] + rest == Flattened(src, size - 1)
      invariant rest == Flattened(src[at..], size - 1 - written)
      invariant forall i :: size <= i < dst.Length ==> dst[i] == old(dst[i])
      decreases |src| - at
    {
      FlattenedStep(src, at, size - 1 - written);
      ghost var kept, out := dst[..written], Step(src[at..], size - 1 - written).out;
      var wrote, used := WriteStep(dst, size, src, at, written);
      rest := Flattened(src[at + used..], size - 1 - written - wrote);
      Sanitizer.PieceMoves(Flattened(src, size - 1), kept, out, rest);
      written, at := written + wrote, at + used;
    }
    FlattenedEnd(src[at..], size - 1 - written);
    assert dst[..written] + [] == dst[..written];
  }

  lemma FlattenedStep(src: seq<Byte>, at: nat, room: nat)
    requires at < |src| && room > 0
    ensures var p := Step(src[at..], room);
      Flattened(src[at..], room) == p.out + Flattened(src[at + p.used..], room - |p.out|)
  {
    hide Step;
    var p := Step(src[at..], room);
    assert src[at..][p.used..] == src[at + p.used..];
  }

  lemma FlattenedEnd(s: seq<Byte>, room: nat)
    requires s == [] || room == 0
    ensures Flattened(s, room) == []
  {
  }
}
