/** What the notification server keeps of the text a client sends. */
module Sanitizer {
  import opened Utf8

  const SPACE: Byte := 0x20

  /** The length a lead byte announces, 0 for a byte that cannot lead. */
  function LeadLength(b: Byte): nat {
    if b < 0x80 then 1 else if b < 0xC2 then 0
    else if b < 0xE0 then 2 else if b < 0xF0 then 3 else if b < 0xF5 then 4 else 0
  }

  predicate IsControl(b: Byte) { b < SPACE || b == 0x7F }

  /**
   * The length of the whole sequence s starts with: a lead byte and all the
   * continuation bytes it announces; 0 if none.
   */
  function WholeLength(s: seq<Byte>): (n: nat)
    requires s != []
    ensures n <= |s|
  {
    var n := LeadLength(s[0]);
    if n <= |s| && (forall i :: 1 <= i < n ==> IsContinuation(s[i])) then n else 0
  }

  /** Runs of whole sequences without control characters. */
  predicate Clean(s: seq<Byte>)
    decreases |s|
  {
    s == [] || (WholeLength(s) > 0 && !IsControl(s[0]) && Clean(s[WholeLength(s)..]))
  }

  /** What is kept of s in room bytes. */
  function Sanitized(s: seq<Byte>, room: nat): seq<Byte>
    decreases |s|
  {
    if s == [] then []
    else
      var n := WholeLength(s);
      if n == 0 then Sanitized(s[1..], room)
      else if n > room then []
      else if IsControl(s[0]) then [SPACE] + Sanitized(s[1..], room - 1)
      else s[..n] + Sanitized(s[n..], room - n)
  }

  lemma WholeThenRest(a: seq<Byte>, b: seq<Byte>)
    requires a != [] && WholeLength(a) == |a|
    ensures WholeLength(a + b) == |a| && (a + b)[|a|..] == b && (a + b)[..|a|] == a
  {
    assert forall i :: 0 <= i < |a| ==> (a + b)[i] == a[i];
  }

  lemma WholePrefix(s: seq<Byte>)
    requires s != [] && WholeLength(s) > 0
    ensures WholeLength(s[..WholeLength(s)]) == WholeLength(s)
  {
  }

  /** The output fits and is clean. */
  lemma {:induction false} SanitizedIsClean(s: seq<Byte>, room: nat)
    ensures |Sanitized(s, room)| <= room && Clean(Sanitized(s, room))
    decreases |s|
  {
    if s != [] {
      var n := WholeLength(s);
      if n == 0 {
        SanitizedIsClean(s[1..], room);
      } else if n <= room {
        if IsControl(s[0]) {
          SanitizedIsClean(s[1..], room - 1);
          WholeThenRest([SPACE], Sanitized(s[1..], room - 1));
        } else {
          SanitizedIsClean(s[n..], room - n);
          WholePrefix(s);
          WholeThenRest(s[..n], Sanitized(s[n..], room - n));
        }
      }
    }
  }

  /** Clean text that fits is kept as it is. */
  lemma {:induction false} CleanIsKept(s: seq<Byte>, room: nat)
    requires Clean(s) && |s| <= room
    ensures Sanitized(s, room) == s
    decreases |s|
  {
    if s != [] {
      CleanIsKept(s[WholeLength(s)..], room - WholeLength(s));
    }
  }

  /** Sanitizing twice into the same size is sanitizing once. */
  lemma SanitizedIsFixed(s: seq<Byte>, room: nat)
    ensures Sanitized(Sanitized(s, room), room) == Sanitized(s, room)
  {
    SanitizedIsClean(s, room);
    CleanIsKept(Sanitized(s, room), room);
  }

  /* ---- on well-formed text ---- */

  /** The codepoints that fit in room bytes, control characters as spaces. */
  function Fitting(cps: seq<nat>, room: nat): (r: seq<nat>)
    requires AllEncodable(cps)
    ensures AllEncodable(r) && |r| <= |cps|
    decreases |cps|
  {
    if cps == [] || |Encode(cps[0])| > room then []
    else
      [if cps[0] < 0x20 || cps[0] == 0x7F then 0x20 else cps[0]] + Fitting(cps[1..], room - |Encode(cps[0])|)
  }

  lemma EncodedIsWhole(cp: nat)
    requires Encodable(cp)
    ensures WholeLength(Encode(cp)) == |Encode(cp)|
    ensures IsControl(Encode(cp)[0]) <==> cp < 0x20 || cp == 0x7F
    ensures IsControl(Encode(cp)[0]) ==> Encode(cp) == [cp]
  {
  }

  lemma SpaceEncoded()
    ensures Encode(0x20) == [SPACE]
  {
  }

  /** Of UTF-8 text exactly the leading codepoints that fit are kept, none of them cut. */
  lemma {:induction false} SanitizedText(cps: seq<nat>, room: nat)
    requires AllEncodable(cps)
    ensures Sanitized(EncodeAll(cps), room) == EncodeAll(Fitting(cps, room))
    decreases |cps|
  {
    if cps != [] {
      var first, rest := Encode(cps[0]), EncodeAll(cps[1..]);
      EncodedIsWhole(cps[0]);
      WholeThenRest(first, rest);
      hide Encode;
      hide WholeLength;
      hide IsControl;
      if |first| <= room {
        SanitizedText(cps[1..], room - |first|);
        var kept := Fitting(cps[1..], room - |first|);
        var head := if cps[0] < 0x20 || cps[0] == 0x7F then 0x20 else cps[0];
        assert Fitting(cps, room) == [head] + kept && ([head] + kept)[1..] == kept;
        SpaceEncoded();
      }
    }
  }

  /* ---- the copy ---- */

  /** The length of the whole sequence at a place in src, found byte by byte. */
  method SequenceAt(src: seq<Byte>, at: nat) returns (length: nat)
    requires at < |src|
    ensures length == WholeLength(src[at..])
  {
    length := LeadLength(src[at]);
    if length == 0 { return; }
    var valid: nat := 1;
    while valid < length && at + valid < |src| && IsContinuation(src[at + valid])
      invariant 1 <= valid <= length && at + valid <= |src|
      invariant forall i :: 1 <= i < valid ==> IsContinuation(src[at..][i])
    {
      valid := valid + 1;
    }
    if valid < length { length := 0; }
  }

  method Append(dst: array<Byte>, written: nat, piece: seq<Byte>)
    requires written + |piece| <= dst.Length
    modifies dst
    ensures dst[..written + |piece|] == old(dst[..written]) + piece
    ensures forall i :: written + |piece| <= i < dst.Length ==> dst[i] == old(dst[i])
  {
    ghost var before := dst[..written];
    var offset: nat := 0;
    while offset < |piece|
      invariant offset <= |piece|
      invariant forall i :: 0 <= i < written ==> dst[i] == before[i]
      invariant forall i :: written <= i < written + offset ==> dst[i] == piece[i - written]
      invariant forall i :: written + offset <= i < dst.Length ==> dst[i] == old(dst[i])
    {
      dst[written + offset] := piece[offset];
      offset := offset + 1;
    }
  }

  /** What one step of the loop adds and how far it goes; no step if the sequence does not fit. */
  lemma SanitizedStep(src: seq<Byte>, at: nat, room: nat)
    requires at < |src|
    ensures var n := WholeLength(src[at..]); var r := Sanitized(src[at..], room);
      && at + n <= |src|
      && (n == 0 ==> r == Sanitized(src[at + 1..], room))
      && (n > room ==> r == [])
      && (0 < n <= room && IsControl(src[at]) ==> r == [SPACE] + Sanitized(src[at + 1..], room - 1))
      && (0 < n <= room && !IsControl(src[at]) ==> r == src[at..at + n] + Sanitized(src[at + n..], room - n))
  {
    var n := WholeLength(src[at..]);
    assert src[at..][1..] == src[at + 1..];
    assert src[at..][n..] == src[at + n..];
    assert src[at..][..n] == src[at..at + n];
    hide WholeLength;
  }

  /**
   * Copies the sequences of src that are whole and fit into dst, which has
   * size bytes, and ends it with a NUL.
   */
  method Sanitize(dst: array<Byte>, size: nat, src: seq<Byte>)
    requires size <= dst.Length && 0 !in src
    modifies dst
    ensures size > 0 ==> var text := Sanitized(src, size - 1);
      |text| < size && dst[..|text|] == text && dst[|text|] == 0
    ensures forall i :: size <= i < dst.Length ==> dst[i] == old(dst[i])
    ensures size == 0 ==> dst[..] == old(dst[..])
  {
    if size == 0 { return; }
    hide Sanitized;
    var written := CopySequences(dst, size, src);
    dst[written] := 0;
  }

  method CopySequences(dst: array<Byte>, size: nat, src: seq<Byte>) returns (written: nat)
    requires 0 < size <= dst.Length
    modifies dst
    ensures written < size && dst[..written] == Sanitized(src, size - 1)
    ensures forall i :: size <= i < dst.Length ==> dst[i] == old(dst[i])
  {
    hide Sanitized;
    hide WholeLength;
    hide IsControl;
    written := 0;
    var at: nat := 0;
    ghost var rest := Sanitized(src, size - 1);
    assert src[0..] == src;
    while at < |src|
      invariant at <= |src| && written < size && dst[..written] + rest == Sanitized(src, size - 1)
      invariant rest == Sanitized(src[at..], size - 1 - written)
      invariant forall i :: size <= i < dst.Length ==> dst[i] == old(dst[i])
      decreases |src| - at
    {
      SanitizedStep(src, at, size - 1 - written);
      var length := SequenceAt(src, at);
      if length == 0 {
        at := at + 1;
        continue;
      }
      if written + length >= size { break; }
      var piece := if IsControl(src[at]) then [SPACE] else src[at..at + length];
      ghost var kept := dst[..written];
      Append(dst, written, piece);
      rest := Sanitized(src[at + |piece|..], size - 1 - written - |piece|);
      PieceMoves(Sanitized(src, size - 1), kept, piece, rest);
      written, at := written + |piece|, at + |piece|;
    }
    if at == |src| {
      SanitizedOfNothing(size - 1 - written);
    }
    assert dst[..written] + [] == dst[..written];
  }

  lemma PieceMoves(text: seq<Byte>, kept: seq<Byte>, piece: seq<Byte>, rest: seq<Byte>)
    requires text == kept + (piece + rest)
    ensures text == (kept + piece) + rest
  {
  }

  lemma SanitizedOfNothing(room: nat)
    ensures Sanitized([], room) == []
  {
  }
}
