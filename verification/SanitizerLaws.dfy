/** What sanitizing does to a text that is not all valid: the valid parts stay, in place. */
module SanitizerLaws {
  import opened Utf8
  import opened Sanitizer

  lemma WholeInFront(a: seq<Byte>, b: seq<Byte>)
    requires a != [] && WholeLength(a) > 0
    ensures WholeLength(a + b) == WholeLength(a)
  {
    assert forall i :: 0 <= i < |a| ==> (a + b)[i] == a[i];
  }

  /** A clean beginning that fits is kept, and the rest is read as if it stood alone. */
  lemma {:induction false} CleanBeginningStays(a: seq<Byte>, rest: seq<Byte>, room: nat)
    requires Clean(a) && |a| <= room
    ensures Sanitized(a + rest, room) == a + Sanitized(rest, room - |a|)
    decreases |a|
  {
    hide Sanitized;
    if a == [] {
      assert a + rest == rest && [] + Sanitized(rest, room) == Sanitized(rest, room);
    } else {
      var n := WholeLength(a);
      SplitFirst(a, rest, room);
      CleanBeginningStays(a[n..], rest, room - n);
      hide WholeLength;
      FrontJoins(a, n, Sanitized(rest, room - |a|));
    }
  }

  lemma SplitFirst(a: seq<Byte>, rest: seq<Byte>, room: nat)
    requires a != [] && Clean(a) && |a| <= room
    ensures var n := WholeLength(a);
      0 < n <= |a| && Clean(a[n..]) && Sanitized(a + rest, room) == a[..n] + Sanitized(a[n..] + rest, room - n)
  {
    var n := WholeLength(a);
    WholeInFront(a, rest);
    assert (a + rest)[n..] == a[n..] + rest && (a + rest)[..n] == a[..n] && (a + rest)[0] == a[0];
    hide WholeLength;
  }

  lemma FrontJoins(a: seq<Byte>, n: nat, b: seq<Byte>)
    requires n <= |a|
    ensures a[..n] + (a[n..] + b) == a + b
  {
  }

  /** A byte that starts no whole sequence is dropped, alone, and reading goes on behind it. */
  lemma InvalidByteIsDropped(a: seq<Byte>, b: Byte, rest: seq<Byte>, room: nat)
    requires Clean(a) && |a| <= room && WholeLength([b] + rest) == 0
    ensures Sanitized(a + [b] + rest, room) == a + Sanitized(rest, room - |a|)
    ensures Sanitized(a + [b] + rest, room) == Sanitized(a + rest, room)
  {
    CleanBeginningStays(a, [b] + rest, room);
    CleanBeginningStays(a, rest, room);
    assert a + [b] + rest == a + ([b] + rest);
    assert ([b] + rest)[1..] == rest;
  }

  /** A control character becomes a space. */
  lemma ControlBecomesSpace(a: seq<Byte>, b: Byte, rest: seq<Byte>, room: nat)
    requires Clean(a) && |a| < room && (b < 32 || b == 127)
    ensures Sanitized(a + [b] + rest, room) == a + [' ' as int] + Sanitized(rest, room - |a| - 1)
  {
    CleanBeginningStays(a, [b] + rest, room);
    assert a + [b] + rest == a + ([b] + rest);
    assert ([b] + rest)[1..] == rest && ([b] + rest)[0] == b;
    assert WholeLength([b] + rest) == 1;
    assert Sanitized([b] + rest, room - |a|) == [' ' as int] + Sanitized(rest, room - |a| - 1);
    hide *;
  }

  /** A character that does not fit ends the text, even if a shorter one after it would fit. */
  lemma FullStops(a: seq<Byte>, cp: nat, rest: seq<Byte>, room: nat)
    requires Clean(a) && Encodable(cp) && |a| <= room < |a| + |Encode(cp)|
    ensures Sanitized(a + Encode(cp) + rest, room) == a
  {
    CleanBeginningStays(a, Encode(cp) + rest, room);
    assert a + Encode(cp) + rest == a + (Encode(cp) + rest);
    EncodedIsWhole(cp);
    WholeInFront(Encode(cp), rest);
    hide WholeLength;
    hide Encode;
    assert a + [] == a;
  }

  /** Bytes that start nothing: continuation bytes, C0 and C1, F5 and above, and lead bytes cut short. */
  lemma StartsNothing(b: Byte, rest: seq<Byte>)
    ensures 0x80 <= b < 0xC2 || b >= 0xF5 ==> WholeLength([b] + rest) == 0
    ensures b >= 0xC2 && (rest == [] || !IsContinuation(rest[0])) ==> WholeLength([b] + rest) == 0
    ensures b >= 0xE0 && (|rest| < 2 || !IsContinuation(rest[1])) ==> WholeLength([b] + rest) == 0
    ensures b >= 0xF0 && (|rest| < 3 || !IsContinuation(rest[2])) ==> WholeLength([b] + rest) == 0
  {
    var s := [b] + rest;
    assert |rest| > 0 ==> s[1] == rest[0];
    assert |rest| > 1 ==> s[2] == rest[1];
    assert |rest| > 2 ==> s[3] == rest[2];
  }
}
