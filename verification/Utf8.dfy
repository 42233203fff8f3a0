/** UTF-8 as the program writes it (section 3 of RFC 3629). */
module Utf8 {

  type Byte = b: int | 0 <= b < 256

  /** Codepoints that can be written: no NUL, no surrogates, nothing past U+10FFFF. */
  predicate Encodable(cp: nat) { cp != 0 && !(0xD800 <= cp <= 0xDFFF) && cp <= 0x10FFFF }

  predicate IsContinuation(b: Byte) { 0x80 <= b < 0xC0 }

  /**
   * The bytes of a codepoint. Shifts are divisions, masks are remainders, and
   * an or of disjoint bits is a sum.
   */
  function Encode(cp: nat): (bytes: seq<Byte>)
    requires Encodable(cp)
    ensures 1 <= |bytes| <= 4
    ensures !IsContinuation(bytes[0])
    ensures forall i :: 1 <= i < |bytes| ==> IsContinuation(bytes[i])
    ensures forall i :: 0 <= i < |bytes| ==> bytes[i] != 0
  {
    if cp < 0x80 then [cp]
    else if cp < 0x800 then [0xC0 + cp / 64, 0x80 + cp % 64]
    else if cp < 0x10000 then [0xE0 + cp / 4096, 0x80 + cp / 64 % 64, 0x80 + cp % 64]
    else [0xF0 + cp / 262144, 0x80 + cp / 4096 % 64, 0x80 + cp / 64 % 64, 0x80 + cp % 64]
  }

  predicate AllEncodable(cps: seq<nat>) { forall i :: 0 <= i < |cps| ==> Encodable(cps[i]) }

  function EncodeAll(cps: seq<nat>): seq<Byte>
    requires AllEncodable(cps)
  {
    if cps == [] then [] else Encode(cps[0]) + EncodeAll(cps[1..])
  }

  lemma {:induction false} EncodeAllConcat(a: seq<nat>, b: seq<nat>)
    requires AllEncodable(a) && AllEncodable(b)
    ensures AllEncodable(a + b) && EncodeAll(a + b) == EncodeAll(a) + EncodeAll(b)
  {
    hide Encode;
    if a == [] {
      assert a + b == b;
    } else {
      assert (a + b)[1..] == a[1..] + b;
      EncodeAllConcat(a[1..], b);
      assert EncodeAll(a + b) == Encode(a[0]) + EncodeAll(a[1..] + b);
    }
  }

  lemma EncodeAllOne(cp: nat)
    requires Encodable(cp)
    ensures EncodeAll([cp]) == Encode(cp)
  {
    assert [cp][1..] == [];
  }

  lemma {:induction false} EncodeAllNoNul(cps: seq<nat>)
    requires AllEncodable(cps)
    ensures 0 !in EncodeAll(cps)
  {
    if cps != [] { EncodeAllNoNul(cps[1..]); }
  }

  /**
   * Writes cp at out[at..] if it is a codepoint and fits with a byte to
   * spare, and returns how many bytes that took; otherwise writes nothing.
   */
  method PutCodepoint(out: array<Byte>, at: nat, capacity: nat, cp: nat) returns (n: nat)
    requires at + capacity <= out.Length
    modifies out
    ensures n == if Encodable(cp) && |Encode(cp)| < capacity then |Encode(cp)| else 0
    ensures at + n <= out.Length
    ensures n > 0 ==> out[at..at + n] == Encode(cp)
    ensures forall i :: 0 <= i < out.Length && !(at <= i < at + n) ==> out[i] == old(out[i])
  {
    if cp == 0 || (cp >= 0xD800 && cp <= 0xDFFF) || cp > 0x10FFFF { return 0; }
    if cp < 0x80 && capacity > 1 {
      out[at] := cp;
      return 1;
    } else if cp < 0x800 && capacity > 2 {
      out[at] := 0xC0 + cp / 64;
      out[at + 1] := 0x80 + cp % 64;
      return 2;
    } else if cp < 0x10000 && capacity > 3 {
      out[at] := 0xE0 + cp / 4096;
      out[at + 1] := 0x80 + cp / 64 % 64;
      out[at + 2] := 0x80 + cp % 64;
      return 3;
    } else if cp >= 0x10000 && capacity > 4 {
      out[at] := 0xF0 + cp / 262144;
      out[at + 1] := 0x80 + cp / 4096 % 64;
      out[at + 2] := 0x80 + cp / 64 % 64;
      out[at + 3] := 0x80 + cp % 64;
      return 4;
    }
    return 0;
  }
}
