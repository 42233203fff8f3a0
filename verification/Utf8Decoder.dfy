/**
 * The table-driven UTF-8 decoder of the text drawing code, and the loop that
 * runs it over a string, against the grammar of section 4 of RFC 3629.
 */
module Utf8Decoder {
  import opened Sequences
  import opened Utf8

  const ACCEPT := 0
  const REJECT := 12
  const INVALID := 0xFFFD

  // The class of each byte, 32 bytes to a row.
  const CLASSES: seq<seq<nat>> := [
    [0,0,0,0,0,0,0,0,0,0,0,0,0,0,0,0, 0,0,0,0,0,0,0,0,0,0,0,0,0,0,0,0],
    [0,0,0,0,0,0,0,0,0,0,0,0,0,0,0,0, 0,0,0,0,0,0,0,0,0,0,0,0,0,0,0,0],
    [0,0,0,0,0,0,0,0,0,0,0,0,0,0,0,0, 0,0,0,0,0,0,0,0,0,0,0,0,0,0,0,0],
    [0,0,0,0,0,0,0,0,0,0,0,0,0,0,0,0, 0,0,0,0,0,0,0,0,0,0,0,0,0,0,0,0],
    [1,1,1,1,1,1,1,1,1,1,1,1,1,1,1,1, 9,9,9,9,9,9,9,9,9,9,9,9,9,9,9,9],
    [7,7,7,7,7,7,7,7,7,7,7,7,7,7,7,7, 7,7,7,7,7,7,7,7,7,7,7,7,7,7,7,7],
    [8,8,2,2,2,2,2,2,2,2,2,2,2,2,2,2, 2,2,2,2,2,2,2,2,2,2,2,2,2,2,2,2],
    [10,3,3,3,3,3,3,3,3,3,3,3,3,4,3,3, 11,6,6,6,5,8,8,8,8,8,8,8,8,8,8,8]]

  // The next state by class, 12 classes to a row; state s uses row s / 12.
  const MOVES: seq<seq<nat>> := [
    [0,12,24,36,60,96,84,12,12,12,48,72],
    [12,12,12,12,12,12,12,12,12,12,12,12],
    [12,0,12,12,12,12,12,0,12,0,12,12],
    [12,24,12,12,12,12,12,24,12,24,12,12],
    [12,12,12,12,12,12,12,24,12,12,12,12],
    [12,24,12,12,12,12,12,12,12,24,12,12],
    [12,12,12,12,12,12,12,36,12,36,12,12],
    [12,36,12,12,12,12,12,36,12,36,12,12],
    [12,36,12,12,12,12,12,12,12,12,12,12]]

  predicate IsState(s: nat) { s % 12 == 0 && s <= 96 }

  /* ---- what the table says, range by range ---- */

  function ClassOf(b: Byte): (c: nat)
    ensures c < 12
  {
    if b < 0x80 then 0 else if b < 0x90 then 1 else if b < 0xA0 then 9 else if b < 0xC0 then 7
    else if b < 0xC2 then 8 else if b < 0xE0 then 2 else if b == 0xE0 then 10
    else if b == 0xED then 4 else if b < 0xF0 then 3 else if b == 0xF0 then 11
    else if b < 0xF4 then 6 else if b == 0xF4 then 5 else 8
  }

  function NextState(s: nat, c: nat): (t: nat)
    ensures IsState(t)
  {
    if s == ACCEPT then
      if c == 0 then ACCEPT else if c == 2 then 24 else if c == 3 then 36 else if c == 4 then 60
      else if c == 5 then 96 else if c == 6 then 84 else if c == 10 then 48 else if c == 11 then 72
      else REJECT
    else if s == 24 && (c == 1 || c == 7 || c == 9) then ACCEPT
    else if s == 36 && (c == 1 || c == 7 || c == 9) then 24
    else if s == 48 && c == 7 then 24
    else if s == 60 && (c == 1 || c == 9) then 24
    else if s == 72 && (c == 7 || c == 9) then 36
    else if s == 84 && (c == 1 || c == 7 || c == 9) then 36
    else if s == 96 && c == 1 then 36
    else REJECT
  }

  lemma TableShape()
    ensures |CLASSES| == 8 && forall r :: 0 <= r < 8 ==> |CLASSES[r]| == 32
    ensures |MOVES| == 9 && forall r :: 0 <= r < 9 ==> |MOVES[r]| == 12
  {
  }

  lemma TopClasses(b: Byte)
    requires b >= 0xE0
    ensures |CLASSES| == 8 && |CLASSES[7]| == 32 && CLASSES[7][b % 32] == ClassOf(b)
  {
  }

  lemma LowClasses(b: Byte)
    requires 0x80 <= b < 0xE0
    ensures |CLASSES| == 8 && |CLASSES[b / 32]| == 32 && CLASSES[b / 32][b % 32] == ClassOf(b)
  {
  }

  lemma AsciiClasses(b: Byte)
    requires b < 0x80
    ensures |CLASSES| == 8 && |CLASSES[b / 32]| == 32 && CLASSES[b / 32][b % 32] == ClassOf(b)
  {
    assert CLASSES[b / 32] == CLASSES[0];
  }

  /** utf8d[byte] and utf8d[256 + state + type], as the decoder looks them up. */
  method LookUp(state: nat, b: Byte) returns (c: nat, t: nat)
    requires IsState(state)
    ensures c == ClassOf(b) && t == NextState(state, ClassOf(b))
  {
    TableShape();
    c := CLASSES[b / 32][b % 32];
    if b >= 0xE0 {
      TopClasses(b);
    } else if b >= 0x80 {
      LowClasses(b);
    } else {
      AsciiClasses(b);
    }
    t := MOVES[state / 12][c];
    MovesByRange(state, c);
  }

  lemma MovesByRange(state: nat, c: nat)
    requires IsState(state) && c < 12
    ensures |MOVES| == 9 && |MOVES[state / 12]| == 12 && MOVES[state / 12][c] == NextState(state, c)
  {
  }

  /* ---- one byte ---- */

  /** (0xff >> c) & b: the payload of a lead byte of class c. */
  function LeadBits(c: nat, b: Byte): nat {
    if c == 0 then b else if c == 1 then b % 128 else if c == 2 then b % 64 else if c == 3 then b % 32
    else if c == 4 then b % 16 else if c == 5 then b % 8 else if c == 6 then b % 4 else if c == 7 then b % 2
    else 0
  }

  datatype Decoder = Decoder(state: nat, cp: nat)

  function Feed(d: Decoder, b: Byte): (r: Decoder)
    ensures IsState(r.state)
  {
    var c := ClassOf(b);
    Decoder(NextState(d.state, c),
            if d.state != ACCEPT then (d.cp * 64) % 0x1_0000_0000 + b % 64 else LeadBits(c, b))
  }

  method Decode(d: Decoder, b: Byte) returns (r: Decoder)
    requires IsState(d.state)
    ensures r == Feed(d, b)
  {
    var c, t := LookUp(d.state, b);
    r := Decoder(t, if d.state != ACCEPT then (d.cp * 64) % 0x1_0000_0000 + b % 64 else LeadBits(c, b));
  }

  /* ---- one character of a string ---- */

  /** Where the inner loop stops from p on, and the decoder there. */
  function Scan(text: seq<Byte>, p: nat, d: Decoder): (r: (nat, Decoder))
    requires p <= |text|
    ensures p <= r.0 <= |text|
    decreases |text| - p
  {
    if p == |text| then (p, d)
    else
      var e := Feed(d, text[p]);
      if e.state > REJECT then Scan(text, p + 1, e) else (p, e)
  }

  /** A stretch of bytes and the codepoint it stands for, if any. */
  datatype Piece = Piece(bytes: seq<Byte>, cp: Option<nat>)

  /** One step of the outer loop at p. */
  function PieceAt(text: seq<Byte>, p: nat): (r: Piece)
    requires p < |text|
    ensures 0 < |r.bytes| <= |text| - p && r.bytes == text[p..p + |r.bytes|]
  {
    var (q, d) := Scan(text, p, Decoder(ACCEPT, 0));
    if q == |text| || d.state == REJECT then Piece(text[p..if q > p then q else p + 1], None)
    else Piece(text[p..q + 1], Some(d.cp))
  }

  function Pieces(text: seq<Byte>, p: nat): (ps: seq<Piece>)
    requires p <= |text|
    ensures |ps| <= |text| - p
    decreases |text| - p
  {
    if p == |text| then []
    else [PieceAt(text, p)] + Pieces(text, p + |PieceAt(text, p).bytes|)
  }

  /** What is drawn for a piece: its codepoint, or U+FFFD where it is ill-formed. */
  function Drawn(piece: Piece): nat { if piece.cp.Some? then piece.cp.value else INVALID }

  function AllDrawn(ps: seq<Piece>): (cps: seq<nat>)
    ensures |cps| == |ps|
    ensures forall i :: 0 <= i < |ps| ==> cps[i] == Drawn(ps[i])
  {
    seq(|ps|, i requires 0 <= i < |ps| => Drawn(ps[i]))
  }

  /* ---- the loop of drwl_text ---- */

  /** The inner loop: from a character's start to where it is complete, rejected or cut off. */
  method ScanFrom(text: seq<Byte>, start: nat, oldCp: nat) returns (p: nat, d: Decoder)
    requires start < |text|
    ensures (p, d) == Scan(text, start, Decoder(ACCEPT, 0))
  {
    p, d := start, Decoder(ACCEPT, oldCp);
    assert Feed(d, text[p]) == Feed(Decoder(ACCEPT, 0), text[p]);
    while p < |text|
      invariant start <= p <= |text| && IsState(d.state)
      invariant Scan(text, p, d) == Scan(text, start, Decoder(ACCEPT, 0))
      decreases |text| - p
    {
      d := Decode(d, text[p]);
      if d.state <= REJECT { break; }
      p := p + 1;
    }
  }

  /** One time round the outer loop. */
  method NextDrawn(text: seq<Byte>, start: nat, oldCp: nat) returns (p: nat, cp: nat)
    requires start < |text|
    ensures p == start + |PieceAt(text, start).bytes|
    ensures cp == Drawn(PieceAt(text, start))
  {
    var d;
    p, d := ScanFrom(text, start, oldCp);
    cp := d.cp;
    if p == |text| || d.state == REJECT {
      cp := INVALID;
      if p > start {
        p := p - 1;
      }
    }
    p := p + 1;
  }

  lemma AllDrawnStep(text: seq<Byte>, p: nat)
    requires p < |text|
    ensures AllDrawn(Pieces(text, p)) ==
            [Drawn(PieceAt(text, p))] + AllDrawn(Pieces(text, p + |PieceAt(text, p).bytes|))
  {
  }

  /* ---- decoding undoes encoding ---- */

  /** Scanning on from a decoder still inside a character. */
  lemma ScanOn(text: seq<Byte>, p: nat, d: Decoder)
    requires p < |text|
    ensures Feed(d, text[p]).state > REJECT ==> Scan(text, p, d) == Scan(text, p + 1, Feed(d, text[p]))
    ensures Feed(d, text[p]).state <= REJECT ==> Scan(text, p, d) == (p, Feed(d, text[p]))
  {
  }

  lemma FeedContinuation(d: Decoder, b: Byte)
    requires IsContinuation(b) && d.cp < 0x1_0000
    requires d.state == 24 || d.state == 36 || d.state == 84
    ensures Feed(d, b) == Decoder(if d.state == 24 then ACCEPT else if d.state == 36 then 24 else 36,
                                  d.cp * 64 + b % 64)
  {
  }

  lemma ReadsTwo(text: seq<Byte>, p: nat, cp: nat)
    requires Encodable(cp) && 0x80 <= cp < 0x800
    requires p + 2 <= |text| && text[p] == 0xC0 + cp / 64 && text[p + 1] == 0x80 + cp % 64
    ensures Scan(text, p, Decoder(ACCEPT, 0)) == (p + 1, Decoder(ACCEPT, cp))
  {
    var d := Feed(Decoder(ACCEPT, 0), text[p]);
    assert d == Decoder(24, cp / 64);
    ScanOn(text, p, Decoder(ACCEPT, 0));
    FeedContinuation(d, text[p + 1]);
    ScanOn(text, p + 1, d);
  }

  lemma ThirdOfThree(text: seq<Byte>, p: nat, d: Decoder, cp: nat)
    requires cp < 0x11_0000 && p < |text| && d == Decoder(24, cp / 64) && text[p] == 0x80 + cp % 64
    ensures Scan(text, p, d) == (p, Decoder(ACCEPT, cp))
  {
    FeedContinuation(d, text[p]);
    ScanOn(text, p, d);
  }

  lemma SecondOfThree(text: seq<Byte>, p: nat, d: Decoder, cp: nat)
    requires cp < 0x11_0000 && p + 2 <= |text|
    requires d == Decoder(36, cp / 4096)
    requires text[p] == 0x80 + cp / 64 % 64 && text[p + 1] == 0x80 + cp % 64
    ensures Scan(text, p, d) == (p + 1, Decoder(ACCEPT, cp))
  {
    FeedContinuation(d, text[p]);
    assert cp / 4096 * 64 + cp / 64 % 64 == cp / 64;
    ScanOn(text, p, d);
    ThirdOfThree(text, p + 1, Feed(d, text[p]), cp);
  }

  lemma LeadOfThree(b: Byte)
    requires 0xE0 <= b < 0xF0
    ensures Feed(Decoder(ACCEPT, 0), b)
         == Decoder(if b == 0xE0 then 48 else if b == 0xED then 60 else 36, b - 0xE0)
  {
  }

  /** After E0 or ED only half of the continuation bytes may follow. */
  lemma HalfOfThree(d: Decoder, b: Byte)
    requires IsContinuation(b) && d.cp < 16
    requires (d.state == 48 && b >= 0xA0) || (d.state == 60 && b < 0xA0)
    ensures Feed(d, b) == Decoder(24, d.cp * 64 + b % 64)
  {
  }

  lemma ReadsThree(text: seq<Byte>, p: nat, cp: nat)
    requires Encodable(cp) && 0x800 <= cp < 0x10000
    requires p + 3 <= |text| && text[p] == 0xE0 + cp / 4096
    requires text[p + 1] == 0x80 + cp / 64 % 64 && text[p + 2] == 0x80 + cp % 64
    ensures Scan(text, p, Decoder(ACCEPT, 0)) == (p + 2, Decoder(ACCEPT, cp))
  {
    var d := Feed(Decoder(ACCEPT, 0), text[p]);
    LeadOfThree(text[p]);
    ScanOn(text, p, Decoder(ACCEPT, 0));
    if d.state == 36 {
      SecondOfThree(text, p + 1, d, cp);
    } else {
      assert cp / 4096 * 64 + cp / 64 % 64 == cp / 64;
      HalfOfThree(d, text[p + 1]);
      ScanOn(text, p + 1, d);
      ThirdOfThree(text, p + 2, Feed(d, text[p + 1]), cp);
    }
  }

  lemma LeadOfFour(b: Byte)
    requires 0xF0 <= b < 0xF5
    ensures Feed(Decoder(ACCEPT, 0), b)
         == Decoder(if b == 0xF0 then 72 else if b == 0xF4 then 96 else 84, b - 0xF0)
  {
  }

  lemma SecondOfFour(d: Decoder, b: Byte)
    requires IsContinuation(b) && d.cp < 5
    requires d.state == 84 || (d.state == 72 && b >= 0x90) || (d.state == 96 && b < 0x90)
    ensures Feed(d, b) == Decoder(36, d.cp * 64 + b % 64)
  {
  }

  lemma ReadsFour(text: seq<Byte>, p: nat, cp: nat)
    requires Encodable(cp) && 0x10000 <= cp
    requires p + 4 <= |text| && text[p] == 0xF0 + cp / 262144 && text[p + 1] == 0x80 + cp / 4096 % 64
    requires text[p + 2] == 0x80 + cp / 64 % 64 && text[p + 3] == 0x80 + cp % 64
    ensures Scan(text, p, Decoder(ACCEPT, 0)) == (p + 3, Decoder(ACCEPT, cp))
  {
    var d := Feed(Decoder(ACCEPT, 0), text[p]);
    LeadOfFour(text[p]);
    ScanOn(text, p, Decoder(ACCEPT, 0));
    assert cp / 262144 * 64 + cp / 4096 % 64 == cp / 4096;
    SecondOfFour(d, text[p + 1]);
    ScanOn(text, p + 1, d);
    SecondOfThree(text, p + 2, Feed(d, text[p + 1]), cp);
  }

  /** The decoder accepts the bytes of a codepoint with their last one, and knows the codepoint. */
  lemma ScanReadsEncoding(text: seq<Byte>, p: nat, cp: nat)
    requires Encodable(cp) && p + |Encode(cp)| <= |text| && text[p..p + |Encode(cp)|] == Encode(cp)
    ensures Scan(text, p, Decoder(ACCEPT, 0)) == (p + |Encode(cp)| - 1, Decoder(ACCEPT, cp))
  {
    var bytes := Encode(cp);
    assert text[p] == bytes[0];
    assert |bytes| > 1 ==> text[p + 1] == bytes[1];
    assert |bytes| > 2 ==> text[p + 2] == bytes[2];
    assert |bytes| > 3 ==> text[p + 3] == bytes[3];
    if cp < 0x80 {
      ScanOn(text, p, Decoder(ACCEPT, 0));
    } else if cp < 0x800 {
      ReadsTwo(text, p, cp);
    } else if cp < 0x10000 {
      ReadsThree(text, p, cp);
    } else {
      ReadsFour(text, p, cp);
    }
  }

  lemma PieceOfEncoding(text: seq<Byte>, p: nat, cp: nat)
    requires Encodable(cp) && p + |Encode(cp)| <= |text| && text[p..p + |Encode(cp)|] == Encode(cp)
    ensures PieceAt(text, p) == Piece(Encode(cp), Some(cp))
    ensures Pieces(text, p) == [Piece(Encode(cp), Some(cp))] + Pieces(text, p + |Encode(cp)|)
  {
    ScanReadsEncoding(text, p, cp);
    hide Encode;
    hide Scan;
    assert PieceAt(text, p) == Piece(Encode(cp), Some(cp));
    hide PieceAt;
  }

  lemma HeadOf(text: seq<Byte>, p: nat, head: seq<Byte>, rest: seq<Byte>)
    requires p <= |text| && text[p..] == head + rest
    ensures p + |head| <= |text| && text[p..p + |head|] == head && text[p + |head|..] == rest
  {
    assert text[p..p + |head|] == text[p..][..|head|];
    assert text[p + |head|..] == text[p..][|head|..];
  }

  /** Each piece of an encoded text is one of its codepoints. */
  lemma {:induction false} PiecesOfEncoding(text: seq<Byte>, p: nat, cps: seq<nat>)
    requires AllEncodable(cps) && p <= |text| && text[p..] == EncodeAll(cps)
    ensures AllDrawn(Pieces(text, p)) == cps && WellFormed(Pieces(text, p))
    decreases |cps|
  {
    hide PieceAt;
    hide Encode;
    if cps == [] {
      assert p == |text|;
    } else {
      var q := p + |Encode(cps[0])|;
      assert q <= |text| && text[q..] == EncodeAll(cps[1..])
             && Pieces(text, p) == [Piece(Encode(cps[0]), Some(cps[0]))] + Pieces(text, q) by {
        HeadOf(text, p, Encode(cps[0]), EncodeAll(cps[1..]));
        PieceOfEncoding(text, p, cps[0]);
      }
      PiecesOfEncoding(text, q, cps[1..]);
      PrependPiece(Piece(Encode(cps[0]), Some(cps[0])), Pieces(text, q));
    }
  }

  lemma PrependPiece(piece: Piece, ps: seq<Piece>)
    requires piece.cp.Some?
    ensures AllDrawn([piece] + ps) == [piece.cp.value] + AllDrawn(ps)
    ensures WellFormed(ps) ==> WellFormed([piece] + ps)
  {
  }

  /** Drawing what was encoded draws exactly the codepoints that were put in. */
  lemma RoundTrip(cps: seq<nat>)
    requires AllEncodable(cps)
    ensures AllDrawn(Pieces(EncodeAll(cps), 0)) == cps
    ensures WellFormed(Pieces(EncodeAll(cps), 0))
  {
    PiecesOfEncoding(EncodeAll(cps), 0, cps);
  }

  /* ---- and only that: what the decoder accepts was encoded ---- */

  predicate WellFormed(ps: seq<Piece>) { forall i :: 0 <= i < |ps| ==> ps[i].cp.Some? }

  predicate Faithful(piece: Piece) {
    piece.cp.Some? ==> Encodable(piece.cp.value) && Encode(piece.cp.value) == piece.bytes
  }

  /** How a lead byte that is not rejected moves the decoder. */
  predicate Leads(b: Byte, d: Decoder) {
    || (b < 0x80 && d == Decoder(ACCEPT, b))
    || (0xC2 <= b < 0xE0 && d == Decoder(24, b - 0xC0))
    || (0xE0 <= b < 0xF0 && d == Decoder(if b == 0xE0 then 48 else if b == 0xED then 60 else 36, b - 0xE0))
    || (0xF0 <= b < 0xF5 && d == Decoder(if b == 0xF0 then 72 else if b == 0xF4 then 96 else 84, b - 0xF0))
  }

  /** How a later byte that is not rejected moves it. */
  predicate Follows(d: Decoder, b: Byte, e: Decoder) {
    && IsContinuation(b)
    && e.cp == d.cp * 64 + (b - 0x80)
    && (|| (d.state == 24 && e.state == ACCEPT)
        || (d.state == 36 && e.state == 24)
        || (d.state == 48 && e.state == 24 && b >= 0xA0)
        || (d.state == 60 && e.state == 24 && b < 0xA0)
        || (d.state == 72 && e.state == 36 && b >= 0x90)
        || (d.state == 84 && e.state == 36)
        || (d.state == 96 && e.state == 36 && b < 0x90))
  }

  lemma FeedLeads(b: Byte)
    ensures var d := Feed(Decoder(ACCEPT, 0), b); d.state == REJECT || Leads(b, d)
  {
  }

  lemma FeedFollows(d: Decoder, b: Byte)
    requires d.state > REJECT && d.cp < 0x1_0000
    ensures var e := Feed(d, b); e.state == REJECT || Follows(d, b, e)
  {
  }

  lemma TwoAccepted(b0: Byte, b1: Byte, d1: Decoder, d2: Decoder)
    requires Leads(b0, d1) && Follows(d1, b1, d2) && d2.state == ACCEPT
    ensures Encodable(d2.cp) && Encode(d2.cp) == [b0, b1]
  {
  }

  lemma ThreeAccepted(b0: Byte, b1: Byte, b2: Byte, d1: Decoder, d2: Decoder, d3: Decoder)
    requires Leads(b0, d1) && Follows(d1, b1, d2) && Follows(d2, b2, d3) && d3.state == ACCEPT
    ensures Encodable(d3.cp) && Encode(d3.cp) == [b0, b1, b2]
  {
    assert d3.cp / 64 == d2.cp;
    assert d2.cp / 64 == d1.cp;
  }

  lemma FourAccepted(b0: Byte, b1: Byte, b2: Byte, b3: Byte,
                     d1: Decoder, d2: Decoder, d3: Decoder, d4: Decoder)
    requires Leads(b0, d1) && Follows(d1, b1, d2) && Follows(d2, b2, d3) && Follows(d3, b3, d4)
    ensures d4.state == ACCEPT && Encodable(d4.cp) && Encode(d4.cp) == [b0, b1, b2, b3]
  {
    assert d4.cp / 64 == d3.cp;
    assert d3.cp / 64 == d2.cp;
    assert d2.cp / 64 == d1.cp;
  }

  /** No overlong forms, no surrogates, nothing past U+10FFFF: an accepted stretch is the encoding. */
  lemma AcceptedIsEncoded(text: seq<Byte>, p: nat)
    requires 0 !in text && p < |text|
    ensures Faithful(PieceAt(text, p))
  {
    var d0 := Decoder(ACCEPT, 0);
    FeedLeads(text[p]);
    ScanOn(text, p, d0);
    if Feed(d0, text[p]).state > REJECT {
      AcceptedFromTwo(text, p, Feed(d0, text[p]));
    }
  }

  /** The rest of a character after its lead byte. */
  lemma AcceptedFromTwo(text: seq<Byte>, p: nat, d1: Decoder)
    requires p < |text| && Leads(text[p], d1) && d1.state > REJECT
    ensures AcceptsCharacter(text, p, Scan(text, p + 1, d1))
  {
    if p + 1 < |text| {
      var d2 := Feed(d1, text[p + 1]);
      FeedFollows(d1, text[p + 1]);
      ScanOn(text, p + 1, d1);
      if d2.state > REJECT {
        AcceptedFromThree(text, p, d1, d2);
      } else if d2.state == ACCEPT {
        TwoAccepted(text[p], text[p + 1], d1, d2);
      }
    }
  }

  lemma AcceptedFromThree(text: seq<Byte>, p: nat, d1: Decoder, d2: Decoder)
    requires p + 1 < |text| && Leads(text[p], d1) && Follows(d1, text[p + 1], d2) && d2.state > REJECT
    ensures AcceptsCharacter(text, p, Scan(text, p + 2, d2))
  {
    if p + 2 < |text| {
      var d3 := Feed(d2, text[p + 2]);
      FeedFollows(d2, text[p + 2]);
      ScanOn(text, p + 2, d2);
      if d3.state > REJECT {
        AcceptedFromFour(text, p, d1, d2, d3);
      } else if d3.state == ACCEPT {
        ThreeAccepted(text[p], text[p + 1], text[p + 2], d1, d2, d3);
      }
    }
  }

  lemma AcceptedFromFour(text: seq<Byte>, p: nat, d1: Decoder, d2: Decoder, d3: Decoder)
    requires p + 2 < |text| && Leads(text[p], d1) && Follows(d1, text[p + 1], d2)
    requires Follows(d2, text[p + 2], d3) && d3.state > REJECT
    ensures AcceptsCharacter(text, p, Scan(text, p + 3, d3))
  {
    if p + 3 < |text| {
      FeedFollows(d3, text[p + 3]);
      ScanOn(text, p + 3, d3);
      if Feed(d3, text[p + 3]).state != REJECT {
        FourAccepted(text[p], text[p + 1], text[p + 2], text[p + 3], d1, d2, d3, Feed(d3, text[p + 3]));
      }
    }
  }

  /** If a scan from p ended at r with a codepoint, the bytes up to there encode it. */
  predicate AcceptsCharacter(text: seq<Byte>, p: nat, r: (nat, Decoder)) {
    p <= r.0 < |text| && r.1.state != REJECT ==>
      Encodable(r.1.cp) && Encode(r.1.cp) == text[p..r.0 + 1]
  }

  /** Concatenates the bytes of all pieces. */
  function Joined(ps: seq<Piece>): seq<Byte> {
    if ps == [] then [] else ps[0].bytes + Joined(ps[1..])
  }

  lemma {:induction false} PiecesAreFaithful(text: seq<Byte>, p: nat)
    requires 0 !in text && p <= |text|
    ensures Joined(Pieces(text, p)) == text[p..]
    ensures forall i :: 0 <= i < |Pieces(text, p)| ==> Faithful(Pieces(text, p)[i])
    decreases |text| - p
  {
    hide PieceAt;
    if p < |text| {
      var n := |PieceAt(text, p).bytes|;
      AcceptedIsEncoded(text, p);
      PiecesAreFaithful(text, p + n);
      assert text[p..] == text[p..p + n] + text[p + n..];
    }
  }

  lemma {:induction false} FaithfulPiecesEncode(ps: seq<Piece>)
    requires WellFormed(ps) && forall i :: 0 <= i < |ps| ==> Faithful(ps[i])
    ensures AllEncodable(AllDrawn(ps)) && EncodeAll(AllDrawn(ps)) == Joined(ps)
  {
    if ps != [] {
      assert AllDrawn(ps)[1..] == AllDrawn(ps[1..]);
      FaithfulPiecesEncode(ps[1..]);
    }
  }

  /**
   * A text draws without any ill-formed piece exactly when it is the UTF-8 of
   * some codepoints, and those are then the codepoints drawn.
   */
  lemma WellFormedIffEncoded(text: seq<Byte>)
    requires 0 !in text
    ensures WellFormed(Pieces(text, 0)) <==> exists cps :: AllEncodable(cps) && EncodeAll(cps) == text
    ensures WellFormed(Pieces(text, 0)) ==>
            AllEncodable(AllDrawn(Pieces(text, 0))) && EncodeAll(AllDrawn(Pieces(text, 0))) == text
  {
    if WellFormed(Pieces(text, 0)) {
      PiecesAreFaithful(text, 0);
      FaithfulPiecesEncode(Pieces(text, 0));
    }
    forall cps | AllEncodable(cps) && EncodeAll(cps) == text
      ensures WellFormed(Pieces(text, 0))
    {
      RoundTrip(cps);
    }
  }
}
