/** How far damage in a text reaches when it is decoded, and how wide a text is drawn. */
module DrawingLaws {
  import opened Utf8
  import opened Utf8Decoder
  import opened TextDrawing

  /* ---- damage ---- */

  /** Inside a character only continuation bytes lead on. */
  lemma {:induction false} ScanContinues(text: seq<Byte>, p: nat, d: Decoder)
    requires p <= |text| && d.state > REJECT
    ensures var r := Scan(text, p, d);
      && (forall k :: p <= k < r.0 ==> IsContinuation(text[k]))
      && (r.0 < |text| && r.1.state != REJECT ==> IsContinuation(text[r.0]))
    decreases |text| - p
  {
    if p < |text| {
      InsideOnly(d, text[p]);
      hide Feed;
      var e := Feed(d, text[p]);
      if e.state > REJECT { ScanContinues(text, p + 1, e); }
    }
  }

  lemma InsideOnly(d: Decoder, b: Byte)
    requires d.state > REJECT
    ensures Feed(d, b).state != REJECT ==> IsContinuation(b)
  {
  }

  /** No piece takes a byte that begins a character, but as its first. */
  lemma PieceTakesOneLead(text: seq<Byte>, p: nat)
    requires p < |text|
    ensures forall k :: 1 <= k < |PieceAt(text, p).bytes| ==> IsContinuation(PieceAt(text, p).bytes[k])
  {
    var d := Feed(Decoder(ACCEPT, 0), text[p]);
    ScanOn(text, p, Decoder(ACCEPT, 0));
    hide Feed;
    if d.state > REJECT { ScanContinues(text, p + 1, d); }
    hide Scan;
  }

  /** Inside a character, what begins another one behind the text changes nothing. */
  lemma {:induction false} ScanStaysInside(junk: seq<Byte>, rest: seq<Byte>, p: nat, d: Decoder)
    requires p <= |junk| && d.state > REJECT && (rest == [] || !IsContinuation(rest[0]))
    ensures var r, s := Scan(junk, p, d), Scan(junk + rest, p, d);
      && s.0 == r.0
      && (r.0 < |junk| ==> s.1 == r.1)
      && (r.0 == |junk| && rest != [] ==> s.1.state == REJECT)
    decreases |junk| - p
  {
    var text := junk + rest;
    if p < |junk| {
      assert text[p] == junk[p];
      hide Feed;
      var e := Feed(d, junk[p]);
      if e.state > REJECT { ScanStaysInside(junk, rest, p + 1, e); }
    } else if rest != [] {
      assert text[p] == rest[0];
      InsideOnly(d, rest[0]);
    } else {
      assert text == junk;
    }
  }

  lemma PieceStaysInside(junk: seq<Byte>, rest: seq<Byte>, p: nat)
    requires p < |junk| && (rest == [] || !IsContinuation(rest[0]))
    ensures PieceAt(junk + rest, p) == PieceAt(junk, p)
  {
    var text := junk + rest;
    var d := Feed(Decoder(ACCEPT, 0), junk[p]);
    assert text[p] == junk[p];
    ScanOn(junk, p, Decoder(ACCEPT, 0));
    ScanOn(text, p, Decoder(ACCEPT, 0));
    hide Feed;
    if d.state > REJECT { ScanStaysInside(junk, rest, p + 1, d); }
    hide Scan;
    var n := |PieceAt(junk, p).bytes|;
    assert text[p..p + n] == junk[p..p + n];
    if rest == [] { assert text == junk; }
  }

  predicate StartsWith(ps: seq<Piece>, piece: Piece, rest: seq<Piece>) { ps == [piece] + rest }

  lemma PiecesFrom(text: seq<Byte>, p: nat, piece: Piece, q: nat)
    requires p < |text| && piece == PieceAt(text, p) && q == p + |piece.bytes|
    ensures p < q <= |text| && StartsWith(Pieces(text, p), piece, Pieces(text, q))
  {
    hide PieceAt;
  }

  /** More pieces draw the same, and then these codepoints. */
  predicate DrawMore(ps: seq<Piece>, more: seq<Piece>, cps: seq<nat>) { AllDrawn(more) == AllDrawn(ps) + cps }

  lemma DrawMoreBehind(ps: seq<Piece>, more: seq<Piece>, cps: seq<nat>, piece: Piece,
                       psRest: seq<Piece>, moreRest: seq<Piece>)
    requires StartsWith(ps, piece, psRest) && StartsWith(more, piece, moreRest) && DrawMore(psRest, moreRest, cps)
    ensures DrawMore(ps, more, cps)
  {
    assert AllDrawn(more) == [Drawn(piece)] + AllDrawn(moreRest);
    assert AllDrawn(ps) == [Drawn(piece)] + AllDrawn(psRest);
  }

  lemma NothingBefore(junk: seq<Byte>, cps: seq<nat>)
    requires AllEncodable(cps)
    ensures DrawMore(Pieces(junk, |junk|), Pieces(junk + EncodeAll(cps), |junk|), cps)
  {
    assert (junk + EncodeAll(cps))[|junk|..] == EncodeAll(cps);
    PiecesOfEncoding(junk + EncodeAll(cps), |junk|, cps);
    assert AllDrawn(Pieces(junk, |junk|)) == [];
    hide AllDrawn;
    hide Pieces;
    assert [] + cps == cps;
  }

  lemma {:induction false} PiecesStayInside(junk: seq<Byte>, text: seq<Byte>, cps: seq<nat>, p: nat)
    requires p <= |junk| && AllEncodable(cps) && text == junk + EncodeAll(cps)
    ensures DrawMore(Pieces(junk, p), Pieces(text, p), cps)
    decreases |junk| - p
  {
    if p == |junk| {
      NothingBefore(junk, cps);
    } else {
      var piece, q := InsideStep(junk, text, cps, p);
      hide *;
      PiecesStayInside(junk, text, cps, q);
      DrawMoreBehind(Pieces(junk, p), Pieces(text, p), cps, piece, Pieces(junk, q), Pieces(text, q));
    }
  }

  lemma InsideStep(junk: seq<Byte>, text: seq<Byte>, cps: seq<nat>, p: nat) returns (piece: Piece, q: nat)
    requires p < |junk| && AllEncodable(cps) && text == junk + EncodeAll(cps)
    ensures p < q <= |junk|
    ensures StartsWith(Pieces(junk, p), piece, Pieces(junk, q)) && StartsWith(Pieces(text, p), piece, Pieces(text, q))
  {
    assert EncodeAll(cps) == [] || !IsContinuation(EncodeAll(cps)[0]);
    PieceStaysInside(junk, EncodeAll(cps), p);
    piece := PieceAt(junk, p);
    q := p + |piece.bytes|;
    hide *;
    PiecesFrom(junk, p, piece, q);
    PiecesFrom(text, p, piece, q);
  }

  /**
   * Damage stays where it is: whatever bytes a text starts with, they draw as
   * they would alone, and the UTF-8 that follows draws in full.
   */
  lemma DamageStaysLocal(junk: seq<Byte>, cps: seq<nat>)
    requires AllEncodable(cps)
    ensures CodepointsFrom(junk + EncodeAll(cps), 0) == CodepointsFrom(junk, 0) + cps
  {
    PiecesStayInside(junk, junk + EncodeAll(cps), cps, 0);
  }

  /** The first example of section 7 of RFC 3629: A, not identical to, Alpha, full stop. */
  lemma ExampleOfTheStandard()
    ensures EncodeAll([0x41, 0x2262, 0x391, 0x2E]) == [0x41, 0xE2, 0x89, 0xA2, 0xCE, 0x91, 0x2E]
  {
    EncodeAllConcat([0x41, 0x2262], [0x391, 0x2E]);
    EncodeAllConcat([0x41], [0x2262]);
    EncodeAllConcat([0x391], [0x2E]);
    EncodeAllOne(0x41);
    EncodeAllOne(0x2262);
    EncodeAllOne(0x391);
    EncodeAllOne(0x2E);
    assert [0x41, 0x2262] + [0x391, 0x2E] == [0x41, 0x2262, 0x391, 0x2E];
    assert [0x41] + [0x2262] == [0x41, 0x2262] && [0x391] + [0x2E] == [0x391, 0x2E];
  }

  /* ---- width ---- */

  /** The advances of some codepoints that have glyphs. */
  function Advances(font: Font, cps: seq<nat>): int {
    if cps == [] then 0
    else (if Glyph(font, cps[0]).Some? then Glyph(font, cps[0]).value else 0) + Advances(font, cps[1..])
  }

  /** The kerning between each of them and the one before it. */
  function Kernings(font: Font, cps: seq<nat>, last: nat): int {
    if cps == [] then 0 else Kerning(font, last, cps[0]) + Kernings(font, cps[1..], cps[0])
  }

  /** The width of a text is the advances of what is drawn and the kerning between. */
  lemma {:induction false} WidthIsSum(font: Font, cps: seq<nat>, last: nat, w: nat, x: int)
    ensures var drawn := Fitting(font, cps, last, w);
      PenAfter(font, cps, last, w, x) == x + Advances(font, drawn) + Kernings(font, drawn, last)
    decreases |cps|
  {
    if cps != [] {
      var glyph := Glyph(font, cps[0]);
      if glyph.None? {
        WidthIsSum(font, cps[1..], last, w, x);
      } else {
        var kern := Kerning(font, last, cps[0]);
        var later := Fitting(font, cps[1..], cps[0], Narrowed(w, glyph.value));
        WidthIsSum(font, cps[1..], cps[0], Narrowed(w, glyph.value), x + kern + glyph.value);
        assert ([cps[0]] + later)[1..] == later;
        hide Narrowed;
      }
    }
  }

  /** No glyph goes back, and no kerning brings two closer. */
  ghost predicate Forward(font: Font) {
    && (forall cp: nat :: Glyph(font, cp).Some? ==> Glyph(font, cp).value >= 0)
    && (forall a: nat, b: nat :: (font.kerning)(a, b) >= 0)
  }

  function LastOf(cps: seq<nat>, last: nat): nat { if cps == [] then last else cps[|cps| - 1] }

  /**
   * With such a font what is drawn fits, and the first codepoint left out
   * would not have fitted behind it.
   */
  lemma {:induction false} DrawnUntilFull(font: Font, cps: seq<nat>, last: nat, w: nat)
    requires Forward(font) && w < UINT_RANGE
    ensures var drawn, having := Fitting(font, cps, last, w), Having(font, cps);
      && Advances(font, drawn) <= w && drawn <= having
      && (|drawn| < |having| ==>
            var next := having[|drawn|];
            && Glyph(font, next).Some?
            && Kerning(font, LastOf(drawn, last), next) + Glyph(font, next).value > w - Advances(font, drawn))
    decreases |cps|
  {
    if cps != [] {
      var glyph := Glyph(font, cps[0]);
      if glyph.None? {
        DrawnUntilFull(font, cps[1..], last, w);
      } else if Kerning(font, last, cps[0]) + glyph.value <= w {
        var w' := w - glyph.value;
        DrawnUntilFull(font, cps[1..], cps[0], w');
        OneDrawn(font, cps, last, w);
        var later := Fitting(font, cps[1..], cps[0], w');
        hide *;
        FirstOf(cps[0], later, Having(font, cps[1..]), last);
      }
    }
  }

  lemma OneDrawn(font: Font, cps: seq<nat>, last: nat, w: nat)
    requires Forward(font) && w < UINT_RANGE && cps != [] && Glyph(font, cps[0]).Some?
    requires Kerning(font, last, cps[0]) + Glyph(font, cps[0]).value <= w
    ensures 0 <= Glyph(font, cps[0]).value <= w
    ensures var later := Fitting(font, cps[1..], cps[0], w - Glyph(font, cps[0]).value);
      && Fitting(font, cps, last, w) == [cps[0]] + later
      && Advances(font, [cps[0]] + later) == Glyph(font, cps[0]).value + Advances(font, later)
      && Having(font, cps) == [cps[0]] + Having(font, cps[1..])
  {
    assert Narrowed(w, Glyph(font, cps[0]).value) == w - Glyph(font, cps[0]).value;
    var later := Fitting(font, cps[1..], cps[0], w - Glyph(font, cps[0]).value);
    assert ([cps[0]] + later)[1..] == later;
    hide Narrowed;
  }

  lemma FirstOf(cp: nat, drawn: seq<nat>, having: seq<nat>, last: nat)
    requires drawn <= having
    ensures [cp] + drawn <= [cp] + having && LastOf([cp] + drawn, last) == LastOf(drawn, cp)
    ensures |drawn| < |having| ==> ([cp] + having)[|[cp] + drawn|] == having[|drawn|]
  {
  }
}
