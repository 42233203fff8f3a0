/** How the notification server flattens body markup: entities decoded, known tags dropped. */
module Markup {
  import opened Division
  import opened Sequences
  import opened Utf8

  const AMPERSAND: Byte := 0x26
  const LESS: Byte := 0x3C
  const GREATER: Byte := 0x3E
  const SEMICOLON: Byte := 0x3B
  const SLASH: Byte := 0x2F
  const HASH: Byte := 0x23
  const SPACE: Byte := 0x20

  datatype Entity = Entity(name: seq<Byte>, character: Byte)

  /** amp; lt; gt; quot; apos; */
  const ENTITIES: seq<Entity> := [
    Entity([0x61, 0x6D, 0x70, 0x3B], 0x26),
    Entity([0x6C, 0x74, 0x3B], 0x3C),
    Entity([0x67, 0x74, 0x3B], 0x3E),
    Entity([0x71, 0x75, 0x6F, 0x74, 0x3B], 0x22),
    Entity([0x61, 0x70, 0x6F, 0x73, 0x3B], 0x27)
  ]

  /** br */
  const BREAK: seq<Byte> := [0x62, 0x72]

  /** b i u a img br */
  const TAGS: seq<seq<Byte>> := [[0x62], [0x69], [0x75], [0x61], [0x69, 0x6D, 0x67], BREAK]

  /* ---- numbers, as the C library reads them ---- */

  const MAX_VALUE: nat := 0xFFFF_FFFF_FFFF_FFFF

  predicate IsBlank(b: Byte) { b == 0x20 || 9 <= b <= 13 }

  /** The value of a digit, 36 for anything else. */
  function DigitValue(b: Byte): nat {
    if 0x30 <= b <= 0x39 then b - 0x30
    else if 0x61 <= b <= 0x7A then b - 0x61 + 10
    else if 0x41 <= b <= 0x5A then b - 0x41 + 10
    else 36
  }

  predicate IsDigit(b: Byte, base: nat) { DigitValue(b) < base }

  function BlankCount(s: seq<Byte>): (n: nat)
    ensures n <= |s|
  {
    if s == [] || !IsBlank(s[0]) then 0 else 1 + BlankCount(s[1..])
  }

  function DigitCount(s: seq<Byte>, base: nat): (n: nat)
    ensures n <= |s|
  {
    if s == [] || !IsDigit(s[0], base) then 0 else 1 + DigitCount(s[1..], base)
  }

  /** The value of a run of digits, first digit most significant. */
  function ValueOf(digits: seq<Byte>, base: nat): nat {
    if digits == [] then 0
    else ValueOf(digits[..|digits| - 1], base) * base + DigitValue(digits[|digits| - 1])
  }

  /** A number and how far its text goes; 0 and 0 when there is none. */
  datatype Number = Number(value: nat, end: nat)

  predicate HasPrefix(s: seq<Byte>, base: nat) {
    base == 16 && |s| > 2 && s[0] == 0x30 && (s[1] == 0x78 || s[1] == 0x58) && IsDigit(s[2], 16)
  }

  /**
   * strtoul: blanks, a sign, 0x in base 16, then digits. What is too large
   * gives the largest value, and a minus negates in 64 bits.
   */
  function ReadNumber(s: seq<Byte>, base: nat): (n: Number)
    requires base == 10 || base == 16
    ensures n.end <= |s| && n.value <= MAX_VALUE
  {
    var blanks := BlankCount(s);
    var signed := blanks < |s| && (s[blanks] == 0x2B || s[blanks] == 0x2D);
    var negative := blanks < |s| && s[blanks] == 0x2D;
    var body := blanks + (if signed then 1 else 0);
    var start := body + (if HasPrefix(s[body..], base) then 2 else 0);
    var count := DigitCount(s[start..], base);
    if count == 0 then Number(0, 0)
    else
      var value := ValueOf(s[start..start + count], base);
      Number(if value > MAX_VALUE then MAX_VALUE else if negative && value > 0 then MAX_VALUE + 1 - value else value,
             start + count)
  }

  /* ---- one step ---- */

  /** What a step writes and how much text it takes. */
  datatype Piece = Piece(out: seq<Byte>, used: nat)

  function OrPlain(p: Option<Piece>, b: Byte): Piece {
    if p.Some? then p.value else Piece([b], 1)
  }

  function EntityAt(s: seq<Byte>): (k: nat)
    ensures k <= |ENTITIES|
    ensures k < |ENTITIES| ==> ENTITIES[k].name <= s
  {
    FirstIndex(ENTITIES, (e: Entity) => e.name <= s)
  }

  /** A numeric reference at the start of s, if it stands for a codepoint that fits. */
  function Reference(s: seq<Byte>, room: nat): (p: Option<Piece>)
    ensures p.Some? ==> 1 <= p.value.used <= |s| && |p.value.out| <= room
  {
    if |s| < 2 || s[1] != HASH then None
    else
      var hex := |s| > 2 && (s[2] == 0x78 || s[2] == 0x58);
      var from := if hex then 3 else 2;
      var number := ReadNumber(s[from..], if hex then 16 else 10);
      var end := from + number.end;
      if end < |s| && s[end] == SEMICOLON && end > 2 && Encodable(number.value) && |Encode(number.value)| <= room
      then Some(Piece(Encode(number.value), end + 1))
      else None
  }

  predicate EndsName(b: Byte) { b == 0x20 || b == 0x09 || b == 0x0A || b == SLASH || b == GREATER }

  function NameLength(s: seq<Byte>): (n: nat)
    ensures n <= |s|
    ensures forall i :: 0 <= i < n ==> !EndsName(s[i])
    ensures n < |s| ==> EndsName(s[n])
  {
    FirstIndex(s, EndsName)
  }

  function TagEnd(s: seq<Byte>): (n: nat)
    ensures n <= |s| && (n < |s| ==> s[n] == GREATER)
    ensures forall i :: 0 <= i < n ==> s[i] != GREATER
  {
    FirstIndex(s, (b: Byte) => b == GREATER)
  }

  function Lower(b: Byte): Byte { if 0x41 <= b <= 0x5A then b + 0x20 else b }

  /** Equal but for the case of letters. */
  predicate SameName(a: seq<Byte>, b: seq<Byte>) {
    |a| == |b| && forall i :: 0 <= i < |a| ==> Lower(a[i]) == Lower(b[i])
  }

  function TagOf(name: seq<Byte>): (k: nat)
    ensures k <= |TAGS|
    ensures k < |TAGS| ==> SameName(name, TAGS[k])
  {
    FirstIndex(TAGS, tag => SameName(name, tag))
  }

  /** A known tag at the start of s, up to the first >. */
  function Tag(s: seq<Byte>): (p: Option<Piece>)
    ensures p.Some? ==> 1 <= p.value.used <= |s| && |p.value.out| <= 1
  {
    var end := TagEnd(s);
    if end == |s| || end == 0 then None
    else
      var from := if s[1] == SLASH then 2 else 1;
      var k := TagOf(s[from..from + NameLength(s[from..])]);
      if k == |TAGS| then None
      else Some(Piece(if TAGS[k] == BREAK then [SPACE] else [], end + 1))
  }

  /** What the text starts with becomes. */
  function Step(s: seq<Byte>, room: nat): (p: Piece)
    requires s != [] && room > 0
    ensures 1 <= p.used <= |s| && |p.out| <= room
  {
    if s[0] == AMPERSAND then
      var k := EntityAt(s[1..]);
      if k < |ENTITIES| then Piece([ENTITIES[k].character], 1 + |ENTITIES[k].name|)
      else OrPlain(Reference(s, room), s[0])
    else if s[0] == LESS then OrPlain(Tag(s), s[0])
    else Piece([s[0]], 1)
  }

  /** The plain text of s in room bytes. Every step takes some text and stays in the room. */
  function Flattened(s: seq<Byte>, room: nat): (r: seq<Byte>)
    ensures |r| <= room
    decreases |s|
  {
    if s == [] || room == 0 then []
    else
      var p := Step(s, room);
      p.out + Flattened(s[p.used..], room - |p.out|)
  }

  /* ---- escaping is undone ---- */

  function NamedFor(b: Byte): (k: nat)
    ensures k <= |ENTITIES| && (k < |ENTITIES| ==> ENTITIES[k].character == b)
  {
    FirstIndex(ENTITIES, (e: Entity) => e.character == b)
  }

  /** A byte of plain text as markup, when these bytes are escaped. */
  function Escaped(b: Byte, which: set<Byte>): (s: seq<Byte>)
    ensures s != []
  {
    if b in which && NamedFor(b) < |ENTITIES| then [AMPERSAND] + ENTITIES[NamedFor(b)].name else [b]
  }

  function EscapedAll(text: seq<Byte>, which: set<Byte>): seq<Byte> {
    if text == [] then [] else Escaped(text[0], which) + EscapedAll(text[1..], which)
  }

  /** No name of an entity starts another. */
  lemma NamesDiffer(i: nat, k: nat, rest: seq<Byte>)
    requires i < k < |ENTITIES|
    ensures !(ENTITIES[i].name <= ENTITIES[k].name + rest)
  {
    var a, b := ENTITIES[i].name, ENTITIES[k].name;
    assert a[0] != b[0] || a[1] != b[1];
    assert (b + rest)[0] == b[0] && (b + rest)[1] == b[1];
  }

  lemma EntityIsFound(k: nat, rest: seq<Byte>)
    requires k < |ENTITIES|
    ensures EntityAt(ENTITIES[k].name + rest) == k
  {
    var i := EntityAt(ENTITIES[k].name + rest);
    assert ENTITIES[k].name <= ENTITIES[k].name + rest;
    if i < k {
      NamesDiffer(i, k, rest);
    }
  }

  lemma NamedForAmpersandAndLess()
    ensures NamedFor(AMPERSAND) == 0 && NamedFor(LESS) == 1
  {
  }

  lemma EscapedStep(b: Byte, which: set<Byte>, rest: seq<Byte>, room: nat)
    requires AMPERSAND in which && LESS in which && room > 0
    ensures Step(Escaped(b, which) + rest, room) == Piece([b], |Escaped(b, which)|)
    ensures (Escaped(b, which) + rest)[|Escaped(b, which)|..] == rest
  {
    NamedForAmpersandAndLess();
    hide NamedFor;
    hide EntityAt;
    hide Reference;
    hide Tag;
    var s := Escaped(b, which) + rest;
    if b in which && NamedFor(b) < |ENTITIES| {
      NamedStep(NamedFor(b), rest, room);
    } else {
      assert s[0] == b;
    }
  }

  lemma NamedStep(k: nat, rest: seq<Byte>, room: nat)
    requires k < |ENTITIES| && room > 0
    ensures var s := [AMPERSAND] + ENTITIES[k].name;
      Step(s + rest, room) == Piece([ENTITIES[k].character], |s|)
  {
    hide EntityAt;
    hide Reference;
    hide Tag;
    var s := [AMPERSAND] + ENTITIES[k].name + rest;
    assert s[0] == AMPERSAND && s[1..] == ENTITIES[k].name + rest;
    EntityIsFound(k, rest);
  }

  /**
   * Text in which at least every & and every < is escaped by name flattens,
   * in one pass, to the text itself, as much of it as fits.
   */
  lemma {:induction false} EscapingIsUndone(text: seq<Byte>, which: set<Byte>, room: nat)
    requires AMPERSAND in which && LESS in which
    ensures Flattened(EscapedAll(text, which), room) == text[..Min(|text|, room)]
    decreases |text|
  {
    hide Step;
    hide Escaped;
    if text != [] && room > 0 {
      var rest := EscapedAll(text[1..], which);
      EscapedStep(text[0], which, rest, room);
      EscapingIsUndone(text[1..], which, room - 1);
      FirstOfAll(text[0], which, rest, room);
      hide Flattened;
      TakeOneMore(text, room);
    }
  }

  lemma FirstOfAll(b: Byte, which: set<Byte>, rest: seq<Byte>, room: nat)
    requires AMPERSAND in which && LESS in which && room > 0
    ensures Flattened(Escaped(b, which) + rest, room) == [b] + Flattened(rest, room - 1)
  {
    EscapedStep(b, which, rest, room);
    hide Step;
    hide Escaped;
  }

  lemma TakeOneMore(text: seq<Byte>, room: nat)
    requires text != [] && room > 0
    ensures text[..Min(|text|, room)] == [text[0]] + text[1..][..Min(|text| - 1, room - 1)]
  {
  }

  /* ---- numeric references are undone ---- */

  function Digit(v: nat): (b: Byte)
    requires v < 16
    ensures DigitValue(b) == v && !IsBlank(b) && b != 0x2B && b != 0x2D && b != SEMICOLON
  {
    if v < 10 then 0x30 + v else 0x61 + v - 10
  }

  /** A number written out in base 10 or 16. */
  function Digits(n: nat, base: nat): (s: seq<Byte>)
    requires base == 10 || base == 16
    ensures s != []
    ensures forall i :: 0 <= i < |s| ==> IsDigit(s[i], base) && !IsBlank(s[i]) && s[i] != 0x2B && s[i] != 0x2D
  {
    if n < base then [Digit(n)] else Digits(n / base, base) + [Digit(n % base)]
  }

  lemma {:induction false} ValueOfDigits(n: nat, base: nat)
    requires base == 10 || base == 16
    ensures ValueOf(Digits(n, base), base) == n
  {
    hide Digit;
    if n < base {
      assert [Digit(n)][..0] == [];
    } else {
      ValueOfDigits(n / base, base);
      var s := Digits(n / base, base);
      assert (s + [Digit(n % base)])[..|s|] == s;
    }
  }

  lemma {:induction false} DigitCountOf(digits: seq<Byte>, rest: seq<Byte>, base: nat)
    requires forall i :: 0 <= i < |digits| ==> IsDigit(digits[i], base)
    requires rest != [] && !IsDigit(rest[0], base)
    ensures DigitCount(digits + rest, base) == |digits|
  {
    if digits == [] {
      assert digits + rest == rest;
    } else {
      assert (digits + rest)[1..] == digits[1..] + rest;
      DigitCountOf(digits[1..], rest, base);
    }
  }

  /** A number that is nothing but its digits. */
  lemma PlainNumber(s: seq<Byte>, base: nat, count: nat)
    requires base == 10 || base == 16
    requires s != [] && !IsBlank(s[0]) && s[0] != 0x2B && s[0] != 0x2D && !HasPrefix(s, base)
    requires 0 < count <= |s| && DigitCount(s, base) == count && ValueOf(s[..count], base) <= MAX_VALUE
    ensures ReadNumber(s, base) == Number(ValueOf(s[..count], base), count)
  {
    assert BlankCount(s) == 0;
    assert s[0..] == s;
    assert s[0..0 + count] == s[..count];
    hide DigitCount;
    hide ValueOf;
    hide BlankCount;
    hide HasPrefix;
  }

  lemma NumberIsRead(n: nat, base: nat, rest: seq<Byte>)
    requires base == 10 || base == 16
    requires n <= MAX_VALUE && rest != [] && rest[0] == SEMICOLON
    ensures ReadNumber(Digits(n, base) + rest, base) == Number(n, |Digits(n, base)|)
  {
    hide Digits;
    hide DigitCount;
    hide ValueOf;
    hide ReadNumber;
    var digits := Digits(n, base);
    var s := digits + rest;
    assert s[0] == digits[0];
    assert !HasPrefix(s, base) by {
      if |s| > 1 { assert s[1] == if |digits| > 1 then digits[1] else rest[0]; }
    }
    DigitCountOf(digits, rest, base);
    assert s[..|digits|] == digits;
    ValueOfDigits(n, base);
    PlainNumber(s, base, |digits|);
  }

  /** A codepoint as a numeric reference, decimal or hexadecimal. */
  function Referenced(cp: nat, hex: bool): (s: seq<Byte>)
    ensures s != []
  {
    [AMPERSAND, HASH] + (if hex then [0x78] else []) + Digits(cp, if hex then 16 else 10) + [SEMICOLON]
  }

  lemma NoEntityStartsWithHash(s: seq<Byte>)
    requires s != [] && s[0] == HASH
    ensures EntityAt(s) == |ENTITIES|
  {
    assert forall e :: 0 <= e < |ENTITIES| ==> ENTITIES[e].name[0] != HASH;
  }

  lemma ReferencedShape(cp: nat, hex: bool, rest: seq<Byte>)
    ensures var s := Referenced(cp, hex) + rest;
      var from := if hex then 3 else 2;
      var digits := Digits(cp, if hex then 16 else 10);
      && |Referenced(cp, hex)| == from + |digits| + 1
      && s[0] == AMPERSAND && s[1] == HASH && (hex <==> s[2] == 0x78 || s[2] == 0x58)
      && s[from..] == digits + ([SEMICOLON] + rest)
      && s[from + |digits|] == SEMICOLON
      && s[from + |digits| + 1..] == rest
  {
    hide Digits;
    var s := Referenced(cp, hex) + rest;
    var digits := Digits(cp, if hex then 16 else 10);
    assert !hex ==> s[2] == digits[0] && IsDigit(digits[0], 10);
  }

  lemma ReferencedStep(cp: nat, hex: bool, rest: seq<Byte>, room: nat)
    requires Encodable(cp) && |Encode(cp)| <= room
    ensures Step(Referenced(cp, hex) + rest, room) == Piece(Encode(cp), |Referenced(cp, hex)|)
    ensures (Referenced(cp, hex) + rest)[|Referenced(cp, hex)|..] == rest
  {
    hide Encode;
    hide Digits;
    hide ReadNumber;
    hide EntityAt;
    ReferencedShape(cp, hex, rest);
    hide Referenced;
    NumberIsRead(cp, if hex then 16 else 10, [SEMICOLON] + rest);
    NoEntityStartsWithHash((Referenced(cp, hex) + rest)[1..]);
  }

  function ReferencedAll(cps: seq<nat>, hex: bool): seq<Byte> {
    if cps == [] then [] else Referenced(cps[0], hex) + ReferencedAll(cps[1..], hex)
  }

  /** Text written all in numeric references flattens to its UTF-8. */
  lemma {:induction false} ReferencesAreUndone(cps: seq<nat>, hex: bool, room: nat)
    requires AllEncodable(cps) && |EncodeAll(cps)| <= room
    ensures Flattened(ReferencedAll(cps, hex), room) == EncodeAll(cps)
    decreases |cps|
  {
    hide Encode;
    hide Step;
    hide Referenced;
    if cps != [] {
      ReferencedStep(cps[0], hex, ReferencedAll(cps[1..], hex), room);
      ReferencesAreUndone(cps[1..], hex, room - |Encode(cps[0])|);
    }
  }

  /* ---- tags ---- */

  function TagText(closing: bool, name: seq<Byte>, attributes: seq<Byte>): (tag: seq<Byte>)
    ensures |tag| == (if closing then 2 else 1) + |name| + |attributes| + 1
  {
    (if closing then [LESS, SLASH] else [LESS]) + name + attributes + [GREATER]
  }

  /**
   * A known tag, in any case, opening or closing, with whatever attributes
   * have no > in them, takes no place, but for br, which becomes a space.
   */
  lemma TagIsDropped(closing: bool, name: seq<Byte>, attributes: seq<Byte>, rest: seq<Byte>, k: nat, room: nat)
    requires k < |TAGS| && SameName(name, TAGS[k]) && room > 0
    requires attributes != [] ==> EndsName(attributes[0])
    requires GREATER !in attributes
    ensures var tag := TagText(closing, name, attributes);
      Step(tag + rest, room) == Piece(if TAGS[k] == BREAK then [SPACE] else [], |tag|)
  {
    TagNames(name, k);
    TagShape(closing, name, attributes, rest);
    hide TagText;
    hide TagEnd;
    hide NameLength;
    hide TagOf;
    hide SameName;
    hide EndsName;
    hide Step;
    hide Tag;
    var s := TagText(closing, name, attributes) + rest;
    TagFromParts(s, if closing then 2 else 1, name, k);
    KnownTagStep(s, room);
  }

  lemma TagFromParts(s: seq<Byte>, from: nat, name: seq<Byte>, k: nat)
    requires k < |TAGS| && TagOf(name) == k
    requires 0 < TagEnd(s) < |s| && from == (if s[1] == SLASH then 2 else 1) && from <= |s|
    requires NameLength(s[from..]) == |name| <= |s| - from && s[from..from + |name|] == name
    ensures Tag(s) == Some(Piece(if TAGS[k] == BREAK then [SPACE] else [], TagEnd(s) + 1))
  {
    hide TagEnd;
    hide NameLength;
    hide TagOf;
    hide SameName;
    hide EndsName;
  }

  lemma KnownTagStep(s: seq<Byte>, room: nat)
    requires s != [] && room > 0 && s[0] == LESS && Tag(s).Some?
    ensures Step(s, room) == Tag(s).value
  {
    hide Tag;
    hide EntityAt;
    hide Reference;
  }

  /** Where the parts of a tag lie. */
  lemma TagShape(closing: bool, name: seq<Byte>, attributes: seq<Byte>, rest: seq<Byte>)
    requires name != [] && forall i :: 0 <= i < |name| ==> !EndsName(name[i])
    requires attributes != [] ==> EndsName(attributes[0])
    requires GREATER !in attributes
    ensures var from := if closing then 2 else 1;
      var tag := TagText(closing, name, attributes);
      var s := tag + rest;
      && s[0] == LESS && (s[1] == SLASH <==> closing)
      && TagEnd(s) == |tag| - 1
      && NameLength(s[from..]) == |name| && s[from..from + |name|] == name
  {
    hide TagEnd;
    hide NameLength;
    var from := if closing then 2 else 1;
    var tag := TagText(closing, name, attributes);
    var s := tag + rest;
    TagBytes(closing, name, attributes, rest);
    hide TagText;
    assert s[from..from + |name|] == name;
    var first := TagEnd(s);
    assert first == |tag| - 1;
    var tail := s[from..];
    assert forall i :: 0 <= i < |name| ==> tail[i] == name[i];
    assert tail[|name|] == s[from + |name|];
  }

  lemma TagBytes(closing: bool, name: seq<Byte>, attributes: seq<Byte>, rest: seq<Byte>)
    requires name != []
    ensures var from := if closing then 2 else 1;
      var tag := TagText(closing, name, attributes);
      var s := tag + rest;
      && s[0] == LESS && s[1] == (if closing then SLASH else name[0])
      && (forall i :: from <= i < from + |name| ==> s[i] == name[i - from])
      && (forall i :: from + |name| <= i < |tag| - 1 ==> s[i] == attributes[i - from - |name|])
      && s[|tag| - 1] == GREATER
  {
  }

  /** The name of a tag has no byte that ends a name, and is the name of that tag only. */
  lemma TagNames(name: seq<Byte>, k: nat)
    requires k < |TAGS| && SameName(name, TAGS[k])
    ensures name != [] && TagOf(name) == k
    ensures forall i :: 0 <= i < |name| ==> !EndsName(name[i])
  {
    assert forall j :: 0 <= j < k ==> |TAGS[j]| != |TAGS[k]| || Lower(TAGS[j][0]) != Lower(TAGS[k][0]);
    assert TagOf(name) <= k;
    assert forall i :: 0 <= i < |name| ==> Lower(name[i]) == TAGS[k][i];
  }
}
