/** What markup stands for, by its names, and what is no markup and so stays as it is. */
module MarkupLaws {
  import opened Division
  import opened Utf8
  import opened Markup

  function Ascii(s: string): (bytes: seq<Byte>)
    ensures |bytes| == |s|
  {
    seq(|s|, i requires 0 <= i < |s| => if (s[i] as int) < 128 then s[i] as int else 0)
  }

  /* ---- names ---- */

  /** The five entities by name. */
  lemma EntitiesByName()
    ensures ENTITIES == [
      Entity(Ascii("amp;"), '&' as int), Entity(Ascii("lt;"), '<' as int), Entity(Ascii("gt;"), '>' as int),
      Entity(Ascii("quot;"), '"' as int), Entity(Ascii("apos;"), '\'' as int)]
  {
    assert ENTITIES[0].name == Ascii("amp;") && ENTITIES[1].name == Ascii("lt;") && ENTITIES[2].name == Ascii("gt;");
    assert ENTITIES[3].name == Ascii("quot;") && ENTITIES[4].name == Ascii("apos;");
  }

  /** An entity flattens to its character, and the text goes on behind its semicolon. */
  lemma EntityDecodes(k: nat, rest: seq<Byte>, room: nat)
    requires k < |ENTITIES| && room > 0
    ensures Flattened([AMPERSAND] + ENTITIES[k].name + rest, room) ==
            [ENTITIES[k].character] + Flattened(rest, room - 1)
  {
    NamedStep(k, rest, room);
    var s := [AMPERSAND] + ENTITIES[k].name;
    assert (s + rest)[|s|..] == rest;
    hide Step;
  }

  lemma TagsByName()
    ensures TAGS == [Ascii("b"), Ascii("i"), Ascii("u"), Ascii("a"), Ascii("img"), Ascii("br")]
  {
    assert TAGS[0] == Ascii("b") && TAGS[1] == Ascii("i") && TAGS[2] == Ascii("u") && TAGS[3] == Ascii("a");
    assert TAGS[4] == Ascii("img") && TAGS[5] == Ascii("br");
  }

  /** A known tag goes, or br becomes a space, and the text goes on behind it. */
  lemma TagGoes(closing: bool, attributes: seq<Byte>, rest: seq<Byte>, k: nat, room: nat)
    requires k < |TAGS| && room > 0
    requires attributes != [] ==> EndsName(attributes[0])
    requires GREATER !in attributes
    ensures var s := TagText(closing, TAGS[k], attributes) + rest;
      if k == 5 then Flattened(s, room) == [' ' as int] + Flattened(rest, room - 1)
      else Flattened(s, room) == Flattened(rest, room)
  {
    TagIsDropped(closing, TAGS[k], attributes, rest, k, room);
    var tag := TagText(closing, TAGS[k], attributes);
    BreakIsLast(k);
    hide *;
    Behind(tag, rest);
    FlattenedStep(tag + rest, room);
    assert [] + Flattened(rest, room) == Flattened(rest, room);
  }

  lemma BreakIsLast(k: nat)
    requires k < |TAGS|
    ensures TAGS[k] == BREAK <==> k == 5
  {
  }

  lemma Behind(a: seq<Byte>, b: seq<Byte>)
    ensures (a + b)[|a|..] == b
  {
  }

  lemma FlattenedStep(s: seq<Byte>, room: nat)
    requires s != [] && room > 0
    ensures var p := Step(s, room); Flattened(s, room) == p.out + Flattened(s[p.used..], room - |p.out|)
  {
    hide Step;
  }

  /* ---- what is not markup ---- */

  lemma PlainStep(s: seq<Byte>, room: nat)
    requires s != [] && room > 0 && Step(s, room) == Piece([s[0]], 1)
    ensures Flattened(s, room) == [s[0]] + Flattened(s[1..], room - 1)
  {
    hide Step;
  }

  /** An & is kept when no semicolon follows it, and so is one that starts neither an entity nor a #. */
  lemma AmpersandIsKept(s: seq<Byte>, room: nat)
    requires s != [] && s[0] == AMPERSAND && room > 0
    requires SEMICOLON !in s ||
      ((forall k :: 0 <= k < |ENTITIES| ==> !(ENTITIES[k].name <= s[1..])) && (|s| == 1 || s[1] != HASH))
    ensures Flattened(s, room) == [AMPERSAND] + Flattened(s[1..], room - 1)
  {
    var k := EntityAt(s[1..]);
    if k < |ENTITIES| && SEMICOLON !in s {
      EntityHasSemicolon(k, s);
    }
    hide EntityAt;
    hide ReadNumber;
    hide Tag;
    PlainStep(s, room);
  }

  lemma EntityHasSemicolon(k: nat, s: seq<Byte>)
    requires k < |ENTITIES| && s != [] && ENTITIES[k].name <= s[1..]
    ensures SEMICOLON in s
  {
    var name := ENTITIES[k].name;
    assert name[|name| - 1] == SEMICOLON;
    assert s[|name|] == s[1..][|name| - 1] == SEMICOLON;
  }

  /** A numeric reference to no codepoint that can be written, or to one that has no room, keeps its &. */
  lemma BadReferenceIsKept(cp: nat, hex: bool, rest: seq<Byte>, room: nat)
    requires cp <= MAX_VALUE && room > 0 && (!Encodable(cp) || |Encode(cp)| > room)
    ensures var s := Referenced(cp, hex) + rest;
      s != [] && Flattened(s, room) == [AMPERSAND] + Flattened(s[1..], room - 1)
  {
    hide Encode;
    hide Digits;
    hide ReadNumber;
    hide EntityAt;
    ReferencedShape(cp, hex, rest);
    hide Referenced;
    NumberIsRead(cp, if hex then 16 else 10, [SEMICOLON] + rest);
    var s := Referenced(cp, hex) + rest;
    NoEntityStartsWithHash(s[1..]);
    PlainStep(s, room);
  }

  /** A number may have a sign, and a minus takes it from 2 to the 64. */
  lemma SignsAreRead(minus: bool, n: nat, base: nat, rest: seq<Byte>)
    requires base == 10 || base == 16
    requires n <= MAX_VALUE && rest != [] && rest[0] == SEMICOLON
    ensures var sign: Byte := if minus then '-' as int else '+' as int;
      ReadNumber([sign] + (Digits(n, base) + rest), base) ==
      Number(if minus && n > 0 then 0x1_0000_0000_0000_0000 - n else n, 1 + |Digits(n, base)|)
  {
    var sign: Byte := if minus then '-' as int else '+' as int;
    var digits := Digits(n, base);
    DigitsLead(n, base, rest);
    hide *;
    SignedNumber(sign, digits + rest, base, |digits|);
  }

  lemma DigitsLead(n: nat, base: nat, rest: seq<Byte>)
    requires base == 10 || base == 16
    requires rest != [] && rest[0] == SEMICOLON
    ensures var digits := Digits(n, base); var body := digits + rest;
      && body != [] && !HasPrefix(body, base) && 0 < |digits| <= |body|
      && DigitCount(body, base) == |digits| && ValueOf(body[..|digits|], base) == n
  {
    var digits := Digits(n, base);
    var body := digits + rest;
    DigitCountOf(digits, rest, base);
    ValueOfDigits(n, base);
    assert body[..|digits|] == digits;
    hide DigitCount;
    hide ValueOf;
    hide Digits;
    if |body| > 1 { assert body[1] == if |digits| > 1 then digits[1] else rest[0]; }
  }

  lemma SignedNumber(sign: Byte, body: seq<Byte>, base: nat, count: nat)
    requires base == 10 || base == 16
    requires sign == 0x2B || sign == 0x2D
    requires body != [] && !HasPrefix(body, base) && 0 < count <= |body| && DigitCount(body, base) == count
    requires ValueOf(body[..count], base) <= MAX_VALUE
    ensures ReadNumber([sign] + body, base) ==
      var value := ValueOf(body[..count], base);
      Number(if sign == 0x2D && value > 0 then MAX_VALUE + 1 - value else value, 1 + count)
  {
    var s := [sign] + body;
    assert BlankCount(s) == 0;
    assert s[1..] == body && s[1..1 + count] == body[..count];
    hide DigitCount;
    hide ValueOf;
    hide BlankCount;
    hide HasPrefix;
  }

  /** Where the name of a tag lies that starts at the beginning of s. */
  function TagName(s: seq<Byte>): (name: seq<Byte>)
    requires |s| > 1
  {
    var from := if s[1] == SLASH then 2 else 1;
    s[from..from + NameLength(s[from..])]
  }

  /** A < is kept when no > follows it, and so is one that no known name follows. */
  lemma LessIsKept(s: seq<Byte>, room: nat)
    requires s != [] && s[0] == LESS && room > 0
    requires GREATER !in s || (|s| > 1 && forall k :: 0 <= k < |TAGS| ==> !SameName(TagName(s), TAGS[k]))
    ensures Flattened(s, room) == [LESS] + Flattened(s[1..], room - 1)
  {
    if GREATER in s {
      var k := TagOf(TagName(s));
      assert k == |TAGS|;
    }
    hide TagOf;
    hide NameLength;
    hide EntityAt;
    hide Reference;
    PlainStep(s, room);
  }

  /** The name of what looks like a tag is what stands between its < or </ and the first byte that ends a name. */
  lemma TagNameIs(closing: bool, name: seq<Byte>, attributes: seq<Byte>, rest: seq<Byte>)
    requires name != [] && forall i :: 0 <= i < |name| ==> !EndsName(name[i])
    requires attributes != [] ==> EndsName(attributes[0])
    requires GREATER !in attributes
    ensures TagName(TagText(closing, name, attributes) + rest) == name
  {
    TagShape(closing, name, attributes, rest);
    hide NameLength;
    hide TagText;
    hide TagEnd;
  }

  /** So markup of another language passes through: an unknown tag loses nothing. */
  lemma UnknownTagIsKept(closing: bool, name: seq<Byte>, attributes: seq<Byte>, rest: seq<Byte>, room: nat)
    requires name != [] && room > 0 && forall i :: 0 <= i < |name| ==> !EndsName(name[i])
    requires attributes != [] ==> EndsName(attributes[0])
    requires GREATER !in attributes && forall k :: 0 <= k < |TAGS| ==> !SameName(name, TAGS[k])
    ensures var s := TagText(closing, name, attributes) + rest;
      s != [] && Flattened(s, room) == [LESS] + Flattened(s[1..], room - 1)
  {
    TagNameIs(closing, name, attributes, rest);
    var s := TagText(closing, name, attributes) + rest;
    assert s[0] == LESS;
    hide TagText;
    hide TagName;
    LessIsKept(s, room);
  }

  /** Text with nothing that could end an entity or a tag is left alone, as much of it as fits. */
  lemma {:induction false} NothingToDecode(s: seq<Byte>, room: nat)
    requires (AMPERSAND !in s || SEMICOLON !in s) && (LESS !in s || GREATER !in s)
    ensures Flattened(s, room) == s[..Min(|s|, room)]
    decreases |s|
  {
    if s != [] && room > 0 {
      assert forall b :: b in s[1..] ==> b in s;
      FirstIsKept(s, room);
      hide *;
      NothingToDecode(s[1..], room - 1);
      TakeOneMore(s, room);
    }
  }

  lemma FirstIsKept(s: seq<Byte>, room: nat)
    requires s != [] && room > 0
    requires (AMPERSAND !in s || SEMICOLON !in s) && (LESS !in s || GREATER !in s)
    ensures Flattened(s, room) == [s[0]] + Flattened(s[1..], room - 1)
  {
    hide Flattened;
    if s[0] == AMPERSAND {
      AmpersandIsKept(s, room);
    } else if s[0] == LESS {
      LessIsKept(s, room);
    } else {
      PlainStep(s, room);
    }
  }
}
