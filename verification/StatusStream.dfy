/**
 * The status text read from standard input: what one read does to the state
 * kept between reads, and why the way the stream is cut into reads does not
 * matter.
 */
module StatusStream {
  import opened Sequences
  import opened Utf8

  const STATUS_MAX := 4096
  const ROOM := STATUS_MAX - 1   // bytes beside the terminator
  const NEWLINE := 10

  /** partial is the line so far; skipping means it began with bytes dropped for want of room. */
  datatype Reader = Reader(partial: seq<Byte>, skipping: bool, text: seq<Byte>)

  predicate Ready(s: Reader) { |s.partial| < ROOM && 0 !in s.partial && NEWLINE !in s.partial }

  /** Where strchr stops: at the first newline, or at the terminator before it. */
  function LineEnd(data: seq<Byte>): (i: nat)
    ensures i <= |data|
    ensures forall k :: 0 <= k < i ==> data[k] != 0 && data[k] != NEWLINE
    ensures i < |data| ==> data[i] == 0 || data[i] == NEWLINE
  {
    if data == [] || data[0] == 0 || data[0] == NEWLINE then 0 else
      var k := LineEnd(data[1..]);
      assert forall j :: 1 <= j < k + 1 ==> data[j] == data[1..][j - 1];
      k + 1
  }

  /** What is left over after the last whole line, and the last whole line that is shown. */
  datatype Lines = Lines(rest: seq<Byte>, skipping: bool, latest: Option<seq<Byte>>)

  function Split(data: seq<Byte>, skipping: bool, latest: Option<seq<Byte>>): Lines
    decreases |data|
  {
    var i := LineEnd(data);
    if i < |data| && data[i] == NEWLINE
    then Split(data[i + 1..], false, if skipping then latest else Some(data[..i]))
    else Lines(data[..i], skipping, latest)
  }

  /** One read that brought in chunk. */
  function Feed(s: Reader, chunk: seq<Byte>): Reader {
    var r := Split(s.partial + chunk, s.skipping, None);
    var text := if r.latest.Some? then r.latest.value else s.text;
    if |r.rest| == ROOM then Reader([], true, text) else Reader(r.rest, r.skipping, text)
  }

  /** A read brings at least a byte and no more than there is room for. */
  predicate CanRead(s: Reader, chunk: seq<Byte>) { 0 < |chunk| <= ROOM - |s.partial| }

  predicate CanReadAll(s: Reader, chunks: seq<seq<Byte>>)
    decreases |chunks|
  {
    chunks != [] ==> CanRead(s, chunks[0]) && CanReadAll(Feed(s, chunks[0]), chunks[1..])
  }

  function FeedAll(s: Reader, chunks: seq<seq<Byte>>): Reader
    decreases |chunks|
  {
    if chunks == [] then s else FeedAll(Feed(s, chunks[0]), chunks[1..])
  }

  function Joined(chunks: seq<seq<Byte>>): seq<Byte> {
    if chunks == [] then [] else chunks[0] + Joined(chunks[1..])
  }

  /* ---- the whole stream at once ---- */

  /** The last complete line of at most STATUS_MAX - 2 bytes, or what was shown before. */
  function LastLine(shown: seq<Byte>, stream: seq<Byte>): seq<Byte>
    decreases |stream|
  {
    var i := LineEnd(stream);
    if i < |stream| && stream[i] == NEWLINE
    then LastLine(if i <= STATUS_MAX - 2 then stream[..i] else shown, stream[i + 1..])
    else shown
  }

  /** What follows the last newline. */
  function Tail(stream: seq<Byte>): (t: seq<Byte>)
    ensures |t| <= |stream|
    decreases |stream|
  {
    var i := LineEnd(stream);
    if i < |stream| && stream[i] == NEWLINE then Tail(stream[i + 1..]) else stream
  }

  lemma {:induction false} TailHasNoNewline(stream: seq<Byte>)
    requires 0 !in stream
    ensures NEWLINE !in Tail(stream) && 0 !in Tail(stream)
    decreases |stream|
  {
    var i := LineEnd(stream);
    if i < |stream| { TailHasNoNewline(stream[i + 1..]); }
  }

  lemma LineEndIs(data: seq<Byte>, i: nat)
    requires i <= |data| && (forall k :: 0 <= k < i ==> data[k] != 0 && data[k] != NEWLINE)
    requires i < |data| ==> data[i] == NEWLINE
    ensures LineEnd(data) == i
  {
  }

  /** A stream with a first line, and the stream after it. */
  lemma AfterLine(shown: seq<Byte>, line: seq<Byte>, rest: seq<Byte>)
    requires 0 !in line && NEWLINE !in line
    ensures LastLine(shown, line + [NEWLINE] + rest)
         == LastLine(if |line| <= STATUS_MAX - 2 then line else shown, rest)
    ensures Tail(line + [NEWLINE] + rest) == Tail(rest)
    ensures forall skipping, latest ::
      Split(line + [NEWLINE] + rest, skipping, latest)
      == Split(rest, false, if skipping then latest else Some(line))
  {
    var stream := line + [NEWLINE] + rest;
    LineEndIs(stream, |line|);
    assert stream[..|line|] == line && stream[|line| + 1..] == rest;
  }

  /** A stream without a newline. */
  lemma NoLine(shown: seq<Byte>, tail: seq<Byte>)
    requires 0 !in tail && NEWLINE !in tail
    ensures LastLine(shown, tail) == shown && Tail(tail) == tail
    ensures forall skipping, latest :: Split(tail, skipping, latest) == Lines(tail, skipping, latest)
  {
    LineEndIs(tail, |tail|);
    assert tail[..|tail|] == tail;
  }

  /** The first line of a stream, cut off. */
  lemma FirstLine(stream: seq<Byte>) returns (line: seq<Byte>, rest: seq<Byte>)
    requires 0 !in stream && NEWLINE in stream
    ensures stream == line + [NEWLINE] + rest && 0 !in line && NEWLINE !in line && 0 !in rest
  {
    var i := LineEnd(stream);
    line, rest := stream[..i], stream[i + 1..];
  }

  /** Reading on: only the tail of what came before still matters. */
  lemma {:induction false} ReadingOn(shown: seq<Byte>, a: seq<Byte>, b: seq<Byte>)
    requires 0 !in a
    ensures LastLine(shown, a + b) == LastLine(LastLine(shown, a), Tail(a) + b)
    ensures Tail(a + b) == Tail(Tail(a) + b)
    decreases |a|
  {
    hide LastLine;
    hide Tail;
    hide Split;
    if NEWLINE in a {
      var line, rest := FirstLine(a);
      AfterLine(shown, line, rest);
      AfterLine(shown, line, rest + b);
      assert line + [NEWLINE] + (rest + b) == a + b;
      ReadingOn(if |line| <= STATUS_MAX - 2 then line else shown, rest, b);
    } else {
      NoLine(shown, a);
    }
  }

  /* ---- one read against the stream ---- */

  /** tail is what the stream has brought since its last newline. */
  predicate Follows(s: Reader, tail: seq<Byte>) {
    && Ready(s) && NEWLINE !in tail && 0 !in tail
    && (if s.skipping then |tail| >= ROOM && |s.partial| <= |tail| && s.partial == tail[|tail| - |s.partial|..]
        else s.partial == tail)
  }

  /** A whole load of lines, none of which is too long for the buffer. */
  lemma {:induction false} SplitShows(shown: seq<Byte>, data: seq<Byte>, latest: Option<seq<Byte>>)
    requires 0 !in data && |data| <= ROOM
    ensures var r := Split(data, false, latest);
      && r.rest == Tail(data) && !r.skipping
      && (if r.latest.Some? then r.latest.value else shown)
         == LastLine(if latest.Some? then latest.value else shown, data)
    decreases |data|
  {
    var i := LineEnd(data);
    if i < |data| {
      SplitShows(shown, data[i + 1..], Some(data[..i]));
    } else {
      assert data[..i] == data;
    }
  }

  /** The end of a line too long for the buffer. */
  lemma LongLineEnds(s: Reader, tail: seq<Byte>, line: seq<Byte>, rest: seq<Byte>)
    requires Follows(s, tail) && s.skipping && 0 !in line && NEWLINE !in line
    ensures var chunk := line + [NEWLINE] + rest;
      && LastLine(s.text, tail + chunk) == LastLine(s.text, rest)
      && Tail(tail + chunk) == Tail(rest)
      && Split(s.partial + chunk, true, None) == Split(rest, false, None)
  {
    hide LastLine;
    hide Tail;
    hide Split;
    var chunk := line + [NEWLINE] + rest;
    assert tail + chunk == (tail + line) + [NEWLINE] + rest;
    assert s.partial + chunk == (s.partial + line) + [NEWLINE] + rest;
    AfterLine(s.text, tail + line, rest);
    AfterLine(s.text, s.partial + line, rest);
  }

  lemma FeedFollows(s: Reader, tail: seq<Byte>, chunk: seq<Byte>)
    requires Follows(s, tail) && CanRead(s, chunk) && 0 !in chunk
    ensures Feed(s, chunk).text == LastLine(s.text, tail + chunk)
    ensures Follows(Feed(s, chunk), Tail(tail + chunk))
  {
    hide LastLine;
    hide Tail;
    hide Split;
    TailHasNoNewline(tail + chunk);
    if !s.skipping {
      SplitShows(s.text, tail + chunk, None);
    } else if NEWLINE in chunk {
      var line, rest := FirstLine(chunk);
      LongLineEnds(s, tail, line, rest);
      SplitShows(s.text, rest, None);
    } else {
      NoLine(s.text, tail + chunk);
      NoLine(s.text, s.partial + chunk);
    }
  }

  lemma {:induction false} FeedAllFollows(s: Reader, tail: seq<Byte>, chunks: seq<seq<Byte>>)
    requires Follows(s, tail) && CanReadAll(s, chunks) && 0 !in Joined(chunks)
    ensures FeedAll(s, chunks).text == LastLine(s.text, tail + Joined(chunks))
    ensures Ready(FeedAll(s, chunks))
    decreases |chunks|
  {
    if chunks == [] {
      FollowsNoNul(s, tail);
      NoLine(s.text, tail + []);
      assert tail + [] == tail;
    } else {
      hide LastLine;
      hide Tail;
      hide Feed;
      hide Follows;
      var c, rest := chunks[0], Joined(chunks[1..]);
      assert 0 !in c && 0 !in rest by { assert Joined(chunks) == c + rest; }
      assert tail + Joined(chunks) == (tail + c) + rest;
      hide Joined;
      FeedFollows(s, tail, c);
      FeedAllFollows(Feed(s, c), Tail(tail + c), chunks[1..]);
      assert 0 !in tail + c by { FollowsNoNul(s, tail); }
      ReadingOn(s.text, tail + c, rest);
    }
  }

  lemma FollowsNoNul(s: Reader, tail: seq<Byte>)
    requires Follows(s, tail)
    ensures 0 !in tail && NEWLINE !in tail
  {
  }

  /**
   * However a stream without NULs is cut into reads, the text shown at the
   * end is its last complete line that fits, or the old one.
   */
  lemma ChunkingDoesNotMatter(text: seq<Byte>, chunks: seq<seq<Byte>>)
    requires CanReadAll(Reader([], false, text), chunks) && 0 !in Joined(chunks)
    ensures FeedAll(Reader([], false, text), chunks).text == LastLine(text, Joined(chunks))
  {
    FeedAllFollows(Reader([], false, text), [], chunks);
    assert [] + Joined(chunks) == Joined(chunks);
  }

  /** There is always room to read at least a byte, whatever comes, NULs included. */
  lemma AlwaysRoom(s: Reader, chunk: seq<Byte>)
    requires Ready(s) && CanRead(s, chunk)
    ensures Ready(Feed(s, chunk))
  {
    SplitRest(s.partial + chunk, s.skipping, None);
  }

  lemma {:induction false} SplitRest(data: seq<Byte>, skipping: bool, latest: Option<seq<Byte>>)
    ensures var r := Split(data, skipping, latest).rest;
      |r| <= |data| && 0 !in r && NEWLINE !in r
    decreases |data|
  {
    var i := LineEnd(data);
    if i < |data| && data[i] == NEWLINE {
      SplitRest(data[i + 1..], false, if skipping then latest else Some(data[..i]));
    }
  }
}
