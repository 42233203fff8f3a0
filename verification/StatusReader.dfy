/** The status input handler as it runs, on a buffer that outlives the reads. */
module StatusReader {
  import opened Sequences
  import opened Utf8
  import opened StatusStream

  class Input {
    const buffer: array<Byte>
    var len: nat
    var skipping: bool
    var text: seq<Byte>   // what the bar shows

    ghost predicate Valid()
      reads this, buffer
    {
      buffer.Length == STATUS_MAX && len < ROOM && Ready(State())
    }

    ghost function State(): Reader
      reads this, buffer
      requires len <= buffer.Length
    {
      Reader(buffer[..len], skipping, text)
    }

    constructor (text: seq<Byte>)
      ensures Valid() && fresh(buffer) && State() == Reader([], false, text)
    {
      buffer := new Byte[STATUS_MAX](_ => 0);
      len, skipping, this.text := 0, false, text;
    }

    /** What read() does: puts the chunk behind the line kept from before, and terminates it. */
    method Append(chunk: seq<Byte>) returns (end: nat)
      requires Valid() && CanRead(State(), chunk)
      modifies buffer
      ensures end == len + |chunk| <= ROOM
      ensures buffer[..end] == old(buffer[..len]) + chunk && buffer[end] == 0
    {
      var i := 0;
      while i < |chunk|
        invariant 0 <= i <= |chunk|
        invariant buffer[..len] == old(buffer[..len])
        invariant buffer[len..len + i] == chunk[..i]
      {
        buffer[len + i] := chunk[i];
        i := i + 1;
      }
      end := len + |chunk|;
      buffer[end] := 0;
      assert buffer[..end] == buffer[..len] + buffer[len..end];
    }

    /** strchr for a newline, from start on; found tells it from the terminator. */
    method FindNewline(start: nat, ghost end: nat) returns (i: nat, found: bool)
      requires start <= end < buffer.Length && buffer[end] == 0
      ensures start <= i <= end && i == start + LineEnd(buffer[start..end])
      ensures found == (i < end && buffer[i] == NEWLINE)
    {
      i := start;
      while buffer[i] != 0 && buffer[i] != NEWLINE
        invariant start <= i <= end
        invariant forall k :: start <= k < i ==> buffer[k] != 0 && buffer[k] != NEWLINE
        decreases end - i
      {
        i := i + 1;
      }
      found := buffer[i] == NEWLINE;
      ghost var data := buffer[start..end];
      assert forall k :: 0 <= k < |data| ==> data[k] == buffer[start + k];
    }

    /** Moves the start of the next line to the front of the buffer. */
    method Keep(start: nat, end: nat)
      requires start <= end < buffer.Length
      modifies buffer
      ensures buffer[..end - start] == old(buffer[start..end])
    {
      var i := start;
      while i <= end
        invariant start <= i <= end + 1
        invariant forall k {:trigger buffer[k]} :: 0 <= k < i - start ==> buffer[k] == old(buffer[..])[k + start]
        invariant forall k {:trigger buffer[k]} :: i <= k <= end ==> buffer[k] == old(buffer[..])[k]
      {
        buffer[i - start] := buffer[i];
        i := i + 1;
      }
    }

    /** One more line of the load, or its end. */
    static lemma SplitStep(data: seq<Byte>, start: nat, i: nat, skipping: bool, latest: Option<seq<Byte>>)
      requires start <= i <= |data| && i == start + LineEnd(data[start..])
      ensures i < |data| && data[i] == NEWLINE ==>
        Split(data[start..], skipping, latest)
        == Split(data[i + 1..], false, if skipping then latest else Some(data[start..i]))
      ensures !(i < |data| && data[i] == NEWLINE) ==>
        Split(data[start..], skipping, latest) == Lines(data[start..i], skipping, latest)
    {
      assert data[start..][..i - start] == data[start..i];
      if i < |data| { assert data[start..][i - start + 1..] == data[i + 1..]; }
    }

    /** Walks over the lines of a load; the last one that is shown is latest, start is where the next begins. */
    method ScanLines(end: nat, ghost data: seq<Byte>)
      returns (start: nat, i: nat, latest: Option<seq<Byte>>)
      requires end < buffer.Length && buffer[..end] == data && buffer[end] == 0
      modifies `skipping
      ensures start <= i <= end
      ensures Split(data, old(skipping), None) == Lines(buffer[start..i], skipping, latest)
    {
      hide Split;
      hide LineEnd;
      start, latest := 0, None;
      var found;
      assert data[0..] == data;
      i, found := FindNewline(0, end);
      while found
        invariant start <= i <= end && i == start + LineEnd(data[start..])
        invariant found == (i < end && data[i] == NEWLINE)
        invariant Split(data[start..], skipping, latest) == Split(data, old(skipping), None)
        decreases end - start
      {
        SplitStep(data, start, i, skipping, latest);
        assert buffer[start..i] == data[start..i];
        if skipping {
          skipping := false;
        } else {
          latest := Some(buffer[start..i]);
        }
        start := i + 1;
        assert data[start..] == buffer[start..end];
        i, found := FindNewline(start, end);
      }
      SplitStep(data, start, i, skipping, latest);
      assert buffer[start..i] == data[start..i];
    }

    /** One read event that brought in chunk. */
    method HandleInput(chunk: seq<Byte>)
      requires Valid() && CanRead(State(), chunk)
      modifies this, buffer
      ensures Valid() && State() == Feed(old(State()), chunk)
    {
      hide Split;
      AlwaysRoom(State(), chunk);
      ghost var data := State().partial + chunk;
      var end := Append(chunk);
      var start, i, latest := ScanLines(end, data);
      if latest.Some? {
        text := latest.value;
      }
      Keep(start, i);
      len := i - start;
      if len == ROOM {
        len, skipping := 0, true;
        assert buffer[..len] == [];
      }
    }

    /** Any run of reads. */
    method HandleAll(chunks: seq<seq<Byte>>)
      requires Valid() && CanReadAll(State(), chunks)
      modifies this, buffer
      ensures Valid() && State() == FeedAll(old(State()), chunks)
      ensures old(State()) == Reader([], false, old(text)) && 0 !in Joined(chunks) ==>
              text == LastLine(old(text), Joined(chunks))
    {
      if State() == Reader([], false, text) && 0 !in Joined(chunks) {
        ChunkingDoesNotMatter(text, chunks);
      }
      var i := 0;
      while i < |chunks|
        invariant 0 <= i <= |chunks| && Valid() && CanReadAll(State(), chunks[i..])
        invariant FeedAll(State(), chunks[i..]) == FeedAll(old(State()), chunks)
      {
        assert chunks[i..][1..] == chunks[i + 1..];
        HandleInput(chunks[i]);
        i := i + 1;
      }
    }
  }
}
