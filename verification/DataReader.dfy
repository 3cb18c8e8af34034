/** The buffered loops that read lines and the DATA block from chunks. */
module DataReader {
  import opened Results
  import opened DataLines

  datatype LineError = LineTooLong | ReadError

  function Flatten(chunks: seq<bytes>): bytes {
    if chunks == [] then [] else chunks[0] + Flatten(chunks[1..])
  }

  /** A buffered reader: the peer's bytes in whatever chunks they arrive, then the end. */
  class ByteReader {
    var chunks: seq<bytes>
    const ending: Ending

    predicate Valid()
      reads this
    {
      forall i :: 0 <= i < |chunks| ==> chunks[i] != []
    }

    ghost function Remaining(): bytes
      reads this
    {
      Flatten(chunks)
    }

    constructor (chunks: seq<bytes>, ending: Ending)
      requires forall i :: 0 <= i < |chunks| ==> chunks[i] != []
      ensures Valid() && this.chunks == chunks && this.ending == ending
    {
      this.chunks, this.ending := chunks, ending;
    }

    /** What is buffered, refilled when empty; nothing at the end of the stream. */
    method FillBuf() returns (r: Result<bytes, LineError>, ghost rest: bytes)
      requires Valid()
      ensures r.Ok? ==> Remaining() == r.value + rest && (r.value == [] <==> chunks == [])
      ensures r.Ok? && chunks == [] ==> ending == Eof
      ensures r.Err? ==> r.error == ReadError && chunks == [] && ending == Broken
      ensures chunks != [] ==> r == Ok(chunks[0])
    {
      if chunks != [] {
        return Ok(chunks[0]), Flatten(chunks[1..]);
      }
      return if ending == Eof then Ok([]) else Err(ReadError), [];
    }

    method Consume(n: nat)
      requires Valid() && chunks != [] && n <= |chunks[0]|
      modifies this
      ensures Valid() && Remaining() == old(Remaining())[n..]
    {
      var left := chunks[0][n..];
      assert Flatten(chunks) == chunks[0] + Flatten(chunks[1..]);
      if left == [] {
        chunks := chunks[1..];
      } else {
        chunks := [left] + chunks[1..];
        assert chunks[1..] == old(chunks)[1..];
      }
    }
  }

  /** Length of the first line of a buffer, if it ends there. */
  method FindNewline(b: bytes) returns (end: Option<nat>)
    ensures end == if HasLine(b) then Some(LineEnd(b)) else None
  {
    for i := 0 to |b|
      invariant !HasLine(b[..i])
    {
      assert b == b[..i] + b[i..];
      LineEndPast(b[..i], b[i..]);
      if b[i] == LF {
        return Some(i + 1);
      }
      assert b[..i + 1] == b[..i] + [b[i]];
      LineEndPast(b[..i], [b[i]]);
    }
    assert b[..|b|] == b;
    return None;
  }

  lemma SplitAppended(got: bytes, available: bytes, more: bytes, n: nat)
    requires n <= |available|
    ensures
      var all := got + (available + more);
      all[..|got| + n] == got + available[..n] && all[|got| + n..] == (available + more)[n..]
  {
  }

  /** The buffered piece holds the end of the first line. */
  lemma LineEndsHere(got: bytes, available: bytes, more: bytes)
    requires !HasLine(got) && HasLine(available)
    ensures
      var all, n := got + (available + more), LineEnd(available);
      && FirstLine(all) == got + available[..n] && IsComplete(FirstLine(all))
      && AfterLine(all) == (available + more)[n..]
  {
    LineEndWithin(available, more);
    LineEndPast(got, available + more);
    SplitAppended(got, available, more, LineEnd(available));
    FirstLineIsLine(got + (available + more));
  }

  /** The buffered piece belongs to the same line. */
  lemma LineGoesOn(got: bytes, available: bytes, more: bytes)
    requires !HasLine(got) && !HasLine(available)
    ensures
      var all := got + (available + more);
      && |got| + |available| <= |FirstLine(all)|
      && !HasLine(got + available) && all == got + available + more
  {
    LineEndPast(available, more);
    LineEndPast(got, available + more);
    LineEndPast(got, available);
    Regroup(got, available, more);
  }

  lemma DropAll(a: bytes, b: bytes)
    ensures (a + b)[|a|..] == b
  {
  }

  lemma LineParts(b: bytes)
    ensures b == FirstLine(b) + AfterLine(b)
  {
  }

  /** Append one line to `buf`, reading at most `maxBytes` of it. Whatever the chunks, the
      result is that of the first line of the flat stream; the bound holds at every point, and
      what is `used` of the stream, and appended, is at most that line. */
  method ReadLineLimited(reader: ByteReader, buf0: bytes, maxBytes: nat)
    returns (r: Result<nat, LineError>, buf: bytes, ghost used: bytes)
    requires reader.Valid()
    modifies reader
    ensures reader.Valid() && |reader.Remaining()| <= old(|reader.Remaining()|)
    ensures old(reader.Remaining()) == used + reader.Remaining() && |used| <= |FirstLine(old(reader.Remaining()))|
    ensures buf == buf0 + used && |used| <= maxBytes
    ensures
      var line := FirstLine(old(reader.Remaining()));
      r == if |line| > maxBytes then Err(LineTooLong)
           else if !IsComplete(line) && reader.ending == Broken then Err(ReadError)
           else Ok(|line|)
    ensures r.Ok? ==>
              used == FirstLine(old(reader.Remaining())) && reader.Remaining() == AfterLine(old(reader.Remaining()))
  {
    ghost var all := reader.Remaining();
    ghost var got: bytes := [];
    buf := buf0;
    while true
      invariant reader.Valid() && buf == buf0 + got && |got| <= maxBytes
      invariant all == got + reader.Remaining() && !HasLine(got)
      decreases |reader.Remaining()|
    {
      var filled;
      ghost var more;
      filled, more := reader.FillBuf();
      if filled.Err? {
        FirstLineIsLine(all);
        assert all == got;
        return Err(filled.error), buf, got;
      }
      var available := filled.value;
      if available == [] {
        FirstLineIsLine(all);
        assert all == got;
        break;
      }
      var end := FindNewline(available);
      match end {
        case Some(take) =>
          LineEndsHere(got, available, more);
          LineParts(all);
          if |buf| - |buf0| + take > maxBytes {
            return Err(LineTooLong), buf, got;
          }
          var piece := available[..take];
          Regroup(buf0, got, piece);
          buf := buf + piece;
          reader.Consume(take);
          return Ok(|buf| - |buf0|), buf, FirstLine(all);
        case None =>
          var take := |available|;
          LineGoesOn(got, available, more);
          if |buf| - |buf0| + take > maxBytes {
            return Err(LineTooLong), buf, got;
          }
          Regroup(buf0, got, available);
          buf := buf + available;
          got := got + available;
          DropAll(available, more);
          reader.Consume(take);
      }
    }
    LineParts(all);
    r, used := Ok(|buf| - |buf0|), FirstLine(all);
  }

  /** Read the DATA block up to its terminator. The result is that of the flat bytes, however
      they were chunked, and an oversize block leaves the reader inside or right behind the line
      that broke the limit; `peak` is the most that data and current line ever held together. */
  method ReadData(reader: ByteReader, maxSize: nat) returns (r: Result<bytes, DataError>, ghost peak: nat)
    requires reader.Valid()
    modifies reader
    ensures reader.Valid() && IsSuffix(reader.Remaining(), old(reader.Remaining()))
    ensures r == Err(SizeExceeded) ==>
              WithinFirstLine(reader.Remaining(), FromBreakingLine(old(reader.Remaining()), [], maxSize))
    ensures FlatRead(old(reader.Remaining()), reader.ending, [], maxSize)
         == match r case Ok(data) => Received(data, reader.Remaining()) case Err(e) => Refused(e)
    ensures peak <= maxSize + SLACK
  {
    ghost var expected := FlatRead(reader.Remaining(), reader.ending, [], maxSize);
    var data: bytes := [];
    peak := 0;
    while true
      invariant reader.Valid() && |data| <= maxSize && peak <= maxSize + SLACK
      invariant IsSuffix(reader.Remaining(), old(reader.Remaining()))
      invariant FromBreakingLine(reader.Remaining(), data, maxSize)
             == FromBreakingLine(old(reader.Remaining()), [], maxSize)
      invariant expected == FlatRead(reader.Remaining(), reader.ending, data, maxSize)
      decreases |reader.Remaining()|
    {
      ghost var all := reader.Remaining();
      var remaining := (if maxSize >= |data| then maxSize - |data| else 0) + SLACK;
      var read, line;
      ghost var used;
      read, line, used := ReadLineLimited(reader, [], remaining);
      PartRead(all, used, reader.Remaining());
      SuffixOfSuffix(reader.Remaining(), all, old(reader.Remaining()));
      peak := if |data| + |line| > peak then |data| + |line| else peak;
      match read {
        case Err(LineTooLong) => return Err(SizeExceeded), peak;
        case Err(ReadError) => return Err(ReadFailed), peak;
        case Ok(count) =>
          assert line == [] + used == FirstLine(all);
          if count == 0 {
            return Err(Incomplete), peak;
          }
          if line == [DOT, CR, LF] || line == [DOT, LF] {
            return Ok(data), peak;
          }
          if |line| >= 2 && line[0] == DOT && line[1] == DOT {
            line := line[1..];
          }
          if |data| + |line| > maxSize {
            return Err(SizeExceeded), peak;
          }
          data := data + line;
      }
    }
  }
}
