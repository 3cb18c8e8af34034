/** The DATA block as flat bytes: lines, the terminator, dot-stuffing and the size budget. */
module DataLines {

  newtype byte = x: int | 0 <= x < 256

  type bytes = seq<byte>

  const CR: byte := 13
  const LF: byte := 10
  const DOT: byte := 46

  /** How a stream ends: the peer closes it, or reading fails or times out. */
  datatype Ending = Eof | Broken

  datatype DataError = SizeExceeded | Incomplete | ReadFailed

  /** The message read and the bytes behind its terminator, or why there is none. */
  datatype Reading = Received(data: bytes, rest: bytes) | Refused(error: DataError)

  // ---------------------------------------------------------------- lines

  /** Length of the first line with its LF; everything when there is none. */
  function LineEnd(b: bytes): (n: nat)
    ensures n <= |b| && (b != [] ==> n > 0)
  {
    if b == [] then 0 else if b[0] == LF then 1 else 1 + LineEnd(b[1..])
  }

  predicate HasLine(b: bytes) {
    b != [] && (b[0] == LF || HasLine(b[1..]))
  }

  /** The first line ends at the first LF. */
  lemma {:induction false} LineEndMeans(b: bytes)
    ensures var n := LineEnd(b); forall i :: 0 <= i < n - 1 ==> b[i] != LF
    ensures HasLine(b) ==> b != [] && b[LineEnd(b) - 1] == LF
    ensures !HasLine(b) ==> LineEnd(b) == |b| && forall i :: 0 <= i < |b| ==> b[i] != LF
  {
    if b != [] && b[0] != LF {
      LineEndMeans(b[1..]);
      assert forall i :: 1 <= i < |b| ==> b[i] == b[1..][i - 1];
    }
  }

  /** Up to and including the first LF, or everything when there is none. */
  function FirstLine(b: bytes): bytes {
    b[..LineEnd(b)]
  }

  function AfterLine(b: bytes): bytes {
    b[LineEnd(b)..]
  }

  predicate IsComplete(line: bytes) {
    line != [] && line[|line| - 1] == LF
  }

  function AllLines(b: bytes): (lines: seq<bytes>)
    decreases |b|
  {
    if b == [] then [] else [FirstLine(b)] + AllLines(AfterLine(b))
  }

  function Concat(lines: seq<bytes>): bytes {
    if lines == [] then [] else lines[0] + Concat(lines[1..])
  }

  lemma {:induction false} ConcatAllLines(b: bytes)
    ensures Concat(AllLines(b)) == b
    decreases |b|
  {
    if b != [] {
      ConcatAllLines(AfterLine(b));
    }
  }

  /** One whole line: it ends in LF and holds no other. */
  predicate IsLine(line: bytes) {
    IsComplete(line) && LineEnd(line) == |line|
  }

  lemma {:induction false} LineEndWithin(b: bytes, more: bytes)
    requires HasLine(b)
    ensures LineEnd(b + more) == LineEnd(b) && HasLine(b + more)
  {
    if b[0] != LF {
      assert (b + more)[1..] == b[1..] + more;
      LineEndWithin(b[1..], more);
    }
  }

  lemma {:induction false} LineEndPast(got: bytes, rest: bytes)
    requires !HasLine(got)
    ensures LineEnd(got + rest) == |got| + LineEnd(rest)
    ensures HasLine(got + rest) == HasLine(rest)
  {
    if got == [] {
      assert got + rest == rest;
    } else {
      assert (got + rest)[1..] == got[1..] + rest;
      LineEndPast(got[1..], rest);
    }
  }

  lemma {:induction false} IsLineHasLine(line: bytes)
    requires IsComplete(line)
    ensures HasLine(line)
  {
    if line[0] != LF {
      IsLineHasLine(line[1..]);
    }
  }

  lemma {:induction false} LineEndOfFirst(b: bytes)
    requires HasLine(b)
    ensures IsLine(FirstLine(b))
  {
    if b[0] != LF {
      LineEndOfFirst(b[1..]);
      assert FirstLine(b)[1..] == FirstLine(b[1..]);
    }
  }

  lemma FirstLineIsLine(b: bytes)
    ensures HasLine(b) ==> IsLine(FirstLine(b))
    ensures !HasLine(b) ==> FirstLine(b) == b && AfterLine(b) == [] && !IsComplete(b)
  {
    if HasLine(b) {
      LineEndOfFirst(b);
    } else {
      LineEndMeans(b);
    }
  }

  /** A line is recognised by itself. */
  lemma FirstLineOf(line: bytes, rest: bytes)
    requires IsLine(line)
    ensures FirstLine(line + rest) == line && AfterLine(line + rest) == rest
    ensures HasLine(line + rest)
  {
    IsLineHasLine(line);
    LineEndWithin(line, rest);
  }

  // ---------------------------------------------------------------- dots

  predicate IsTerminator(line: bytes) {
    line == [DOT, CR, LF] || line == [DOT, LF]
  }

  predicate StartsWithDots(line: bytes) {
    |line| >= 2 && line[0] == DOT && line[1] == DOT
  }

  /** The program's rule: only a line starting with ".." loses a dot. */
  function Unstuff(line: bytes): bytes {
    if StartsWithDots(line) then line[1..] else line
  }

  function Unstuffed(lines: seq<bytes>): bytes {
    if lines == [] then [] else Unstuff(lines[0]) + Unstuffed(lines[1..])
  }

  /** The sender's rule of section 4.5.2 of RFC 5321. */
  function StuffLine(line: bytes): bytes {
    if line != [] && line[0] == DOT then [DOT] + line else line
  }

  /** Applied to lines ended by any LF, as the program cuts them. */
  function Stuff(message: bytes): bytes
    decreases |message|
  {
    if message == [] then [] else StuffLine(FirstLine(message)) + Stuff(AfterLine(message))
  }

  /** The receiver's rule of that section: any leading dot goes. */
  function RfcUnstuff(line: bytes): bytes {
    if line != [] && line[0] == DOT then line[1..] else line
  }

  function RfcUnstuffed(lines: seq<bytes>): bytes {
    if lines == [] then [] else RfcUnstuff(lines[0]) + RfcUnstuffed(lines[1..])
  }

  lemma {:induction false} RfcIsShorter(lines: seq<bytes>)
    ensures |RfcUnstuffed(lines)| <= |Unstuffed(lines)|
  {
    if lines != [] {
      RfcIsShorter(lines[1..]);
    }
  }

  predicate LoneDot(line: bytes) {
    line != [] && line[0] == DOT && !StartsWithDots(line)
  }

  /** Over the same lines, ended by any LF, the program's rule keeps what the standard's rule keeps
      exactly when no line starts with a single dot, as no stuffed line does. */
  lemma {:induction false} AgreesWithRfc(lines: seq<bytes>)
    ensures Unstuffed(lines) == RfcUnstuffed(lines) <==> forall i :: 0 <= i < |lines| ==> !LoneDot(lines[i])
  {
    if lines != [] {
      AgreesWithRfc(lines[1..]);
      RfcIsShorter(lines[1..]);
      var a, b := Unstuff(lines[0]), RfcUnstuff(lines[0]);
      if LoneDot(lines[0]) {
        assert |a| == |b| + 1;
      } else {
        assert a == b;
        var x, y := Unstuffed(lines[1..]), RfcUnstuffed(lines[1..]);
        assert (a + x)[|a|..] == x && (a + y)[|a|..] == y;
        assert forall i :: 1 <= i < |lines| ==> lines[i] == lines[1..][i - 1];
      }
    }
  }

  // ---------------------------------------------------------------- reading a flat stream

  /** Slack of the per-line bound, for a terminator or a stuffed dot. */
  const SLACK := 4

  /** What reading does on the flat bytes, having kept `data` so far. */
  function FlatRead(b: bytes, ending: Ending, data: bytes, maxSize: nat): Reading
    requires |data| <= maxSize
    decreases |b|
  {
    var line := FirstLine(b);
    if |line| > maxSize - |data| + SLACK then Refused(SizeExceeded)
    else if !IsComplete(line) && ending == Broken then Refused(ReadFailed)
    else if line == [] then Refused(Incomplete)
    else if IsTerminator(line) then Received(data, AfterLine(b))
    else if |data| + |Unstuff(line)| > maxSize then Refused(SizeExceeded)
    else FlatRead(AfterLine(b), ending, data + Unstuff(line), maxSize)
  }

  /** The slack always suffices: a whole line is kept exactly when its unstuffed form fits. */
  lemma ReadOneLine(b: bytes, ending: Ending, data: bytes, maxSize: nat)
    requires |data| <= maxSize && HasLine(b) && !IsTerminator(FirstLine(b))
    ensures
      var line := Unstuff(FirstLine(b));
      FlatRead(b, ending, data, maxSize) ==
      if |data| + |line| > maxSize then Refused(SizeExceeded)
      else FlatRead(AfterLine(b), ending, data + line, maxSize)
  {
    FirstLineIsLine(b);
  }

  /** Position of the terminator among the lines, or their number when there is none. */
  function TerminatorAt(lines: seq<bytes>): (t: nat)
    ensures t <= |lines| && (forall i :: 0 <= i < t ==> !IsTerminator(lines[i]))
    ensures t < |lines| ==> IsTerminator(lines[t])
  {
    if lines == [] || IsTerminator(lines[0]) then 0 else 1 + TerminatorAt(lines[1..])
  }

  /** A line with another behind it is complete. */
  lemma LineBeforeLine(b: bytes)
    requires AfterLine(b) != []
    ensures HasLine(b)
  {
    FirstLineIsLine(b);
  }

  lemma UnstuffedCons(line: bytes, lines: seq<bytes>, n: nat)
    requires n <= |lines|
    ensures Unstuffed(([line] + lines)[..n + 1]) == Unstuff(line) + Unstuffed(lines[..n])
  {
    assert ([line] + lines)[..n + 1][1..] == lines[..n];
  }

  lemma Regroup(a: bytes, b: bytes, c: bytes)
    ensures a + b + c == a + (b + c)
  {
  }

  lemma LaterTerminator(line: bytes, more: seq<bytes>)
    requires !IsTerminator(line)
    ensures TerminatorAt([line] + more) == TerminatorAt(more) + 1
    ensures var t := TerminatorAt(more); t < |more| ==> ([line] + more)[t + 2..] == more[t + 1..]
  {
    assert ([line] + more)[1..] == more;
  }

  /** Reading up to a terminator line, in steps of one line. */
  lemma {:induction false} ReadSteps(b: bytes, lines: seq<bytes>, ending: Ending, data: bytes, maxSize: nat)
    requires |data| <= maxSize && lines == AllLines(b) && TerminatorAt(lines) < |lines|
    ensures
      var t := TerminatorAt(lines);
      var kept := Unstuffed(lines[..t]);
      FlatRead(b, ending, data, maxSize) ==
      if |data| + |kept| <= maxSize then Received(data + kept, Concat(lines[t + 1..])) else Refused(SizeExceeded)
    decreases |lines|
  {
    var line, rest, more := FirstLine(b), AfterLine(b), lines[1..];
    assert more == AllLines(rest);
    if IsTerminator(line) {
      ConcatAllLines(rest);
      assert data + [] == data;
    } else {
      var t := TerminatorAt(more);
      assert lines == [line] + more && rest != [];
      LaterTerminator(line, more);
      LineBeforeLine(b);
      ReadOneLine(b, ending, data, maxSize);
      UnstuffedCons(line, more, t);
      if |data| + |Unstuff(line)| <= maxSize {
        ReadSteps(rest, more, ending, data + Unstuff(line), maxSize);
        Regroup(data, Unstuff(line), Unstuffed(more[..t]));
      }
    }
  }

  /** With a terminator line: exactly the unstuffed lines before it, when they fit, and the
      stream is left right behind it. */
  lemma ReadWithTerminator(b: bytes, ending: Ending, maxSize: nat)
    requires TerminatorAt(AllLines(b)) < |AllLines(b)|
    ensures
      var lines := AllLines(b);
      var t := TerminatorAt(lines);
      FlatRead(b, ending, [], maxSize) ==
      if |Unstuffed(lines[..t])| <= maxSize then Received(Unstuffed(lines[..t]), Concat(lines[t + 1..]))
      else Refused(SizeExceeded)
  {
    ReadSteps(b, AllLines(b), ending, [], maxSize);
    var kept := Unstuffed(AllLines(b)[..TerminatorAt(AllLines(b))]);
    assert [] + kept == kept;
  }

  /** Without one, at the end of the stream: too large or incomplete, by the unstuffed total. */
  lemma {:induction false} ReadWithoutTerminator(b: bytes, data: bytes, maxSize: nat)
    requires |data| <= maxSize
    requires TerminatorAt(AllLines(b)) == |AllLines(b)|
    ensures FlatRead(b, Eof, data, maxSize) ==
            if |data| + |Unstuffed(AllLines(b))| > maxSize then Refused(SizeExceeded) else Refused(Incomplete)
    decreases |b|
  {
    if b != [] {
      var line, rest := FirstLine(b), AfterLine(b);
      assert AllLines(b)[1..] == AllLines(rest);
      if |data| + |Unstuff(line)| <= maxSize {
        ReadWithoutTerminator(rest, data + Unstuff(line), maxSize);
      }
    }
  }

  /** Such a line does arrive: sent as the only line of a block it is received with its dot, which
      the standard's rule would drop. */
  lemma LoneDotReceived(line: bytes, rest: bytes, ending: Ending, maxSize: nat)
    requires IsLine(line) && LoneDot(line) && !IsTerminator(line) && |line| <= maxSize
    ensures FlatRead(line + ([DOT, CR, LF] + rest), ending, [], maxSize) == Received(line, rest)
    ensures RfcUnstuff(line) == line[1..] && line == [DOT] + RfcUnstuff(line)
  {
    var end := [DOT, CR, LF];
    FirstLineOf(line, end + rest);
    ReadOneLine(line + (end + rest), ending, [], maxSize);
    FirstLineOf(end, rest);
    assert [] + line == line;
  }

  // ---------------------------------------------------------------- where an oversize read stops

  predicate IsSuffix(rest: bytes, b: bytes) {
    |rest| <= |b| && rest == b[|b| - |rest|..]
  }

  lemma SuffixOfSuffix(a: bytes, b: bytes, c: bytes)
    requires IsSuffix(a, b) && IsSuffix(b, c)
    ensures IsSuffix(a, c)
  {
    assert c[|c| - |b|..][|b| - |a|..] == c[|c| - |a|..];
  }

  /** Inside the first line or right behind it. */
  predicate WithinFirstLine(rest: bytes, b: bytes) {
    IsSuffix(rest, b) && |b| - |rest| <= LineEnd(b)
  }

  lemma PartRead(b: bytes, used: bytes, rest: bytes)
    requires b == used + rest && |used| <= |FirstLine(b)|
    ensures WithinFirstLine(rest, b)
  {
    assert b[|used|..] == rest;
  }

  /** The stream from the line on with which the unstuffed total first exceeds the limit. */
  function FromBreakingLine(b: bytes, data: bytes, maxSize: nat): bytes
    requires |data| <= maxSize
    decreases |b|
  {
    var line := FirstLine(b);
    if line == [] || IsTerminator(line) || |data| + |Unstuff(line)| > maxSize then b
    else FromBreakingLine(AfterLine(b), data + Unstuff(line), maxSize)
  }

  lemma BreakingStep(line: bytes, more: seq<bytes>, t: nat, kept: nat, maxSize: nat)
    requires t < |more| && !IsTerminator(line)
    requires kept + |Unstuff(line)| + |Unstuffed(more[..t])| <= maxSize
    requires maxSize < kept + |Unstuff(line)| + |Unstuffed(more[..t + 1])|
    requires forall i :: 0 <= i <= t ==> !IsTerminator(more[i])
    ensures var lines := [line] + more;
            && lines[t + 1..] == more[t..] && (forall i :: 0 <= i <= t + 1 ==> !IsTerminator(lines[i]))
            && kept + |Unstuffed(lines[..t + 1])| <= maxSize < kept + |Unstuffed(lines[..t + 2])|
  {
    UnstuffedCons(line, more, t);
    UnstuffedCons(line, more, t + 1);
  }

  /** Which line that is: the first, before any terminator, to take the total over the limit. */
  lemma {:induction false} BreakingLine(b: bytes, ending: Ending, data: bytes, maxSize: nat) returns (t: nat)
    requires |data| <= maxSize && FlatRead(b, ending, data, maxSize) == Refused(SizeExceeded)
    ensures var lines := AllLines(b);
            && t < |lines| && FromBreakingLine(b, data, maxSize) == Concat(lines[t..])
            && (forall i :: 0 <= i <= t ==> !IsTerminator(lines[i]))
            && |data| + |Unstuffed(lines[..t])| <= maxSize < |data| + |Unstuffed(lines[..t + 1])|
    decreases |b|
  {
    var line, more := FirstLine(b), AllLines(AfterLine(b));
    assert AllLines(b) == [line] + more;
    if |data| + |Unstuff(line)| > maxSize {
      t := 0;
      ConcatAllLines(b);
      assert AllLines(b)[0..] == AllLines(b) && AllLines(b)[..1] == [line];
      assert Unstuffed([line]) == Unstuff(line) + [];
    } else {
      var u := BreakingLine(AfterLine(b), ending, data + Unstuff(line), maxSize);
      BreakingStep(line, more, u, |data|, maxSize);
      t := u + 1;
    }
  }

  /** The lines a broken stream delivered whole, and the piece of the next one. */
  function WholeLines(b: bytes): seq<bytes>
    decreases |b|
  {
    if !HasLine(b) then [] else [FirstLine(b)] + WholeLines(AfterLine(b))
  }

  function LastPiece(b: bytes): bytes
    decreases |b|
  {
    if !HasLine(b) then b else LastPiece(AfterLine(b))
  }

  /** Without one, when reading fails: the piece counts raw and with the slack, since nothing
      of it is unstuffed or kept. */
  lemma {:induction false} ReadBroken(b: bytes, data: bytes, maxSize: nat)
    requires |data| <= maxSize
    requires TerminatorAt(WholeLines(b)) == |WholeLines(b)|
    ensures
      var total := |data| + |Unstuffed(WholeLines(b))|;
      FlatRead(b, Broken, data, maxSize) ==
      if total > maxSize || |LastPiece(b)| > maxSize - total + SLACK then Refused(SizeExceeded) else Refused(ReadFailed)
    decreases |b|
  {
    var line, rest := FirstLine(b), AfterLine(b);
    FirstLineIsLine(b);
    if HasLine(b) {
      assert WholeLines(b)[1..] == WholeLines(rest);
      if |data| + |Unstuff(line)| <= maxSize {
        ReadBroken(rest, data + Unstuff(line), maxSize);
      }
    }
  }

  // ---------------------------------------------------------------- the round trip

  predicate IsMessage(message: bytes) {
    message == [] || message[|message| - 1] == LF
  }

  lemma StuffedLine(line: bytes)
    requires IsLine(line)
    ensures var s := StuffLine(line); IsLine(s) && !IsTerminator(s) && Unstuff(s) == line
  {
  }

  lemma StuffedStep(line: bytes, tail: bytes, ending: Ending, data: bytes, maxSize: nat)
    requires IsLine(line) && |data| + |line| <= maxSize
    ensures FlatRead(StuffLine(line) + tail, ending, data, maxSize) == FlatRead(tail, ending, data + line, maxSize)
  {
    StuffedLine(line);
    FirstLineOf(StuffLine(line), tail);
    ReadOneLine(StuffLine(line) + tail, ending, data, maxSize);
  }

  lemma {:induction false} StuffedRead(message: bytes, tail: bytes, ending: Ending, data: bytes, maxSize: nat)
    requires IsMessage(message) && |data| + |message| <= maxSize
    ensures FlatRead(Stuff(message) + tail, ending, data, maxSize) == FlatRead(tail, ending, data + message, maxSize)
    decreases |message|
  {
    if message == [] {
      assert Stuff(message) + tail == tail && data + message == data;
    } else {
      var line, more := FirstLine(message), AfterLine(message);
      assert message[|message| - 1] == LF && message == line + more;
      FirstLineIsLine(message);
      var stuffed := Stuff(more);
      StuffedStep(line, stuffed + tail, ending, data, maxSize);
      StuffedRead(more, tail, ending, data + line, maxSize);
      Regroup(StuffLine(line), stuffed, tail);
      Regroup(data, line, more);
    }
  }

  /** Whatever is received is made of whole lines and fits the limit. */
  lemma {:induction false} ReceivedIsMessage(b: bytes, ending: Ending, data: bytes, maxSize: nat)
    requires |data| <= maxSize && IsMessage(data)
    ensures var r := FlatRead(b, ending, data, maxSize); r.Received? ==> IsMessage(r.data) && |r.data| <= maxSize
    decreases |b|
  {
    var line := FirstLine(b);
    FirstLineIsLine(b);
    if line != [] && |data| + |Unstuff(line)| <= maxSize {
      if HasLine(b) {
        ReceivedIsMessage(AfterLine(b), ending, data + Unstuff(line), maxSize);
      } else {
        assert !IsTerminator(line);
        NothingReceived(ending, data + Unstuff(line), maxSize);
      }
    }
  }

  lemma NothingReceived(ending: Ending, data: bytes, maxSize: nat)
    requires |data| <= maxSize
    ensures FlatRead([], ending, data, maxSize).Refused?
  {
  }

  /** Reading undoes stuffing line by line, the lines ended by any LF: the message is received
      exactly, and exactly what follows is left, if and only if it consists of whole such lines and
      is within the limit. */
  lemma DotStuffingRoundTrip(message: bytes, rest: bytes, ending: Ending, maxSize: nat)
    ensures FlatRead(Stuff(message) + ([DOT, CR, LF] + rest), ending, [], maxSize) == Received(message, rest)
       <==> IsMessage(message) && |message| <= maxSize
  {
    var end := [DOT, CR, LF];
    ReceivedIsMessage(Stuff(message) + (end + rest), ending, [], maxSize);
    if IsMessage(message) && |message| <= maxSize {
      StuffedRead(message, end + rest, ending, [], maxSize);
      FirstLineOf(end, rest);
      assert [] + message == message;
    }
  }
}
