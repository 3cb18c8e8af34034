/** DATA as RFC 5321 has it, over lines that end in CRLF only, against the program's reading over
    lines that end at any LF. */
module RfcData {
  import opened DataLines

  // ---------------------------------------------------------------- lines that end in CRLF

  /** Length of the first line with its CRLF; everything when there is none. */
  function CrlfEnd(b: bytes): (n: nat)
    ensures n <= |b| && (b != [] ==> n > 0)
  {
    if b == [] then 0
    else if |b| >= 2 && b[0] == CR && b[1] == LF then 2
    else 1 + CrlfEnd(b[1..])
  }

  predicate HasCrlf(b: bytes) {
    |b| >= 2 && ((b[0] == CR && b[1] == LF) || HasCrlf(b[1..]))
  }

  function CrlfLine(b: bytes): bytes {
    b[..CrlfEnd(b)]
  }

  function AfterCrlf(b: bytes): bytes {
    b[CrlfEnd(b)..]
  }

  predicate EndsInCrlf(b: bytes) {
    |b| >= 2 && b[|b| - 2] == CR && b[|b| - 1] == LF
  }

  // ---------------------------------------------------------------- the standard's two sides

  /** The sender of section 4.5.2: a line that starts with a dot gets another. */
  function RfcStuff(message: bytes): bytes
    decreases |message|
  {
    if message == [] then [] else StuffLine(CrlfLine(message)) + RfcStuff(AfterCrlf(message))
  }

  /** Its receiver: a line that is a single dot ends the block, any other loses a leading dot. */
  function RfcRead(b: bytes, data: bytes): Reading
    decreases |b|
  {
    if !HasCrlf(b) then Refused(Incomplete)
    else if CrlfLine(b) == [DOT, CR, LF] then Received(data, AfterCrlf(b))
    else RfcRead(AfterCrlf(b), data + RfcUnstuff(CrlfLine(b)))
  }

  /** What the standard sends: nothing, or lines each ended by CRLF. */
  predicate IsRfcMessage(message: bytes) {
    message == [] || EndsInCrlf(message)
  }

  // ---------------------------------------------------------------- CRLF lines in pieces ended by LF

  /** A line ended by CRLF is one piece, or a piece behind which the line goes on. */
  lemma {:induction false} CrlfPieces(b: bytes)
    requires HasCrlf(b)
    ensures HasLine(b)
    ensures if EndsInCrlf(FirstLine(b)) then CrlfLine(b) == FirstLine(b) && AfterCrlf(b) == AfterLine(b)
            else HasCrlf(AfterLine(b)) && CrlfLine(b) == FirstLine(b) + CrlfLine(AfterLine(b))
                 && AfterCrlf(b) == AfterCrlf(AfterLine(b))
  {
    if b[0] == CR && b[1] == LF {
      assert LineEnd(b) == 1 + LineEnd(b[1..]) == 2;
    } else if b[0] == LF {
      assert FirstLine(b) == [LF] && AfterLine(b) == b[1..];
      TailLine(b, CrlfEnd(b[1..]));
    } else {
      CrlfPieces(b[1..]);
      PieceCons(b);
      TailLine(b, CrlfEnd(b[1..]));
    }
  }

  lemma TailLine(b: bytes, n: nat)
    requires b != [] && n <= |b| - 1
    ensures b[..n + 1] == [b[0]] + b[1..][..n] && b[n + 1..] == b[1..][n..]
  {
  }

  lemma PieceCons(b: bytes)
    requires |b| >= 2 && b[0] != LF && HasLine(b[1..]) && !(b[0] == CR && b[1] == LF)
    ensures FirstLine(b) == [b[0]] + FirstLine(b[1..]) && AfterLine(b) == AfterLine(b[1..])
    ensures EndsInCrlf(FirstLine(b)) <==> EndsInCrlf(FirstLine(b[1..]))
  {
    TailLine(b, LineEnd(b[1..]));
    FirstLineIsLine(b[1..]);
  }

  // ---------------------------------------------------------------- the standard, piece by piece

  /** The standard's reading by pieces ended by LF; `anew` at the start and behind a CRLF. */
  function RfcPieces(b: bytes, anew: bool, data: bytes): Reading
    decreases |b|
  {
    if !HasCrlf(b) then Refused(Incomplete)
    else
      var piece := FirstLine(b);
      if anew && piece == [DOT, CR, LF] then Received(data, AfterLine(b))
      else RfcPieces(AfterLine(b), EndsInCrlf(piece), data + if anew then RfcUnstuff(piece) else piece)
  }

  lemma UnstuffFront(piece: bytes, more: bytes)
    requires piece != []
    ensures RfcUnstuff(piece + more) == RfcUnstuff(piece) + more
  {
  }

  lemma NotTheDot(piece: bytes, more: bytes)
    requires IsLine(piece) && !EndsInCrlf(piece) && more != []
    ensures piece + more != [DOT, CR, LF] && piece != [DOT, CR, LF]
  {
    assert (piece + more)[|piece| - 1] == piece[|piece| - 1] == LF;
  }

  /** Inside a line the standard goes on to its end. */
  lemma {:induction false} PiecesWithin(b: bytes, data: bytes)
    requires HasCrlf(b)
    ensures RfcPieces(b, false, data) == RfcPieces(AfterCrlf(b), true, data + CrlfLine(b))
    decreases |b|
  {
    CrlfPieces(b);
    if !EndsInCrlf(FirstLine(b)) {
      PiecesWithin(AfterLine(b), data + FirstLine(b));
      Regroup(data, FirstLine(b), CrlfLine(AfterLine(b)));
    }
  }

  lemma {:induction false} ReadByPieces(b: bytes, data: bytes)
    ensures RfcRead(b, data) == RfcPieces(b, true, data)
    decreases |b|
  {
    if HasCrlf(b) {
      var piece, line := FirstLine(b), CrlfLine(b);
      CrlfPieces(b);
      FirstLineIsLine(b);
      if EndsInCrlf(piece) {
        if line != [DOT, CR, LF] {
          ReadByPieces(AfterCrlf(b), data + RfcUnstuff(line));
        }
      } else {
        var more := CrlfLine(AfterLine(b));
        NotTheDot(piece, more);
        UnstuffFront(piece, more);
        Regroup(data, RfcUnstuff(piece), more);
        PiecesWithin(AfterLine(b), data + RfcUnstuff(piece));
        ReadByPieces(AfterCrlf(b), data + RfcUnstuff(line));
      }
    }
  }

  // ---------------------------------------------------------------- where the two readings agree

  /** Line `i` stands at the start of the block or behind a CRLF. */
  predicate Fresh(lines: seq<bytes>, i: nat)
    requires i < |lines|
  {
    i == 0 || EndsInCrlf(lines[i - 1])
  }

  predicate StartsWithDot(line: bytes) {
    line != [] && line[0] == DOT
  }

  /** The program's terminator is the standard's, and every line before it that starts with a dot
      starts with two exactly when it stands at the start or behind a CRLF. */
  predicate Conforming(lines: seq<bytes>) {
    var t := TerminatorAt(lines);
    && t < |lines| && lines[t] == [DOT, CR, LF] && Fresh(lines, t)
    && forall i :: 0 <= i < t && StartsWithDot(lines[i]) ==> (StartsWithDots(lines[i]) <==> Fresh(lines, i))
  }

  /** The same, from the front. */
  predicate Conforms(lines: seq<bytes>, anew: bool) {
    lines != [] &&
    if IsTerminator(lines[0]) then anew && lines[0] == [DOT, CR, LF]
    else (StartsWithDot(lines[0]) ==> (StartsWithDots(lines[0]) <==> anew))
         && Conforms(lines[1..], EndsInCrlf(lines[0]))
  }

  /** Line `i` of the rest of a block that goes on `anew`. */
  predicate FreshIn(lines: seq<bytes>, anew: bool, i: nat)
    requires i < |lines|
  {
    if i == 0 then anew else EndsInCrlf(lines[i - 1])
  }

  lemma {:induction false} ConformsMeans(lines: seq<bytes>, anew: bool)
    ensures Conforms(lines, anew) <==>
              var t := TerminatorAt(lines);
              && t < |lines| && lines[t] == [DOT, CR, LF] && FreshIn(lines, anew, t)
              && forall i :: 0 <= i < t && StartsWithDot(lines[i]) ==>
                               (StartsWithDots(lines[i]) <==> FreshIn(lines, anew, i))
  {
    if lines != [] && !IsTerminator(lines[0]) {
      var rest := lines[1..];
      ConformsMeans(rest, EndsInCrlf(lines[0]));
      assert forall i :: 1 <= i < |lines| ==>
          lines[i] == rest[i - 1] && FreshIn(lines, anew, i) == FreshIn(rest, EndsInCrlf(lines[0]), i - 1);
    }
  }

  lemma ConformingFromFront(lines: seq<bytes>)
    ensures Conforming(lines) <==> Conforms(lines, true)
  {
    ConformsMeans(lines, true);
    assert forall i :: 0 <= i < |lines| ==> Fresh(lines, i) == FreshIn(lines, true, i);
  }

  lemma {:induction false} AllAlike(line: bytes)
    requires line != [] && line[..|line| - 1] == line[1..]
    ensures line[|line| - 1] == line[0]
  {
    if |line| > 1 {
      var rest := line[1..];
      assert rest[..|rest| - 1] == line[..|line| - 1][1..] == rest[1..];
      assert line[..|line| - 1][0] == rest[0];
      AllAlike(rest);
    }
  }

  /** A line and the same line without its dot are never both read at one place. */
  lemma DotTells(data: bytes, line: bytes, d: bytes)
    requires IsLine(line) && StartsWithDot(line)
    ensures !(data + line <= d && data + line[1..] <= d)
  {
    if data + line <= d && data + line[1..] <= d {
      var n := |line| - 1;
      assert d[|data|..|data| + n] == (data + line)[|data|..|data| + n] == line[..n];
      assert d[|data|..|data| + n] == (data + line[1..])[|data|..|data| + n] == line[1..];
      AllAlike(line);
    }
  }

  lemma Growing(data: bytes, more: bytes, d: bytes)
    requires data + more <= d
    ensures data <= d
  {
    assert d[..|data|] == (data + more)[..|data|] == data;
  }

  lemma {:induction false} FlatReadGrows(b: bytes, ending: Ending, data: bytes, maxSize: nat)
    requires |data| <= maxSize && FlatRead(b, ending, data, maxSize).Received?
    ensures data <= FlatRead(b, ending, data, maxSize).data && HasLine(b)
    decreases |b|
  {
    var line := FirstLine(b);
    FirstLineIsLine(b);
    if !IsTerminator(line) {
      if !HasLine(b) {
        NothingReceived(ending, data + Unstuff(line), maxSize);
      }
      FlatReadGrows(AfterLine(b), ending, data + Unstuff(line), maxSize);
      Growing(data, Unstuff(line), FlatRead(b, ending, data, maxSize).data);
    }
  }

  lemma {:induction false} PiecesGrow(b: bytes, anew: bool, data: bytes)
    requires RfcPieces(b, anew, data).Received?
    ensures data <= RfcPieces(b, anew, data).data && |RfcPieces(b, anew, data).rest| < |b|
    decreases |b|
  {
    var piece := FirstLine(b);
    if !(anew && piece == [DOT, CR, LF]) {
      var kept := if anew then RfcUnstuff(piece) else piece;
      PiecesGrow(AfterLine(b), EndsInCrlf(piece), data + kept);
      Growing(data, kept, RfcPieces(b, anew, data).data);
    }
  }

  lemma {:induction false} CrlfAhead(b: bytes)
    requires HasLine(b) && (EndsInCrlf(FirstLine(b)) || HasCrlf(AfterLine(b)))
    ensures HasCrlf(b)
  {
    if b[0] == LF {
      assert AfterLine(b) == b[1..];
      assert FirstLine(b) == [LF];
    } else if !(|b| >= 2 && b[0] == CR && b[1] == LF) {
      PieceCons(b);
      CrlfAhead(b[1..]);
    }
  }

  lemma {:induction false} ConformsHasCrlf(b: bytes, anew: bool)
    requires Conforms(AllLines(b), anew)
    ensures HasCrlf(b)
    decreases |b|
  {
    var line := FirstLine(b);
    FirstLineIsLine(b);
    assert AllLines(b)[1..] == AllLines(AfterLine(b));
    if !IsTerminator(line) {
      ConformsHasCrlf(AfterLine(b), EndsInCrlf(line));
      CrlfShort(AfterLine(b));
      LineBeforeLine(b);
    } else {
      FirstLineOf(line, AfterLine(b));
    }
    CrlfAhead(b);
  }

  lemma CrlfShort(b: bytes)
    requires HasCrlf(b)
    ensures b != []
  {
  }

  /** From any point on: what the program receives is what the standard receives exactly when the
      rest of the block conforms. */
  lemma {:induction false} PiecesAgree(b: bytes, anew: bool, ending: Ending, data: bytes, maxSize: nat)
    requires |data| <= maxSize && FlatRead(b, ending, data, maxSize).Received?
    ensures FlatRead(b, ending, data, maxSize) == RfcPieces(b, anew, data) <==> Conforms(AllLines(b), anew)
    decreases |b|
  {
    var line, rest := FirstLine(b), AfterLine(b);
    var read, std := FlatRead(b, ending, data, maxSize), RfcPieces(b, anew, data);
    FlatReadGrows(b, ending, data, maxSize);
    FirstLineIsLine(b);
    assert AllLines(b)[0] == line && AllLines(b)[1..] == AllLines(rest);
    if IsTerminator(line) {
      TerminatorAgrees(b, anew, data);
    } else {
      var kept := if anew then RfcUnstuff(line) else line;
      FlatReadGrows(rest, ending, data + Unstuff(line), maxSize);
      if Conforms(AllLines(b), anew) {
        ConformsHasCrlf(b, anew);
      }
      if HasCrlf(b) {
        if kept == Unstuff(line) {
          PiecesAgree(rest, EndsInCrlf(line), ending, data + kept, maxSize);
        } else if std.Received? {
          PiecesGrow(rest, EndsInCrlf(line), data + kept);
          DotTells(data, line, std.data);
        }
      }
    }
  }

  lemma TerminatorAgrees(b: bytes, anew: bool, data: bytes)
    requires HasLine(b) && IsTerminator(FirstLine(b))
    ensures RfcPieces(b, anew, data) == Received(data, AfterLine(b)) <==> anew && FirstLine(b) == [DOT, CR, LF]
  {
    var line := FirstLine(b);
    if anew && line == [DOT, CR, LF] {
      CrlfAhead(b);
    } else if RfcPieces(b, anew, data).Received? {
      PiecesGrow(AfterLine(b), EndsInCrlf(line), data + if anew then RfcUnstuff(line) else line);
    }
  }

  /** Only a stream with a terminator line is received. */
  lemma {:induction false} ReceivedHasTerminator(b: bytes, ending: Ending, data: bytes, maxSize: nat)
    requires |data| <= maxSize && FlatRead(b, ending, data, maxSize).Received?
    ensures TerminatorAt(AllLines(b)) < |AllLines(b)|
    decreases |b|
  {
    FlatReadGrows(b, ending, data, maxSize);
    var line := FirstLine(b);
    assert AllLines(b)[0] == line && AllLines(b)[1..] == AllLines(AfterLine(b));
    if !IsTerminator(line) {
      ReceivedHasTerminator(AfterLine(b), ending, data + Unstuff(line), maxSize);
    }
  }

  /** The program receives what the standard receives if and only if the block conforms and fits. */
  lemma ReadsLikeRfc(b: bytes, ending: Ending, maxSize: nat)
    ensures var lines := AllLines(b);
            FlatRead(b, ending, [], maxSize).Received? && FlatRead(b, ending, [], maxSize) == RfcRead(b, [])
            <==> Conforming(lines) && |Unstuffed(lines[..TerminatorAt(lines)])| <= maxSize
  {
    var lines, read := AllLines(b), FlatRead(b, ending, [], maxSize);
    ReadByPieces(b, []);
    ConformingFromFront(lines);
    if read.Received? {
      ReceivedHasTerminator(b, ending, [], maxSize);
      PiecesAgree(b, true, ending, [], maxSize);
    }
    if TerminatorAt(lines) < |lines| {
      ReadWithTerminator(b, ending, maxSize);
    }
  }

  // ---------------------------------------------------------------- the round trip

  /** The sender's side by pieces ended by LF. */
  function StuffPieces(b: bytes, anew: bool): bytes
    decreases |b|
  {
    if b == [] then []
    else
      var piece := FirstLine(b);
      (if anew then StuffLine(piece) else piece) + StuffPieces(AfterLine(b), EndsInCrlf(piece))
  }

  lemma StuffFront(piece: bytes, more: bytes)
    requires piece != []
    ensures StuffLine(piece + more) == StuffLine(piece) + more
  {
  }

  lemma {:induction false} EndsHasCrlf(b: bytes)
    requires EndsInCrlf(b)
    ensures HasCrlf(b)
  {
    if |b| > 2 {
      EndsHasCrlf(b[1..]);
    }
  }

  /** What follows a whole line of a message is a message. */
  lemma {:induction false} MessageTail(b: bytes)
    requires EndsInCrlf(b)
    ensures HasCrlf(b) && IsRfcMessage(AfterCrlf(b)) && EndsInCrlf(CrlfLine(b))
  {
    EndsHasCrlf(b);
    if !(b[0] == CR && b[1] == LF) {
      MessageTail(b[1..]);
      TailLine(b, CrlfEnd(b[1..]));
      assert CrlfLine(b) == [b[0]] + CrlfLine(b[1..]);
    }
  }

  lemma {:induction false} StuffWithin(b: bytes)
    requires HasCrlf(b)
    ensures StuffPieces(b, false) == CrlfLine(b) + StuffPieces(AfterCrlf(b), true)
    decreases |b|
  {
    CrlfPieces(b);
    FirstLineIsLine(b);
    if !EndsInCrlf(FirstLine(b)) {
      StuffWithin(AfterLine(b));
      Regroup(FirstLine(b), CrlfLine(AfterLine(b)), StuffPieces(AfterCrlf(b), true));
    }
  }

  lemma {:induction false} StuffByPieces(message: bytes)
    requires IsRfcMessage(message)
    ensures RfcStuff(message) == StuffPieces(message, true)
    decreases |message|
  {
    if message != [] {
      MessageTail(message);
      CrlfPieces(message);
      FirstLineIsLine(message);
      StuffByPieces(AfterCrlf(message));
      var piece := FirstLine(message);
      if !EndsInCrlf(piece) {
        var more := CrlfLine(AfterLine(message));
        StuffWithin(AfterLine(message));
        StuffFront(piece, more);
        Regroup(StuffLine(piece), more, StuffPieces(AfterCrlf(message), true));
      }
    }
  }

  /** A line behind a bare LF that the program takes for a stuffed one or for the end. */
  predicate IsTrap(line: bytes) {
    StartsWithDots(line) || IsTerminator(line)
  }

  /** No bare LF is followed by "..", ".LF" or ".CRLF". */
  predicate NoTrap(lines: seq<bytes>) {
    forall i :: 0 < i < |lines| && !EndsInCrlf(lines[i - 1]) ==> !IsTrap(lines[i])
  }

  predicate Harmless(b: bytes, anew: bool)
    decreases |b|
  {
    b == [] || ((anew || !IsTrap(FirstLine(b))) && Harmless(AfterLine(b), EndsInCrlf(FirstLine(b))))
  }

  lemma {:induction false} HarmlessMeans(b: bytes, anew: bool)
    ensures var lines := AllLines(b);
            Harmless(b, anew) <==> (lines != [] && !anew ==> !IsTrap(lines[0])) && NoTrap(lines)
    decreases |b|
  {
    if b != [] {
      var lines, rest := AllLines(b), AllLines(AfterLine(b));
      assert lines[0] == FirstLine(b) && lines[1..] == rest;
      HarmlessMeans(AfterLine(b), EndsInCrlf(FirstLine(b)));
      assert forall i :: 1 <= i < |lines| ==> lines[i] == rest[i - 1];
      TrapsApart(lines[0], rest);
      assert lines == [lines[0]] + rest;
    }
  }

  lemma TrapsApart(line: bytes, rest: seq<bytes>)
    ensures NoTrap([line] + rest) <==> (rest != [] && !EndsInCrlf(line) ==> !IsTrap(rest[0])) && NoTrap(rest)
  {
    var lines := [line] + rest;
    assert forall i :: 0 <= i < |rest| ==> lines[i + 1] == rest[i];
    if NoTrap(lines) {
      forall i | 0 < i < |rest| && !EndsInCrlf(rest[i - 1])
        ensures !IsTrap(rest[i])
      {
        assert lines[i + 1] == rest[i] && lines[i] == rest[i - 1];
      }
      assert rest != [] ==> lines[1] == rest[0] && lines[0] == line;
    }
  }

  lemma PlainPiece(line: bytes, tail: bytes, ending: Ending, data: bytes, maxSize: nat)
    requires IsLine(line) && !IsTerminator(line) && |data| <= maxSize
    ensures FlatRead(line + tail, ending, data, maxSize)
         == if |data| + |Unstuff(line)| > maxSize then Refused(SizeExceeded)
            else FlatRead(tail, ending, data + Unstuff(line), maxSize)
  {
    FirstLineOf(line, tail);
    ReadOneLine(line + tail, ending, data, maxSize);
  }

  lemma Longer(data: bytes, line: bytes, more: bytes)
    ensures |data + (line + more)| == |data| + |line| + |more|
    ensures line != [] ==> data + (line + more) != data
    ensures data + line <= data + (line + more) && data + line + more == data + (line + more)
  {
  }

  /** Behind a trap the message is lost: the block ends early, or a dot goes. */
  lemma Trapped(line: bytes, more: bytes, tail: bytes, rest: bytes, ending: Ending, data: bytes, maxSize: nat)
    requires IsLine(line) && IsTrap(line) && |data| <= maxSize
    ensures FlatRead(line + tail, ending, data, maxSize) != Received(data + (line + more), rest)
  {
    Longer(data, line, more);
    if IsTerminator(line) {
      FirstLineOf(line, tail);
    } else {
      PlainPiece(line, tail, ending, data, maxSize);
      var read := FlatRead(line + tail, ending, data, maxSize);
      if read == Received(data + (line + more), rest) {
        FlatReadGrows(tail, ending, data + Unstuff(line), maxSize);
        DotTells(data, line, read.data);
      }
    }
  }

  lemma DotTrick(line: bytes)
    requires IsLine(line)
    ensures IsLine(StuffLine(line)) && !IsTerminator(StuffLine(line)) && Unstuff(StuffLine(line)) == line
  {
    StuffedLine(line);
  }

  /** One piece as the sender puts it: kept as it was exactly when it is no trap. */
  lemma PieceSent(line: bytes, anew: bool, more: bytes, tail: bytes, rest: bytes, ending: Ending, data: bytes,
                  maxSize: nat)
    requires IsLine(line) && |data| <= maxSize
    ensures var sent, read := if anew then StuffLine(line) else line,
                              FlatRead((if anew then StuffLine(line) else line) + tail, ending, data, maxSize);
            read == Received(data + (line + more), rest)
            <==> (anew || !IsTrap(line)) && |data| + |line| <= maxSize
                 && FlatRead(tail, ending, data + line, maxSize) == Received(data + line + more, rest)
  {
    Longer(data, line, more);
    if anew {
      DotTrick(line);
      PlainPiece(StuffLine(line), tail, ending, data, maxSize);
    } else if IsTrap(line) {
      Trapped(line, more, tail, rest, ending, data, maxSize);
    } else {
      PlainPiece(line, tail, ending, data, maxSize);
    }
  }

  lemma CutBehindLf(line: bytes, more: bytes)
    requires IsLine(line) && EndsInCrlf(line + more)
    ensures IsRfcMessage(more)
  {
    var b := line + more;
    assert b[|line| - 1] == LF;
    assert |more| >= 2 ==> b[|b| - 2] == more[|more| - 2] && b[|b| - 1] == more[|more| - 1];
  }

  lemma {:induction false} CrlfHasLine(b: bytes)
    requires HasCrlf(b)
    ensures HasLine(b)
  {
    if !(b[0] == CR && b[1] == LF) {
      CrlfHasLine(b[1..]);
    } else {
      assert b[1..][0] == LF;
    }
  }

  lemma LineAndRest(b: bytes)
    ensures b == FirstLine(b) + AfterLine(b)
  {
  }

  lemma TailOfMessage(b: bytes)
    requires EndsInCrlf(b)
    ensures HasLine(b) && IsLine(FirstLine(b)) && IsRfcMessage(AfterLine(b)) && b == FirstLine(b) + AfterLine(b)
  {
    EndsHasCrlf(b);
    CrlfHasLine(b);
    FirstLineIsLine(b);
    LineAndRest(b);
    CutBehindLf(FirstLine(b), AfterLine(b));
  }

  lemma {:induction false} PiecesSent(m: bytes, anew: bool, rest: bytes, ending: Ending, data: bytes, maxSize: nat)
    requires IsRfcMessage(m) && |data| <= maxSize
    ensures FlatRead(StuffPieces(m, anew) + ([DOT, CR, LF] + rest), ending, data, maxSize) == Received(data + m, rest)
       <==> Harmless(m, anew) && |data| + |m| <= maxSize
    decreases |m|
  {
    var end := [DOT, CR, LF] + rest;
    if m == [] {
      assert StuffPieces(m, anew) + end == end && data + m == data;
      FirstLineOf([DOT, CR, LF], rest);
    } else {
      TailOfMessage(m);
      var line, more := FirstLine(m), AfterLine(m);
      var sent, behind := if anew then StuffLine(line) else line, StuffPieces(more, EndsInCrlf(line));
      Regroup(sent, behind, end);
      PieceSent(line, anew, more, behind + end, rest, ending, data, maxSize);
      if |data| + |line| <= maxSize {
        PiecesSent(more, EndsInCrlf(line), rest, ending, data + line, maxSize);
      }
    }
  }

  /** A message the standard's sender stuffs and terminates is received exactly, leaving exactly
      what follows, if and only if it fits and no bare LF in it is followed by "..", ".LF" or
      ".CRLF". */
  lemma RfcRoundTrip(message: bytes, rest: bytes, ending: Ending, maxSize: nat)
    requires IsRfcMessage(message)
    ensures FlatRead(RfcStuff(message) + ([DOT, CR, LF] + rest), ending, [], maxSize) == Received(message, rest)
       <==> NoTrap(AllLines(message)) && |message| <= maxSize
  {
    StuffByPieces(message);
    HarmlessMeans(message, true);
    PiecesSent(message, true, rest, ending, [], maxSize);
    assert [] + message == message;
  }

  // ---------------------------------------------------------------- the standard with itself

  lemma {:induction false} CrlfEndOf(line: bytes, rest: bytes)
    requires EndsInCrlf(line) && CrlfEnd(line) == |line|
    ensures HasCrlf(line + rest) && CrlfLine(line + rest) == line && AfterCrlf(line + rest) == rest
  {
    var b := line + rest;
    if line[0] == CR && line[1] == LF {
      assert line == [CR, LF];
    } else {
      assert b[1..] == line[1..] + rest && b[0] == line[0];
      assert |line| > 2;
      CrlfEndOf(line[1..], rest);
      TailLine(b, CrlfEnd(b[1..]));
      assert [line[0]] + line[1..] == line;
    }
  }

  lemma {:induction false} CrlfLineEnds(b: bytes)
    requires HasCrlf(b)
    ensures EndsInCrlf(CrlfLine(b)) && CrlfEnd(CrlfLine(b)) == |CrlfLine(b)|
  {
    if !(b[0] == CR && b[1] == LF) {
      CrlfLineEnds(b[1..]);
      TailLine(b, CrlfEnd(b[1..]));
      var line := CrlfLine(b);
      assert line == [b[0]] + CrlfLine(b[1..]) && line[1..] == CrlfLine(b[1..]) && line[1] == b[1];
    }
  }

  lemma StuffedCrlfLine(line: bytes)
    requires EndsInCrlf(line) && CrlfEnd(line) == |line|
    ensures EndsInCrlf(StuffLine(line)) && CrlfEnd(StuffLine(line)) == |StuffLine(line)|
    ensures StuffLine(line) != [DOT, CR, LF] && RfcUnstuff(StuffLine(line)) == line
  {
    if line[0] == DOT {
      assert ([DOT] + line)[1..] == line;
    }
  }

  lemma RfcReadLine(line: bytes, tail: bytes, data: bytes)
    requires EndsInCrlf(line) && CrlfEnd(line) == |line| && line != [DOT, CR, LF]
    ensures RfcRead(line + tail, data) == RfcRead(tail, data + RfcUnstuff(line))
  {
    CrlfEndOf(line, tail);
  }

  lemma RfcReadEnd(rest: bytes, data: bytes)
    ensures RfcRead([DOT, CR, LF] + rest, data) == Received(data, rest)
  {
    assert CrlfEnd([DOT, CR, LF]) == 1 + CrlfEnd([CR, LF]) by {
      assert [DOT, CR, LF][1..] == [CR, LF];
    }
    CrlfEndOf([DOT, CR, LF], rest);
  }

  /** The standard's receiver undoes its sender, whatever the lines hold. */
  lemma {:induction false} RfcInverts(message: bytes, rest: bytes, data: bytes)
    requires IsRfcMessage(message)
    ensures RfcRead(RfcStuff(message) + ([DOT, CR, LF] + rest), data) == Received(data + message, rest)
    decreases |message|
  {
    var end := [DOT, CR, LF] + rest;
    if message == [] {
      assert RfcStuff(message) + end == end && data + message == data;
      RfcReadEnd(rest, data);
    } else {
      MessageTail(message);
      CrlfLineEnds(message);
      var line, more := CrlfLine(message), AfterCrlf(message);
      StuffedCrlfLine(line);
      Regroup(StuffLine(line), RfcStuff(more), end);
      RfcReadLine(StuffLine(line), RfcStuff(more) + end, data);
      RfcInverts(more, rest, data + line);
      Regroup(data, line, more);
      assert message == line + more;
    }
  }

  /** No LF without its CR. */
  predicate NoBareLf(b: bytes)
    decreases |b|
  {
    b == [] || (EndsInCrlf(FirstLine(b)) && NoBareLf(AfterLine(b)))
  }

  lemma {:induction false} StuffAgrees(b: bytes)
    requires NoBareLf(b)
    ensures StuffPieces(b, true) == Stuff(b) && (forall i :: 0 <= i < |AllLines(b)| ==> EndsInCrlf(AllLines(b)[i]))
    ensures IsRfcMessage(b)
    decreases |b|
  {
    if b != [] {
      var lines := AllLines(b);
      StuffAgrees(AfterLine(b));
      assert lines[0] == FirstLine(b) && lines[1..] == AllLines(AfterLine(b));
      assert forall i :: 1 <= i < |lines| ==> lines[i] == lines[1..][i - 1];
      LineAndRest(b);
      CrlfBehind(FirstLine(b), AfterLine(b));
    }
  }

  lemma CrlfBehind(a: bytes, b: bytes)
    requires EndsInCrlf(a) && IsRfcMessage(b)
    ensures EndsInCrlf(a + b)
  {
    var m := a + b;
    assert b == [] ==> m == a;
    assert b != [] ==> m[|m| - 2] == b[|b| - 2] && m[|m| - 1] == b[|b| - 1];
  }

  /** Without bare LFs cutting at LF and at CRLF is the same, and the round trip needs no more than
      room. */
  lemma NoBareLfRoundTrip(message: bytes, rest: bytes, ending: Ending, maxSize: nat)
    requires NoBareLf(message)
    ensures RfcStuff(message) == Stuff(message)
    ensures FlatRead(RfcStuff(message) + ([DOT, CR, LF] + rest), ending, [], maxSize) == Received(message, rest)
       <==> |message| <= maxSize
  {
    StuffAgrees(message);
    StuffByPieces(message);
    RfcRoundTrip(message, rest, ending, maxSize);
  }

  // ---------------------------------------------------------------- streams on which the two differ

  lemma {:induction false} OneCrlfLine(m: bytes)
    requires EndsInCrlf(m) && forall i :: 0 <= i < |m| - 2 ==> m[i] != CR
    ensures CrlfEnd(m) == |m|
  {
    if |m| > 2 {
      assert forall i :: 0 <= i < |m[1..]| - 2 ==> m[1..][i] == m[i + 1];
      OneCrlfLine(m[1..]);
    }
  }

  /** One line of the standard is sent as it is unless it starts with a dot. */
  lemma SentAsIs(m: bytes)
    requires EndsInCrlf(m) && m[0] != DOT && forall i :: 0 <= i < |m| - 2 ==> m[i] != CR
    ensures RfcStuff(m) == m
  {
    OneCrlfLine(m);
    assert m[..|m|] == m && m[|m|..] == [];
  }

  lemma SentAndRead(m: bytes, rest: bytes)
    requires EndsInCrlf(m) && m[0] != DOT && forall i :: 0 <= i < |m| - 2 ==> m[i] != CR
    ensures RfcStuff(m) == m && RfcRead(m + ([DOT, CR, LF] + rest), []) == Received(m, rest)
  {
    SentAsIs(m);
    RfcInverts(m, rest, []);
    assert [] + m == m;
  }

  /** A terminator of the program ends the block wherever a line of its own can stand. */
  lemma EndsEarly(first: bytes, dot: bytes, behind: bytes, ending: Ending, maxSize: nat)
    requires IsLine(first) && !IsTrap(first) && |first| <= maxSize && IsLine(dot) && IsTerminator(dot)
    ensures FlatRead(first + (dot + behind), ending, [], maxSize) == Received(first, behind)
  {
    PlainPiece(first, dot + behind, ending, [], maxSize);
    FirstLineOf(dot, behind);
    assert [] + first == first;
  }

  lemma LosesDot(first: bytes, dots: bytes, rest: bytes, ending: Ending, maxSize: nat)
    requires IsLine(first) && !IsTrap(first) && IsLine(dots) && StartsWithDots(dots) && |first| + |dots| <= maxSize
    ensures FlatRead(first + (dots + ([DOT, CR, LF] + rest)), ending, [], maxSize) == Received(first + dots[1..], rest)
  {
    PlainPiece(first, dots + ([DOT, CR, LF] + rest), ending, [], maxSize);
    assert [] + first == first;
    PlainPiece(dots, [DOT, CR, LF] + rest, ending, first, maxSize);
    FirstLineOf([DOT, CR, LF], rest);
  }

  /** Two ends of one line of the standard's: `first` up to a bare LF, `last` up to the CRLF. */
  predicate EndsOfLine(first: bytes, last: bytes) {
    && IsLine(first) && CR !in first && first[0] != DOT
    && EndsInCrlf(last) && CR !in last[..|last| - 2]
  }

  lemma LineOfThree(first: bytes, middle: bytes, last: bytes)
    requires EndsOfLine(first, last) && CR !in middle
    ensures var m := first + (middle + last);
            EndsInCrlf(m) && m[0] != DOT && forall i :: 0 <= i < |m| - 2 ==> m[i] != CR
  {
    var m, n := first + (middle + last), |first| + |middle|;
    assert forall i :: 0 <= i < |first| ==> m[i] == first[i] && first[i] in first;
    assert forall i :: |first| <= i < n ==> m[i] == middle[i - |first|] && middle[i - |first|] in middle;
    assert forall i :: n <= i < |m| ==> m[i] == last[i - n];
    assert forall i :: 0 <= i < |last| - 2 ==> last[..|last| - 2][i] == last[i];
    assert m[|m| - 2] == last[|last| - 2] && m[|m| - 1] == last[|last| - 1];
  }

  lemma FirstIsNoTrap(first: bytes)
    requires first != [] && first[0] != DOT
    ensures !IsTrap(first)
  {
  }

  lemma ThreeAndEnd(first: bytes, middle: bytes, last: bytes, end: bytes)
    ensures (first + (middle + last)) + end == first + (middle + (last + end))
  {
  }

  /** A dot between two bare LFs ends the block early: the rest of the message is left behind as
      if it were commands. */
  lemma BareLfEndsBlock(first: bytes, last: bytes, rest: bytes, ending: Ending, maxSize: nat)
    requires EndsOfLine(first, last) && |first| <= maxSize
    ensures var message, end := first + ([DOT, LF] + last), [DOT, CR, LF] + rest;
            && RfcStuff(message) == message && RfcRead(message + end, []) == Received(message, rest)
            && FlatRead(message + end, ending, [], maxSize) == Received(first, last + end)
  {
    LineOfThree(first, [DOT, LF], last);
    SentAndRead(first + ([DOT, LF] + last), rest);
    FirstIsNoTrap(first);
    assert [DOT, LF][1..] == [LF] && IsLine([DOT, LF]);
    EndsEarly(first, [DOT, LF], last + ([DOT, CR, LF] + rest), ending, maxSize);
    ThreeAndEnd(first, [DOT, LF], last, [DOT, CR, LF] + rest);
  }

  /** Two dots behind a bare LF lose one, although no line of the block starts with a single dot. */
  lemma BareLfLosesDot(first: bytes, dots: bytes, rest: bytes, ending: Ending, maxSize: nat)
    requires EndsOfLine(first, dots) && IsLine(dots) && StartsWithDots(dots) && |first| + |dots| <= maxSize
    ensures var message, end := first + dots, [DOT, CR, LF] + rest;
            && RfcStuff(message) == message && RfcRead(message + end, []) == Received(message, rest)
            && FlatRead(message + end, ending, [], maxSize) == Received(first + dots[1..], rest)
  {
    LineOfTwo(first, dots);
    SentAndRead(first + dots, rest);
    FirstIsNoTrap(first);
    LosesDot(first, dots, rest, ending, maxSize);
    Regroup(first, dots, [DOT, CR, LF] + rest);
  }

  lemma LineOfTwo(first: bytes, last: bytes)
    requires EndsOfLine(first, last)
    ensures var m := first + last;
            EndsInCrlf(m) && m[0] != DOT && forall i :: 0 <= i < |m| - 2 ==> m[i] != CR
  {
    var m, n := first + last, |first|;
    assert forall i :: 0 <= i < n ==> m[i] == first[i] && first[i] in first;
    assert forall i :: n <= i < |m| ==> m[i] == last[i - n];
    assert forall i :: 0 <= i < |last| - 2 ==> last[..|last| - 2][i] == last[i];
    assert m[|m| - 2] == last[|last| - 2] && m[|m| - 1] == last[|last| - 1];
  }

  const LETTER: byte := 97

  /** The shortest such streams: "a LF . LF a CRLF" and "a LF ..a CRLF". */
  lemma BareLfExamples()
    ensures EndsOfLine([LETTER, LF], [LETTER, CR, LF])
    ensures EndsOfLine([LETTER, LF], [DOT, DOT, LETTER, CR, LF])
    ensures IsLine([DOT, DOT, LETTER, CR, LF]) && StartsWithDots([DOT, DOT, LETTER, CR, LF])
  {
    assert [LETTER, LF][1..] == [LF];
    assert [LETTER, CR, LF][..1] == [LETTER] && [DOT, DOT, LETTER, CR, LF][..3] == [DOT, DOT, LETTER];
    var line := [DOT, DOT, LETTER, CR, LF];
    assert line[1..] == [DOT, LETTER, CR, LF] && line[1..][1..] == [LETTER, CR, LF];
    assert [LETTER, CR, LF][1..] == [CR, LF] && [CR, LF][1..] == [LF];
    assert LineEnd([LETTER, CR, LF]) == 3;
  }
}
