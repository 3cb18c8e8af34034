/** Commands on the wire: which line means which command, what is answered, and what becomes of the
    envelope. */
module CommandLines {
  import opened Results
  import opened Text
  import opened DataLines
  import opened Session
  import opened Server
  import Entities
  import Utf8

  // ---------------------------------------------------------------- lines as bytes

  /** A command line as a client sends it: no newline inside, at most 4096 bytes in UTF-8 with the
      CRLF behind it. */
  predicate Sendable(text: string) {
    '\n' !in text && text != "" && text[|text| - 1] != '\r' && Entities.ByteLen(text) + 2 <= 4096
  }

  function LineOf(text: string): bytes {
    Utf8.Encode(text + "\r\n")
  }

  lemma LineIsLine(text: string)
    requires Sendable(text)
    ensures IsLine(LineOf(text)) && |LineOf(text)| <= 4096
  {
    var head := Utf8.Encode(text) + [CR];
    Utf8.EncodeAppend(text, "\r\n");
    CrlfEncoded();
    assert Utf8.Encode(text) + [CR, LF] == head + [LF];
    Utf8.EncodedLf(text);
    EncodedLength(text);
    LineEndMeans(head);
    LineEndPast(head, [LF]);
  }

  lemma {:induction false} EncodedLength(s: string)
    ensures |Utf8.Encode(s)| == Entities.ByteLen(s)
  {
    if s != "" {
      EncodedLength(s[1..]);
    }
  }

  lemma CrlfEncoded()
    ensures Utf8.Encode("\r\n") == [CR, LF]
  {
    assert "\r\n"[1..] == "\n" && "\n"[1..] == "";
    assert Utf8.Encode("\n") == [LF] + Utf8.Encode("") == [LF];
    assert Utf8.Encode("\r\n") == [CR] + Utf8.Encode("\n");
  }

  lemma TrimOne(s: string, c: char)
    requires c == '\r' || c == '\n'
    ensures TrimNewlines(s + [c]) == TrimNewlines(s)
  {
    assert (s + [c])[..|s|] == s;
  }

  lemma TrimsToText(text: string)
    requires Sendable(text)
    ensures TrimNewlines(text + "\r\n") == text
  {
    assert text + "\r\n" == (text + ['\r']) + ['\n'];
    TrimOne(text + ['\r'], '\n');
    TrimOne(text, '\r');
    assert text[|text| - 1] in text;
  }

  lemma InputOf(env: Env, b: bytes, text: string, ended: string, ending: Ending)
    requires IsComplete(FirstLine(b)) && |FirstLine(b)| <= MAX_COMMAND_LINE_BYTES
    requires Utf8.Decode(FirstLine(b)) == Some(ended) && TrimNewlines(ended) == text
    ensures NextInput(env, b, ending) == Got(ParseCommand(env, text))
  {
  }

  /** It arrives as the command it parses to, and what follows is left. */
  lemma LineArrives(env: Env, text: string, rest: bytes, ending: Ending)
    requires Sendable(text)
    ensures NextInput(env, LineOf(text) + rest, ending) == Got(ParseCommand(env, text))
    ensures AfterLine(LineOf(text) + rest) == rest
  {
    LineIsLine(text);
    FirstLineOf(LineOf(text), rest);
    Utf8.DecodeEncode(text + "\r\n");
    TrimsToText(text);
    InputOf(env, LineOf(text) + rest, text, text + "\r\n", ending);
  }

  // ---------------------------------------------------------------- what a line is answered

  /** The first thing sent is the greeting. */
  lemma {:induction false} GreetingFirst(turns: seq<Turn>)
    ensures Record(turns) != [] && AllCodes(Record(turns)) != [] && AllCodes(Record(turns))[0] == 220
  {
    if turns == [] {
      assert [Greeted][..0] == [];
    } else {
      var past, last := Record(turns[..|turns| - 1]), turns[|turns| - 1];
      GreetingFirst(turns[..|turns| - 1]);
      if last.event.Some? {
        CodesAppend(past, last.event.value);
      } else {
        assert past + [] == past;
      }
    }
  }

  /** A line of more than 4096 bytes is answered 500 and ends the session, whatever it says. */
  lemma OverlongLine(given: Setting, start: bytes, turns: seq<Turn>, n: nat)
    requires Transcript(given, start, turns) && n < |turns| && |FirstLine(Left(start, turns[..n]))| > 4096
    ensures |turns| == n + 1 && Leaves(Record(turns[..n]), Record(turns[..n + 1]), [500],
                                       Sender(Record(turns[..n])), Accumulated(Record(turns[..n])))
  {
    assert RoundAt(given, start, turns, n);
    if EndsSession(turns[n]) {
      EndsThere(given, start, turns, n);
    }
    RecordNext(given, start, turns, n, turns[n].event);
    EventShows(Record(turns[..n]), Answered(500));
  }

  /** A word by itself, which upper-casing leaves alone, is a line known by it. */
  lemma BareWord(env: Env, word: string)
    requires forall i :: 0 <= i < |word| ==> word[i] as int < 0x80
    requires NoWhite(word) && 0 < |word| <= 4000 && Upper(env, word) == word
    ensures Sendable(word) && Keyword(env, word) == word
  {
    KeywordIsFirst(env, "", word, "");
    Entities.AsciiBytes(word);
    assert "" + (word + "") == word;
    assert IsWhite('\n') && IsWhite('\r');
  }

  /** Line `n` is `text`, with `rest` behind it. */
  ghost predicate LineAt(given: Setting, start: bytes, turns: seq<Turn>, n: nat, text: string, rest: bytes) {
    && Transcript(given, start, turns) && n < |turns| && Sendable(text)
    && Left(start, turns[..n]) == LineOf(text) + rest
  }

  /** From one record to the next these codes went on the wire, and this sender and these recipients
      stand accepted. */
  ghost predicate Leaves(past: seq<Event>, log: seq<Event>, codes: seq<nat>, from: Option<string>, to: seq<string>) {
    AllCodes(log) == AllCodes(past) + codes && Sender(log) == from && Accumulated(log) == to
  }

  lemma EndsThere(given: Setting, start: bytes, turns: seq<Turn>, n: nat)
    requires Transcript(given, start, turns) && n < |turns| && EndsSession(turns[n])
    ensures |turns| == n + 1
  {
    if n + 1 < |turns| {
      assert turns[..n + 1][n] == turns[n];
      NotTheEnd(given, start, turns, n + 1);
    }
  }

  lemma RecordNext(given: Setting, start: bytes, turns: seq<Turn>, n: nat, event: Option<Event>)
    requires n < |turns| && turns[n].event == event
    ensures Record(turns[..n + 1]) == Record(turns[..n]) + if event.Some? then [event.value] else []
  {
    OneMore(turns, n);
    RecordGrows(start, turns[..n], turns[n]);
  }

  lemma EventShows(log: seq<Event>, e: Event)
    ensures AllCodes(log + [e]) == AllCodes(log) + Codes(e)
    ensures EndsEnvelope(e) ==> Sender(log + [e]) == None && Accumulated(log + [e]) == []
    ensures !EndsEnvelope(e) ==> Sender(log + [e]) == if e.SenderAccepted? then Some(e.sender) else Sender(log)
    ensures !EndsEnvelope(e) ==>
              Accumulated(log + [e])
              == if e.RecipientAccepted? then Accumulated(log) + [e.recipient] else Accumulated(log)
  {
    CodesAppend(log, e);
    assert (log + [e])[..|log|] == log;
  }

  lemma InputAt(given: Setting, start: bytes, turns: seq<Turn>, n: nat, text: string, rest: bytes)
    requires LineAt(given, start, turns, n, text, rest)
    ensures turns[n].input == Got(ParseCommand(given.env, text))
    ensures RoundOk(given, Record(turns[..n]), turns[n].input, turns[n].stored, rest, turns[n].event, turns[n].rest)
    ensures EndsSession(turns[n]) ==> |turns| == n + 1
  {
    assert RoundAt(given, start, turns, n);
    LineArrives(given.env, text, rest, given.ending);
    if EndsSession(turns[n]) {
      EndsThere(given, start, turns, n);
    }
  }

  lemma EventAt(given: Setting, start: bytes, turns: seq<Turn>, n: nat, text: string, rest: bytes, command: Command)
    requires LineAt(given, start, turns, n, text, rest)
    requires ParseCommand(given.env, text) == command && !command.DataBlock?
    ensures turns[n].event == EventOf(command) && turns[n].rest == if command.Quit? then [] else rest
    ensures command.Quit? ==> |turns| == n + 1
  {
    InputAt(given, start, turns, n, text, rest);
  }

  /** What a line without arguments does to the record. */
  ghost predicate PlainDoes(word: string, past: seq<Event>, log: seq<Event>) {
    if word == "RSET" then Leaves(past, log, [250], None, [])
    else if word == "NOOP" || word == "HELO" || word == "EHLO" then
      Leaves(past, log, [250], Sender(past), Accumulated(past))
    else if word == "QUIT" then Leaves(past, log, [221], Sender(past), Accumulated(past))
    else Leaves(past, log, [502], Sender(past), Accumulated(past))
  }

  lemma PlainLog(command: Command, word: string, past: seq<Event>, e: Event)
    requires EventOf(command) == Some(e) && !command.Mail? && !command.Rcpt?
    requires (command == Rset <==> word == "RSET") && (command == Noop <==> word == "NOOP")
    requires (command == Helo <==> word == "HELO") && (command == Ehlo <==> word == "EHLO")
    requires command == Quit <==> word == "QUIT"
    ensures PlainDoes(word, past, past + [e])
  {
    EventShows(past, e);
  }

  /** RSET answers 250 and forgets the envelope; NOOP, HELO and EHLO answer 250 and keep it; QUIT
      answers 221 and ends the session; any word that is no command is answered 502. */
  lemma PlainLine(given: Setting, start: bytes, turns: seq<Turn>, n: nat, text: string, rest: bytes)
    requires LineAt(given, start, turns, n, text, rest)
    requires Keyword(given.env, text) !in ["MAIL", "RCPT", "DATA"]
    ensures PlainDoes(Keyword(given.env, text), Record(turns[..n]), Record(turns[..n + 1]))
    ensures if Keyword(given.env, text) == "QUIT" then |turns| == n + 1 else turns[n].rest == rest
  {
    var command := ParseCommand(given.env, text);
    CommandByWord(given.env, text);
    EventAt(given, start, turns, n, text, rest, command);
    RecordNext(given, start, turns, n, turns[n].event);
    PlainLog(command, Keyword(given.env, text), Record(turns[..n]), turns[n].event.value);
  }

  /** What MAIL and RCPT do, given the address accepted. */
  ghost predicate MailDoes(addr: Option<string>, past: seq<Event>, log: seq<Event>) {
    match addr
    case Some(sender) => Leaves(past, log, [250], Some(sender), Accumulated(past))
    case None => Leaves(past, log, [501], Sender(past), Accumulated(past))
  }

  ghost predicate RcptDoes(addr: Option<string>, past: seq<Event>, log: seq<Event>) {
    match addr
    case Some(recipient) => Leaves(past, log, [250], Sender(past), Accumulated(past) + [recipient])
    case None => Leaves(past, log, [501], Sender(past), Accumulated(past))
  }

  lemma MailLog(addr: Option<string>, past: seq<Event>, e: Event)
    requires EventOf(Mail(addr)) == Some(e)
    ensures MailDoes(addr, past, past + [e])
  {
    EventShows(past, e);
  }

  lemma RcptLog(addr: Option<string>, past: seq<Event>, e: Event)
    requires EventOf(Rcpt(addr)) == Some(e)
    ensures RcptDoes(addr, past, past + [e])
  {
    EventShows(past, e);
  }

  /** MAIL replaces the sender, RCPT adds a recipient, both with 250; an address that is not
      accepted is answered 501 and changes nothing. */
  lemma EnvelopeLine(given: Setting, start: bytes, turns: seq<Turn>, n: nat, text: string, rest: bytes)
    requires LineAt(given, start, turns, n, text, rest) && Keyword(given.env, text) in ["MAIL", "RCPT"]
    ensures
      var past, log := Record(turns[..n]), Record(turns[..n + 1]);
      if Keyword(given.env, text) == "MAIL" then MailDoes(ParseMailFrom(given.env, text), past, log)
      else RcptDoes(ParseRcptTo(given.env, text), past, log)
    ensures turns[n].rest == rest
  {
    var command := ParseCommand(given.env, text);
    CommandByWord(given.env, text);
    EventAt(given, start, turns, n, text, rest, command);
    RecordNext(given, start, turns, n, turns[n].event);
    NamedArguments(given.env, text, Keyword(given.env, text));
    if command.Mail? {
      MailLog(command.sender, Record(turns[..n]), turns[n].event.value);
    } else {
      RcptLog(command.recipient, Record(turns[..n]), turns[n].event.value);
    }
  }

  lemma DataEvent(given: Setting, start: bytes, turns: seq<Turn>, n: nat, text: string, rest: bytes)
    requires LineAt(given, start, turns, n, text, rest) && ParseCommand(given.env, text) == DataBlock
    ensures turns[n].event.Some?
    ensures DataRound(given, Record(turns[..n]), turns[n].stored, rest, turns[n].event.value, turns[n].rest)
    ensures turns[n].event == Some(DataAborted) ==> |turns| == n + 1
  {
    InputAt(given, start, turns, n, text, rest);
  }

  /** What DATA does, given what is read behind it. */
  ghost predicate DataDoes(read: Reading, stored: bool, past: seq<Event>, log: seq<Event>) {
    if Sender(past).None? || Accumulated(past) == [] then Leaves(past, log, [503], Sender(past), Accumulated(past))
    else
      match read
      case Received(_, _) => Leaves(past, log, [354, if stored then 250 else 451], None, [])
      case Refused(SizeExceeded) => Leaves(past, log, [354, 552], None, [])
      case Refused(_) => Leaves(past, log, [354], Sender(past), Accumulated(past))
  }

  lemma DataLog(given: Setting, past: seq<Event>, stored: bool, before: bytes, e: Event, rest: bytes)
    requires DataRound(given, past, stored, before, e, rest)
    ensures DataDoes(FlatRead(before, given.ending, [], given.maxSize), stored, past, past + [e])
  {
    EventShows(past, e);
  }

  /** DATA without a sender or a recipient is answered 503 and changes nothing. With both it is
      answered 354 and then 250 or 451 as the store says, 552 when the block exceeds the limit, or
      nothing more when the stream breaks off, and nothing else: no 250 for a block refused. A
      submission and a 552 end the envelope. */
  lemma DataLine(given: Setting, start: bytes, turns: seq<Turn>, n: nat, text: string, rest: bytes)
    requires LineAt(given, start, turns, n, text, rest) && Keyword(given.env, text) == "DATA"
    ensures DataDoes(FlatRead(rest, given.ending, [], given.maxSize), turns[n].stored,
                     Record(turns[..n]), Record(turns[..n + 1]))
  {
    CommandByWord(given.env, text);
    DataEvent(given, start, turns, n, text, rest);
    RecordNext(given, start, turns, n, turns[n].event);
    DataLog(given, Record(turns[..n]), turns[n].stored, rest, turns[n].event.value, turns[n].rest);
  }

  lemma EmptyInput(env: Env, rest: bytes, ending: Ending)
    ensures NextInput(env, [CR, LF] + rest, ending) == Got(Blank) && AfterLine([CR, LF] + rest) == rest
  {
    var line := [CR, LF];
    LineEndMeans([CR]);
    LineEndPast([CR], [LF]);
    assert [CR] + [LF] == line;
    FirstLineOf(line, rest);
    CrlfEncoded();
    Utf8.DecodeEncode("\r\n");
    TrimOne("\r", '\n');
    TrimOne("", '\r');
    assert "\r" + ['\n'] == "\r\n" && "" + ['\r'] == "\r";
    InputOf(env, line + rest, "", "\r\n", ending);
  }

  /** An empty line is passed over, and the end of the stream ends the session, without an answer. */
  lemma NothingSaid(given: Setting, start: bytes, turns: seq<Turn>, n: nat, rest: bytes)
    requires Transcript(given, start, turns) && n < |turns|
    ensures Left(start, turns[..n]) == [CR, LF] + rest ==>
              Record(turns[..n + 1]) == Record(turns[..n]) && turns[n].rest == rest
    ensures Left(start, turns[..n]) == [] ==> Record(turns[..n + 1]) == Record(turns[..n]) && |turns| == n + 1
  {
    assert RoundAt(given, start, turns, n);
    EmptyInput(given.env, rest, given.ending);
    if EndsSession(turns[n]) {
      EndsThere(given, start, turns, n);
    }
    RecordNext(given, start, turns, n, turns[n].event);
    assert Record(turns[..n]) + [] == Record(turns[..n]);
  }

  // ---------------------------------------------------------------- what RSET cuts off

  /** The recipients accepted in rounds `i` to `m`, in order. */
  function AcceptedIn(turns: seq<Turn>, i: nat, m: nat): seq<string>
    requires i <= m <= |turns|
    decreases m
  {
    if m == i then []
    else
      match turns[m - 1].event
      case Some(RecipientAccepted(recipient)) => AcceptedIn(turns, i, m - 1) + [recipient]
      case _ => AcceptedIn(turns, i, m - 1)
  }

  ghost predicate AmongAccepted(to: seq<string>, accepted: seq<string>) {
    |to| <= |accepted| && forall r :: r in to ==> r in accepted
  }

  /** No round from `i` to `m` ends an envelope. */
  ghost predicate OneEnvelope(turns: seq<Turn>, i: nat, m: nat) {
    forall j :: i <= j < m && j < |turns| && turns[j].event.Some? ==> !EndsEnvelope(turns[j].event.value)
  }

  ghost predicate KeptOf(log: seq<Event>, accepted: seq<string>, all: bool) {
    AmongAccepted(Accumulated(log), accepted) && (all ==> Accumulated(log) == accepted)
  }

  lemma AcceptedOneMore(turns: seq<Turn>, i: nat, m: nat)
    requires i <= m < |turns|
    ensures AcceptedIn(turns, i, m + 1)
         == match turns[m].event
            case Some(RecipientAccepted(r)) => AcceptedIn(turns, i, m) + [r]
            case _ => AcceptedIn(turns, i, m)
  {
  }

  lemma OneEnvelopeSoFar(turns: seq<Turn>, i: nat, m: nat)
    requires i <= m < |turns| && OneEnvelope(turns, i, m + 1)
    ensures OneEnvelope(turns, i, m) && (turns[m].event.Some? ==> !EndsEnvelope(turns[m].event.value))
  {
  }

  lemma KeptOneMore(given: Setting, start: bytes, turns: seq<Turn>, i: nat, m: nat, past: seq<Event>,
                    accepted: seq<string>)
    requires i <= m < |turns| && past == Record(turns[..m]) && accepted == AcceptedIn(turns, i, m)
    requires KeptOf(past, accepted, OneEnvelope(turns, i, m))
    ensures KeptOf(Record(turns[..m + 1]), AcceptedIn(turns, i, m + 1), OneEnvelope(turns, i, m + 1))
  {
    var event, all := turns[m].event, OneEnvelope(turns, i, m + 1);
    if all {
      OneEnvelopeSoFar(turns, i, m);
    }
    AcceptedNext(past, event, accepted, all);
    RecordNext(given, start, turns, m, event);
    AcceptedOneMore(turns, i, m);
  }

  lemma KeptNone(log: seq<Event>, all: bool)
    requires Accumulated(log) == []
    ensures KeptOf(log, [], all)
  {
  }

  /** Behind a round that left no recipient, those kept are among those accepted since; all of them,
      in order, while no envelope ends. */
  lemma {:induction false} AcceptedSince(given: Setting, start: bytes, turns: seq<Turn>, i: nat, m: nat)
    requires i <= m <= |turns| && Accumulated(Record(turns[..i])) == []
    ensures KeptOf(Record(turns[..m]), AcceptedIn(turns, i, m), OneEnvelope(turns, i, m))
    decreases m
  {
    if m == i {
      KeptNone(Record(turns[..i]), OneEnvelope(turns, i, i));
    } else {
      AcceptedSince(given, start, turns, i, m - 1);
      KeptOneMore(given, start, turns, i, m - 1, Record(turns[..m - 1]), AcceptedIn(turns, i, m - 1));
    }
  }

  lemma AcceptedNext(past: seq<Event>, event: Option<Event>, accepted: seq<string>, all: bool)
    requires KeptOf(past, accepted, all) && (all && event.Some? ==> !EndsEnvelope(event.value))
    ensures KeptOf(past + (if event.Some? then [event.value] else []),
                   match event case Some(RecipientAccepted(r)) => accepted + [r] case _ => accepted, all)
  {
    if event.Some? {
      EventShows(past, event.value);
    } else {
      assert past + [] == past;
    }
  }

  /** Behind a RSET a submission goes to recipients accepted after it only; to exactly those, in
      order, when no other envelope ended between. */
  lemma BehindReset(given: Setting, start: bytes, turns: seq<Turn>, i: nat, text: string, rest: bytes, k: nat)
    requires LineAt(given, start, turns, i, text, rest) && Keyword(given.env, text) == "RSET"
    requires i < k < |turns| && turns[k].event.Some? && turns[k].event.value.Submitted?
    ensures AmongAccepted(turns[k].event.value.message.to, AcceptedIn(turns, i + 1, k))
    ensures OneEnvelope(turns, i + 1, k) ==> turns[k].event.value.message.to == AcceptedIn(turns, i + 1, k)
  {
    PlainLine(given, start, turns, i, text, rest);
    AcceptedSince(given, start, turns, i + 1, k);
    SubmissionAt(given, start, turns, k);
  }

  lemma SubmissionAt(given: Setting, start: bytes, turns: seq<Turn>, k: nat)
    requires Transcript(given, start, turns) && k < |turns|
    requires turns[k].event.Some? && turns[k].event.value.Submitted?
    ensures turns[k].event.value.message.to == Accumulated(Record(turns[..k]))
  {
    assert RoundAt(given, start, turns, k);
  }
}
