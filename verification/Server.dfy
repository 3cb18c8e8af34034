/** One SMTP connection: its command loop over the byte stream, and what its transcript must be. */
module Server {
  import opened Results
  import opened Outbox
  import opened DataLines
  import opened DataReader
  import opened Recipients
  import opened Session
  import opened Text
  import Parser
  import Protocol
  import RfcData
  import Store
  import Utf8

  // ---------------------------------------------------------------- transcripts

  datatype Input = Got(command: Command) | Ended | TooLong | Failed

  /** The next command of a stream: its line is overlong, broken off, not UTF-8, missing, or read
      without its line ending. */
  function NextInput(env: Env, b: bytes, ending: Ending): Input {
    var line := FirstLine(b);
    if |line| > MAX_COMMAND_LINE_BYTES then TooLong
    else if !IsComplete(line) && ending == Broken then Failed
    else
      var text := Utf8.Decode(line);
      if text.None? then Failed
      else if line == [] then Ended
      else Got(ParseCommand(env, TrimNewlines(text.value)))
  }

  /** What a connection is given: the open parts of the model, the size limit, and how the
      stream ends. */
  datatype Setting = Setting(env: Env, maxSize: nat, ending: Ending)

  /** One round of the loop: what was read, whether the store took a message submitted in it, what
      it put on record, and the bytes left behind it, none when the round ends the session. */
  datatype Turn = Turn(input: Input, stored: bool, event: Option<Event>, rest: bytes)

  /** The messages handed to the store. */
  function Messages(log: seq<Event>): seq<Message> {
    if log == [] then []
    else
      var last := log[|log| - 1];
      Messages(log[..|log| - 1]) + if last.Submitted? then [last.message] else []
  }

  /** What a command other than DATA puts on record. */
  function EventOf(command: Command): Option<Event> {
    match command
    case Blank => None
    case Quit => Some(Answered(221))
    case Helo => Some(Hello)
    case Ehlo => Some(Hello)
    case Noop => Some(Answered(250))
    case Rset => Some(EnvelopeReset)
    case Mail(Some(addr)) => Some(SenderAccepted(addr))
    case Mail(None) => Some(Answered(501))
    case Rcpt(Some(addr)) => Some(RecipientAccepted(addr))
    case Rcpt(None) => Some(Answered(501))
    case DataBlock => None
    case Unknown => Some(Answered(502))
  }

  /** A round in which DATA is accepted: the block decides, read from the bytes behind the line.
      Behind an oversize block the loop goes on inside or right behind the line that broke the
      limit, wherever the reader stopped. */
  predicate DataTurn(given: Setting, past: seq<Event>, stored: bool, before: bytes, event: Event, rest: bytes) {
    match FlatRead(before, given.ending, [], given.maxSize)
    case Received(data, behind) =>
      rest == behind
      && event == Submitted(MessageOf(given.env, Sender(past), Accumulated(past), data), stored)
    case Refused(SizeExceeded) =>
      event == OversizeRefused && IsSuffix(rest, before)
      && WithinFirstLine(rest, FromBreakingLine(before, [], given.maxSize))
    case Refused(_) => event == DataAborted && rest == []
  }

  /** DATA: out of sequence without a sender or a recipient. */
  predicate DataRound(given: Setting, past: seq<Event>, stored: bool, before: bytes, event: Event, rest: bytes) {
    if Sender(past).None? || Accumulated(past) == [] then event == Answered(503) && rest == before
    else DataTurn(given, past, stored, before, event, rest)
  }

  /** What a round puts on record and leaves behind of `before`, the bytes behind the line. */
  predicate RoundOk(given: Setting, past: seq<Event>, input: Input, stored: bool, before: bytes,
                    event: Option<Event>, rest: bytes) {
    match input
    case Ended => event == None && rest == []
    case Failed => event == None && rest == []
    case TooLong => event == Some(Answered(500)) && rest == []
    case Got(DataBlock) => event.Some? && DataRound(given, past, stored, before, event.value, rest)
    case Got(Quit) => event == EventOf(Quit) && rest == []
    case Got(command) => event == EventOf(command) && rest == before
  }

  predicate TurnOk(given: Setting, past: seq<Event>, before: bytes, turn: Turn) {
    turn.input == NextInput(given.env, before, given.ending)
    && RoundOk(given, past, turn.input, turn.stored, AfterLine(before), turn.event, turn.rest)
  }

  /** QUIT, an overlong or unreadable line, the end of the stream and a broken-off DATA block end
      the session; nothing else does. */
  predicate EndsSession(turn: Turn) {
    turn.input.Got? ==> turn.input.command.Quit? || turn.event == Some(DataAborted)
  }

  function Record(turns: seq<Turn>): seq<Event> {
    if turns == [] then [Greeted]
    else
      var last := turns[|turns| - 1];
      Record(turns[..|turns| - 1]) + if last.event.Some? then [last.event.value] else []
  }

  function Left(start: bytes, turns: seq<Turn>): bytes {
    if turns == [] then start else turns[|turns| - 1].rest
  }

  /** Round `n` answers its line by what is on record before it, and no round before it ends the
      session. */
  predicate RoundAt(given: Setting, start: bytes, turns: seq<Turn>, n: nat)
    requires n < |turns|
  {
    var past := turns[..n];
    !Complete(past) && TurnOk(given, Record(past), Left(start, past), turns[n])
  }

  /** The rounds follow the stream one behind the other. */
  predicate Transcript(given: Setting, start: bytes, turns: seq<Turn>) {
    forall n :: 0 <= n < |turns| ==> RoundAt(given, start, turns, n)
  }

  predicate Complete(turns: seq<Turn>) {
    turns != [] && EndsSession(turns[|turns| - 1])
  }

  lemma TurnDetermined(given: Setting, past: seq<Event>, before: bytes, a: Turn, b: Turn)
    requires TurnOk(given, past, before, a) && TurnOk(given, past, before, b) && a.stored == b.stored
    ensures a.input == b.input && a.event == b.event
    ensures a.event != Some(OversizeRefused) ==> a == b
  {
  }

  predicate NoOversize(turns: seq<Turn>) {
    forall i :: 0 <= i < |turns| ==> turns[i].event != Some(OversizeRefused)
  }

  /** Round by round the store gives the same answers. */
  predicate SameAnswers(a: seq<Turn>, b: seq<Turn>) {
    forall i :: 0 <= i < |a| && i < |b| ==> a[i].stored == b[i].stored
  }

  lemma NextDetermined(given: Setting, start: bytes, a: seq<Turn>, b: seq<Turn>, n: nat)
    requires n < |a| && n < |b| && RoundAt(given, start, a, n) && RoundAt(given, start, b, n)
    requires a[..n] == b[..n] && a[n].stored == b[n].stored
    ensures a[n].input == b[n].input && a[n].event == b[n].event
    ensures a[n].event != Some(OversizeRefused) ==> a[n] == b[n]
  {
    TurnDetermined(given, Record(a[..n]), Left(start, a[..n]), a[n], b[n]);
  }

  lemma {:induction false} SamePrefix(given: Setting, start: bytes, a: seq<Turn>, b: seq<Turn>, n: nat)
    requires Transcript(given, start, a) && Transcript(given, start, b) && SameAnswers(a, b)
    requires n <= |a| && n <= |b| && NoOversize(a[..n])
    ensures a[..n] == b[..n]
  {
    if n > 0 {
      OneMore(a, n - 1);
      OneMore(b, n - 1);
      assert forall i :: 0 <= i < n ==> a[..n][i] == a[i];
      assert forall i :: 0 <= i < n - 1 ==> a[..n - 1][i] == a[i];
      SamePrefix(given, start, a, b, n - 1);
      NextDetermined(given, start, a, b, n - 1);
    }
  }

  lemma OneMore(a: seq<Turn>, n: nat)
    requires n < |a|
    ensures a[..n + 1] == a[..n] + [a[n]]
  {
  }

  lemma NotTheEnd(given: Setting, start: bytes, turns: seq<Turn>, n: nat)
    requires Transcript(given, start, turns) && n < |turns|
    ensures !Complete(turns[..n])
  {
    assert RoundAt(given, start, turns, n);
  }

  /** A session without an oversize block is determined by the bytes and the store's answers,
      however the bytes arrive: any two complete transcripts are the same. */
  lemma ChunkingDoesNotShow(given: Setting, start: bytes, a: seq<Turn>, b: seq<Turn>)
    requires Transcript(given, start, a) && Complete(a) && NoOversize(a)
    requires Transcript(given, start, b) && Complete(b) && SameAnswers(a, b)
    ensures a == b
  {
    var n := if |a| <= |b| then |a| else |b|;
    assert a[..|a|] == a && b[..|b|] == b && forall i :: 0 <= i < n ==> a[..n][i] == a[i];
    SamePrefix(given, start, a, b, n);
    if |a| < |b| {
      NotTheEnd(given, start, b, |a|);
    } else if |b| < |a| {
      NotTheEnd(given, start, a, |b|);
    }
  }

  /** With one, up to and including the first: its round too reads and answers the same, and only
      where the loop goes on can differ. */
  lemma ChunkingShowsBehindOversize(given: Setting, start: bytes, a: seq<Turn>, b: seq<Turn>, n: nat)
    requires Transcript(given, start, a) && n < |a| && NoOversize(a[..n])
    requires Transcript(given, start, b) && Complete(b) && SameAnswers(a, b)
    ensures n < |b| && a[..n] == b[..n] && a[n].input == b[n].input && a[n].event == b[n].event
  {
    var m := if n <= |b| then n else |b|;
    assert b[..|b|] == b && forall i :: 0 <= i < m ==> a[..m][i] == a[..n][i];
    SamePrefix(given, start, a, b, m);
    if |b| <= n {
      NotTheEnd(given, start, a, |b|);
    } else {
      NextDetermined(given, start, a, b, n);
    }
  }

  lemma RoundStays(given: Setting, start: bytes, turns: seq<Turn>, turn: Turn, n: nat)
    requires n < |turns| && RoundAt(given, start, turns, n)
    ensures RoundAt(given, start, turns + [turn], n)
  {
    assert (turns + [turn])[..n] == turns[..n];
  }

  lemma TranscriptGrows(given: Setting, start: bytes, turns: seq<Turn>, turn: Turn)
    requires Transcript(given, start, turns) && !Complete(turns)
    requires TurnOk(given, Record(turns), Left(start, turns), turn)
    ensures Transcript(given, start, turns + [turn])
  {
    forall n | 0 <= n < |turns + [turn]|
      ensures RoundAt(given, start, turns + [turn], n)
    {
      if n < |turns| {
        RoundStays(given, start, turns, turn, n);
      } else {
        assert (turns + [turn])[..n] == turns;
      }
    }
  }

  lemma RecordGrows(start: bytes, turns: seq<Turn>, turn: Turn)
    ensures Left(start, turns + [turn]) == turn.rest
    ensures Record(turns + [turn]) == Record(turns) + if turn.event.Some? then [turn.event.value] else []
    ensures Complete(turns + [turn]) <==> EndsSession(turn)
  {
    assert (turns + [turn])[..|turns|] == turns;
  }

  lemma RoundGrows(given: Setting, start: bytes, turns: seq<Turn>, input: Input, stored: bool,
                   event: Option<Event>, rest: bytes)
    requires Transcript(given, start, turns) && !Complete(turns)
    requires input == NextInput(given.env, Left(start, turns), given.ending)
    requires RoundOk(given, Record(turns), input, stored, AfterLine(Left(start, turns)), event, rest)
    ensures var turn := Turn(input, stored, event, rest);
            && Transcript(given, start, turns + [turn]) && Left(start, turns + [turn]) == rest
            && Record(turns + [turn]) == Record(turns) + (if event.Some? then [event.value] else [])
            && (Complete(turns + [turn]) <==> EndsSession(turn))
  {
    TranscriptGrows(given, start, turns, Turn(input, stored, event, rest));
    RecordGrows(start, turns, Turn(input, stored, event, rest));
  }

  lemma PlainRound(given: Setting, past: seq<Event>, command: Command, stored: bool, before: bytes)
    requires !command.DataBlock?
    ensures RoundOk(given, past, Got(command), stored, before, EventOf(command), if command.Quit? then [] else before)
    ensures EventOf(command) != Some(DataAborted)
  {
  }

  lemma ReceivedIsSubmitted(given: Setting, past: seq<Event>, stored: bool, before: bytes, data: bytes,
                            behind: bytes, event: Option<Event>, rest: bytes)
    requires Sender(past).Some? && Accumulated(past) != []
    requires FlatRead(before, given.ending, [], given.maxSize) == Received(data, behind)
    requires RoundOk(given, past, Got(DataBlock), stored, before, event, rest)
    ensures event == Some(Submitted(MessageOf(given.env, Sender(past), Accumulated(past), data), stored))
    ensures rest == behind
  {
  }

  /** A message within the limit, stuffed line by line, the lines ended by any LF, is submitted
      whole under the envelope, and the session goes on right behind it. */
  lemma StuffedMessageSubmitted(given: Setting, past: seq<Event>, stored: bool, message: bytes, behind: bytes,
                                event: Option<Event>, rest: bytes)
    requires Sender(past).Some? && Accumulated(past) != []
    requires IsMessage(message) && |message| <= given.maxSize
    requires RoundOk(given, past, Got(DataBlock), stored, Stuff(message) + ([DOT, CR, LF] + behind), event, rest)
    ensures event == Some(Submitted(MessageOf(given.env, Sender(past), Accumulated(past), message), stored))
    ensures rest == behind
  {
    DotStuffingRoundTrip(message, behind, given.ending, given.maxSize);
    ReceivedIsSubmitted(given, past, stored, Stuff(message) + ([DOT, CR, LF] + behind), message, behind, event, rest);
  }

  /** A message stuffed over its CRLF lines, as section 4.5.2 of RFC 5321 asks, is submitted whole
      under the envelope, and the session goes on right behind it, if no bare LF in it is followed
      by "..", ".LF" or ".CRLF". */
  lemma RfcMessageSubmitted(given: Setting, past: seq<Event>, stored: bool, message: bytes, behind: bytes,
                            event: Option<Event>, rest: bytes)
    requires Sender(past).Some? && Accumulated(past) != []
    requires RfcData.IsRfcMessage(message) && RfcData.NoTrap(AllLines(message)) && |message| <= given.maxSize
    requires RoundOk(given, past, Got(DataBlock), stored, RfcData.RfcStuff(message) + ([DOT, CR, LF] + behind),
                     event, rest)
    ensures event == Some(Submitted(MessageOf(given.env, Sender(past), Accumulated(past), message), stored))
    ensures rest == behind
  {
    RfcData.RfcRoundTrip(message, behind, given.ending, given.maxSize);
    ReceivedIsSubmitted(given, past, stored, RfcData.RfcStuff(message) + ([DOT, CR, LF] + behind), message, behind,
                        event, rest);
  }

  // ---------------------------------------------------------------- the loop

  /** What the session knows at the top of its loop. */
  ghost predicate InStep(env: Env, log: seq<Event>, from: Option<string>, to: seq<string>) {
    from == Sender(log) && to == Accumulated(log) && AllGood(env, log) && Faithful(log)
  }

  /** What it has sent and submitted. */
  ghost predicate Sent(log: seq<Event>, replies: seq<nat>, submitted: seq<Message>) {
    replies == AllCodes(log) && submitted == Messages(log)
  }

  /** What the session was told of each submission. */
  function Answers(log: seq<Event>): seq<bool> {
    if log == [] then []
    else
      var last := log[|log| - 1];
      Answers(log[..|log| - 1]) + if last.Submitted? then [last.stored] else []
  }

  /** The rows that came about, in order. */
  function Present(rows: seq<Option<Row>>): seq<Row> {
    if rows == [] then []
    else
      var last := rows[|rows| - 1];
      Present(rows[..|rows| - 1]) + if last.Some? then [last.value] else []
  }

  /** Submission by submission: a row of its own with that very message, if the statement took
      effect, and one at any rate behind a 250. */
  ghost predicate Entries(messages: seq<Message>, answers: seq<bool>, rows: seq<Option<Row>>) {
    && |messages| == |answers| == |rows|
    && (forall k :: 0 <= k < |rows| && rows[k].Some? ==> RowMessage(rows[k].value) == messages[k])
    && (forall k :: 0 <= k < |rows| && answers[k] ==> rows[k].Some?)
  }

  /** Rows numbered on from `id`. */
  ghost predicate Numbered(rows: seq<Row>, id: nat) {
    forall i :: 0 <= i < |rows| ==> rows[i].id == id + i
  }

  /** What a session has added to the table: the rows of its submissions, behind what was there. */
  ghost predicate Filed(before: Db, log: seq<Event>, rows: seq<Option<Row>>, after: Db) {
    && Entries(Messages(log), Answers(log), rows)
    && Numbered(Present(rows), before.nextId)
    && after == before.(outbox := before.outbox + Present(rows), nextId := before.nextId + |Present(rows)|)
  }

  lemma StepOn(env: Env, log: seq<Event>, e: Event, from: Option<string>, to: seq<string>)
    requires InStep(env, log, from, to) && GoodEvent(env, e) && !EndsEnvelope(e)
    ensures InStep(env, log + [e], if e.SenderAccepted? then Some(e.sender) else from,
                   if e.RecipientAccepted? then to + [e.recipient] else to)
  {
    assert (log + [e])[..|log|] == log;
  }

  lemma StepOver(env: Env, log: seq<Event>, e: Event, from: Option<string>, to: seq<string>)
    requires InStep(env, log, from, to) && EndsEnvelope(e)
    requires e.Submitted? ==> from.Some? && to != [] && e.message.to == to && e.message.from == Parser.Normalised(from)
    ensures InStep(env, log + [e], None, [])
  {
    assert (log + [e])[..|log|] == log;
  }

  lemma SentMore(log: seq<Event>, e: Event, replies: seq<nat>, submitted: seq<Message>)
    requires Sent(log, replies, submitted)
    ensures Sent(log + [e], replies + Codes(e), submitted + if e.Submitted? then [e.message] else [])
  {
    CodesAppend(log, e);
    assert (log + [e])[..|log|] == log;
  }

  lemma AnswersMore(log: seq<Event>, e: Event)
    ensures Messages(log + [e]) == Messages(log) + if e.Submitted? then [e.message] else []
    ensures Answers(log + [e]) == Answers(log) + if e.Submitted? then [e.stored] else []
  {
    assert (log + [e])[..|log|] == log;
  }

  lemma FiledOn(before: Db, log: seq<Event>, rows: seq<Option<Row>>, after: Db, e: Event)
    requires Filed(before, log, rows, after) && !e.Submitted?
    ensures Filed(before, log + [e], rows, after)
  {
    AnswersMore(log, e);
  }

  lemma PresentMore(rows: seq<Option<Row>>, row: Option<Row>)
    ensures Present(rows + [row]) == Present(rows) + if row.Some? then [row.value] else []
  {
    assert (rows + [row])[..|rows|] == rows;
  }

  lemma EntriesMore(messages: seq<Message>, answers: seq<bool>, rows: seq<Option<Row>>,
                    m: Message, stored: bool, row: Option<Row>)
    requires Entries(messages, answers, rows)
    requires (row.Some? ==> RowMessage(row.value) == m) && (stored ==> row.Some?)
    ensures Entries(messages + [m], answers + [stored], rows + [row])
  {
  }

  lemma InsertedBehind(before: Db, rows: seq<Row>, after: Db, row: Row)
    requires Numbered(rows, before.nextId) && row.id == after.nextId
    requires after == before.(outbox := before.outbox + rows, nextId := before.nextId + |rows|)
    ensures Numbered(rows + [row], before.nextId)
    ensures after.(outbox := after.outbox + [row], nextId := after.nextId + 1)
         == before.(outbox := before.outbox + (rows + [row]), nextId := before.nextId + |rows + [row]|)
  {
    assert before.outbox + rows + [row] == before.outbox + (rows + [row]);
  }

  /** One more submission, with the row it came to, if any. */
  lemma FiledSubmission(before: Db, log: seq<Event>, rows: seq<Option<Row>>, after: Db,
                        m: Message, stored: bool, now: int, effect: bool)
    requires Filed(before, log, rows, after) && WellAddressed(m.to) && (stored ==> effect)
    ensures var row := if effect then Some(FreshRow(after.nextId, m, now)) else None;
            Filed(before, log + [Submitted(m, stored)], rows + [row], if effect then Insert(after, m, now) else after)
  {
    var row := if effect then Some(FreshRow(after.nextId, m, now)) else None;
    WellAddressedRoundTrip(m.to);
    AnswersMore(log, Submitted(m, stored));
    PresentMore(rows, row);
    EntriesMore(Messages(log), Answers(log), rows, m, stored, row);
    if effect {
      InsertedBehind(before, Present(rows), after, row.value);
    }
  }

  lemma {:induction false} PresentAt(rows: seq<Option<Row>>, k: nat)
    requires k < |rows| && rows[k].Some?
    ensures |Present(rows[..k])| < |Present(rows)| && Present(rows)[|Present(rows[..k])|] == rows[k].value
  {
    var before := rows[..|rows| - 1];
    if k < |before| {
      PresentAt(before, k);
      assert before[..k] == rows[..k];
    }
  }

  /** Two submissions answered 250, equal messages or not, have two rows in the table, the later
      one with the greater id. */
  lemma OwnRows(before: Db, log: seq<Event>, rows: seq<Option<Row>>, after: Db, i: nat, j: nat)
    requires Filed(before, log, rows, after) && i < j < |rows| && Answers(log)[i] && Answers(log)[j]
    ensures rows[i].Some? && rows[j].Some? && rows[i].value.id < rows[j].value.id
    ensures rows[i].value in after.outbox && rows[j].value in after.outbox
    ensures RowMessage(rows[i].value) == Messages(log)[i] && RowMessage(rows[j].value) == Messages(log)[j]
  {
    PresentAt(rows, i);
    PresentAt(rows, j);
    PresentAt(rows[..j], i);
    assert rows[..j][..i] == rows[..i];
    assert rows[i].value in Present(rows) && rows[j].value in Present(rows);
  }

  lemma NothingFiled(before: Db)
    ensures Filed(before, [Greeted], [], before)
  {
    assert [Greeted][..0] == [] && before.outbox + [] == before.outbox;
  }

  /** All the session knows: the envelope it has accumulated, what it sent and submitted, and the
      rows it added. */
  ghost predicate Knows(env: Env, log: seq<Event>, from: Option<string>, to: seq<string>, replies: seq<nat>,
                        submitted: seq<Message>, before: Db, rows: seq<Option<Row>>, after: Db) {
    InStep(env, log, from, to) && Sent(log, replies, submitted) && Filed(before, log, rows, after)
  }

  lemma KnowsOn(env: Env, log: seq<Event>, e: Event, from: Option<string>, to: seq<string>, replies: seq<nat>,
                submitted: seq<Message>, before: Db, rows: seq<Option<Row>>, after: Db)
    requires Knows(env, log, from, to, replies, submitted, before, rows, after)
    requires GoodEvent(env, e) && !EndsEnvelope(e)
    ensures Knows(env, log + [e], if e.SenderAccepted? then Some(e.sender) else from,
                  if e.RecipientAccepted? then to + [e.recipient] else to,
                  replies + Codes(e), submitted, before, rows, after)
  {
    StepOn(env, log, e, from, to);
    SentMore(log, e, replies, submitted);
    FiledOn(before, log, rows, after, e);
    assert submitted + [] == submitted;
  }

  lemma KnowsOver(env: Env, log: seq<Event>, e: Event, from: Option<string>, to: seq<string>, replies: seq<nat>,
                  submitted: seq<Message>, before: Db, rows: seq<Option<Row>>, after: Db)
    requires Knows(env, log, from, to, replies, submitted, before, rows, after)
    requires EndsEnvelope(e) && !e.Submitted?
    ensures Knows(env, log + [e], None, [], replies + Codes(e), submitted, before, rows, after)
  {
    StepOver(env, log, e, from, to);
    SentMore(log, e, replies, submitted);
    FiledOn(before, log, rows, after, e);
    assert submitted + [] == submitted;
  }

  /** The row a statement came to, and the tables it left. */
  ghost predicate Added(tables: Db, m: Message, now: int, row: Option<Row>, after: Db) {
    if row.None? then after == tables
    else row.value == FreshRow(tables.nextId, m, now) && after == Insert(tables, m, now)
  }

  lemma KnowsSubmitted(env: Env, log: seq<Event>, from: Option<string>, to: seq<string>, replies: seq<nat>,
                       submitted: seq<Message>, before: Db, rows: seq<Option<Row>>, tables: Db,
                       m: Message, stored: bool, now: int, row: Option<Row>, after: Db)
    requires Knows(env, log, from, to, replies, submitted, before, rows, tables)
    requires from.Some? && to != [] && m.to == to && m.from == Parser.Normalised(from) && WellAddressed(m.to)
    requires (stored ==> row.Some?) && Added(tables, m, now, row, after)
    ensures Knows(env, log + [Submitted(m, stored)], None, [], replies + [354, if stored then 250 else 451],
                  submitted + [m], before, rows + [row], after)
  {
    StepOver(env, log, Submitted(m, stored), from, to);
    SentMore(log, Submitted(m, stored), replies, submitted);
    FiledSubmission(before, log, rows, tables, m, stored, now, row.Some?);
  }

  lemma MessageEnvelope(env: Env, from: Option<string>, to: seq<string>, data: bytes)
    ensures var message := MessageOf(env, from, to, data);
            message.from == Parser.Normalised(from) && message.to == to
    ensures MessageOf(env, from, to, data) == Parser.MessageOf(from, to, env.lossy(data), env.mime(env.lossy(data)))
  {
  }

  lemma FirstStep(env: Env)
    ensures InStep(env, [Greeted], None, []) && AllCodes([Greeted]) == [220] && Messages([Greeted]) == []
  {
    var log := [Greeted];
    assert log[..|log| - 1] == [];
    assert AllGood(env, log[..|log| - 1]) && GoodEvent(env, log[|log| - 1]);
  }

  /** The addresses of a command read are fit for the store. */
  predicate GoodInput(env: Env, input: Input) {
    input.Got? && EventOf(input.command).Some? ==> GoodEvent(env, EventOf(input.command).value)
  }

  lemma NamedArguments(env: Env, line: string, cmd: string)
    ensures var command := NamedCommand(env, line, cmd);
            && (command.Mail? ==> command.sender == ParseMailFrom(env, line))
            && (command.Rcpt? ==> command.recipient == ParseRcptTo(env, line))
  {
  }

  lemma GoodCommand(env: Env, command: Command)
    requires command.Mail? && command.sender.Some? ==> GoodEvent(env, SenderAccepted(command.sender.value))
    requires command.Rcpt? && command.recipient.Some? ==> GoodEvent(env, RecipientAccepted(command.recipient.value))
    ensures GoodInput(env, Got(command))
  {
  }

  lemma ParsedIsGood(env: Env, line: string)
    requires '\n' !in line
    ensures GoodInput(env, Got(ParseCommand(env, line)))
  {
    var words := Words(Upper(env, line));
    NamedArguments(env, line, if words == [] then "" else words[0]);
    AcceptedAddresses(env, line);
    GoodCommand(env, ParseCommand(env, line));
  }

  /** Read, decode and parse one command line. */
  method ReadCommand(env: Env, reader: ByteReader) returns (r: Input)
    requires reader.Valid()
    modifies reader
    ensures reader.Valid() && r == NextInput(env, old(reader.Remaining()), reader.ending) && GoodInput(env, r)
    ensures |reader.Remaining()| <= old(|reader.Remaining()|)
    ensures r.Got? ==>
              && reader.Remaining() == AfterLine(old(reader.Remaining()))
              && |reader.Remaining()| < old(|reader.Remaining()|)
  {
    LineEndMeans(reader.Remaining());
    var read, raw, used := ReadLineLimited(reader, [], MAX_COMMAND_LINE_BYTES);
    match read {
      case Err(LineTooLong) => return TooLong;
      case Err(ReadError) => return Failed;
      case Ok(count) =>
        assert raw == [] + used == FirstLine(old(reader.Remaining()));
        var text := Utf8.Decode(raw);
        if text.None? {
          return Failed;
        }
        if count == 0 {
          return Ended;
        }
        Utf8.DecodedNewlines(raw);
        TrimmedLine(text.value);
        ParsedIsGood(env, TrimNewlines(text.value));
        return Got(ParseCommand(env, TrimNewlines(text.value)));
    }
  }

  /** One connection: the envelope being accumulated, and what happened so far. */
  class Connection {
    const env: Env
    const maxSize: nat
    const store: Store.MessageStore
    /** How the store's statement behaves at each submission, and when. */
    const storage: nat -> Protocol.Outcome
    const clock: nat -> nat
    var from: Option<string>
    var recipients: seq<string>
    var replies: seq<nat>
    var submitted: seq<Message>
    ghost var log: seq<Event>
    /** The tables the session found, and the row each of its submissions came to. */
    ghost var initial: Db
    ghost var rows: seq<Option<Row>>

    ghost predicate Valid()
      reads this, store
    {
      Knows(env, log, from, recipients, replies, submitted, initial, rows, store.Tables())
    }

    constructor (env: Env, maxSize: nat, store: Store.MessageStore, storage: nat -> Protocol.Outcome, clock: nat -> nat)
      ensures Valid() && log == [Greeted] && this.env == env && this.maxSize == maxSize && this.store == store
      ensures initial == store.Tables()
    {
      this.env, this.maxSize, this.store, this.storage, this.clock := env, maxSize, store, storage, clock;
      from, recipients, submitted := None, [], [];
      log, replies := [Greeted], [220];
      initial, rows := store.Tables(), [];
      new;
      FirstStep(env);
      NothingFiled(initial);
    }

    method Reply(code: nat)
      requires Valid()
      modifies this`replies, this`log
      ensures Valid() && log == old(log) + [Answered(code)]
    {
      KnowsOn(env, log, Answered(code), from, recipients, replies, submitted, initial, rows, store.Tables());
      replies := replies + [code];
      log := log + [Answered(code)];
    }

    /** HELO and EHLO: greet, and leave the envelope as it is. */
    method Greet()
      requires Valid()
      modifies this`replies, this`log
      ensures Valid() && log == old(log) + [Hello]
    {
      KnowsOn(env, log, Hello, from, recipients, replies, submitted, initial, rows, store.Tables());
      replies := replies + [250];
      log := log + [Hello];
    }

    method Reset()
      requires Valid()
      modifies this`from, this`recipients, this`replies, this`log
      ensures Valid() && log == old(log) + [EnvelopeReset]
    {
      KnowsOver(env, log, EnvelopeReset, from, recipients, replies, submitted, initial, rows, store.Tables());
      from, recipients := None, [];
      replies := replies + [250];
      log := log + [EnvelopeReset];
    }

    method AcceptSender(addr: string)
      requires Valid() && GoodEvent(env, SenderAccepted(addr))
      modifies this`from, this`replies, this`log
      ensures Valid() && log == old(log) + [SenderAccepted(addr)]
    {
      KnowsOn(env, log, SenderAccepted(addr), from, recipients, replies, submitted, initial, rows, store.Tables());
      from := Some(addr);
      replies := replies + [250];
      log := log + [SenderAccepted(addr)];
    }

    method AcceptRecipient(addr: string)
      requires Valid() && GoodEvent(env, RecipientAccepted(addr))
      modifies this`recipients, this`replies, this`log
      ensures Valid() && log == old(log) + [RecipientAccepted(addr)]
    {
      KnowsOn(env, log, RecipientAccepted(addr), from, recipients, replies, submitted, initial, rows, store.Tables());
      recipients := recipients + [addr];
      replies := replies + [250];
      log := log + [RecipientAccepted(addr)];
    }

    /** A new envelope behind a submission on record. */
    method StartOver(newReplies: seq<nat>, newSubmitted: seq<Message>, ghost newLog: seq<Event>,
                     ghost newRows: seq<Option<Row>>)
      requires Knows(env, newLog, None, [], newReplies, newSubmitted, initial, newRows, store.Tables())
      modifies this`from, this`recipients, this`replies, this`submitted, this`log, this`rows
      ensures Valid() && from == None && recipients == [] && replies == newReplies && submitted == newSubmitted
      ensures log == newLog && rows == newRows
    {
      from, recipients, replies, submitted := None, [], newReplies, newSubmitted;
      log, rows := newLog, newRows;
    }

    /** The store's statement, and the row it came to if it took effect. */
    method Enqueue(message: Message, now: nat, outcome: Protocol.Outcome)
        returns (stored: bool, ghost row: Option<Row>)
      modifies store
      ensures row.Some? <==>
                outcome != Protocol.ErrorUnapplied && (store.maxLen == 0 || old(|store.outbox|) < store.maxLen)
      ensures stored == (row.Some? && outcome == Protocol.Done)
      ensures Added(old(store.Tables()), message, now, row, store.Tables())
    {
      var full := store.AtCap();
      row := if full || outcome == Protocol.ErrorUnapplied then None else Some(FreshRow(store.nextId, message, now));
      var r := store.Enqueue(message, now, outcome);
      stored := r.Ok?;
    }

    /** Persist before acknowledging: 250 only with a row of the message's own in the table. An
        error answers 451, also when the statement took effect all the same. */
    method Persist(message: Message) returns (stored: bool, ghost row: Option<Row>)
      requires Valid() && from.Some? && recipients != [] && WellAddressed(recipients)
      requires message.from == Parser.Normalised(from) && message.to == recipients
      modifies this, store
      ensures Valid() && from == None && recipients == [] && initial == old(initial)
      ensures log == old(log) + [Submitted(message, stored)]
      ensures replies == old(replies) + [354, if stored then 250 else 451]
      ensures rows == old(rows) + [row]
      ensures Added(old(store.Tables()), message, clock(|old(submitted)|), row, store.Tables())
      ensures row.Some? <==>
                && storage(|old(submitted)|) != Protocol.ErrorUnapplied
                && (store.maxLen == 0 || old(|store.outbox|) < store.maxLen)
      ensures stored <==> row.Some? && storage(|old(submitted)|) == Protocol.Done
    {
      ghost var tables := store.Tables();
      var now := clock(|submitted|);
      stored, row := Enqueue(message, now, storage(|submitted|));
      KnowsSubmitted(env, log, from, recipients, replies, submitted, initial, rows, tables,
                     message, stored, now, row, store.Tables());
      StartOver(replies + [354, if stored then 250 else 451], submitted + [message],
                log + [Submitted(message, stored)], rows + [row]);
    }

    /** The block read becomes a message under the accumulated envelope. */
    method Submit(block: bytes) returns (stored: bool)
      requires Valid() && from.Some? && recipients != []
      modifies this, store
      ensures initial == old(initial)
      ensures Valid() && from == None && recipients == []
      ensures log == old(log) + [Submitted(MessageOf(env, old(from), old(recipients), block), stored)]
    {
      var text := env.lossy(block);
      var message := Parser.ParseData(from, recipients, text, env.mime(text));
      MessageEnvelope(env, from, recipients, block);
      AccumulatedGood(env, log);
      ghost var row;
      stored, row := Persist(message);
    }

    method RefuseOversize()
      requires Valid()
      modifies this`from, this`recipients, this`replies, this`log
      ensures Valid() && log == old(log) + [OversizeRefused]
    {
      KnowsOver(env, log, OversizeRefused, from, recipients, replies, submitted, initial, rows, store.Tables());
      replies := replies + [354, 552];
      from, recipients := None, [];
      log := log + [OversizeRefused];
    }

    method Abort()
      requires Valid()
      modifies this`replies, this`log
      ensures Valid() && log == old(log) + [DataAborted]
    {
      KnowsOn(env, log, DataAborted, from, recipients, replies, submitted, initial, rows, store.Tables());
      replies := replies + [354];
      log := log + [DataAborted];
    }

    ghost function Set(ending: Ending): Setting {
      Setting(env, maxSize, ending)
    }

    /** DATA: refused without an envelope; otherwise read, submit, and start a new envelope. */
    method Data(reader: ByteReader) returns (ok: bool, stored: bool, ghost event: Event)
      requires Valid() && reader.Valid()
      modifies this, store, reader
      ensures initial == old(initial)
      ensures Valid() && reader.Valid() && |reader.Remaining()| <= old(|reader.Remaining()|)
      ensures log == old(log) + [event] && ok == (event != DataAborted)
      ensures RoundOk(Set(reader.ending), old(log), Got(DataBlock), stored, old(reader.Remaining()), Some(event),
                      if ok then reader.Remaining() else [])
    {
      stored := false;
      if from.None? || recipients == [] {
        Reply(503);
        return true, stored, Answered(503);
      }
      var data, peak := ReadData(reader, maxSize);
      match data {
        case Ok(block) =>
          ghost var message := MessageOf(env, from, recipients, block);
          stored := Submit(block);
          event := Submitted(message, stored);
        case Err(SizeExceeded) =>
          event := OversizeRefused;
          RefuseOversize();
        case Err(_) =>
          Abort();
          return false, stored, DataAborted;
      }
      ok := true;
    }

    /** A command other than DATA, by its name. */
    method Answer(command: Command)
      requires Valid() && !command.DataBlock? && GoodInput(env, Got(command))
      modifies this`from, this`recipients, this`replies, this`log
      ensures Valid()
      ensures log == old(log) + if EventOf(command).Some? then [EventOf(command).value] else []
    {
      match command {
        case Blank =>
        case Quit => Reply(221);
        case Rset => Reset();
        case Mail(Some(addr)) => AcceptSender(addr);
        case Mail(None) => Reply(501);
        case Rcpt(Some(addr)) => AcceptRecipient(addr);
        case Rcpt(None) => Reply(501);
        case Unknown => Reply(502);
        case Helo => Greet();
        case Ehlo => Greet();
        case Noop => Reply(250);
      }
    }

    /** One round for a command; `more` is false when it ends the session. */
    method ServeCommand(reader: ByteReader, command: Command)
        returns (more: bool, stored: bool, ghost event: Option<Event>, ghost rest: bytes)
      requires Valid() && reader.Valid() && GoodInput(env, Got(command))
      modifies this, store, reader
      ensures initial == old(initial)
      ensures Valid() && reader.Valid() && |reader.Remaining()| <= old(|reader.Remaining()|)
      ensures RoundOk(Set(reader.ending), old(log), Got(command), stored, old(reader.Remaining()), event, rest)
      ensures log == old(log) + if event.Some? then [event.value] else []
      ensures more == !(command.Quit? || event == Some(DataAborted)) && (more ==> rest == reader.Remaining())
    {
      if command == DataBlock {
        ghost var e;
        more, stored, e := Data(reader);
        event, rest := Some(e), if more then reader.Remaining() else [];
      } else {
        more, stored := !command.Quit?, false;
        event, rest := EventOf(command), if more then reader.Remaining() else [];
        PlainRound(Set(reader.ending), log, command, stored, reader.Remaining());
        Answer(command);
      }
    }

    /** One round behind the reading of its line; `more` is false when it ends the session. */
    method Serve(reader: ByteReader, input: Input)
        returns (more: bool, stored: bool, ghost event: Option<Event>, ghost rest: bytes)
      requires Valid() && reader.Valid() && GoodInput(env, input)
      modifies this, store, reader
      ensures initial == old(initial)
      ensures Valid() && reader.Valid() && |reader.Remaining()| <= old(|reader.Remaining()|)
      ensures RoundOk(Set(reader.ending), old(log), input, stored, old(reader.Remaining()), event, rest)
      ensures log == old(log) + if event.Some? then [event.value] else []
      ensures more == !EndsSession(Turn(input, stored, event, rest)) && (more ==> rest == reader.Remaining())
    {
      event, rest, more, stored := None, [], false, false;
      match input {
        case Ended =>
        case Failed =>
        case TooLong =>
          event := Some(Answered(500));
          Reply(500);
        case Got(command) =>
          more, stored, event, rest := ServeCommand(reader, command);
      }
    }

    /** Serve the connection until it ends. Whatever the chunks, the rounds are a complete
        transcript of the bytes; the replies are those of its record, every submission on it
        carries exactly the envelope accepted since the last one ended, and the table holds, behind
        what was there, the rows of those submissions, in order and numbered on, one of its own for
        each 250. */
    method HandleConnection(reader: ByteReader) returns (ghost turns: seq<Turn>)
      requires Valid() && reader.Valid() && log == [Greeted] && initial == store.Tables()
      modifies this, store, reader
      ensures Transcript(Set(reader.ending), old(reader.Remaining()), turns) && Complete(turns)
      ensures log == Record(turns) && replies == AllCodes(log) && submitted == Messages(log)
      ensures Faithful(log) && AllGood(env, log)
      ensures Filed(old(store.Tables()), log, rows, store.Tables())
    {
      ghost var given, start := Set(reader.ending), reader.Remaining();
      turns := [];
      var more := true;
      while more
        invariant Valid() && reader.Valid() && initial == old(initial)
        invariant Transcript(given, start, turns) && log == Record(turns)
        invariant more == !Complete(turns) && (more ==> reader.Remaining() == Left(start, turns))
        decreases |reader.Remaining()|, more
      {
        var input := ReadCommand(env, reader);
        var stored;
        ghost var event, rest;
        more, stored, event, rest := Serve(reader, input);
        RoundGrows(given, start, turns, input, stored, event, rest);
        turns := turns + [Turn(input, stored, event, rest)];
      }
    }
  }
}
