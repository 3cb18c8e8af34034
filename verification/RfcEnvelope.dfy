/** The envelope of RFC 5321, which MAIL and EHLO clear, against the one the program keeps. */
module RfcEnvelope {
  import opened Results
  import opened Text
  import opened DataLines
  import opened Session
  import opened Server
  import opened CommandLines
  import Entities

  // ---------------------------------------------------------------- what the standard would keep

  /** Sections 4.1.1.2 and 4.1.4 of RFC 5321: MAIL and EHLO, or HELO, clear the recipients accepted
      before. */
  predicate ClearsRecipients(e: Event) {
    e.SenderAccepted? || e.Hello?
  }

  /** EHLO clears the sender as well. */
  function RfcSender(log: seq<Event>): Option<string> {
    if log == [] then None
    else
      var past, e := log[..|log| - 1], log[|log| - 1];
      if EndsEnvelope(e) || e.Hello? then None
      else if e.SenderAccepted? then Some(e.sender)
      else RfcSender(past)
  }

  /** Section 3.3: a recipient is admitted only behind a MAIL. */
  function RfcRecipients(log: seq<Event>): seq<string> {
    if log == [] then []
    else
      var past, e := log[..|log| - 1], log[|log| - 1];
      if EndsEnvelope(e) || ClearsRecipients(e) then []
      else if e.RecipientAccepted? && RfcSender(past).Some? then RfcRecipients(past) + [e.recipient]
      else RfcRecipients(past)
  }

  /** Since the last envelope ended, every RCPT came behind a MAIL with no EHLO between, and no
      recipient was pending at any MAIL or EHLO. */
  predicate InSequence(log: seq<Event>) {
    log == [] ||
    var past, e := log[..|log| - 1], log[|log| - 1];
    EndsEnvelope(e) ||
    (InSequence(past)
     && (ClearsRecipients(e) ==> Accumulated(past) == [])
     && (e.RecipientAccepted? ==> RfcSender(past).Some?))
  }

  /** No EHLO since the last MAIL, or since the last envelope ended, found a sender. */
  predicate SenderFresh(log: seq<Event>) {
    log == [] ||
    var past, e := log[..|log| - 1], log[|log| - 1];
    EndsEnvelope(e) || e.SenderAccepted? || (if e.Hello? then Sender(past).None? else SenderFresh(past))
  }

  lemma {:induction false} RfcKeepsNoMore(log: seq<Event>)
    ensures |RfcRecipients(log)| <= |Accumulated(log)|
  {
    if log != [] {
      RfcKeepsNoMore(log[..|log| - 1]);
    }
  }

  /** The recipients accumulated are those of the standard if and only if the commands came in the
      standard's sequence. */
  lemma {:induction false} RecipientsAgreeWithRfc(log: seq<Event>)
    ensures Accumulated(log) == RfcRecipients(log) <==> InSequence(log)
    ensures !InSequence(log) ==> |RfcRecipients(log)| < |Accumulated(log)|
  {
    if log != [] {
      var past, e := log[..|log| - 1], log[|log| - 1];
      RecipientsAgreeWithRfc(past);
      RfcKeepsNoMore(past);
      if ClearsRecipients(e) && Accumulated(past) == [] {
        assert RfcRecipients(past) == [];
      }
    }
  }

  /** And the sender is that of the standard if and only if no EHLO should have cleared it. */
  lemma {:induction false} SenderAgreesWithRfc(log: seq<Event>)
    ensures Sender(log) == RfcSender(log) <==> SenderFresh(log)
  {
    if log != [] {
      SenderAgreesWithRfc(log[..|log| - 1]);
    }
  }

  // ---------------------------------------------------------------- sessions of three commands and DATA

  /** The commands are those of the rounds, in order. */
  predicate Sends(turns: seq<Turn>, commands: seq<Command>) {
    |turns| == |commands| && forall i :: 0 <= i < |turns| ==> turns[i].input == Got(commands[i])
  }

  lemma PlainRoundRecorded(given: Setting, start: bytes, turns: seq<Turn>, n: nat, command: Command)
    requires Transcript(given, start, turns) && n < |turns| && turns[n].input == Got(command) && !command.DataBlock?
    ensures Record(turns[..n + 1])
         == Record(turns[..n]) + if EventOf(command).Some? then [EventOf(command).value] else []
  {
    assert RoundAt(given, start, turns, n);
    OneMore(turns, n);
    RecordGrows(start, turns[..n], turns[n]);
  }

  lemma SubmittedTo(given: Setting, start: bytes, turns: seq<Turn>, n: nat)
    requires Transcript(given, start, turns) && n < |turns| && turns[n].input == Got(DataBlock)
    requires turns[n].event.Some? && turns[n].event.value.Submitted?
    ensures turns[n].event.value.message.to == Accumulated(Record(turns[..n]))
  {
    assert RoundAt(given, start, turns, n);
  }

  lemma ThreeRounds(given: Setting, start: bytes, turns: seq<Turn>, commands: seq<Command>,
                    e0: Event, e1: Event, e2: Event)
    requires Transcript(given, start, turns) && |turns| >= 3 && |commands| >= 3
    requires forall i :: 0 <= i < 3 ==> turns[i].input == Got(commands[i]) && !commands[i].DataBlock?
    requires EventOf(commands[0]) == Some(e0) && EventOf(commands[1]) == Some(e1) && EventOf(commands[2]) == Some(e2)
    ensures Record(turns[..3]) == [Greeted] + [e0] + [e1] + [e2]
  {
    PlainRoundRecorded(given, start, turns, 0, commands[0]);
    PlainRoundRecorded(given, start, turns, 1, commands[1]);
    PlainRoundRecorded(given, start, turns, 2, commands[2]);
    assert turns[..0] == [];
  }

  lemma NextOnRecord(log: seq<Event>, e: Event)
    ensures Accumulated(log + [e]) == if EndsEnvelope(e) then [] else
              if e.RecipientAccepted? then Accumulated(log) + [e.recipient] else Accumulated(log)
    ensures RfcSender(log + [e]) == if EndsEnvelope(e) || e.Hello? then None else
              if e.SenderAccepted? then Some(e.sender) else RfcSender(log)
    ensures RfcRecipients(log + [e]) == if EndsEnvelope(e) || ClearsRecipients(e) then [] else
              if e.RecipientAccepted? && RfcSender(log).Some? then RfcRecipients(log) + [e.recipient]
              else RfcRecipients(log)
  {
    assert (log + [e])[..|log|] == log;
  }

  /** What a DATA behind three recorded commands goes out under. */
  lemma SubmittedBehind(given: Setting, start: bytes, turns: seq<Turn>, commands: seq<Command>,
                        e0: Event, e1: Event, e2: Event)
    requires Transcript(given, start, turns) && Sends(turns, commands) && |commands| == 4 && commands[3] == DataBlock
    requires forall i :: 0 <= i < 3 ==> !commands[i].DataBlock?
    requires EventOf(commands[0]) == Some(e0) && EventOf(commands[1]) == Some(e1) && EventOf(commands[2]) == Some(e2)
    requires turns[3].event.Some? && turns[3].event.value.Submitted?
    ensures Record(turns[..3]) == [Greeted] + [e0] + [e1] + [e2]
    ensures turns[3].event.value.message.to == Accumulated([Greeted] + [e0] + [e1] + [e2])
  {
    ThreeRounds(given, start, turns, commands, e0, e1, e2);
    SubmittedTo(given, start, turns, 3);
  }

  lemma RecordWithMail(a: string, sender: string, b: string)
    ensures var log := [Greeted] + [RecipientAccepted(a)] + [SenderAccepted(sender)] + [RecipientAccepted(b)];
            Accumulated(log) == [a, b] && RfcRecipients(log) == [b]
  {
    NextOnRecord([Greeted], RecipientAccepted(a));
    NextOnRecord([Greeted] + [RecipientAccepted(a)], SenderAccepted(sender));
    NextOnRecord([Greeted] + [RecipientAccepted(a)] + [SenderAccepted(sender)], RecipientAccepted(b));
    assert Accumulated([Greeted]) == [];
  }

  lemma RecordWithEhlo(sender: string, a: string)
    ensures var log := [Greeted] + [SenderAccepted(sender)] + [RecipientAccepted(a)] + [Hello];
            Accumulated(log) == [a] && RfcRecipients(log) == [] && RfcSender(log) == None
  {
    NextOnRecord([Greeted], SenderAccepted(sender));
    NextOnRecord([Greeted] + [SenderAccepted(sender)], RecipientAccepted(a));
    NextOnRecord([Greeted] + [SenderAccepted(sender)] + [RecipientAccepted(a)], Hello);
    assert Accumulated([Greeted]) == [];
  }

  /** RCPT, MAIL, RCPT and DATA: the message goes to the recipient from before the MAIL as well. */
  lemma RecipientOutlivesMail(given: Setting, start: bytes, turns: seq<Turn>, a: string, sender: string, b: string)
    requires Transcript(given, start, turns)
    requires Sends(turns, [Rcpt(Some(a)), Mail(Some(sender)), Rcpt(Some(b)), DataBlock])
    requires turns[3].event.Some? && turns[3].event.value.Submitted?
    ensures turns[3].event.value.message.to == [a, b] && RfcRecipients(Record(turns[..3])) == [b]
  {
    SubmittedBehind(given, start, turns, [Rcpt(Some(a)), Mail(Some(sender)), Rcpt(Some(b)), DataBlock],
                    RecipientAccepted(a), SenderAccepted(sender), RecipientAccepted(b));
    RecordWithMail(a, sender, b);
  }

  /** MAIL, RCPT, EHLO and DATA: the message goes out under the envelope from before the EHLO. */
  lemma EnvelopeOutlivesEhlo(given: Setting, start: bytes, turns: seq<Turn>, sender: string, a: string)
    requires Transcript(given, start, turns)
    requires Sends(turns, [Mail(Some(sender)), Rcpt(Some(a)), Ehlo, DataBlock])
    requires turns[3].event.Some? && turns[3].event.value.Submitted?
    ensures turns[3].event.value.message.to == [a]
    ensures RfcRecipients(Record(turns[..3])) == [] && RfcSender(Record(turns[..3])) == None
  {
    SubmittedBehind(given, start, turns, [Mail(Some(sender)), Rcpt(Some(a)), Ehlo, DataBlock],
                    SenderAccepted(sender), RecipientAccepted(a), Hello);
    RecordWithEhlo(sender, a);
  }

  // ---------------------------------------------------------------- such sessions on the wire

  /** Command lines, and an empty message behind the last. */
  function Stream(texts: seq<string>): bytes {
    if texts == [] then [DOT, CR, LF] else LineOf(texts[0]) + Stream(texts[1..])
  }

  predicate ParsesTo(env: Env, text: string, command: Command) {
    Sendable(text) && ParseCommand(env, text) == command
  }

  /** The lines parse to these commands. */
  predicate Parse(env: Env, texts: seq<string>, commands: seq<Command>) {
    |texts| == |commands|
    && forall i {:trigger ParsesTo(env, texts[i], commands[i])} ::
         0 <= i < |texts| ==> ParsesTo(env, texts[i], commands[i])
  }

  lemma PlainCommandRound(given: Setting, start: bytes, turns: seq<Turn>, text: string, command: Command, rest: bytes)
      returns (turn: Turn)
    requires ParsesTo(given.env, text, command) && !command.DataBlock? && !command.Quit?
    requires Transcript(given, start, turns) && !Complete(turns) && Left(start, turns) == LineOf(text) + rest
    ensures turn.input == Got(command)
    ensures Transcript(given, start, turns + [turn]) && !Complete(turns + [turn])
    ensures Left(start, turns + [turn]) == rest
  {
    LineArrives(given.env, text, rest, given.ending);
    PlainRound(given, Record(turns), command, false, rest);
    RoundGrows(given, start, turns, Got(command), false, EventOf(command), rest);
    turn := Turn(Got(command), false, EventOf(command), rest);
  }

  lemma StreamNext(texts: seq<string>, n: nat)
    requires n < |texts|
    ensures Stream(texts[n..]) == LineOf(texts[n]) + Stream(texts[n + 1..])
  {
    assert texts[n..][1..] == texts[n + 1..];
  }

  lemma CommandRound(given: Setting, start: bytes, turns: seq<Turn>, texts: seq<string>, commands: seq<Command>, n: nat)
      returns (next: seq<Turn>)
    requires Parse(given.env, texts, commands) && n < |texts| && !commands[n].DataBlock? && !commands[n].Quit?
    requires Transcript(given, start, turns) && !Complete(turns) && Left(start, turns) == Stream(texts[n..])
    requires |turns| == n && forall i :: 0 <= i < n ==> turns[i].input == Got(commands[i])
    ensures Transcript(given, start, next) && !Complete(next) && Left(start, next) == Stream(texts[n + 1..])
    ensures |next| == n + 1 && forall i :: 0 <= i <= n ==> next[i].input == Got(commands[i])
  {
    assert ParsesTo(given.env, texts[n], commands[n]);
    StreamNext(texts, n);
    var turn := PlainCommandRound(given, start, turns, texts[n], commands[n], Stream(texts[n + 1..]));
    next := turns + [turn];
  }

  lemma EmptyMessageRound(given: Setting, start: bytes, turns: seq<Turn>, text: string, stored: bool)
      returns (next: seq<Turn>)
    requires Sendable(text) && ParseCommand(given.env, text) == DataBlock
    requires Transcript(given, start, turns) && !Complete(turns) && Left(start, turns) == LineOf(text) + [DOT, CR, LF]
    requires Sender(Record(turns)).Some? && Accumulated(Record(turns)) != []
    ensures Transcript(given, start, next) && |next| == |turns| + 1 && next[..|turns|] == turns
    ensures next[|turns|].input == Got(DataBlock)
    ensures next[|turns|].event.Some? && next[|turns|].event.value.Submitted?
    ensures next[|turns|].event.value.stored == stored
  {
    var past, end := Record(turns), [DOT, CR, LF];
    LineArrives(given.env, text, end, given.ending);
    DotStuffingRoundTrip([], [], given.ending, given.maxSize);
    assert Stuff([]) + (end + []) == end;
    var event := Submitted(MessageOf(given.env, Sender(past), Accumulated(past), []), stored);
    RoundGrows(given, start, turns, Got(DataBlock), stored, Some(event), []);
    next := turns + [Turn(Got(DataBlock), stored, Some(event), [])];
  }

  lemma ThreeCommands(given: Setting, texts: seq<string>, commands: seq<Command>) returns (turns: seq<Turn>)
    requires Parse(given.env, texts, commands) && |texts| == 4
    requires forall i :: 0 <= i < 3 ==> !commands[i].DataBlock? && !commands[i].Quit?
    ensures Transcript(given, Stream(texts), turns) && !Complete(turns) && |turns| == 3
    ensures Left(Stream(texts), turns) == LineOf(texts[3]) + [DOT, CR, LF]
    ensures forall i :: 0 <= i < 3 ==> turns[i].input == Got(commands[i])
  {
    var start := Stream(texts);
    assert texts[0..] == texts && texts[3..] == [texts[3]] && [texts[3]][1..] == [];
    turns := [];
    turns := CommandRound(given, start, turns, texts, commands, 0);
    turns := CommandRound(given, start, turns, texts, commands, 1);
    turns := CommandRound(given, start, turns, texts, commands, 2);
  }

  /** Upper-casing leaves capitals, blanks and the colon alone. */
  ghost predicate KeepsCapitals(env: Env) {
    forall w :: w in ["RCPT", "TO", "MAIL", "FROM", "DATA", "EHLO", " ", "", ":"] ==> Upper(env, w) == w
  }

  predicate Mailbox(env: Env, addr: string) {
    addr != "" && '>' !in addr && '\n' !in addr && Entities.ByteLen(addr) <= 4000 && env.valid(addr)
  }

  function CommandText(keyword: string, argument: string, addr: string): string {
    (keyword + " " + argument + "") + (":" + ("" + (("<" + addr + ">") + "")))
  }

  lemma FourLengths(a: string, b: string, c: string, d: string)
    ensures Entities.ByteLen(a + b + c + d)
         == Entities.ByteLen(a) + Entities.ByteLen(b) + Entities.ByteLen(c) + Entities.ByteLen(d)
  {
    Entities.ByteLenAppend(a + b + c, d);
    Entities.ByteLenAppend(a + b, c);
    Entities.ByteLenAppend(a, b);
  }

  lemma TextShape(keyword: string, argument: string, addr: string)
    ensures CommandText(keyword, argument, addr) == (keyword + " " + argument + ":<") + addr + ">" + ""
  {
  }

  lemma FourWithout(a: string, b: string, c: string, d: string)
    requires '\n' !in a && '\n' !in b && '\n' !in c && '\n' !in d
    ensures '\n' !in a + b + c + d
  {
  }

  lemma TextSendable(keyword: string, argument: string, addr: string)
    requires Entities.ByteLen(keyword) <= 10 && Entities.ByteLen(argument) <= 10 && Entities.ByteLen(addr) <= 4000
    requires '\n' !in keyword && '\n' !in argument && '\n' !in addr
    ensures Sendable(CommandText(keyword, argument, addr))
  {
    TextShape(keyword, argument, addr);
    FourLengths(keyword, " ", argument, ":<");
    FourLengths(keyword + " " + argument + ":<", addr, ">", "");
    FourWithout(keyword, " ", argument, ":<");
    FourWithout(keyword + " " + argument + ":<", addr, ">", "");
    Entities.AsciiBytes(" ");
    Entities.AsciiBytes(":<");
    Entities.AsciiBytes(">");
    assert (keyword + " " + argument + ":<") + addr + ">" + "" == (keyword + " " + argument + ":<") + addr + ">";
  }

  lemma ParseOne(env: Env, text: string, command: Command)
    requires ParsesTo(env, text, command)
    ensures Parse(env, [text], [command])
  {
  }

  lemma CapitalsHead(env: Env, keyword: string, argument: string)
    requires Upper(env, " ") == " " && Upper(env, "") == "" && Upper(env, ":") == ":"
    requires ':' !in keyword && ':' !in argument
    ensures Headed(env, keyword, " ", argument, "")
  {
  }

  lemma Capitals(env: Env, w: string)
    requires KeepsCapitals(env) && w in ["RCPT", "TO", "MAIL", "FROM", "DATA", "EHLO", " ", "", ":"]
    ensures Upper(env, w) == w
  {
  }

  lemma RcptText(env: Env, addr: string)
    requires KeepsCapitals(env) && Mailbox(env, addr)
    ensures Parse(env, [CommandText("RCPT", "TO", addr)], [Rcpt(Some(addr))])
  {
    Entities.AsciiBytes("RCPT");
    Entities.AsciiBytes("TO");
    TextSendable("RCPT", "TO", addr);
    Capitals(env, "RCPT");
    Capitals(env, "TO");
    Capitals(env, " ");
    Capitals(env, "");
    Capitals(env, ":");
    CapitalsHead(env, "RCPT", "TO");
    RcptCommand(env, "RCPT", " ", "TO", "", "", addr, "");
    ParseOne(env, CommandText("RCPT", "TO", addr), Rcpt(Some(addr)));
  }

  lemma MailText(env: Env, addr: string)
    requires KeepsCapitals(env) && Mailbox(env, addr)
    ensures Parse(env, [CommandText("MAIL", "FROM", addr)], [Mail(Some(addr))])
  {
    Entities.AsciiBytes("MAIL");
    Entities.AsciiBytes("FROM");
    TextSendable("MAIL", "FROM", addr);
    Capitals(env, "MAIL");
    Capitals(env, "FROM");
    Capitals(env, " ");
    Capitals(env, "");
    Capitals(env, ":");
    CapitalsHead(env, "MAIL", "FROM");
    MailCommand(env, "MAIL", " ", "FROM", "", "", addr, "");
    ParseOne(env, CommandText("MAIL", "FROM", addr), Mail(Some(addr)));
  }

  lemma DataText(env: Env)
    requires KeepsCapitals(env)
    ensures Parse(env, ["DATA"], [DataBlock])
  {
    BareWord(env, "DATA");
    CommandByWord(env, "DATA");
  }

  lemma EhloText(env: Env)
    requires KeepsCapitals(env)
    ensures Parse(env, ["EHLO"], [Ehlo])
  {
    BareWord(env, "EHLO");
    CommandByWord(env, "EHLO");
  }

  lemma EnvelopeOf(log: seq<Event>, e: Event)
    ensures !EndsEnvelope(e) ==> Sender(log + [e]) == if e.SenderAccepted? then Some(e.sender) else Sender(log)
    ensures !EndsEnvelope(e) ==>
              Accumulated(log + [e]) == Accumulated(log) + if e.RecipientAccepted? then [e.recipient] else []
  {
    assert (log + [e])[..|log|] == log;
  }

  /** Three commands that leave an envelope, and DATA, as a session on the wire. */
  lemma SessionOf(given: Setting, texts: seq<string>, commands: seq<Command>, e0: Event, e1: Event, e2: Event,
                  stored: bool) returns (turns: seq<Turn>)
    requires Parse(given.env, texts, commands) && |texts| == 4 && commands[3] == DataBlock
    requires forall i :: 0 <= i < 3 ==> !commands[i].DataBlock? && !commands[i].Quit?
    requires EventOf(commands[0]) == Some(e0) && EventOf(commands[1]) == Some(e1) && EventOf(commands[2]) == Some(e2)
    requires var log := [Greeted] + [e0] + [e1] + [e2]; Sender(log).Some? && Accumulated(log) != []
    ensures Transcript(given, Stream(texts), turns) && Sends(turns, commands)
    ensures turns[3].event.Some? && turns[3].event.value.Submitted? && turns[3].event.value.stored == stored
  {
    var three := ThreeCommands(given, texts, commands);
    ThreeRounds(given, Stream(texts), three, commands, e0, e1, e2);
    assert three[..3] == three;
    assert ParsesTo(given.env, texts[3], commands[3]);
    turns := EmptyMessageRound(given, Stream(texts), three, texts[3], stored);
    assert forall i :: 0 <= i < 3 ==> turns[i] == turns[..3][i];
  }

  lemma MailLog(a: string, sender: string, b: string)
    ensures var log := [Greeted] + [RecipientAccepted(a)] + [SenderAccepted(sender)] + [RecipientAccepted(b)];
            Sender(log).Some? && Accumulated(log) != []
  {
    var log := [Greeted] + [RecipientAccepted(a)];
    EnvelopeOf(log + [SenderAccepted(sender)], RecipientAccepted(b));
    EnvelopeOf(log, SenderAccepted(sender));
  }

  lemma EhloLog(sender: string, a: string)
    ensures var log := [Greeted] + [SenderAccepted(sender)] + [RecipientAccepted(a)] + [Hello];
            Sender(log).Some? && Accumulated(log) != []
  {
    var log := [Greeted] + [SenderAccepted(sender)];
    EnvelopeOf([Greeted], SenderAccepted(sender));
    EnvelopeOf(log, RecipientAccepted(a));
    EnvelopeOf(log + [RecipientAccepted(a)], Hello);
  }

  lemma OutlivesMail(given: Setting, texts: seq<string>, commands: seq<Command>, a: string, sender: string, b: string,
                     stored: bool) returns (turns: seq<Turn>)
    requires Parse(given.env, texts, commands)
    requires commands == [Rcpt(Some(a)), Mail(Some(sender)), Rcpt(Some(b)), DataBlock]
    ensures Transcript(given, Stream(texts), turns) && Sends(turns, commands)
    ensures turns[3].event.Some? && turns[3].event.value.Submitted? && turns[3].event.value.stored == stored
  {
    MailLog(a, sender, b);
    turns := SessionOf(given, texts, commands, RecipientAccepted(a), SenderAccepted(sender), RecipientAccepted(b),
                       stored);
  }

  lemma OutlivesEhlo(given: Setting, texts: seq<string>, commands: seq<Command>, sender: string, a: string,
                     stored: bool) returns (turns: seq<Turn>)
    requires Parse(given.env, texts, commands)
    requires commands == [Mail(Some(sender)), Rcpt(Some(a)), Ehlo, DataBlock]
    ensures Transcript(given, Stream(texts), turns) && Sends(turns, commands)
    ensures turns[3].event.Some? && turns[3].event.value.Submitted? && turns[3].event.value.stored == stored
  {
    EhloLog(sender, a);
    turns := SessionOf(given, texts, commands, SenderAccepted(sender), RecipientAccepted(a), Hello, stored);
  }

  lemma ParseAppend(env: Env, a: seq<string>, b: seq<string>, c: seq<Command>, d: seq<Command>)
    requires Parse(env, a, c) && Parse(env, b, d)
    ensures Parse(env, a + b, c + d)
  {
    forall i | 0 <= i < |a + b|
      ensures ParsesTo(env, (a + b)[i], (c + d)[i])
    {
      if i < |a| {
        assert ParsesTo(env, a[i], c[i]);
      } else {
        assert ParsesTo(env, b[i - |a|], d[i - |a|]);
      }
    }
  }

  lemma ParseFour(env: Env, t: seq<string>, c: seq<Command>)
    requires |t| == |c| == 4
    requires Parse(env, [t[0]], [c[0]]) && Parse(env, [t[1]], [c[1]])
    requires Parse(env, [t[2]], [c[2]]) && Parse(env, [t[3]], [c[3]])
    ensures Parse(env, t, c)
  {
    ParseAppend(env, [t[0]], [t[1]], [c[0]], [c[1]]);
    ParseAppend(env, [t[2]], [t[3]], [c[2]], [c[3]]);
    ParseAppend(env, [t[0]] + [t[1]], [t[2]] + [t[3]], [c[0]] + [c[1]], [c[2]] + [c[3]]);
    assert t == [t[0]] + [t[1]] + ([t[2]] + [t[3]]) && c == [c[0]] + [c[1]] + ([c[2]] + [c[3]]);
  }

  /** The bytes that show it for MAIL: any three mailboxes will do. */
  lemma RecipientOutlivesMailInput(given: Setting, a: string, sender: string, b: string, stored: bool,
                                   rcptA: string, mail: string, rcptB: string) returns (turns: seq<Turn>)
    requires KeepsCapitals(given.env)
    requires Mailbox(given.env, a) && Mailbox(given.env, sender) && Mailbox(given.env, b)
    requires rcptA == CommandText("RCPT", "TO", a) && rcptB == CommandText("RCPT", "TO", b)
    requires mail == CommandText("MAIL", "FROM", sender)
    ensures Transcript(given, Stream([rcptA, mail, rcptB, "DATA"]), turns) && |turns| == 4
    ensures turns[3].event.Some? && turns[3].event.value.Submitted? && turns[3].event.value.stored == stored
    ensures turns[3].event.value.message.to == [a, b] && RfcRecipients(Record(turns[..3])) == [b]
  {
    RcptText(given.env, a);
    MailText(given.env, sender);
    RcptText(given.env, b);
    DataText(given.env);
    ParseFour(given.env, [rcptA, mail, rcptB, "DATA"], [Rcpt(Some(a)), Mail(Some(sender)), Rcpt(Some(b)), DataBlock]);
    turns := OutlivesMail(given, [rcptA, mail, rcptB, "DATA"],
                          [Rcpt(Some(a)), Mail(Some(sender)), Rcpt(Some(b)), DataBlock], a, sender, b, stored);
    RecipientOutlivesMail(given, Stream([rcptA, mail, rcptB, "DATA"]), turns, a, sender, b);
  }

  /** And for EHLO. */
  lemma EnvelopeOutlivesEhloInput(given: Setting, sender: string, a: string, stored: bool,
                                  mail: string, rcpt: string) returns (turns: seq<Turn>)
    requires KeepsCapitals(given.env) && Mailbox(given.env, sender) && Mailbox(given.env, a)
    requires mail == CommandText("MAIL", "FROM", sender) && rcpt == CommandText("RCPT", "TO", a)
    ensures Transcript(given, Stream([mail, rcpt, "EHLO", "DATA"]), turns) && |turns| == 4
    ensures turns[3].event.Some? && turns[3].event.value.Submitted? && turns[3].event.value.stored == stored
    ensures turns[3].event.value.message.to == [a] && RfcRecipients(Record(turns[..3])) == []
  {
    MailText(given.env, sender);
    RcptText(given.env, a);
    EhloText(given.env);
    DataText(given.env);
    ParseFour(given.env, [mail, rcpt, "EHLO", "DATA"], [Mail(Some(sender)), Rcpt(Some(a)), Ehlo, DataBlock]);
    turns := OutlivesEhlo(given, [mail, rcpt, "EHLO", "DATA"],
                          [Mail(Some(sender)), Rcpt(Some(a)), Ehlo, DataBlock], sender, a, stored);
    EnvelopeOutlivesEhlo(given, Stream([mail, rcpt, "EHLO", "DATA"]), turns, sender, a);
  }
}
