/** The SMTP command loop: commands, the envelope they accumulate, and what is submitted. */
module Session {
  import opened Results
  import opened Text
  import opened Recipients
  import opened Outbox
  import opened DataLines
  import Mime
  import Parser

  /** What this model leaves open: upper-casing of one character, address validation, decoding a
      DATA block (`String::from_utf8_lossy`), and parsing it as MIME. */
  datatype Env = Env(upper: char -> string, valid: string -> bool, lossy: bytes -> string,
                     mime: string -> Option<Mime.Parsed>)

  const MAX_COMMAND_LINE_BYTES := 4096

  // ---------------------------------------------------------------- commands

  function Upper(env: Env, s: string): string {
    if s == [] then [] else env.upper(s[0]) + Upper(env, s[1..])
  }

  /** What follows `prefix`, without leading whitespace. */
  function AfterKeyword(s: string, prefix: string): Option<string> {
    if prefix <= s then Some(TrimStart(s[|prefix|..])) else None
  }

  function AddressAfterColon(line: string): Option<string> {
    var colon := IndexOf(line, ':');
    if colon == |line| then None
    else
      var rest := Trim(line[colon + 1..]);
      if rest != [] && rest[0] == '<' then
        var path := rest[1..];
        var end := IndexOf(path, '>');
        if end == |path| then None else Some(path[..end])
      else if Words(rest) == [] then None
      else Some(Words(rest)[0])
  }

  /** `keyword` [whitespace] `argument` [whitespace] `:` at the start of the upper-cased line. */
  predicate HasSyntax(env: Env, line: string, keyword: string, argument: string) {
    var first := AfterKeyword(Upper(env, line), keyword);
    first.Some? &&
    var second := AfterKeyword(first.value, argument);
    second.Some? && ":" <= second.value
  }

  function ParseMailFrom(env: Env, line: string): Option<string> {
    if !HasSyntax(env, line, "MAIL", "FROM") then None
    else
      var addr := AddressAfterColon(line);
      if addr.None? || (addr.value != "" && !env.valid(addr.value)) then None else addr
  }

  function ParseRcptTo(env: Env, line: string): Option<string> {
    if !HasSyntax(env, line, "RCPT", "TO") then None
    else
      var addr := AddressAfterColon(line);
      if addr.None? || addr.value == "" || !env.valid(addr.value) then None else addr
  }

  /** The address is cut out of the line, so a line without newlines gives one without. */
  lemma AddressHasNoNewline(line: string)
    requires AddressAfterColon(line).Some? && '\n' !in line
    ensures '\n' !in AddressAfterColon(line).value
  {
    var after := line[IndexOf(line, ':') + 1..];
    assert '\n' !in after;
    TrimStartKeepsOut(after, '\n');
    var rest := Trim(after);
    assert '\n' !in rest;
    if rest != [] && rest[0] == '<' {
      var path := rest[1..];
      assert '\n' !in path;
      assert '\n' !in path[..IndexOf(path, '>')];
    } else {
      WordsKeepOut(rest, '\n');
    }
  }

  datatype Command =
    | Blank
    | Quit
    | Helo
    | Ehlo
    | Rset
    | Noop
    | Mail(sender: Option<string>)
    | Rcpt(recipient: Option<string>)
    | DataBlock
    | Unknown

  function NamedCommand(env: Env, line: string, cmd: string): Command {
    if cmd == "QUIT" then Quit
    else if cmd == "HELO" then Helo
    else if cmd == "EHLO" then Ehlo
    else if cmd == "RSET" then Rset
    else if cmd == "NOOP" then Noop
    else if cmd == "MAIL" then Mail(ParseMailFrom(env, line))
    else if cmd == "RCPT" then Rcpt(ParseRcptTo(env, line))
    else if cmd == "DATA" then DataBlock
    else Unknown
  }

  /** The word a line is known by: the first of its upper-cased text. */
  function Keyword(env: Env, line: string): string {
    var words := Words(Upper(env, line));
    if words == [] then "" else words[0]
  }

  function ParseCommand(env: Env, line: string): Command {
    if line == "" then Blank else NamedCommand(env, line, Keyword(env, line))
  }

  /** Which word means which command: each of the eight that one alone, any other none. */
  lemma CommandByWord(env: Env, line: string)
    requires line != ""
    ensures ParseCommand(env, line) == Quit <==> Keyword(env, line) == "QUIT"
    ensures ParseCommand(env, line) == Helo <==> Keyword(env, line) == "HELO"
    ensures ParseCommand(env, line) == Ehlo <==> Keyword(env, line) == "EHLO"
    ensures ParseCommand(env, line) == Rset <==> Keyword(env, line) == "RSET"
    ensures ParseCommand(env, line) == Noop <==> Keyword(env, line) == "NOOP"
    ensures ParseCommand(env, line) == DataBlock <==> Keyword(env, line) == "DATA"
    ensures ParseCommand(env, line).Mail? <==> Keyword(env, line) == "MAIL"
    ensures ParseCommand(env, line).Rcpt? <==> Keyword(env, line) == "RCPT"
    ensures ParseCommand(env, line) == Unknown <==>
              Keyword(env, line) !in ["QUIT", "HELO", "EHLO", "RSET", "NOOP", "MAIL", "RCPT", "DATA"]
  {
  }

  // ---------------------------------------------------------------- commands as clients write them

  lemma TrimAround(blanks: string, a: string, b: string)
    requires AllWhite(blanks) && a != "" && !IsWhite(a[0]) && !IsWhite(a[|a| - 1])
    ensures Trim(blanks + (a + b)) == a + TrimEnd(b)
  {
    TrimStartBlanks(blanks, a + b);
    assert (a + b)[0] == a[0] && TrimStart(a + b) == a + b;
    TrimEndAppend(a, b);
  }

  lemma BehindColon(before: string, rest: string)
    requires ':' !in before
    ensures IndexOf(before + (":" + rest), ':') == |before| && (before + (":" + rest))[|before| + 1..] == rest
  {
    assert before + (":" + rest) == before + [':'] + rest;
    IndexOfAfter(before, ':', rest);
  }

  lemma InBrackets(addr: string, end: string)
    requires '>' !in addr
    ensures var rest := "<" + addr + ">" + end;
            rest[0] == '<' && IndexOf(rest[1..], '>') == |addr| && rest[1..][..|addr|] == addr
  {
    assert ("<" + addr + ">" + end)[1..] == addr + ['>'] + end;
    IndexOfAfter(addr, '>', end);
  }

  /** The address between angle brackets, whatever parameters follow. */
  lemma AddressInBrackets(before: string, blanks: string, addr: string, params: string)
    requires ':' !in before && AllWhite(blanks) && '>' !in addr
    ensures AddressAfterColon(before + (":" + (blanks + (("<" + addr + ">") + params)))) == Some(addr)
  {
    var path := "<" + addr + ">";
    BehindColon(before, blanks + (path + params));
    TrimAround(blanks, path, params);
    InBrackets(addr, TrimEnd(params));
  }

  /** A bare address: the first word behind the colon. */
  lemma AddressBare(before: string, blanks: string, addr: string, behind: string)
    requires ':' !in before && AllWhite(blanks) && addr != "" && NoWhite(addr) && addr[0] != '<'
    requires behind == "" || IsWhite(behind[0])
    ensures AddressAfterColon(before + (":" + (blanks + (addr + behind)))) == Some(addr)
  {
    BehindColon(before, blanks + (addr + behind));
    TrimAround(blanks, addr, behind);
    FirstWord(addr, TrimEnd(behind));
  }

  lemma {:induction false} WordEndsThere(word: string, behind: string)
    requires NoWhite(word) && (behind == "" || IsWhite(behind[0]))
    ensures WordEnd(word + behind) == |word|
  {
    if word == "" {
      assert word + behind == behind;
    } else {
      assert (word + behind)[0] == word[0] && (word + behind)[1..] == word[1..] + behind;
      WordEndsThere(word[1..], behind);
    }
  }

  lemma FirstWord(word: string, behind: string)
    requires word != "" && NoWhite(word) && (behind == "" || IsWhite(behind[0]))
    ensures Words(word + behind) != [] && Words(word + behind)[0] == word
  {
    WordEndsThere(word, behind);
    assert (word + behind)[..|word|] == word && (word + behind)[0] == word[0];
  }

  lemma {:induction false} UpperAppend(env: Env, a: string, b: string)
    ensures Upper(env, a + b) == Upper(env, a) + Upper(env, b)
  {
    if a == "" {
      assert a + b == b;
    } else {
      assert (a + b)[0] == a[0] && (a + b)[1..] == a[1..] + b;
      UpperAppend(env, a[1..], b);
      Assoc(env.upper(a[0]), Upper(env, a[1..]), Upper(env, b));
    }
  }

  /** A line is known by its first word, upper-cased, whatever stands behind it. */
  lemma KeywordIsFirst(env: Env, blanks: string, word: string, behind: string)
    requires AllWhite(blanks) && Upper(env, blanks) == blanks
    requires Upper(env, word) != "" && NoWhite(Upper(env, word))
    requires behind == "" || (IsWhite(behind[0]) && env.upper(behind[0]) == [behind[0]])
    ensures Keyword(env, blanks + (word + behind)) == Upper(env, word)
  {
    UpperAppend(env, blanks, word + behind);
    UpperAppend(env, word, behind);
    WordsSkip(blanks, Upper(env, word) + Upper(env, behind));
    FirstWord(Upper(env, word), Upper(env, behind));
  }

  lemma {:induction false} WordsSkip(blanks: string, s: string)
    requires AllWhite(blanks)
    ensures Words(blanks + s) == Words(s)
  {
    if blanks == "" {
      assert blanks + s == s;
    } else {
      assert (blanks + s)[0] == blanks[0] && (blanks + s)[1..] == blanks[1..] + s;
      WordsSkip(blanks[1..], s);
    }
  }

  /** A keyword, blanks, an argument and blanks up to the colon, in whatever letters upper-case
      to them; blanks and the colon are their own upper case. */
  ghost predicate Headed(env: Env, keyword: string, gap: string, argument: string, blanks: string) {
    && gap != "" && AllWhite(gap) && AllWhite(blanks)
    && Upper(env, gap) == gap && Upper(env, blanks) == blanks && Upper(env, ":") == ":"
    && ':' !in keyword + gap + argument + blanks
  }

  lemma AfterPrefix(prefix: string, blanks: string, tail: string)
    requires AllWhite(blanks) && tail != "" && !IsWhite(tail[0])
    ensures AfterKeyword(prefix + (blanks + tail), prefix) == Some(tail)
  {
    assert (prefix + (blanks + tail))[|prefix|..] == blanks + tail;
    TrimStartBlanks(blanks, tail);
  }

  lemma UpperHead(env: Env, keyword: string, gap: string, argument: string, blanks: string, rest: string)
    requires Headed(env, keyword, gap, argument, blanks)
    ensures Upper(env, (keyword + gap + argument + blanks) + (":" + rest))
         == Upper(env, keyword) + (gap + (Upper(env, argument) + (blanks + (":" + Upper(env, rest)))))
  {
    var head := keyword + gap + argument + blanks;
    UpperAppend(env, head, ":" + rest);
    UpperAppend(env, ":", rest);
    UpperAppend(env, keyword + gap + argument, blanks);
    UpperAppend(env, keyword + gap, argument);
    UpperAppend(env, keyword, gap);
    var k, a, r := Upper(env, keyword), Upper(env, argument), ":" + Upper(env, rest);
    Assoc(k + gap + a, blanks, r);
    Assoc(k + gap, a, blanks + r);
    Assoc(k, gap, a + (blanks + r));
  }

  lemma CommandHead(env: Env, keyword: string, gap: string, argument: string, blanks: string, rest: string)
    requires Headed(env, keyword, gap, argument, blanks)
    requires Upper(env, keyword) != "" && NoWhite(Upper(env, keyword))
    requires Upper(env, argument) != "" && !IsWhite(Upper(env, argument)[0])
    ensures
      var line := (keyword + gap + argument + blanks) + (":" + rest);
      && line != "" && HasSyntax(env, line, Upper(env, keyword), Upper(env, argument))
      && Words(Upper(env, line)) != [] && Words(Upper(env, line))[0] == Upper(env, keyword)
  {
    var k, a, r := Upper(env, keyword), Upper(env, argument), ":" + Upper(env, rest);
    UpperHead(env, keyword, gap, argument, blanks, rest);
    assert (gap + (a + (blanks + r)))[0] == gap[0];
    FirstWord(k, gap + (a + (blanks + r)));
    AfterPrefix(k, gap, a + (blanks + r));
    AfterPrefix(a, blanks, r);
  }

  /** No address: nothing behind the colon, or a bracket that is not closed. */
  lemma NoAddress(before: string, blanks: string, path: string)
    requires ':' !in before && AllWhite(blanks) && '>' !in path
    ensures AddressAfterColon(before + (":" + blanks)) == None
    ensures AddressAfterColon(before + (":" + (blanks + ("<" + path)))) == None
  {
    BehindColon(before, blanks);
    TrimStartBlanks(blanks, "");
    assert blanks + "" == blanks;
    BehindColon(before, blanks + ("<" + path));
    TrimAround(blanks, "<", path);
    assert ("<" + TrimEnd(path))[1..] == TrimEnd(path);
  }

  /** A MAIL or RCPT whose next word is not the one expected is not accepted. */
  lemma WrongArgument(env: Env, keyword: string, gap: string, behind: string)
    requires AllWhite(gap) && Upper(env, gap) == gap
    requires Upper(env, behind) != "" && !IsWhite(Upper(env, behind)[0])
    ensures Upper(env, keyword) == "MAIL" && !("FROM" <= Upper(env, behind)) ==>
              ParseMailFrom(env, keyword + (gap + behind)) == None
    ensures Upper(env, keyword) == "RCPT" && !("TO" <= Upper(env, behind)) ==>
              ParseRcptTo(env, keyword + (gap + behind)) == None
  {
    UpperAppend(env, keyword, gap + behind);
    UpperAppend(env, gap, behind);
    AfterPrefix(Upper(env, keyword), gap, Upper(env, behind));
  }

  /** MAIL with an address in brackets, in any case and spacing, with any parameters: accepted
      exactly when the address is empty or valid, and then as written. */
  lemma MailCommand(env: Env, keyword: string, gap: string, argument: string, blanks: string,
                    more: string, addr: string, params: string)
    requires Headed(env, keyword, gap, argument, blanks) && AllWhite(more) && '>' !in addr
    requires Upper(env, keyword) == "MAIL" && Upper(env, argument) == "FROM"
    ensures ParseCommand(env, (keyword + gap + argument + blanks) + (":" + (more + (("<" + addr + ">") + params))))
         == Mail(if addr == "" || env.valid(addr) then Some(addr) else None)
  {
    CommandHead(env, keyword, gap, argument, blanks, more + (("<" + addr + ">") + params));
    AddressInBrackets(keyword + gap + argument + blanks, more, addr, params);
  }

  /** RCPT likewise, but never an empty address. */
  lemma RcptCommand(env: Env, keyword: string, gap: string, argument: string, blanks: string,
                    more: string, addr: string, params: string)
    requires Headed(env, keyword, gap, argument, blanks) && AllWhite(more) && '>' !in addr
    requires Upper(env, keyword) == "RCPT" && Upper(env, argument) == "TO"
    ensures ParseCommand(env, (keyword + gap + argument + blanks) + (":" + (more + (("<" + addr + ">") + params))))
         == Rcpt(if addr != "" && env.valid(addr) then Some(addr) else None)
  {
    CommandHead(env, keyword, gap, argument, blanks, more + (("<" + addr + ">") + params));
    AddressInBrackets(keyword + gap + argument + blanks, more, addr, params);
  }

  /** MAIL with a bare address: accepted exactly when it is valid. */
  lemma MailCommandBare(env: Env, keyword: string, gap: string, argument: string, blanks: string,
                        more: string, addr: string, behind: string)
    requires Headed(env, keyword, gap, argument, blanks) && AllWhite(more)
    requires addr != "" && NoWhite(addr) && addr[0] != '<' && (behind == "" || IsWhite(behind[0]))
    requires Upper(env, keyword) == "MAIL" && Upper(env, argument) == "FROM"
    ensures ParseCommand(env, (keyword + gap + argument + blanks) + (":" + (more + (addr + behind))))
         == Mail(if env.valid(addr) then Some(addr) else None)
  {
    CommandHead(env, keyword, gap, argument, blanks, more + (addr + behind));
    AddressBare(keyword + gap + argument + blanks, more, addr, behind);
  }

  lemma RcptCommandBare(env: Env, keyword: string, gap: string, argument: string, blanks: string,
                        more: string, addr: string, behind: string)
    requires Headed(env, keyword, gap, argument, blanks) && AllWhite(more)
    requires addr != "" && NoWhite(addr) && addr[0] != '<' && (behind == "" || IsWhite(behind[0]))
    requires Upper(env, keyword) == "RCPT" && Upper(env, argument) == "TO"
    ensures ParseCommand(env, (keyword + gap + argument + blanks) + (":" + (more + (addr + behind))))
         == Rcpt(if env.valid(addr) then Some(addr) else None)
  {
    CommandHead(env, keyword, gap, argument, blanks, more + (addr + behind));
    AddressBare(keyword + gap + argument + blanks, more, addr, behind);
  }

  /** `trim_end_matches(['\r', '\n'])`. */
  function TrimNewlines(s: string): (r: string)
    ensures r <= s && (r == [] || (r[|r| - 1] != '\r' && r[|r| - 1] != '\n'))
  {
    if s != [] && (s[|s| - 1] == '\r' || s[|s| - 1] == '\n') then TrimNewlines(s[..|s| - 1]) else s
  }

  lemma TrimmedLine(s: string)
    requires forall k :: 0 <= k < |s| - 1 ==> s[k] != '\n'
    ensures '\n' !in TrimNewlines(s)
  {
    var r := TrimNewlines(s);
    forall k | 0 <= k < |r|
      ensures r[k] != '\n'
    {
      assert r[k] == s[k];
    }
  }

  // ---------------------------------------------------------------- the record of a session

  datatype Event =
    | Greeted
    | Hello
    | SenderAccepted(sender: string)
    | RecipientAccepted(recipient: string)
    | EnvelopeReset
    | OversizeRefused
    | Submitted(message: Message, stored: bool)
    | Answered(code: nat)
    | DataAborted

  /** The reply codes an event puts on the wire. */
  function Codes(e: Event): seq<nat> {
    match e
    case Greeted => [220]
    case Hello => [250]
    case SenderAccepted(_) => [250]
    case RecipientAccepted(_) => [250]
    case EnvelopeReset => [250]
    case OversizeRefused => [354, 552]
    case Submitted(_, stored) => [354, if stored then 250 else 451]
    case Answered(code) => [code]
    case DataAborted => [354]
  }

  function AllCodes(log: seq<Event>): seq<nat> {
    if log == [] then [] else AllCodes(log[..|log| - 1]) + Codes(log[|log| - 1])
  }

  lemma CodesAppend(log: seq<Event>, e: Event)
    ensures AllCodes(log + [e]) == AllCodes(log) + Codes(e)
  {
    assert (log + [e])[..|log|] == log;
  }

  /** RSET, a refused oversize message and a finished DATA end an envelope; nothing else does. */
  predicate EndsEnvelope(e: Event) {
    e.EnvelopeReset? || e.OversizeRefused? || e.Submitted?
  }

  /** The sender and recipients accumulated by the time of a record. */
  function Sender(log: seq<Event>): Option<string> {
    if log == [] then None
    else
      var past, e := log[..|log| - 1], log[|log| - 1];
      if EndsEnvelope(e) then None
      else if e.SenderAccepted? then Some(e.sender)
      else Sender(past)
  }

  function Accumulated(log: seq<Event>): seq<string> {
    if log == [] then []
    else
      var past, e := log[..|log| - 1], log[|log| - 1];
      if EndsEnvelope(e) then []
      else if e.RecipientAccepted? then Accumulated(past) + [e.recipient]
      else Accumulated(past)
  }

  /** Every recipient on a record, in order. */
  function AllRecipients(log: seq<Event>): seq<string> {
    if log == [] then []
    else
      var e := log[|log| - 1];
      AllRecipients(log[..|log| - 1]) + if e.RecipientAccepted? then [e.recipient] else []
  }

  /** Since position `r`, where the last envelope ended, these recipients were accepted, in
      this order, and `from` is the sender accepted last, if any. */
  ghost predicate EnvelopeSince(log: seq<Event>, r: nat, from: Option<string>, to: seq<string>)
    requires r <= |log|
  {
    && (r == 0 || EndsEnvelope(log[r - 1]))
    && (forall i :: r <= i < |log| ==> !EndsEnvelope(log[i]))
    && to == AllRecipients(log[r..])
    && LastSender(log, r, from)
  }

  ghost predicate Envelope(log: seq<Event>, from: Option<string>, to: seq<string>) {
    exists r :: 0 <= r <= |log| && EnvelopeSince(log, r, from, to)
  }

  /** Addresses as they reach the store. */
  predicate GoodEvent(env: Env, e: Event) {
    match e
    case SenderAccepted(a) => '\n' !in a && (a != "" ==> env.valid(a))
    case RecipientAccepted(a) => a != "" && '\n' !in a && env.valid(a)
    case _ => true
  }

  /** The message made of an envelope and a DATA block. */
  function MessageOf(env: Env, from: Option<string>, to: seq<string>, data: bytes): Message {
    var text := env.lossy(data);
    Parser.MessageOf(from, to, text, env.mime(text))
  }

  ghost predicate AllGood(env: Env, log: seq<Event>) {
    log == [] || (AllGood(env, log[..|log| - 1]) && GoodEvent(env, log[|log| - 1]))
  }

  ghost predicate SubmissionOk(past: seq<Event>, m: Message) {
    Sender(past).Some? && Accumulated(past) != []
    && m.from == Parser.Normalised(Sender(past)) && m.to == Accumulated(past)
  }

  ghost predicate Faithful(log: seq<Event>) {
    log == []
    || (Faithful(log[..|log| - 1])
        && (log[|log| - 1].Submitted? ==> SubmissionOk(log[..|log| - 1], log[|log| - 1].message)))
  }

  // ---------------------------------------------------------------- what the accumulation means

  /** The last sender accepted since position `r`. */
  ghost predicate LastSender(log: seq<Event>, r: nat, from: Option<string>) {
    match from
    case None => forall i :: r <= i < |log| ==> !log[i].SenderAccepted?
    case Some(a) => exists i :: r <= i < |log| && log[i] == SenderAccepted(a)
                      && forall j :: i < j < |log| ==> !log[j].SenderAccepted?
  }

  lemma LastSenderAppend(log: seq<Event>, r: nat, e: Event, from: Option<string>)
    requires r <= |log| && LastSender(log, r, from)
    ensures LastSender(log + [e], r, if e.SenderAccepted? then Some(e.sender) else from)
  {
    var more := log + [e];
    if e.SenderAccepted? {
      assert more[|log|] == e;
    } else if from.Some? {
      var i :| r <= i < |log| && log[i] == SenderAccepted(from.value)
        && forall j :: i < j < |log| ==> !log[j].SenderAccepted?;
      assert more[i] == SenderAccepted(from.value);
    }
  }

  lemma SinceAppend(log: seq<Event>, r: nat, e: Event, from: Option<string>, to: seq<string>)
    requires r <= |log| && EnvelopeSince(log, r, from, to) && !EndsEnvelope(e)
    ensures EnvelopeSince(log + [e], r, if e.SenderAccepted? then Some(e.sender) else from,
                          if e.RecipientAccepted? then to + [e.recipient] else to)
  {
    var more := log + [e];
    assert more[r..] == log[r..] + [e] && more[r..][..|log| - r] == log[r..];
    LastSenderAppend(log, r, e, from);
  }

  /** The accumulated sender and recipients are exactly those accepted since the last envelope
      ended: the last sender, all recipients in order. */
  lemma {:induction false} AccumulatedIsEnvelope(log: seq<Event>)
    ensures Envelope(log, Sender(log), Accumulated(log))
  {
    if log == [] {
      assert EnvelopeSince(log, 0, None, []);
    } else {
      var past, e := log[..|log| - 1], log[|log| - 1];
      assert past + [e] == log;
      if EndsEnvelope(e) {
        assert log[|log|..] == [];
        assert EnvelopeSince(log, |log|, None, []);
      } else {
        AccumulatedIsEnvelope(past);
        var r :| 0 <= r <= |past| && EnvelopeSince(past, r, Sender(past), Accumulated(past));
        SinceAppend(past, r, e, Sender(past), Accumulated(past));
      }
    }
  }

  /** And the record determines them. */
  lemma EnvelopeUnique(log: seq<Event>, from: Option<string>, to: seq<string>, from': Option<string>, to': seq<string>)
    requires Envelope(log, from, to) && Envelope(log, from', to')
    ensures from == from' && to == to'
  {
    var r :| 0 <= r <= |log| && EnvelopeSince(log, r, from, to);
    var q :| 0 <= q <= |log| && EnvelopeSince(log, q, from', to');
    assert r == q;
    if from.Some? && from'.Some? {
      var i :| r <= i < |log| && log[i] == SenderAccepted(from.value)
        && forall j :: i < j < |log| ==> !log[j].SenderAccepted?;
      var j :| q <= j < |log| && log[j] == SenderAccepted(from'.value)
        && forall k :: j < k < |log| ==> !log[k].SenderAccepted?;
      assert i == j;
    }
  }

  lemma {:induction false} AccumulatedGood(env: Env, log: seq<Event>)
    requires AllGood(env, log)
    ensures forall i :: 0 <= i < |Accumulated(log)| ==> Accumulated(log)[i] != "" && '\n' !in Accumulated(log)[i]
  {
    if log != [] {
      AccumulatedGood(env, log[..|log| - 1]);
    }
  }

  /** Every submission on record carries exactly the envelope accepted since the last one ended:
      never empty, of addresses the store's column keeps apart. */
  lemma {:induction false} SubmissionCarriesEnvelope(env: Env, log: seq<Event>, k: nat)
    requires Faithful(log) && AllGood(env, log) && k < |log| && log[k].Submitted?
    ensures
      var past, m := log[..k], log[k].message;
      && Envelope(past, Sender(past), m.to) && Sender(past).Some? && m.from == Parser.Normalised(Sender(past))
      && WellAddressed(m.to) && Decode(Encode(m.to)) == m.to
    decreases |log|
  {
    if k < |log| - 1 {
      SubmissionCarriesEnvelope(env, log[..|log| - 1], k);
      assert log[..|log| - 1][..k] == log[..k];
    } else {
      AccumulatedIsEnvelope(log[..k]);
      AccumulatedGood(env, log[..k]);
      WellAddressedRoundTrip(Accumulated(log[..k]));
    }
  }

  /** A sender or recipient the parsers accept from a single line is fit for the store. */
  lemma AcceptedAddresses(env: Env, line: string)
    requires '\n' !in line
    ensures ParseMailFrom(env, line).Some? ==> GoodEvent(env, SenderAccepted(ParseMailFrom(env, line).value))
    ensures ParseRcptTo(env, line).Some? ==> GoodEvent(env, RecipientAccepted(ParseRcptTo(env, line).value))
  {
    if AddressAfterColon(line).Some? {
      AddressHasNoNewline(line);
    }
  }
}
