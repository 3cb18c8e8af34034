/** The content of a DATA block: subject and body through MIME, or else by a plain split. */
module Parser {
  import opened Results
  import opened Numerals
  import opened Text
  import opened Outbox
  import HtmlPrinter
  import Mime
  import Tidy

  // ---------------------------------------------------------------- the header block, by fields

  /** The lines before the first blank one. */
  function HeaderLines(lines: seq<string>): seq<string> {
    if lines == [] || Trim(lines[0]) == "" then [] else [lines[0]] + HeaderLines(lines[1..])
  }

  /** The lines behind the first blank one. */
  function BodyLines(lines: seq<string>): seq<string> {
    if lines == [] then [] else if Trim(lines[0]) == "" then lines[1..] else BodyLines(lines[1..])
  }

  predicate IsFold(line: string) {
    line != "" && (line[0] == ' ' || line[0] == '\t')
  }

  function FieldName(line: string): string {
    Lower(Trim(line[..IndexOf(line, ':')]))
  }

  function FieldValue(line: string): string {
    var i := IndexOf(line, ':');
    if i == |line| then "" else Trim(line[i + 1..])
  }

  /** A header field with its continuation lines (section 2.2.3 of RFC 5322), all trimmed. */
  datatype Field = Field(name: string, value: string, folds: seq<string>)

  function Folds(lines: seq<string>): seq<string> {
    if lines == [] || !IsFold(lines[0]) then [] else [Trim(lines[0])] + Folds(lines[1..])
  }

  function AfterFolds(lines: seq<string>): (rest: seq<string>)
    ensures |rest| <= |lines|
  {
    if lines == [] || !IsFold(lines[0]) then lines else AfterFolds(lines[1..])
  }

  /** The fields of a header block; continuation lines before the first field belong to none. */
  function Fields(lines: seq<string>): seq<Field>
    decreases |lines|
  {
    if lines == [] then []
    else if IsFold(lines[0]) then Fields(lines[1..])
    else [Field(FieldName(lines[0]), FieldValue(lines[0]), Folds(lines[1..]))] + Fields(AfterFolds(lines[1..]))
  }

  function Unfold(value: string, folds: seq<string>): string
    decreases |folds|
  {
    if folds == [] then value else Unfold(value + " " + folds[0], folds[1..])
  }

  /** The last Subject field counts. */
  function Subject(fields: seq<Field>): Option<string> {
    if fields == [] then None
    else
      var later := Subject(fields[1..]);
      if later.Some? then later
      else if fields[0].name == "subject" then Some(Unfold(fields[0].value, fields[0].folds))
      else None
  }

  lemma {:induction false} SubjectAbsent(fields: seq<Field>)
    ensures Subject(fields).None? <==> forall j :: 0 <= j < |fields| ==> fields[j].name != "subject"
  {
    if fields != [] {
      SubjectAbsent(fields[1..]);
      assert forall j :: 1 <= j < |fields| ==> fields[j] == fields[1..][j - 1];
    }
  }

  /** Which Subject field that is. */
  lemma {:induction false} SubjectIsLast(fields: seq<Field>, i: nat)
    requires i < |fields| && fields[i].name == "subject"
    requires forall j :: i < j < |fields| ==> fields[j].name != "subject"
    ensures Subject(fields) == Some(Unfold(fields[i].value, fields[i].folds))
  {
    if i > 0 {
      SubjectIsLast(fields[1..], i - 1);
    } else {
      SubjectAbsent(fields[1..]);
    }
  }

  function SubjectAndBody(data: string): (Option<string>, string) {
    (Subject(Fields(HeaderLines(Lines(data)))), Join(BodyLines(Lines(data)), "\n"))
  }

  // ---------------------------------------------------------------- the loop

  /** What the loop makes of the rest of the header block, given the subject and the name of the
      field read last. */
  function Resumed(lines: seq<string>, subject: Option<string>, lastHeader: Option<string>): Option<string> {
    var later := Subject(Fields(lines));
    if later.Some? then later
    else if lastHeader == Some("subject") && subject.Some? then Some(Unfold(subject.value, Folds(lines)))
    else subject
  }

  lemma {:induction false} FieldsSkipFolds(lines: seq<string>)
    ensures Fields(AfterFolds(lines)) == Fields(lines)
  {
    if lines != [] && IsFold(lines[0]) {
      FieldsSkipFolds(lines[1..]);
    }
  }

  lemma ResumedFold(lines: seq<string>, subject: Option<string>, lastHeader: Option<string>)
    requires lines != [] && IsFold(lines[0])
    ensures Resumed(lines, subject, lastHeader)
         == Resumed(lines[1..], if lastHeader == Some("subject") && subject.Some?
                                then Some(subject.value + " " + Trim(lines[0])) else subject, lastHeader)
  {
  }

  lemma ResumedField(lines: seq<string>, subject: Option<string>, lastHeader: Option<string>)
    requires lines != [] && !IsFold(lines[0])
    ensures Resumed(lines, subject, lastHeader)
         == Resumed(lines[1..], if FieldName(lines[0]) == "subject" then Some(FieldValue(lines[0])) else subject,
                    Some(FieldName(lines[0])))
  {
    FieldsSkipFolds(lines[1..]);
    assert Fields(lines)[1..] == Fields(lines[1..]);
    assert Folds(lines) == [];
  }

  /** The subject that is to come out when the loop is still in the header block. */
  function Pending(lines: seq<string>, subject: Option<string>, lastHeader: Option<string>): Option<string> {
    Resumed(HeaderLines(lines), subject, lastHeader)
  }

  lemma PendingEnds(lines: seq<string>, subject: Option<string>, lastHeader: Option<string>)
    requires lines == [] || Trim(lines[0]) == ""
    ensures Pending(lines, subject, lastHeader) == subject
    ensures BodyLines(lines) == if lines == [] then [] else lines[1..]
  {
  }

  /** One header line: what the loop makes of it. */
  lemma PendingStep(line: string, rest: seq<string>, subject: Option<string>, lastHeader: Option<string>)
    requires Trim(line) != ""
    ensures BodyLines([line] + rest) == BodyLines(rest)
    ensures Pending([line] + rest, subject, lastHeader)
         == if !IsFold(line) then
              Pending(rest, if FieldName(line) == "subject" then Some(FieldValue(line)) else subject,
                      Some(FieldName(line)))
            else if lastHeader == Some("subject") && subject.Some? then
              Pending(rest, Some(subject.value + " " + Trim(line)), lastHeader)
            else Pending(rest, subject, lastHeader)
  {
    var lines := [line] + rest;
    assert lines[1..] == rest;
    var headers := HeaderLines(lines);
    assert headers[0] == line && headers[1..] == HeaderLines(rest);
    if IsFold(line) {
      ResumedFold(headers, subject, lastHeader);
    } else {
      ResumedField(headers, subject, lastHeader);
    }
  }

  lemma NextLine(lines: seq<string>, i: nat)
    requires i < |lines|
    ensures lines[i..] == [lines[i]] + lines[i + 1..] && lines[i..][0] == lines[i] && lines[i..][1..] == lines[i + 1..]
  {
  }

  lemma Moved(a: seq<string>, line: string, b: seq<string>)
    ensures a + ([line] + b) == (a + [line]) + b
  {
  }

  /** One header line, by its name or as a continuation. */
  method HeaderLine(line: string, subject: Option<string>, lastHeader: Option<string>, ghost rest: seq<string>)
      returns (subject': Option<string>, lastHeader': Option<string>)
    requires Trim(line) != ""
    ensures Pending(rest, subject', lastHeader') == Pending([line] + rest, subject, lastHeader)
  {
    PendingStep(line, rest, subject, lastHeader);
    subject', lastHeader' := subject, lastHeader;
    if IsFold(line) {
      if lastHeader == Some("subject") {
        if subject.Some? {
          subject' := Some(subject.value + " " + Trim(line));
        }
      }
      return;
    }
    var name, value := FieldName(line), FieldValue(line);
    if name == "subject" {
      subject' := Some(value);
    }
    lastHeader' := Some(name);
  }

  method ExtractSubjectAndBody(data: string) returns (subject: Option<string>, body: string)
    ensures (subject, body) == SubjectAndBody(data)
  {
    subject := None;
    var inHeaders := true;
    var bodyLines: seq<string> := [];
    var lastHeader: Option<string> := None;
    var lines := Lines(data);
    ghost var expected := Subject(Fields(HeaderLines(lines)));
    assert lines[0..] == lines;
    for i := 0 to |lines|
      invariant inHeaders ==> bodyLines == [] && BodyLines(lines[i..]) == BodyLines(lines)
      invariant inHeaders ==> Pending(lines[i..], subject, lastHeader) == expected
      invariant !inHeaders ==> bodyLines + lines[i..] == BodyLines(lines) && subject == expected
    {
      var line := lines[i];
      NextLine(lines, i);
      if inHeaders {
        if Trim(line) == "" {
          PendingEnds(lines[i..], subject, lastHeader);
          inHeaders := false;
          continue;
        }
        PendingStep(line, lines[i + 1..], subject, lastHeader);
        subject, lastHeader := HeaderLine(line, subject, lastHeader, lines[i + 1..]);
      } else {
        Moved(bodyLines, line, lines[i + 1..]);
        bodyLines := bodyLines + [line];
      }
    }
    assert lines[|lines|..] == [];
    if inHeaders {
      PendingEnds([], subject, lastHeader);
    } else {
      assert bodyLines + [] == bodyLines;
    }
    body := Join(bodyLines, "\n");
  }

  /** The content of a block, from the MIME tree if there is one: subject and body. */
  function Content(parsed: Option<Mime.Parsed>, data: string): (Option<string>, string) {
    var recovered := Mime.Recovered(parsed);
    if recovered.Some? then recovered.value else SubjectAndBody(data)
  }

  method ParseContent(parsed: Option<Mime.Parsed>, data: string) returns (subject: Option<string>, body: string)
    ensures (subject, body) == Content(parsed, data)
  {
    var recovered := Mime.ParseMime(parsed);
    if recovered.Some? {
      return recovered.value.0, recovered.value.1;
    }
    subject, body := ExtractSubjectAndBody(data);
  }

  /** The null sender becomes no sender. */
  function Normalised(from: Option<string>): Option<string> {
    if from == Some("") then None else from
  }

  function MessageOf(from: Option<string>, to: seq<string>, data: string, parsed: Option<Mime.Parsed>): Message {
    var (subject, body) := Content(parsed, data);
    Message(Normalised(from), to, subject, body)
  }

  /** The recipients go through unchanged. */
  method ParseData(from: Option<string>, to: seq<string>, data: string, parsed: Option<Mime.Parsed>)
      returns (message: Message)
    ensures message == MessageOf(from, to, data, parsed)
  {
    var subject, body := ParseContent(parsed, data);
    message := Message(Normalised(from), to, subject, body);
  }

  // ---------------------------------------------------------------- printing a message

  /** Every line ended by CRLF. */
  function Crlf(lines: seq<string>): string {
    if lines == [] then "" else lines[0] + "\r\n" + Crlf(lines[1..])
  }

  predicate OneLine(lines: seq<string>) {
    forall i :: 0 <= i < |lines| ==> '\n' !in lines[i]
  }

  lemma CrlfLine(line: string, rest: string)
    requires '\n' !in line
    ensures Lines(line + "\r\n" + rest) == [line] + Lines(rest)
  {
    var ended := line + "\r";
    assert line + "\r\n" + rest == ended + "\n" + rest;
    LinesAfter(ended, rest);
    assert ended[..|ended| - 1] == line;
  }

  lemma {:induction false} LinesCrlf(lines: seq<string>)
    requires OneLine(lines)
    ensures Lines(Crlf(lines)) == lines
  {
    if lines != [] {
      LinesCrlf(lines[1..]);
      CrlfLine(lines[0], Crlf(lines[1..]));
      assert [lines[0]] + lines[1..] == lines;
    }
  }

  /** How a writer lays out the field: its name in some letter case, the blanks before and behind the
      colon, if any, and those a continuation line starts with. */
  datatype Layout = Layout(name: string, pad: string, gap: string, indent: string)

  predicate SubjectLayout(layout: Layout) {
    && Lower(layout.name) == "subject"
    && AllWhite(layout.pad) && '\n' !in layout.pad
    && AllWhite(layout.gap) && '\n' !in layout.gap
    && IsFold(layout.indent) && AllWhite(layout.indent) && '\n' !in layout.indent
  }

  /** A subject folded over several lines, one piece a line. */
  function SubjectLines(layout: Layout, pieces: seq<string>): seq<string>
    requires pieces != []
  {
    [FieldLine(layout, pieces[0])] + Indented(pieces[1..], layout.indent)
  }

  function FieldLine(layout: Layout, piece: string): string {
    (layout.name + layout.pad) + ":" + (layout.gap + piece)
  }

  function Indented(pieces: seq<string>, indent: string): seq<string> {
    if pieces == [] then [] else [indent + pieces[0]] + Indented(pieces[1..], indent)
  }

  ghost predicate Trimmed(pieces: seq<string>) {
    forall i :: 0 <= i < |pieces| ==> pieces[i] != "" && Trim(pieces[i]) == pieces[i]
  }

  /** Pieces a subject can be folded into; the first may be empty. */
  ghost predicate Foldable(pieces: seq<string>) {
    pieces != [] && Trim(pieces[0]) == pieces[0] && Trimmed(pieces[1..])
  }

  ghost predicate NoneBlank(lines: seq<string>) {
    forall i :: 0 <= i < |lines| ==> Trim(lines[i]) != ""
  }

  /** No line starts a Subject field, and the first starts some other one. */
  predicate NoSubject(lines: seq<string>) {
    && (lines == [] || !IsFold(lines[0]))
    && (forall i :: 0 <= i < |lines| ==> IsFold(lines[i]) || FieldName(lines[i]) != "subject")
  }

  lemma {:induction false} HeaderBlock(headers: seq<string>, blank: string, body: seq<string>)
    requires NoneBlank(headers) && Trim(blank) == ""
    ensures HeaderLines(headers + ([blank] + body)) == headers && BodyLines(headers + ([blank] + body)) == body
  {
    var lines := headers + ([blank] + body);
    if headers == [] {
      assert lines == [blank] + body;
    } else {
      assert lines[0] == headers[0] && lines[1..] == headers[1..] + ([blank] + body);
      HeaderBlock(headers[1..], blank, body);
    }
  }

  lemma NotBlank(line: string)
    requires line != "" && !IsWhite(line[0])
    ensures Trim(line) != ""
  {
    assert TrimStart(line) == line;
    assert [line[0]] + line[1..] == line;
    TrimEndAppend([line[0]], line[1..]);
  }

  lemma TrimIndented(blanks: string, piece: string)
    requires AllWhite(blanks)
    ensures Trim(blanks + piece) == Trim(piece)
  {
    TrimStartBlanks(blanks, piece);
  }

  lemma PlainName(name: string)
    requires Lower(name) == "subject"
    ensures name != "" && NoWhite(name) && ':' !in name && '\n' !in name
  {
    forall i | 0 <= i < |name|
      ensures !IsWhite(name[i]) && name[i] != ':' && name[i] != '\n'
    {
      assert LowerChar(name[i]) == "subject"[i];
      assert 'a' <= "subject"[i] <= 'z';
    }
  }

  /** The first line of a Subject field, its name in any case, any blanks or none around the colon. */
  lemma SubjectLine(layout: Layout, piece: string)
    requires SubjectLayout(layout) && Trim(piece) == piece && '\n' !in piece
    ensures var line := FieldLine(layout, piece);
            !IsFold(line) && FieldName(line) == "subject" && FieldValue(line) == piece
            && Trim(line) != "" && '\n' !in line
  {
    var line, name, padded := FieldLine(layout, piece), layout.name, layout.name + layout.pad;
    PlainName(name);
    assert line[0] == name[0];
    NotBlank(line);
    BlanksHaveNoColon(layout.pad);
    assert line == padded + [':'] + (layout.gap + piece);
    IndexOfAfter(padded, ':', layout.gap + piece);
    assert line[..|padded|] == padded && line[|padded| + 1..] == layout.gap + piece;
    TrimPadded(name, layout.pad);
    TrimIndented(layout.gap, piece);
  }

  lemma BlanksHaveNoColon(blanks: string)
    requires AllWhite(blanks)
    ensures ':' !in blanks
  {
  }

  lemma {:induction false} TrimEndBlanks(s: string, blanks: string)
    requires AllWhite(blanks) && s != "" && !IsWhite(s[|s| - 1])
    ensures TrimEnd(s + blanks) == s
  {
    TrimEndAppend(s, blanks);
    AllTrimmed(blanks);
    assert s + "" == s;
  }

  lemma {:induction false} AllTrimmed(blanks: string)
    requires AllWhite(blanks)
    ensures TrimEnd(blanks) == ""
  {
    if blanks != "" {
      AllTrimmed(blanks[..|blanks| - 1]);
    }
  }

  lemma TrimPadded(name: string, pad: string)
    requires name != "" && NoWhite(name) && AllWhite(pad)
    ensures Trim(name + pad) == name
  {
    assert (name + pad)[0] == name[0];
    TrimEndBlanks(name, pad);
  }

  lemma {:induction false} IndentedLines(pieces: seq<string>, indent: string)
    requires Trimmed(pieces) && OneLine(pieces) && AllWhite(indent) && '\n' !in indent
    ensures NoneBlank(Indented(pieces, indent)) && OneLine(Indented(pieces, indent))
  {
    if pieces != [] {
      IndentedLines(pieces[1..], indent);
      IndentedLine(indent, pieces[0]);
      LinesCons(indent + pieces[0], Indented(pieces[1..], indent));
    }
  }

  lemma IndentedLine(indent: string, piece: string)
    requires AllWhite(indent) && '\n' !in indent && '\n' !in piece && piece != "" && Trim(piece) == piece
    ensures Trim(indent + piece) != "" && '\n' !in indent + piece
  {
    TrimIndented(indent, piece);
  }

  lemma SubjectBlock(layout: Layout, pieces: seq<string>)
    requires SubjectLayout(layout) && Foldable(pieces) && OneLine(pieces)
    ensures NoneBlank(SubjectLines(layout, pieces)) && OneLine(SubjectLines(layout, pieces))
  {
    SubjectLine(layout, pieces[0]);
    IndentedLines(pieces[1..], layout.indent);
    LinesCons(FieldLine(layout, pieces[0]), Indented(pieces[1..], layout.indent));
  }

  lemma LinesCons(line: string, lines: seq<string>)
    requires Trim(line) != "" && '\n' !in line && NoneBlank(lines) && OneLine(lines)
    ensures NoneBlank([line] + lines) && OneLine([line] + lines)
  {
  }

  // ---------------------------------------------------------------- reading it back

  lemma {:induction false} ResumedPast(before: seq<string>, rest: seq<string>, subject: Option<string>,
                                       lastHeader: Option<string>)
      returns (subject': Option<string>, lastHeader': Option<string>)
    ensures Resumed(before + rest, subject, lastHeader) == Resumed(rest, subject', lastHeader')
  {
    if before == [] {
      assert before + rest == rest;
      return subject, lastHeader;
    }
    var lines := before + rest;
    assert lines[0] == before[0] && lines[1..] == before[1..] + rest;
    if IsFold(before[0]) {
      ResumedFold(lines, subject, lastHeader);
      subject', lastHeader' := ResumedPast(before[1..], rest,
        if lastHeader == Some("subject") && subject.Some? then Some(subject.value + " " + Trim(lines[0])) else subject,
        lastHeader);
    } else {
      ResumedField(lines, subject, lastHeader);
      subject', lastHeader' := ResumedPast(before[1..], rest,
        if FieldName(lines[0]) == "subject" then Some(FieldValue(lines[0])) else subject, Some(FieldName(lines[0])));
    }
  }

  lemma {:induction false} ResumedIndented(pieces: seq<string>, indent: string, rest: seq<string>, value: string)
    requires Trimmed(pieces) && IsFold(indent) && AllWhite(indent)
    ensures Resumed(Indented(pieces, indent) + rest, Some(value), Some("subject"))
         == Resumed(rest, Some(Unfold(value, pieces)), Some("subject"))
  {
    var lines := Indented(pieces, indent) + rest;
    if pieces == [] {
      assert lines == rest;
    } else {
      assert lines[0] == indent + pieces[0] && lines[0][0] == indent[0];
      assert lines[1..] == Indented(pieces[1..], indent) + rest;
      TrimIndented(indent, pieces[0]);
      ResumedFold(lines, Some(value), Some("subject"));
      ResumedIndented(pieces[1..], indent, rest, value + " " + pieces[0]);
    }
  }

  lemma {:induction false} NoSubjectFields(lines: seq<string>)
    requires forall i :: 0 <= i < |lines| ==> IsFold(lines[i]) || FieldName(lines[i]) != "subject"
    ensures Subject(Fields(lines)) == None
    decreases |lines|
  {
    if lines != [] {
      NoSubjectFields(lines[1..]);
      FieldsSkipFolds(lines[1..]);
      if !IsFold(lines[0]) {
        assert Fields(lines)[1..] == Fields(lines[1..]);
      }
    }
  }

  lemma JoinHead(a: string, b: string, rest: seq<string>)
    ensures Join([a + " " + b] + rest, " ") == a + " " + Join([b] + rest, " ")
  {
    assert ([a + " " + b] + rest)[1..] == rest && ([b] + rest)[1..] == rest;
    if rest != [] {
      assert (a + " " + b) + " " + Join(rest, " ") == a + " " + (b + " " + Join(rest, " "));
    }
  }

  lemma {:induction false} UnfoldJoins(value: string, folds: seq<string>)
    ensures Unfold(value, folds) == Join([value] + folds, " ")
    decreases |folds|
  {
    if folds != [] {
      UnfoldJoins(value + " " + folds[0], folds[1..]);
      JoinHead(value, folds[0], folds[1..]);
      assert [folds[0]] + folds[1..] == folds && ([value] + folds)[1..] == folds;
    }
  }

  lemma SubjectKept(after: seq<string>, value: string)
    requires NoSubject(after)
    ensures Resumed(after, Some(value), Some("subject")) == Some(value)
  {
    NoSubjectFields(after);
    assert Folds(after) == [];
  }

  lemma FieldAndFolds(line: string, pieces: seq<string>, indent: string, after: seq<string>,
                      subject: Option<string>, lastHeader: Option<string>)
    requires IsFold(indent) && AllWhite(indent) && Trimmed(pieces) && NoSubject(after)
    requires !IsFold(line) && FieldName(line) == "subject"
    ensures Resumed([line] + (Indented(pieces, indent) + after), subject, lastHeader)
         == Some(Unfold(FieldValue(line), pieces))
  {
    var rest := Indented(pieces, indent) + after;
    assert ([line] + rest)[1..] == rest;
    ResumedField([line] + rest, subject, lastHeader);
    ResumedIndented(pieces, indent, after, FieldValue(line));
    SubjectKept(after, Unfold(FieldValue(line), pieces));
  }

  lemma SubjectField(layout: Layout, pieces: seq<string>, after: seq<string>,
                     subject: Option<string>, lastHeader: Option<string>)
    requires SubjectLayout(layout) && Foldable(pieces) && OneLine(pieces) && NoSubject(after)
    ensures Resumed(SubjectLines(layout, pieces) + after, subject, lastHeader) == Some(Join(pieces, " "))
  {
    var first, rest := pieces[0], pieces[1..];
    assert pieces == [first] + rest;
    SubjectLine(layout, first);
    Regrouped(FieldLine(layout, first), Indented(rest, layout.indent), after);
    FieldAndFolds(FieldLine(layout, first), rest, layout.indent, after, subject, lastHeader);
    UnfoldJoins(first, rest);
  }

  lemma Regrouped(line: string, folded: seq<string>, after: seq<string>)
    ensures [line] + folded + after == [line] + (folded + after)
  {
  }

  lemma SubjectFound(before: seq<string>, layout: Layout, pieces: seq<string>, after: seq<string>)
    requires SubjectLayout(layout) && Foldable(pieces) && OneLine(pieces) && NoSubject(after)
    ensures Subject(Fields(before + (SubjectLines(layout, pieces) + after))) == Some(Join(pieces, " "))
  {
    var lines := SubjectLines(layout, pieces) + after;
    var subject, lastHeader := ResumedPast(before, lines, None, None);
    SubjectField(layout, pieces, after, subject, lastHeader);
    FreshStart(before + lines);
  }

  lemma FreshStart(lines: seq<string>)
    ensures Resumed(lines, None, None) == Subject(Fields(lines))
  {
  }

  function Printed(headers: seq<string>, blank: string, body: seq<string>): string {
    Crlf(headers + ([blank] + body))
  }

  /** Printing and splitting: any header lines, a Subject folded over any number of lines and not
      overridden later, a blank line and any body come back as the subject's pieces and the body. */
  lemma PrintedMessageSplits(before: seq<string>, layout: Layout, pieces: seq<string>,
                             after: seq<string>, blank: string, body: seq<string>)
    requires NoneBlank(before) && OneLine(before)
    requires SubjectLayout(layout) && Foldable(pieces) && OneLine(pieces)
    requires NoneBlank(after) && OneLine(after) && NoSubject(after)
    requires Trim(blank) == "" && '\n' !in blank && OneLine(body)
    ensures SubjectAndBody(Printed(before + (SubjectLines(layout, pieces) + after), blank, body))
         == (Some(Join(pieces, " ")), Join(body, "\n"))
  {
    var headers := before + (SubjectLines(layout, pieces) + after);
    SubjectBlock(layout, pieces);
    LinesCrlf(headers + ([blank] + body));
    HeaderBlock(headers, blank, body);
    SubjectFound(before, layout, pieces, after);
  }

  lemma {:induction false} AllHeaders(headers: seq<string>)
    requires NoneBlank(headers)
    ensures HeaderLines(headers) == headers && BodyLines(headers) == []
  {
    if headers != [] {
      AllHeaders(headers[1..]);
    }
  }

  /** Without a blank line everything is header and the body is empty. */
  lemma PrintedHeaders(before: seq<string>, layout: Layout, pieces: seq<string>, after: seq<string>)
    requires NoneBlank(before) && OneLine(before)
    requires SubjectLayout(layout) && Foldable(pieces) && OneLine(pieces)
    requires NoneBlank(after) && OneLine(after) && NoSubject(after)
    ensures SubjectAndBody(Crlf(before + (SubjectLines(layout, pieces) + after))) == (Some(Join(pieces, " ")), "")
  {
    var headers := before + (SubjectLines(layout, pieces) + after);
    SubjectBlock(layout, pieces);
    LinesCrlf(headers);
    AllHeaders(headers);
    SubjectFound(before, layout, pieces, after);
  }

  /** A header line without a colon is a field of that name with nothing in it. */
  lemma NoColon(line: string)
    requires ':' !in line
    ensures FieldName(line) == Lower(Trim(line)) && FieldValue(line) == ""
  {
    assert line[..|line|] == line;
  }

  // ---------------------------------------------------------------- what arrives

  lemma SenderNormalised(from: Option<string>, to: seq<string>, data: string, parsed: Option<Mime.Parsed>)
    ensures var m := MessageOf(from, to, data, parsed);
            m.to == to && (m.from.None? <==> from.None? || from == Some("")) && (m.from.Some? ==> m.from == from)
  {
  }

  /** A printed message that is no MIME message arrives under its envelope with its subject unfolded
      and its body line by line. */
  lemma PrintedMessageArrives(from: Option<string>, to: seq<string>, parsed: Option<Mime.Parsed>,
                              before: seq<string>, layout: Layout, pieces: seq<string>,
                              after: seq<string>, blank: string, body: seq<string>)
    requires Mime.Recovered(parsed).None?
    requires NoneBlank(before) && OneLine(before)
    requires SubjectLayout(layout) && Foldable(pieces) && OneLine(pieces)
    requires NoneBlank(after) && OneLine(after) && NoSubject(after)
    requires Trim(blank) == "" && '\n' !in blank && OneLine(body)
    ensures MessageOf(from, to, Printed(before + (SubjectLines(layout, pieces) + after), blank, body), parsed)
         == Message(if from == Some("") then None else from, to, Some(Join(pieces, " ")), Join(body, "\n"))
  {
    PrintedMessageSplits(before, layout, pieces, after, blank, body);
  }

  /** The text shown and, behind it, the note of the attachments, if any. */
  function WithNote(text: string, note: Option<string>): string {
    if note.None? then text else if text == "" then note.value else text + "\n\n" + note.value
  }

  lemma ShownArrives(from: Option<string>, to: seq<string>, data: string, parsed: Mime.Parsed, text: string)
    requires Mime.ShownText(parsed.root) == Some(text)
    ensures MessageOf(from, to, data, Some(parsed))
         == Message(if from == Some("") then None else from, to, parsed.subject,
                    WithNote(text, Mime.DescribeAttachments(Mime.NamesOf(Mime.Leaves(parsed.root)))))
  {
  }

  /** A MIME mail whose first leaf of type text/plain, in any case and not marked as an attachment,
      decodes arrives with that leaf's lines and, behind them, the note of its attachments, if any. */
  lemma PlainMailArrives(from: Option<string>, to: seq<string>, data: string, parsed: Mime.Parsed, i: nat, body: string)
    requires Mime.FirstOfType(Mime.Leaves(parsed.root), i, "text/plain")
    requires Mime.Leaves(parsed.root)[i].body == Some(body)
    ensures MessageOf(from, to, data, Some(parsed))
         == Message(if from == Some("") then None else from, to, parsed.subject,
                    WithNote(Join(Lines(body), "\n"),
                             Mime.DescribeAttachments(Mime.NamesOf(Mime.Leaves(parsed.root)))))
  {
    Mime.PlainWins(parsed.root, i, body);
    ShownArrives(from, to, data, parsed, Join(Lines(body), "\n"));
  }

  /** A mail that offers only a printed HTML document as text arrives as what its reader is to see,
      with that note. */
  lemma HtmlMailArrives(from: Option<string>, to: seq<string>, data: string, parsed: Mime.Parsed, i: nat,
                        doc: seq<HtmlPrinter.Node>)
    requires HtmlPrinter.WellFormed(doc, HtmlPrinter.HIDDEN_NAMES)
    requires Mime.NoneOfType(Mime.Leaves(parsed.root), "text/plain")
    requires Mime.FirstOfType(Mime.Leaves(parsed.root), i, "text/html")
    requires Mime.Leaves(parsed.root)[i].body == Some(HtmlPrinter.Render(doc, 0))
    ensures MessageOf(from, to, data, Some(parsed))
         == Message(if from == Some("") then None else from, to, parsed.subject,
                    WithNote(Tidy.TidyText(HtmlPrinter.Flatten(doc)),
                             Mime.DescribeAttachments(Mime.NamesOf(Mime.Leaves(parsed.root)))))
  {
    Mime.HtmlMailReadsBack(parsed.root, i, doc);
    ShownArrives(from, to, data, parsed, Tidy.TidyText(HtmlPrinter.Flatten(doc)));
  }

  /** A printed HTML document with files marked as attachments beside it: the document is the text and
      the files are noted by name, be they plain text themselves. */
  lemma FilesAreNoted(from: Option<string>, to: seq<string>, data: string, parsed: Mime.Parsed,
                      doc: seq<HtmlPrinter.Node>, html: Mime.Mail, files: seq<Mime.Mail>, names: seq<string>)
    requires HtmlPrinter.WellFormed(doc, HtmlPrinter.HIDDEN_NAMES)
    requires parsed.root.subparts == [html] + files && html.subparts == [] && Mime.Files(files, names)
    requires Lower(html.mimetype) == "text/html" && !html.attached
    requires html.body == Some(HtmlPrinter.Render(doc, 0))
    ensures
      var text := Tidy.TidyText(HtmlPrinter.Flatten(doc));
      var note :=
        if |names| == 1 then "[1 attachment: " + names[0] + "]"
        else "[" + Decimal(|names|) + " attachments: " + Join(names, ", ") + "]";
      MessageOf(from, to, data, Some(parsed))
      == Message(if from == Some("") then None else from, to, parsed.subject,
                 if names == [] then text else if text == "" then note else text + "\n\n" + note)
  {
    Mime.TextAndFiles(parsed.root, html, files, names);
    HtmlMailArrives(from, to, data, parsed, 0, doc);
  }
}
