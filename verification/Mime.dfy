/** Which part of a MIME message is shown, and which parts are only named. */
module Mime {
  import opened Results
  import opened Text
  import opened Numerals
  import Html
  import HtmlPrinter
  import Tidy

  /** A parsed message as far as it is looked at: `body` is absent where decoding fails. */
  datatype Mail = Mail(mimetype: string, attached: bool, filename: Option<string>, name: Option<string>,
                       body: Option<string>, subparts: seq<Mail>)

  /** A message with the first value of its Subject header. */
  datatype Parsed = Parsed(subject: Option<string>, root: Mail)

  // ---------------------------------------------------------------- one part is shown

  predicate IsAttachment(mail: Mail) {
    mail.attached || (!("text/" <= Lower(mail.mimetype)) && !("multipart/" <= Lower(mail.mimetype)))
  }

  predicate Wanted(mail: Mail, want: string) {
    Lower(mail.mimetype) == Lower(want) && !IsAttachment(mail)
  }

  function FindText(mail: Mail, want: string): Option<Mail> {
    if mail.subparts == [] then
      if Wanted(mail, want) then Some(mail) else None
    else FindInParts(mail.subparts, want)
  }

  function FindInParts(parts: seq<Mail>, want: string): Option<Mail> {
    if parts == [] then None
    else
      var first := FindText(parts[0], want);
      if first.Some? then first else FindInParts(parts[1..], want)
  }

  /** The leaves of the tree from left to right. */
  function Leaves(mail: Mail): seq<Mail> {
    if mail.subparts == [] then [mail] else LeavesOf(mail.subparts)
  }

  function LeavesOf(parts: seq<Mail>): seq<Mail> {
    if parts == [] then [] else Leaves(parts[0]) + LeavesOf(parts[1..])
  }

  ghost predicate IsFirst(found: Option<Mail>, leaves: seq<Mail>, want: string) {
    match found
    case None => forall i :: 0 <= i < |leaves| ==> !Wanted(leaves[i], want)
    case Some(leaf) => exists i :: FirstAt(leaf, leaves, want, i)
  }

  ghost predicate FirstAt(leaf: Mail, leaves: seq<Mail>, want: string, i: nat) {
    i < |leaves| && leaves[i] == leaf && Wanted(leaf, want)
    && forall j :: 0 <= j < i ==> !Wanted(leaves[j], want)
  }

  lemma FirstOfTwo(first: Option<Mail>, then_: Option<Mail>, a: seq<Mail>, b: seq<Mail>, want: string)
    requires IsFirst(first, a, want) && IsFirst(then_, b, want)
    ensures IsFirst(if first.Some? then first else then_, a + b, want)
  {
    if first.Some? {
      var i :| FirstAt(first.value, a, want, i);
      assert FirstAt(first.value, a + b, want, i);
    } else if then_.Some? {
      var i :| FirstAt(then_.value, b, want, i);
      assert FirstAt(then_.value, a + b, want, |a| + i);
    }
  }

  /** The part found is the first leaf of its type, from left to right, that is no attachment. */
  lemma {:induction false} FindTextIsFirst(mail: Mail, want: string)
    ensures IsFirst(FindText(mail, want), Leaves(mail), want)
    decreases mail
  {
    if mail.subparts == [] {
      if Wanted(mail, want) {
        assert FirstAt(mail, [mail], want, 0);
      }
    } else {
      FindInPartsIsFirst(mail.subparts, want);
    }
  }

  lemma {:induction false} FindInPartsIsFirst(parts: seq<Mail>, want: string)
    ensures IsFirst(FindInParts(parts, want), LeavesOf(parts), want)
    decreases parts
  {
    if parts != [] {
      FindTextIsFirst(parts[0], want);
      FindInPartsIsFirst(parts[1..], want);
      FirstOfTwo(FindText(parts[0], want), FindInParts(parts[1..], want), Leaves(parts[0]), LeavesOf(parts[1..]), want);
    }
  }

  // ---------------------------------------------------------------- the others are named

  function PartName(mail: Mail): string {
    var given := if mail.filename.Some? then mail.filename else mail.name;
    if given.Some? && Trim(given.value) != "" then Trim(given.value) else "unnamed"
  }

  /** The names of the attachments among the leaves, in order. */
  function NamesOf(leaves: seq<Mail>): seq<string> {
    if leaves == [] then []
    else (if IsAttachment(leaves[0]) then [PartName(leaves[0])] else []) + NamesOf(leaves[1..])
  }

  lemma {:induction false} NamesAppend(a: seq<Mail>, b: seq<Mail>)
    ensures NamesOf(a + b) == NamesOf(a) + NamesOf(b)
  {
    if a == [] {
      assert a + b == b;
    } else {
      assert (a + b)[1..] == a[1..] + b;
      NamesAppend(a[1..], b);
    }
  }

  lemma {:induction false} LeavesAppend(parts: seq<Mail>, part: Mail)
    ensures LeavesOf(parts + [part]) == LeavesOf(parts) + Leaves(part)
  {
    if parts == [] {
      assert (parts + [part])[1..] == [];
    } else {
      assert (parts + [part])[0] == parts[0] && (parts + [part])[1..] == parts[1..] + [part];
      LeavesAppend(parts[1..], part);
    }
  }

  function NamesIn(parts: seq<Mail>): seq<string> {
    NamesOf(LeavesOf(parts))
  }

  lemma NamesNext(collected: seq<string>, parts: seq<Mail>, i: nat)
    requires i < |parts|
    ensures collected + NamesIn(parts[..i + 1]) == (collected + NamesIn(parts[..i])) + NamesOf(Leaves(parts[i]))
  {
    LeavesAppend(parts[..i], parts[i]);
    NamesAppend(LeavesOf(parts[..i]), Leaves(parts[i]));
    assert parts[..i + 1] == parts[..i] + [parts[i]];
  }

  lemma NamesEnds(collected: seq<string>, parts: seq<Mail>)
    ensures collected + NamesIn(parts[..0]) == collected && parts[..|parts|] == parts
  {
  }

  lemma NamesOfLeaf(collected: seq<string>, mail: Mail)
    requires mail.subparts == []
    ensures collected + NamesOf(Leaves(mail)) == if IsAttachment(mail) then collected + [PartName(mail)] else collected
  {
    assert Leaves(mail)[1..] == [];
  }

  /** The walk over the tree: the names of its attachments join those already collected. */
  method CollectAttachments(mail: Mail, collected: seq<string>) returns (out: seq<string>)
    ensures out == collected + NamesOf(Leaves(mail))
    decreases mail
  {
    out := collected;
    if mail.subparts != [] {
      var parts := mail.subparts;
      NamesEnds(collected, parts);
      for i := 0 to |parts|
        invariant out == collected + NamesIn(parts[..i])
      {
        out := CollectAttachments(parts[i], out);
        NamesNext(collected, parts, i);
      }
      return;
    }
    NamesOfLeaf(collected, mail);
    if !IsAttachment(mail) {
      return;
    }
    out := out + [PartName(mail)];
  }

  function DescribeAttachments(names: seq<string>): Option<string> {
    if names == [] then None
    else if |names| == 1 then Some("[1 attachment: " + names[0] + "]")
    else Some("[" + Decimal(|names|) + " attachments: " + Join(names, ", ") + "]")
  }

  // ---------------------------------------------------------------- line ends

  function NormaliseNewlines(body: string): string {
    Join(Lines(body), "\n")
  }

  /** Every newline ends a line that is not the last, and none follows a carriage return. */
  predicate Settled(s: string) {
    forall k :: 0 <= k < |s| && s[k] == '\n' ==> k + 1 < |s| && (k == 0 || s[k - 1] != '\r')
  }

  lemma SettledAfter(line: string, rest: string)
    requires '\n' !in line
    ensures Settled(line + "\n" + rest) <==> StripCr(line) == line && rest != "" && Settled(rest)
  {
    var s, n := line + "\n" + rest, |line| + 1;
    assert s[n - 1] == '\n' && s[..|line|] == line && s[n..] == rest;
    assert forall j :: 0 <= j < |line| ==> s[j] == line[j] && line[j] in line;
    if Settled(s) {
      assert forall k :: 0 <= k < |rest| && rest[k] == '\n' ==> s[n + k] == '\n' && s[n + k - 1] != '\r';
    }
    if Settled(rest) && rest != "" && StripCr(line) == line {
      forall k | 0 <= k < |s| && s[k] == '\n'
        ensures k + 1 < |s| && (k == 0 || s[k - 1] != '\r')
      {
        assert k >= n ==> s[k] == rest[k - n] && (k > n ==> s[k - 1] == rest[k - 1 - n]);
      }
    }
  }

  /** Normalising shortens every text it changes, and leaves exactly the settled ones. */
  lemma {:induction false} NormaliseFixes(s: string)
    ensures |NormaliseNewlines(s)| <= |s|
    ensures NormaliseNewlines(s) == s <==> Settled(s)
    decreases |s|
  {
    var i := IndexOf(s, '\n');
    if i < |s| {
      var line, rest := s[..i], s[i + 1..];
      assert s == line + "\n" + rest;
      SettledAfter(line, rest);
      NormaliseFixes(rest);
      LinesAfter(line, rest);
      NormaliseStep(StripCr(line), rest);
      Unjoined(StripCr(line), line, NormaliseNewlines(rest), rest);
    } else {
      assert s != "" ==> Lines(s) == [s];
    }
  }

  lemma NormaliseStep(line: string, rest: string)
    ensures Join([line] + Lines(rest), "\n") == if rest == "" then line else line + "\n" + NormaliseNewlines(rest)
  {
    assert ([line] + Lines(rest))[1..] == Lines(rest);
  }

  lemma Unjoined(a: string, b: string, c: string, d: string)
    requires |a| <= |b| && |c| <= |d|
    ensures a + "\n" + c == b + "\n" + d <==> a == b && c == d
  {
    var s, t := a + "\n" + c, b + "\n" + d;
    if s == t {
      assert |a| == |b|;
      assert a == s[..|a|] && b == t[..|b|] && c == s[|a| + 1..] && d == t[|b| + 1..];
    }
  }

  /** Text recovered from HTML has its line ends in order already. */
  lemma TidiedIsNormal(text: string)
    ensures NormaliseNewlines(Tidy.TidyText(text)) == Tidy.TidyText(text)
  {
    Tidy.TidyIsCanonical(text);
  }

  // ---------------------------------------------------------------- the selection

  function PartText(part: Option<Mail>): Option<string> {
    if part.Some? then part.value.body else None
  }

  /** The text shown: the first plain part if it decodes, or else the first HTML part reduced. */
  function ShownText(mail: Mail): Option<string> {
    var plain := PartText(FindText(mail, "text/plain"));
    if plain.Some? then Some(NormaliseNewlines(plain.value))
    else
      var html := PartText(FindText(mail, "text/html"));
      if html.Some? then Some(NormaliseNewlines(Html.HtmlToText(html.value))) else None
  }

  /** The text, and behind it a note of the attachments; nothing at all when there is neither. */
  function Selected(mail: Mail): Option<string> {
    var text, note := ShownText(mail), DescribeAttachments(NamesOf(Leaves(mail)));
    if text.None? then note
    else if note.None? then text
    else if text.value == "" then note
    else Some(text.value + "\n\n" + note.value)
  }

  /** Subject and body, unless the message is given up. */
  function Recovered(parsed: Option<Parsed>): Option<(Option<string>, string)> {
    if parsed.None? then None
    else
      var body := Selected(parsed.value.root);
      if body.None? then None else Some((parsed.value.subject, body.value))
  }

  method FindShownText(mail: Mail) returns (text: Option<string>)
    ensures text == ShownText(mail)
  {
    text := PartText(FindText(mail, "text/plain"));
    if text.None? {
      var html := PartText(FindText(mail, "text/html"));
      if html.Some? {
        var reduced := Html.TextOfHtml(html.value);
        text := Some(reduced);
      }
    }
    if text.Some? {
      text := Some(NormaliseNewlines(text.value));
    }
  }

  method AppendNote(text: string, note: Option<string>) returns (body: string)
    ensures note.None? ==> body == text
    ensures note.Some? ==> body == if text == "" then note.value else text + "\n\n" + note.value
  {
    body := text;
    if note.Some? {
      if body != "" {
        body := body + "\n\n";
      } else {
        assert "" + note.value == note.value;
      }
      body := body + note.value;
    }
  }

  method ParseMime(parsed: Option<Parsed>) returns (r: Option<(Option<string>, string)>)
    ensures r == Recovered(parsed)
  {
    if parsed.None? {
      return None;
    }
    var mail := parsed.value.root;
    var text := FindShownText(mail);
    var attachments := CollectAttachments(mail, []);
    assert attachments == NamesOf(Leaves(mail));
    if text.None? && attachments == [] {
      return None;
    }
    var body := AppendNote(if text.Some? then text.value else "", DescribeAttachments(attachments));
    r := Some((parsed.value.subject, body));
  }

  // ---------------------------------------------------------------- by the parts' own fields

  /** A part can be shown if it has that type, in any case, and is not marked as an attachment. */
  lemma WantedMeans(mail: Mail, want: string)
    requires want == "text/plain" || want == "text/html"
    ensures Wanted(mail, want) <==> Lower(mail.mimetype) == want && !mail.attached
  {
    assert Lower(want) == want && "text/" <= want;
  }

  /** What is shown is a leaf of the type looked for and not marked as an attachment. */
  lemma ShownIsNotNamed(mail: Mail, want: string)
    requires FindText(mail, want).Some?
    ensures
      var leaf := FindText(mail, want).value;
      && leaf in Leaves(mail) && Lower(leaf.mimetype) == Lower(want) && !leaf.attached
      && ("text/" <= Lower(leaf.mimetype) || "multipart/" <= Lower(leaf.mimetype))
  {
    FindTextIsFirst(mail, want);
  }

  /** The names belong, in order, to exactly these leaves: those marked as attachments, whatever
      their type, and those whose type starts with neither "text/" nor "multipart/". */
  ghost predicate NamesAt(leaves: seq<Mail>, names: seq<string>, at: seq<nat>) {
    && |names| == |at|
    && (forall k :: 0 <= k < |at| ==> at[k] < |leaves| && names[k] == PartName(leaves[at[k]]))
    && (forall j, k :: 0 <= j < k < |at| ==> at[j] < at[k])
    && (forall i :: 0 <= i < |leaves| ==>
          (i in at <==> leaves[i].attached
                        || (!("text/" <= Lower(leaves[i].mimetype)) && !("multipart/" <= Lower(leaves[i].mimetype)))))
  }

  lemma {:induction false} NamedLeaves(leaves: seq<Mail>) returns (at: seq<nat>)
    ensures NamesAt(leaves, NamesOf(leaves), at)
  {
    at := [];
    if leaves != [] {
      var before, last := leaves[..|leaves| - 1], leaves[|leaves| - 1];
      at := NamedLeaves(before);
      assert leaves == before + [last];
      NamesLast(before, last);
      if IsAttachment(last) {
        NamedMore(before, NamesOf(before), at, last);
        at := at + [|before|];
      } else {
        NamedSame(before, NamesOf(before), at, last);
      }
    }
  }

  lemma NamesLast(before: seq<Mail>, last: Mail)
    ensures NamesOf(before + [last]) == if IsAttachment(last) then NamesOf(before) + [PartName(last)] else NamesOf(before)
  {
    NamesAppend(before, [last]);
    assert [last][1..] == [] && NamesOf(before) + [] == NamesOf(before);
  }

  lemma NamedMore(before: seq<Mail>, names: seq<string>, at: seq<nat>, last: Mail)
    requires NamesAt(before, names, at) && IsAttachment(last)
    ensures NamesAt(before + [last], names + [PartName(last)], at + [|before|])
  {
    var leaves, more := before + [last], at + [|before|];
    forall i | 0 <= i < |leaves|
      ensures i in more <==> IsAttachment(leaves[i])
    {
      assert more[|at|] == |before|;
      assert i < |before| ==> leaves[i] == before[i] && (i in at <==> i in more);
    }
  }

  lemma NamedSame(before: seq<Mail>, names: seq<string>, at: seq<nat>, last: Mail)
    requires NamesAt(before, names, at) && !IsAttachment(last)
    ensures NamesAt(before + [last], names, at)
  {
    var leaves := before + [last];
    forall i | 0 <= i < |leaves|
      ensures i in at <==> IsAttachment(leaves[i])
    {
      assert i < |before| ==> leaves[i] == before[i];
    }
  }

  /** An attachment goes by its file name, or else by the name of its type, without blanks around;
      "unnamed" when that is blank or there is neither. */
  lemma PartNameIs(mail: Mail)
    ensures mail.filename.Some? && Trim(mail.filename.value) != "" ==> PartName(mail) == Trim(mail.filename.value)
    ensures mail.filename.None? && mail.name.Some? && Trim(mail.name.value) != "" ==>
              PartName(mail) == Trim(mail.name.value)
    ensures mail.filename.Some? && Trim(mail.filename.value) == "" ==> PartName(mail) == "unnamed"
    ensures mail.filename.None? && (mail.name.None? || Trim(mail.name.value) == "") ==> PartName(mail) == "unnamed"
  {
  }

  lemma {:induction false} NamesEmpty(leaves: seq<Mail>)
    ensures NamesOf(leaves) == [] <==> forall leaf :: leaf in leaves ==> !IsAttachment(leaf)
  {
    if leaves != [] {
      NamesEmpty(leaves[1..]);
      assert forall leaf :: leaf in leaves <==> leaf == leaves[0] || leaf in leaves[1..];
    }
  }

  /** A message is given up exactly when no text part decodes and every leaf is text, or an empty
      multipart, and not marked as an attachment. */
  lemma GivenUp(mail: Mail)
    ensures Selected(mail).None? <==>
              ShownText(mail).None?
              && forall leaf :: leaf in Leaves(mail) ==>
                   !leaf.attached && ("text/" <= Lower(leaf.mimetype) || "multipart/" <= Lower(leaf.mimetype))
  {
    NamesEmpty(Leaves(mail));
  }

  /** `leaf` is the first of the leaves with this type, in any case, that is not marked as an
      attachment. */
  ghost predicate FirstOfType(leaves: seq<Mail>, i: nat, want: string) {
    && i < |leaves| && Lower(leaves[i].mimetype) == want && !leaves[i].attached
    && forall j :: 0 <= j < i ==> Lower(leaves[j].mimetype) != want || leaves[j].attached
  }

  ghost predicate NoneOfType(leaves: seq<Mail>, want: string) {
    forall j :: 0 <= j < |leaves| ==> Lower(leaves[j].mimetype) != want || leaves[j].attached
  }

  lemma FoundFirst(mail: Mail, i: nat, want: string)
    requires want == "text/plain" || want == "text/html"
    ensures FirstOfType(Leaves(mail), i, want) ==> FindText(mail, want) == Some(Leaves(mail)[i])
    ensures NoneOfType(Leaves(mail), want) ==> FindText(mail, want).None?
  {
    var leaves, found := Leaves(mail), FindText(mail, want);
    FindTextIsFirst(mail, want);
    forall j | 0 <= j < |leaves|
      ensures Wanted(leaves[j], want) <==> Lower(leaves[j].mimetype) == want && !leaves[j].attached
    {
      WantedMeans(leaves[j], want);
    }
    if FirstOfType(leaves, i, want) {
      assert FirstAt(leaves[i], leaves, want, i);
      if found.Some? {
        var k :| FirstAt(found.value, leaves, want, k);
        assert k == i;
      }
    }
  }

  /** A plain part wins over HTML wherever the two stand in the tree. */
  lemma PlainWins(mail: Mail, i: nat, body: string)
    requires FirstOfType(Leaves(mail), i, "text/plain") && Leaves(mail)[i].body == Some(body)
    ensures ShownText(mail) == Some(NormaliseNewlines(body))
  {
    FoundFirst(mail, i, "text/plain");
  }

  /** A mail whose only readable part is a printed document is forwarded as what its reader is
      to see. */
  lemma HtmlMailReadsBack(mail: Mail, i: nat, doc: seq<HtmlPrinter.Node>)
    requires HtmlPrinter.WellFormed(doc, HtmlPrinter.HIDDEN_NAMES)
    requires NoneOfType(Leaves(mail), "text/plain") && FirstOfType(Leaves(mail), i, "text/html")
    requires Leaves(mail)[i].body == Some(HtmlPrinter.Render(doc, 0))
    ensures ShownText(mail) == Some(Tidy.TidyText(HtmlPrinter.Flatten(doc)))
  {
    FoundFirst(mail, 0, "text/plain");
    FoundFirst(mail, i, "text/html");
    HtmlPrinter.PrintedDocumentReadsBack(doc);
    TidiedIsNormal(HtmlPrinter.Flatten(doc));
  }

  /** Files marked as attachments, whatever their types, by these names. */
  ghost predicate Files(files: seq<Mail>, names: seq<string>) {
    |files| == |names|
    && forall k :: 0 <= k < |files| ==>
         files[k].subparts == [] && files[k].attached && files[k].filename == Some(names[k])
         && Trim(names[k]) == names[k] != ""
  }

  lemma {:induction false} FilesNamed(files: seq<Mail>, names: seq<string>)
    requires Files(files, names)
    ensures LeavesOf(files) == files && NamesOf(files) == names
  {
    if files != [] {
      FilesNamed(files[1..], names[1..]);
      assert Leaves(files[0]) == [files[0]];
      assert [files[0]] + files[1..] == files && [names[0]] + names[1..] == names;
    }
  }

  /** A text part and files beside it. */
  lemma TextAndFiles(mail: Mail, text: Mail, files: seq<Mail>, names: seq<string>)
    requires mail.subparts == [text] + files && text.subparts == [] && Files(files, names)
    requires Lower(text.mimetype) == "text/html" && !text.attached
    ensures NoneOfType(Leaves(mail), "text/plain") && FirstOfType(Leaves(mail), 0, "text/html")
    ensures Leaves(mail)[0] == text && NamesOf(Leaves(mail)) == names
  {
    FilesNamed(files, names);
    assert ([text] + files)[1..] == files && Leaves(text) == [text];
    assert Leaves(mail) == [text] + files;
    assert "text/" <= "text/html";
    NamesAppend([text], files);
    assert [text][1..] == [] && NamesOf([text]) == [];
    assert [] + names == names;
  }
}
