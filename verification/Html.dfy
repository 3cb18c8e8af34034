/** The HTML part of a mail reduced to text. */
module Html {
  import opened Text
  import opened Strip
  import Entities
  import Tidy

  // ---------------------------------------------------------------- which tags break the line

  predicate EndsName(c: char) {
    IsWhite(c) || c == '/' || c == '>'
  }

  function TrimSlashes(tag: string): string {
    if tag != [] && tag[0] == '/' then TrimSlashes(tag[1..]) else tag
  }

  function NamePart(tag: string): string {
    if tag == [] || EndsName(tag[0]) then [] else [tag[0]] + NamePart(tag[1..])
  }

  predicate IsBlock(name: string) {
    name in {"br", "p", "div", "tr", "li", "h1", "h2", "h3", "h4", "h5", "h6", "table", "blockquote", "hr"}
  }

  predicate BreaksLine(tag: string) {
    IsBlock(Lower(NamePart(TrimSlashes(tag))))
  }

  function Slashes(n: nat): string {
    if n == 0 then "" else "/" + Slashes(n - 1)
  }

  lemma {:induction false} NameEnds(name: string, rest: string)
    requires forall i :: 0 <= i < |name| ==> !EndsName(name[i])
    requires rest == [] || EndsName(rest[0])
    ensures NamePart(name + rest) == name
  {
    if name == [] {
      assert name + rest == rest;
    } else {
      assert (name + rest)[1..] == name[1..] + rest;
      NameEnds(name[1..], rest);
    }
  }

  /** Opening or closing, in any case and with anything after the name: only the name counts. */
  lemma {:induction false} BreaksByName(n: nat, name: string, rest: string)
    requires name != [] && forall i :: 0 <= i < |name| ==> !EndsName(name[i])
    requires rest == [] || EndsName(rest[0])
    ensures BreaksLine(Slashes(n) + (name + rest)) <==> IsBlock(Lower(name))
  {
    if n == 0 {
      assert Slashes(0) + (name + rest) == name + rest && (name + rest)[0] == name[0];
      NameEnds(name, rest);
    } else {
      var tag := Slashes(n) + (name + rest);
      assert tag[0] == '/' && tag[1..] == Slashes(n - 1) + (name + rest);
      BreaksByName(n - 1, name, rest);
    }
  }

  // ---------------------------------------------------------------- tags

  function Break(tag: string): string {
    if BreaksLine(tag) then "\n" else ""
  }

  /** The tag whose '<' has just been read; without a '>' it runs to the end. */
  function TagText(s: string): string {
    if s == [] || s[0] == '>' then [] else [s[0]] + TagText(s[1..])
  }

  function DropTags(s: string): string
    decreases |s|
  {
    if s == [] then []
    else if s[0] != '<' then [s[0]] + DropTags(s[1..])
    else Break(TagText(s[1..])) + DropTags(AfterGt(s[1..]))
  }

  /** The inner loop: the tag read so far grows up to the '>'. */
  method ReadTag(chars: string, start: nat) returns (tag: string, pos: nat)
    requires start <= |chars|
    ensures start <= pos <= |chars| && tag == TagText(chars[start..]) && chars[pos..] == AfterGt(chars[start..])
  {
    tag := "";
    pos := start;
    while pos < |chars|
      invariant start <= pos <= |chars|
      invariant tag + TagText(chars[pos..]) == TagText(chars[start..])
      invariant AfterGt(chars[pos..]) == AfterGt(chars[start..])
    {
      var tagChar := chars[pos];
      ghost var here := chars[pos..];
      assert here[0] == tagChar && here[1..] == chars[pos + 1..];
      pos := pos + 1;
      if tagChar == '>' {
        return;
      }
      Assoc(tag, [tagChar], TagText(chars[pos..]));
      tag := tag + [tagChar];
    }
  }

  method WithoutTags(chars: string) returns (text: string)
    ensures text == DropTags(chars)
  {
    text := "";
    var pos := 0;
    assert chars[0..] == chars;
    while pos < |chars|
      invariant pos <= |chars| && text + DropTags(chars[pos..]) == DropTags(chars)
    {
      var ch := chars[pos];
      ghost var here := chars[pos..];
      assert here[0] == ch && here[1..] == chars[pos + 1..];
      pos := pos + 1;
      if ch != '<' {
        Assoc(text, [ch], DropTags(chars[pos..]));
        text := text + [ch];
        continue;
      }
      var tag;
      tag, pos := ReadTag(chars, pos);
      Assoc(text, Break(tag), DropTags(chars[pos..]));
      if BreaksLine(tag) {
        text := text + "\n";
      }
    }
  }

  function HtmlToText(html: string): string {
    Tidy.TidyText(Entities.DecodeEntities(DropTags(StripAll(html))))
  }

  method TextOfHtml(html: string) returns (text: string)
    ensures text == HtmlToText(html)
  {
    var withoutScripts := StripElements(html, ["script", "style", "head"]);
    text := WithoutTags(withoutScripts);
    text := Entities.Decoded(text);
    text := Tidy.Tidied(text);
  }

  /** On any input the tags go and nothing but line breaks comes in. */
  lemma {:induction false} DroppedNoLonger(s: string)
    ensures |DropTags(s)| <= |s| && '<' !in DropTags(s)
    decreases |s|
  {
    if s != [] {
      DroppedNoLonger(if s[0] != '<' then s[1..] else AfterGt(s[1..]));
    }
  }
}
