/** An HTML printer, and the proof that reducing its output to text undoes it. */
module HtmlPrinter {
  import opened Text
  import opened Strip
  import opened Html
  import opened Entities
  import Tidy

  // ---------------------------------------------------------------- documents

  /** Shown text, a tag by what stands between '<' and '>', a script, style or head element, or
      something raw inside such an element. The element's letter case is the writer's choice; its
      body includes the rest of its opening tag, its tail the rest of its closing tag. */
  datatype Node =
    | Shown(text: string)
    | Tag(inner: string)
    | Hidden(rank: nat, opener: string, body: seq<Node>, closer: string, tail: string)
    | Raw(raw: string)

  const HIDDEN_NAMES: nat := 3

  /** The hidden elements in the order in which they are removed. */
  function HiddenName(rank: nat): string {
    if rank == 0 then "script" else if rank == 1 then "style" else "head"
  }

  /** One of the two texts starts the other, in any letter case of the first. */
  predicate Compatible(a: string, p: string) {
    a == [] || p == [] || (LowerChar(a[0]) == p[0] && Compatible(a[1..], p[1..]))
  }

  /** No `p` starts in `a`, whatever comes behind it. */
  predicate Free(a: string, p: string) {
    a == [] || (!Compatible(a, p) && Free(a[1..], p))
  }

  /** No hidden element of rank below `rank` opens in `a`. */
  predicate NoOpener(a: string, rank: nat) {
    rank == 0 || (Free(a, "<" + HiddenName(rank - 1)) && NoOpener(a, rank - 1))
  }

  /** A document at top level, where `encl` is 3, or inside a hidden element of that rank: such an
      element holds anything but its own closing tag and openers of what is removed before it,
      save for whole elements of that kind. */
  predicate WellFormed(doc: seq<Node>, encl: nat) {
    doc == [] || (WellFormedNode(doc[0], encl) && WellFormed(doc[1..], encl))
  }

  predicate WellFormedNode(node: Node, encl: nat) {
    match node
    case Shown(_) => encl == HIDDEN_NAMES
    case Tag(inner) => encl == HIDDEN_NAMES && '>' !in inner && NoOpener(TagOf(inner), HIDDEN_NAMES)
    case Raw(raw) => encl < HIDDEN_NAMES && NoOpener(raw, encl) && Free(raw, "</" + HiddenName(encl))
    case Hidden(rank, opener, body, closer, tail) =>
      && rank < encl
      && Lower(opener) == HiddenName(rank) == Lower(closer)
      && WellFormed(body, rank)
      && '>' !in tail && NoOpener(tail, rank)
  }

  function TagOf(inner: string): string {
    "<" + inner + ">"
  }

  /** The printed document without its hidden elements of rank below `k`. */
  function Render(doc: seq<Node>, k: nat): string {
    if doc == [] then "" else RenderNode(doc[0], k) + Render(doc[1..], k)
  }

  function RenderNode(node: Node, k: nat): string {
    match node
    case Shown(text) => Escape(text)
    case Tag(inner) => TagOf(inner)
    case Raw(raw) => raw
    case Hidden(rank, opener, body, closer, tail) =>
      if rank < k then "" else ("<" + opener) + (Render(body, k) + (("</" + closer) + (tail + ">")))
  }

  /** What a reader is to see. */
  function Flatten(doc: seq<Node>): string {
    if doc == [] then "" else FlattenNode(doc[0]) + Flatten(doc[1..])
  }

  function FlattenNode(node: Node): string {
    match node
    case Shown(text) => text
    case Tag(inner) => Break(inner)
    case _ => ""
  }

  // ---------------------------------------------------------------- no occurrence starts here

  lemma {:induction false} StartsCompatible(a: string, b: string, p: string)
    requires Starts(a + b, p)
    ensures Compatible(a, p)
  {
    if a != [] && p != [] {
      assert (a + b)[0] == a[0] && (a + b)[1..] == a[1..] + b;
      StartsCompatible(a[1..], b, p[1..]);
    }
  }

  lemma {:induction false} CompatiblePrefix(a: string, b: string, p: string)
    requires Compatible(a + b, p)
    ensures Compatible(a, p)
  {
    if a != [] && p != [] {
      assert (a + b)[0] == a[0] && (a + b)[1..] == a[1..] + b;
      CompatiblePrefix(a[1..], b, p[1..]);
    }
  }

  lemma {:induction false} FreeAppend(a: string, b: string, p: string)
    requires Free(a, p) && Free(b, p)
    ensures Free(a + b, p)
  {
    if a == [] {
      assert a + b == b;
    } else {
      assert (a + b)[1..] == a[1..] + b;
      FreeAppend(a[1..], b, p);
      if Compatible(a + b, p) {
        CompatiblePrefix(a, b, p);
      }
    }
  }

  lemma {:induction false} FreeOfLt(a: string, p: string)
    requires '<' !in a && p != [] && p[0] == '<'
    ensures Free(a, p)
  {
    if a != [] {
      assert a[0] in a && a[1..] <= a[1..];
      FreeOfLt(a[1..], p);
    }
  }

  lemma {:induction false} StrippedFree(a: string, b: string, name: string)
    requires Free(a, "<" + name)
    ensures Stripped(a + b, name) == a + Stripped(b, name)
  {
    if a == [] {
      assert a + b == b;
    } else {
      assert (a + b)[0] == a[0] && (a + b)[1..] == a[1..] + b;
      StrippedFree(a[1..], b, name);
      if Starts(a + b, "<" + name) {
        StartsCompatible(a, b, "<" + name);
      }
    }
  }

  lemma {:induction false} FromFree(a: string, b: string, p: string)
    requires Free(a, p)
    ensures From(a + b, p) == From(b, p)
  {
    if a == [] {
      assert a + b == b;
    } else {
      assert (a + b)[0] == a[0] && (a + b)[1..] == a[1..] + b;
      FromFree(a[1..], b, p);
      if Starts(a + b, p) {
        StartsCompatible(a, b, p);
      }
    }
  }

  lemma {:induction false} StartsLowered(a: string, b: string)
    ensures Starts(a + b, Lower(a))
  {
    StartsLower(a + b, Lower(a));
    assert Lower(a + b) == Lower(a) + Lower(b);
  }

  lemma {:induction false} AfterGtSkips(a: string, b: string)
    requires '>' !in a
    ensures AfterGt(a + (">" + b)) == b
  {
    if a == [] {
      assert a + (">" + b) == ">" + b && (">" + b)[1..] == b;
    } else {
      var s := a + (">" + b);
      assert s[0] == a[0] && s[1..] == a[1..] + (">" + b);
      AfterGtSkips(a[1..], b);
    }
  }

  // ---------------------------------------------------------------- names and tags

  lemma EscapeHasNoLt(text: string)
    ensures '<' !in Escape(text)
  {
    if text != [] {
      EscapeHasNoLt(text[1..]);
    }
  }

  lemma {:induction false} OpenersApart(opener: string, rank: nat, k: nat)
    requires Lower(opener) == HiddenName(rank) && k < rank < HIDDEN_NAMES
    ensures Free("<" + opener, "<" + HiddenName(k))
  {
    var s, p := "<" + opener, "<" + HiddenName(k);
    assert '<' !in opener by {
      assert forall i :: 0 <= i < |opener| ==> LowerChar(opener[i]) == HiddenName(rank)[i];
    }
    assert s[1..] == opener && p[1..] == HiddenName(k);
    FreeOfLt(opener, p);
    assert !Compatible(opener, HiddenName(k)) by {
      assert LowerChar(opener[0]) == HiddenName(rank)[0] && LowerChar(opener[1]) == HiddenName(rank)[1];
      assert opener[1..][0] == opener[1] && HiddenName(k)[1..][0] == HiddenName(k)[1];
    }
  }

  lemma LtFree(a: string, p: string)
    requires a != [] && '<' !in a && |p| >= 2 && p[0] == '<' && LowerChar(a[0]) != p[1]
    ensures Free("<" + a, p)
  {
    var s := "<" + a;
    assert s[1..] == a;
    FreeOfLt(a, p);
    assert p[1..][0] == p[1] && !Compatible(a, p[1..]);
  }

  lemma LoweredHas(a: string, c: char)
    requires c in a && !('A' <= c <= 'Z')
    ensures c in Lower(a)
  {
    var i :| 0 <= i < |a| && a[i] == c;
    assert Lower(a)[i] == c;
  }

  /** What a hidden element's name, in any case, cannot be mistaken for. */
  lemma NameFacts(name: string, rank: nat)
    requires Lower(name) == HiddenName(rank)
    ensures name != [] && '<' !in name && '>' !in name && LowerChar(name[0]) != '/'
    ensures Lower("<" + name) == "<" + HiddenName(rank)
  {
    if '<' in name { LoweredHas(name, '<'); }
    if '>' in name { LoweredHas(name, '>'); }
    assert LowerChar(name[0]) == HiddenName(rank)[0];
  }

  lemma ClosingFacts(closer: string, rank: nat)
    requires Lower(closer) == HiddenName(rank)
    ensures '>' !in "</" + closer && '<' !in "/" + closer && "</" + closer == "<" + ("/" + closer)
    ensures Lower("</" + closer) == "</" + HiddenName(rank)
  {
    NameFacts(closer, rank);
  }

  lemma {:induction false} NoOpenerAt(a: string, rank: nat, k: nat)
    requires NoOpener(a, rank) && k < rank
    ensures Free(a, "<" + HiddenName(k))
  {
    if k < rank - 1 {
      NoOpenerAt(a, rank - 1, k);
    }
  }

  lemma ClosingApart(closer: string, tail: string, rank: nat, k: nat)
    requires Lower(closer) == HiddenName(rank) && NoOpener(tail, rank) && k < rank
    ensures Free(("</" + closer) + (tail + ">"), "<" + HiddenName(k))
  {
    var p := "<" + HiddenName(k);
    ClosingFacts(closer, rank);
    LtFree("/" + closer, p);
    NoOpenerAt(tail, rank, k);
    FreeOfLt(">", p);
    FreeAppend(tail, ">", p);
    FreeAppend("</" + closer, tail + ">", p);
  }

  // ---------------------------------------------------------------- one pass

  lemma {:induction false} BodyFree(doc: seq<Node>, rank: nat)
    requires WellFormed(doc, rank) && rank < HIDDEN_NAMES
    ensures Free(Render(doc, rank), "</" + HiddenName(rank))
  {
    if doc != [] {
      BodyFree(doc[1..], rank);
      FreeAppend(RenderNode(doc[0], rank), Render(doc[1..], rank), "</" + HiddenName(rank));
    }
  }

  lemma ElementGrouping(open: string, body: string, close: string, tail: string, rest: string)
    ensures (open + (body + (close + (tail + ">")))) + rest == open + (body + ((close + tail) + (">" + rest)))
    ensures (close + tail) + (">" + rest) == close + (tail + (">" + rest))
  {
  }

  /** A whole element of the pass's name goes. */
  lemma ElementGoes(opener: string, body: string, closer: string, tail: string, rank: nat, rest: string)
    requires Lower(opener) == HiddenName(rank) == Lower(closer) && '>' !in tail
    requires Free(body, "</" + HiddenName(rank))
    ensures Stripped((("<" + opener) + (body + (("</" + closer) + (tail + ">")))) + rest, HiddenName(rank))
         == Stripped(rest, HiddenName(rank))
  {
    var name, open, close := HiddenName(rank), "<" + opener, "</" + closer;
    NameFacts(opener, rank);
    ClosingFacts(closer, rank);
    ElementGrouping(open, body, close, tail, rest);
    var closing := (close + tail) + (">" + rest);
    StartsLowered(open, body + closing);
    LtFree(opener, "</" + name);
    FromFree(open, body + closing, "</" + name);
    FromFree(body, closing, "</" + name);
    StartsLowered(close, tail + (">" + rest));
    AfterGtSkips(close + tail, rest);
  }

  lemma KeptGrouping(open: string, body: string, close: string, rest: string)
    ensures (open + (body + close)) + rest == open + (body + (close + rest))
  {
  }

  /** An element of a later pass stays, around whatever the pass makes of its body. */
  lemma ElementStays(opener: string, before: string, after: string, closer: string, tail: string,
                     rank: nat, k: nat, rest: string)
    requires Lower(opener) == HiddenName(rank) == Lower(closer) && k < rank < HIDDEN_NAMES && NoOpener(tail, rank)
    requires var behind := (("</" + closer) + (tail + ">")) + rest;
             Stripped(before + behind, HiddenName(k)) == after + Stripped(behind, HiddenName(k))
    ensures Stripped((("<" + opener) + (before + (("</" + closer) + (tail + ">")))) + rest, HiddenName(k))
         == (("<" + opener) + (after + (("</" + closer) + (tail + ">")))) + Stripped(rest, HiddenName(k))
  {
    var name, open, close := HiddenName(k), "<" + opener, ("</" + closer) + (tail + ">");
    KeptGrouping(open, before, close, rest);
    OpenersApart(opener, rank, k);
    StrippedFree(open, before + (close + rest), name);
    ClosingApart(closer, tail, rank, k);
    StrippedFree(close, rest, name);
    KeptGrouping(open, after, close, Stripped(rest, name));
  }

  /** One pass over a printed document removes the elements of its name and nothing else. */
  lemma {:induction false} PassRemoves(doc: seq<Node>, encl: nat, k: nat, rest: string)
    requires WellFormed(doc, encl) && k < encl <= HIDDEN_NAMES
    ensures Stripped(Render(doc, k) + rest, HiddenName(k)) == Render(doc, k + 1) + Stripped(rest, HiddenName(k))
    decreases doc
  {
    if doc == [] {
      assert Render(doc, k) + rest == rest;
    } else {
      PassRemoves(doc[1..], encl, k, rest);
      PassNode(doc[0], encl, k, Render(doc[1..], k) + rest);
      Assoc(RenderNode(doc[0], k), Render(doc[1..], k), rest);
      Assoc(RenderNode(doc[0], k + 1), Render(doc[1..], k + 1), Stripped(rest, HiddenName(k)));
    }
  }

  lemma {:induction false} PassNode(node: Node, encl: nat, k: nat, rest: string)
    requires WellFormedNode(node, encl) && k < encl <= HIDDEN_NAMES
    ensures Stripped(RenderNode(node, k) + rest, HiddenName(k))
         == RenderNode(node, k + 1) + Stripped(rest, HiddenName(k))
    decreases node
  {
    var name := HiddenName(k);
    match node
    case Shown(text) =>
      EscapeHasNoLt(text);
      FreeOfLt(Escape(text), "<" + name);
      StrippedFree(Escape(text), rest, name);
    case Tag(inner) =>
      NoOpenerAt(TagOf(inner), HIDDEN_NAMES, k);
      StrippedFree(TagOf(inner), rest, name);
    case Raw(raw) =>
      NoOpenerAt(raw, encl, k);
      StrippedFree(raw, rest, name);
    case Hidden(rank, opener, body, closer, tail) =>
      if rank < k {
        assert RenderNode(node, k) + rest == rest;
      } else if rank == k {
        BodyFree(body, rank);
        ElementGoes(opener, Render(body, k), closer, tail, rank, rest);
      } else {
        PassRemoves(body, rank, k, (("</" + closer) + (tail + ">")) + rest);
        ElementStays(opener, Render(body, k), Render(body, k + 1), closer, tail, rank, k, rest);
      }
  }

  lemma WholePass(doc: seq<Node>, k: nat)
    requires WellFormed(doc, HIDDEN_NAMES) && k < HIDDEN_NAMES
    ensures Stripped(Render(doc, k), HiddenName(k)) == Render(doc, k + 1)
  {
    NothingBehind(Render(doc, k));
    NothingBehind(Render(doc, k + 1));
    PassRemoves(doc, HIDDEN_NAMES, k, "");
  }

  lemma PassesInOrder(a: string, b: string, c: string, d: string)
    requires Stripped(a, HiddenName(0)) == b && Stripped(b, HiddenName(1)) == c && Stripped(c, HiddenName(2)) == d
    ensures StripAll(a) == d
  {
  }

  /** The three passes together remove all hidden elements and nothing else. */
  lemma StripAllRemoves(doc: seq<Node>, printed: string)
    requires WellFormed(doc, HIDDEN_NAMES) && printed == Render(doc, 0)
    ensures StripAll(printed) == Render(doc, HIDDEN_NAMES)
  {
    var once, twice := Render(doc, 1), Render(doc, 2);
    WholePass(doc, 0);
    WholePass(doc, 1);
    WholePass(doc, 2);
    PassesInOrder(printed, once, twice, Render(doc, HIDDEN_NAMES));
  }

  lemma NothingBehind(s: string)
    ensures s + "" == s
  {
  }

  // ---------------------------------------------------------------- tags and entities

  lemma {:induction false} DropPlain(a: string, b: string)
    requires '<' !in a
    ensures DropTags(a + b) == a + DropTags(b)
  {
    if a == [] {
      assert a + b == b;
    } else {
      assert (a + b)[0] == a[0] && (a + b)[1..] == a[1..] + b;
      DropPlain(a[1..], b);
    }
  }

  lemma {:induction false} TagTextStops(inner: string, b: string)
    requires '>' !in inner
    ensures TagText(inner + (">" + b)) == inner
  {
    if inner == [] {
      assert inner + (">" + b) == ">" + b;
    } else {
      var s := inner + (">" + b);
      assert s[0] == inner[0] && s[1..] == inner[1..] + (">" + b);
      TagTextStops(inner[1..], b);
    }
  }

  lemma DropTag(inner: string, b: string)
    requires '>' !in inner
    ensures DropTags(TagOf(inner) + b) == Break(inner) + DropTags(b)
  {
    var s := TagOf(inner) + b;
    assert s[0] == '<' && s[1..] == inner + (">" + b);
    TagTextStops(inner, b);
    AfterGtSkips(inner, b);
  }

  /** Tags dropped and entities decoded: what the reader is to see. */
  lemma {:induction false} DecodedDocument(doc: seq<Node>)
    requires WellFormed(doc, HIDDEN_NAMES)
    ensures DecodeEntities(DropTags(Render(doc, HIDDEN_NAMES))) == Flatten(doc)
  {
    if doc != [] {
      var rest := Render(doc[1..], HIDDEN_NAMES);
      DecodedDocument(doc[1..]);
      match doc[0]
      case Shown(text) =>
        EscapeHasNoLt(text);
        DropPlain(Escape(text), rest);
        DecodeEscapedThen(text, DropTags(rest));
      case Tag(inner) =>
        DropTag(inner, rest);
        DecodePlain(Break(inner), DropTags(rest));
      case Hidden(_, _, _, _, _) =>
        assert "" + rest == rest && "" + Flatten(doc[1..]) == Flatten(doc[1..]);
    }
  }

  /** Reducing a printed document to text undoes the printing, up to the tidying of blanks. */
  lemma PrintedDocumentReadsBack(doc: seq<Node>)
    requires WellFormed(doc, HIDDEN_NAMES)
    ensures HtmlToText(Render(doc, 0)) == Tidy.TidyText(Flatten(doc))
  {
    StripAllRemoves(doc, Render(doc, 0));
    DecodedDocument(doc);
  }

  // ---------------------------------------------------------------- plain documents

  lemma {:induction false} CompatibleTag(inner: string, name: string)
    requires '>' !in name
    ensures Compatible(inner + ">", name) <==> Starts(inner, name)
  {
    if name != [] {
      if inner == [] {
        assert inner + ">" == ">" && LowerChar('>') == '>';
      } else {
        assert (inner + ">")[0] == inner[0] && (inner + ">")[1..] == inner[1..] + ">";
        CompatibleTag(inner[1..], name[1..]);
      }
    }
  }

  /** A tag without '<' is no opener exactly when no hidden element's name starts it, in any case. */
  lemma PlainTag(inner: string)
    requires '<' !in inner
    ensures NoOpener(TagOf(inner), HIDDEN_NAMES)
       <==> !Starts(inner, "script") && !Starts(inner, "style") && !Starts(inner, "head")
  {
    PlainTagFor(inner, 0);
    PlainTagFor(inner, 1);
    PlainTagFor(inner, 2);
    ThreeOpeners(TagOf(inner));
  }

  lemma ThreeOpeners(a: string)
    ensures NoOpener(a, 3)
       <==> Free(a, "<" + HiddenName(0)) && Free(a, "<" + HiddenName(1)) && Free(a, "<" + HiddenName(2))
  {
    assert NoOpener(a, 1) == Free(a, "<" + HiddenName(0));
    assert NoOpener(a, 2) == (Free(a, "<" + HiddenName(1)) && NoOpener(a, 1));
  }

  lemma PlainTagFor(inner: string, k: nat)
    requires '<' !in inner
    ensures Free(TagOf(inner), "<" + HiddenName(k)) <==> !Starts(inner, HiddenName(k))
  {
    var p := "<" + HiddenName(k);
    assert TagOf(inner)[1..] == inner + ">" && p[1..] == HiddenName(k);
    FreeOfLt(inner + ">", p);
    CompatibleTag(inner, HiddenName(k));
  }

  lemma {:induction false} StartsMore(a: string, b: string, p: string)
    requires Starts(a, p)
    ensures Starts(a + b, p)
  {
    if p != [] {
      assert (a + b)[0] == a[0] && (a + b)[1..] == a[1..] + b;
      StartsMore(a[1..], b, p[1..]);
    }
  }

  lemma TagLost(inner: string, behind: string, name: string)
    requires Starts(inner, name)
    ensures |Stripped(TagOf(inner) + behind, name)| < |TagOf(inner) + behind|
  {
    var s := TagOf(inner) + behind;
    StartsMore(inner, ">" + behind, name);
    assert s[0] == '<' && s[1..] == inner + (">" + behind) && ("<" + name)[1..] == name;
    assert Starts(s, "<" + name);
    StrippedLength(AfterElement(s, name), name);
  }

  /** The pass looks at the start of a name only: a tag and the text behind it survive exactly
      when the tag's name does not begin like the element's, so <header> goes the way of <head>. */
  lemma TagStays(inner: string, text: string, k: nat)
    requires '<' !in inner
    ensures var s := TagOf(inner) + Escape(text);
            Stripped(s, HiddenName(k)) == s <==> !Starts(inner, HiddenName(k))
  {
    var name := HiddenName(k);
    if Starts(inner, name) {
      TagLost(inner, Escape(text), name);
    } else {
      PlainTagFor(inner, k);
      EscapeHasNoLt(text);
      FreeOfLt(Escape(text), "<" + name);
      FreeAppend(TagOf(inner), Escape(text), "<" + name);
      NothingBehind(TagOf(inner) + Escape(text));
      StrippedFree(TagOf(inner) + Escape(text), "", name);
    }
  }

  /** A document whose tags and hidden elements hold no '<' inside. */
  predicate Plain(doc: seq<Node>) {
    doc == [] || (PlainNode(doc[0]) && Plain(doc[1..]))
  }

  predicate PlainNode(node: Node) {
    match node
    case Shown(_) => true
    case Tag(inner) =>
      '<' !in inner && '>' !in inner
      && !Starts(inner, "script") && !Starts(inner, "style") && !Starts(inner, "head")
    case Hidden(rank, opener, body, closer, tail) =>
      rank < HIDDEN_NAMES && Lower(opener) == HiddenName(rank) == Lower(closer)
      && |body| == 1 && body[0].Raw? && '<' !in body[0].raw && '<' !in tail && '>' !in tail
    case Raw(_) => false
  }

  lemma {:induction false} NoLtNoOpener(a: string, rank: nat)
    requires '<' !in a
    ensures NoOpener(a, rank)
  {
    if rank > 0 {
      FreeOfLt(a, "<" + HiddenName(rank - 1));
      NoLtNoOpener(a, rank - 1);
    }
  }

  lemma {:induction false} PlainIsWellFormed(doc: seq<Node>)
    requires Plain(doc)
    ensures WellFormed(doc, HIDDEN_NAMES)
  {
    if doc != [] {
      PlainIsWellFormed(doc[1..]);
      match doc[0]
      case Shown(_) =>
      case Tag(inner) => PlainTag(inner);
      case Hidden(rank, opener, body, closer, tail) =>
        NoLtNoOpener(tail, rank);
        NoLtNoOpener(body[0].raw, rank);
        FreeOfLt(body[0].raw, "</" + HiddenName(rank));
        assert body[1..] == [] && WellFormed(body[1..], rank) && WellFormedNode(body[0], rank);
    }
  }

  // ---------------------------------------------------------------- tags that begin like a hidden element

  /** Shown text and tags only, no bracket inside a tag. */
  predicate TagsAndText(doc: seq<Node>) {
    doc == [] ||
    (match doc[0]
     case Shown(_) => TagsAndText(doc[1..])
     case Tag(inner) => '<' !in inner && '>' !in inner && TagsAndText(doc[1..])
     case _ => false)
  }

  predicate BeginsHidden(node: Node) {
    node.Tag? && (Starts(node.inner, "script") || Starts(node.inner, "style") || Starts(node.inner, "head"))
  }

  /** Some tag begins like the name of a hidden element. */
  predicate SomeBeginsHidden(doc: seq<Node>) {
    doc != [] && (BeginsHidden(doc[0]) || SomeBeginsHidden(doc[1..]))
  }

  lemma {:induction false} TagsAndTextPlain(doc: seq<Node>)
    requires TagsAndText(doc) && !SomeBeginsHidden(doc)
    ensures Plain(doc) && Render(doc, HIDDEN_NAMES) == Render(doc, 0)
  {
    if doc != [] {
      TagsAndTextPlain(doc[1..]);
    }
  }

  lemma OpenerFound(s: string, i: nat, name: string)
    requires i < |s| && At(s, i, "<" + name)
    ensures HasOpener(s, name)
  {
    assert s[0..] == s && Lower(s)[0..] == Lower(s);
    var first := FindFrom(s, 0, "<" + name);
  }

  lemma TagOpens(inner: string, behind: string, name: string)
    requires Starts(inner, name)
    ensures At(TagOf(inner) + behind, 0, "<" + name)
  {
    var s := TagOf(inner) + behind;
    StartsMore(inner, ">" + behind, name);
    assert s[0..] == s && s[0] == '<' && s[1..] == inner + (">" + behind) && ("<" + name)[1..] == name;
  }

  lemma {:induction false} OpenerIn(doc: seq<Node>) returns (i: nat, k: nat)
    requires TagsAndText(doc) && SomeBeginsHidden(doc)
    ensures i < |Render(doc, 0)| && k < HIDDEN_NAMES && At(Render(doc, 0), i, "<" + HiddenName(k))
  {
    var rest := Render(doc[1..], 0);
    if BeginsHidden(doc[0]) {
      i := 0;
      k := if Starts(doc[0].inner, HiddenName(0)) then 0 else if Starts(doc[0].inner, HiddenName(1)) then 1 else 2;
      TagOpens(doc[0].inner, rest, HiddenName(k));
    } else {
      var j;
      j, k := OpenerIn(doc[1..]);
      var head := RenderNode(doc[0], 0);
      i := |head| + j;
      assert (head + rest)[i..] == rest[j..];
    }
  }

  /** Stripping leaves a document of text and tags alone if and only if no tag begins like the
      name of a hidden element. */
  lemma TagsStay(doc: seq<Node>)
    requires TagsAndText(doc)
    ensures StripAll(Render(doc, 0)) == Render(doc, 0) <==> !SomeBeginsHidden(doc)
  {
    var printed := Render(doc, 0);
    if SomeBeginsHidden(doc) {
      var i, k := OpenerIn(doc);
      OpenerFound(printed, i, HiddenName(k));
      StripAllIdentity(printed);
    } else {
      TagsAndTextPlain(doc);
      PlainIsWellFormed(doc);
      StripAllRemoves(doc, printed);
    }
  }

  lemma TidyOfNothing()
    ensures Tidy.TidyText("") == ""
  {
  }

  /** So a header vanishes with all its text, which by its tags would be shown. */
  lemma HeaderVanishes(text: string)
    ensures var doc := [Tag("header"), Shown(text), Tag("/header")];
            TagsAndText(doc) && Flatten(doc) == text && HtmlToText(Render(doc, 0)) == ""
  {
    var doc := [Tag("header"), Shown(text), Tag("/header")];
    var hidden := [Hidden(2, "head", [Raw("er>" + Escape(text))], "head", "er")];
    HeaderRenders(text);
    HeaderIsPlain(text);
    PlainIsWellFormed(hidden);
    PrintedDocumentReadsBack(hidden);
    assert hidden[1..] == [];
    TidyOfNothing();
    HeaderFlattens(text);
  }

  lemma HeaderIsPlain(text: string)
    ensures Plain([Hidden(2, "head", [Raw("er>" + Escape(text))], "head", "er")])
  {
    var hidden := [Hidden(2, "head", [Raw("er>" + Escape(text))], "head", "er")];
    EscapeHasNoLt(text);
    assert hidden[1..] == [] && Lower("head") == "head";
  }

  lemma OneNode(a: Node, k: nat)
    ensures Flatten([a]) == FlattenNode(a) && Render([a], k) == RenderNode(a, k)
  {
    assert [a][1..] == [];
    NothingBehind(FlattenNode(a));
    NothingBehind(RenderNode(a, k));
  }

  lemma NodeFirst(a: Node, rest: seq<Node>, k: nat)
    ensures Flatten([a] + rest) == FlattenNode(a) + Flatten(rest)
    ensures Render([a] + rest, k) == RenderNode(a, k) + Render(rest, k)
  {
    assert ([a] + rest)[1..] == rest;
  }

  lemma ThreeNodes(a: Node, b: Node, c: Node, k: nat)
    ensures Flatten([a, b, c]) == FlattenNode(a) + (FlattenNode(b) + FlattenNode(c))
    ensures Render([a, b, c], k) == RenderNode(a, k) + (RenderNode(b, k) + RenderNode(c, k))
  {
    assert [a, b, c] == [a] + [b, c] && [b, c] == [b] + [c];
    NodeFirst(a, [b, c], k);
    NodeFirst(b, [c], k);
    OneNode(c, k);
  }

  lemma BreaksLikeItsName(name: string)
    requires name != [] && forall i :: 0 <= i < |name| ==> !EndsName(name[i])
    ensures BreaksLine(name) <==> IsBlock(Lower(name))
    ensures BreaksLine("/" + name) <==> IsBlock(Lower(name))
  {
    BreaksByName(0, name, "");
    NothingBehind(name);
    assert Slashes(0) + name == name && ("/" + name)[1..] == name;
  }

  lemma HeaderBreaksNoLine()
    ensures Break("header") == "" && Break("/header") == ""
  {
    BreaksLikeItsName("header");
    assert Lower("header") == "header";
    assert "/" + "header" == "/header";
  }

  lemma TextBetweenTags(a: string, text: string, b: string)
    requires '<' !in a && '>' !in a && '<' !in b && '>' !in b
    ensures TagsAndText([Tag(a), Shown(text), Tag(b)])
    ensures Flatten([Tag(a), Shown(text), Tag(b)]) == Break(a) + (text + Break(b))
  {
    var doc := [Tag(a), Shown(text), Tag(b)];
    ThreeNodes(Tag(a), Shown(text), Tag(b), 0);
    assert doc[1..] == [Shown(text), Tag(b)] && doc[1..][1..] == [Tag(b)] && [Tag(b)][1..] == [];
    assert TagsAndText([Tag(b)]) && TagsAndText(doc[1..]);
  }

  lemma HeaderFlattens(text: string)
    ensures TagsAndText([Tag("header"), Shown(text), Tag("/header")])
    ensures Flatten([Tag("header"), Shown(text), Tag("/header")]) == text
  {
    TextBetweenTags("header", text, "/header");
    HeaderBreaksNoLine();
    assert "" + (text + "") == text;
  }

  lemma SameHeader(shown: string)
    ensures "<header>" + (shown + "</header>") == "<head" + (("er>" + shown) + ("</head" + ("er" + ">")))
  {
  }

  lemma TagsAround(a: string, text: string, b: string, k: nat)
    ensures Render([Tag(a), Shown(text), Tag(b)], k) == TagOf(a) + (Escape(text) + TagOf(b))
  {
    ThreeNodes(Tag(a), Shown(text), Tag(b), k);
  }

  lemma HeaderTags()
    ensures TagOf("header") == "<header>" && TagOf("/header") == "</header>"
  {
  }

  lemma HeaderElement(raw: string)
    ensures Render([Hidden(2, "head", [Raw(raw)], "head", "er")], 0) == "<head" + (raw + ("</head" + ("er" + ">")))
  {
    OneNode(Raw(raw), 0);
    OneNode(Hidden(2, "head", [Raw(raw)], "head", "er"), 0);
    assert "<" + "head" == "<head" && "</" + "head" == "</head";
  }

  lemma HeaderRenders(text: string)
    ensures Render([Tag("header"), Shown(text), Tag("/header")], 0)
         == Render([Hidden(2, "head", [Raw("er>" + Escape(text))], "head", "er")], 0)
  {
    TagsAround("header", text, "/header", 0);
    HeaderTags();
    HeaderElement("er>" + Escape(text));
    SameHeader(Escape(text));
  }
}
