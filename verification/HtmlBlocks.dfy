/** Which tags separate two texts and which join them. */
module HtmlBlocks {
  import opened Text
  import opened Strip
  import opened Html
  import opened Entities
  import opened HtmlPrinter
  import opened Tidy

  /** The name of a tag, and what may stand behind it. */
  predicate IsName(name: string) {
    && name != ""
    && forall i :: 0 <= i < |name| ==> !IsWhite(name[i]) && name[i] != '/' && name[i] != '<' && name[i] != '>'
  }

  predicate BehindName(behind: string) {
    (behind == "" || IsWhite(behind[0]) || behind[0] == '/') && '<' !in behind && '>' !in behind
  }

  /** The tag `n` slashes, a name and what stands behind it. */
  function TagNamed(n: nat, name: string, behind: string): string {
    Slashes(n) + (name + behind)
  }

  lemma {:induction false} SlashesOnly(n: nat)
    ensures '<' !in Slashes(n) && '>' !in Slashes(n) && (n > 0 ==> Slashes(n) != "" && Slashes(n)[0] == '/')
  {
    if n > 0 {
      SlashesOnly(n - 1);
    }
  }

  lemma NamedIsClosed(n: nat, name: string, behind: string)
    requires IsName(name) && BehindName(behind)
    ensures '<' !in TagNamed(n, name, behind) && '>' !in TagNamed(n, name, behind)
  {
    SlashesOnly(n);
  }

  predicate OpensNothing(tag: string) {
    !Starts(tag, "script") && !Starts(tag, "style") && !Starts(tag, "head")
  }

  /** A tag between two texts, as the printer writes it. */
  lemma TagBetween(a: string, tag: string, b: string)
    requires '<' !in tag && '>' !in tag && OpensNothing(tag)
    ensures HtmlToText(Escape(a) + (("<" + tag + ">") + Escape(b))) == TidyText(a + (Break(tag) + b))
  {
    var doc := [Shown(a), Tag(tag), Shown(b)];
    ThreeNodes(Shown(a), Tag(tag), Shown(b), 0);
    assert doc[1..] == [Tag(tag), Shown(b)] && doc[1..][1..] == [Shown(b)] && [Shown(b)][1..] == [];
    assert Plain([Shown(b)]) && Plain(doc[1..]);
    PlainIsWellFormed(doc);
    PrintedDocumentReadsBack(doc);
  }

  lemma SlashOpensNothing(n: nat, name: string, behind: string)
    requires n > 0
    ensures OpensNothing(TagNamed(n, name, behind))
  {
    SlashesOnly(n);
    assert TagNamed(n, name, behind)[0] == '/';
  }

  /** The block names begin like no hidden element. */
  lemma BlockOpensNothing(name: string, behind: string)
    requires IsName(name) && BehindName(behind)
    requires Lower(name)[0] != 's' && (Lower(name)[0] == 'h' ==> |name| >= 2 && Lower(name)[1] != 'e')
    ensures OpensNothing(name + behind)
  {
    var tag := name + behind;
    assert tag[0] == name[0];
    if |name| >= 2 {
      assert tag[1..][0] == name[1] && "head"[1..][0] == 'e';
    }
  }

  lemma BlockLetters(name: string)
    requires name in ["br", "p", "div", "tr", "li", "h1", "h2", "h3", "h4", "h5", "h6", "table", "blockquote", "hr"]
    ensures name != "" && name[0] != 's' && (name[0] == 'h' ==> |name| >= 2 && name[1] != 'e') && IsBlock(name)
  {
  }

  lemma OnlyTheseBreak(name: string)
    ensures IsBlock(name) <==>
              name in ["br", "p", "div", "tr", "li", "h1", "h2", "h3", "h4", "h5", "h6", "table", "blockquote", "hr"]
  {
  }

  lemma BreakOf(n: nat, name: string, behind: string)
    requires IsName(name) && BehindName(behind)
    ensures Break(TagNamed(n, name, behind)) == if IsBlock(Lower(name)) then "\n" else ""
  {
    BreaksByName(n, name, behind);
  }

  /** A tag of one of these fourteen names, in any letter case, opening or closing, with anything
      behind the name, puts the texts around it on lines of their own. */
  lemma BlockSeparates(a: string, n: nat, name: string, behind: string, b: string)
    requires IsName(name) && BehindName(behind)
    requires Lower(name) in
               ["br", "p", "div", "tr", "li", "h1", "h2", "h3", "h4", "h5", "h6", "table", "blockquote", "hr"]
    ensures HtmlToText(Escape(a) + (("<" + TagNamed(n, name, behind) + ">") + Escape(b))) == TidyText(a + ("\n" + b))
  {
    BlockLetters(Lower(name));
    NamedIsClosed(n, name, behind);
    BreakOf(n, name, behind);
    if n > 0 {
      SlashOpensNothing(n, name, behind);
    } else {
      BlockOpensNothing(name, behind);
      assert TagNamed(0, name, behind) == name + behind;
    }
    TagBetween(a, TagNamed(n, name, behind), b);
  }

  /** A tag of any other name that opens no hidden element leaves no trace. */
  lemma OtherJoins(a: string, n: nat, name: string, behind: string, b: string)
    requires IsName(name) && BehindName(behind) && OpensNothing(TagNamed(n, name, behind))
    requires Lower(name) !in
               ["br", "p", "div", "tr", "li", "h1", "h2", "h3", "h4", "h5", "h6", "table", "blockquote", "hr"]
    ensures HtmlToText(Escape(a) + (("<" + TagNamed(n, name, behind) + ">") + Escape(b))) == TidyText(a + b)
  {
    OnlyTheseBreak(Lower(name));
    NamedIsClosed(n, name, behind);
    BreakOf(n, name, behind);
    TagBetween(a, TagNamed(n, name, behind), b);
    assert "" + b == b;
  }

  // ---------------------------------------------------------------- as lines

  lemma OneLine(a: string)
    requires '\n' !in a && Words(a) != []
    ensures TidyText(a) == CollapseSpaces(a)
  {
    assert Lines(a) == [a];
    HasWord(a);
    CollapseTrimmed(a);
    assert [a][1..] == [];
    CollapsedIsNeat(a);
    assert TidyLoop([a], [], 0) == TidyLoop([], [] + [CollapseSpaces(a)], 0);
  }

  lemma HasWord(a: string)
    requires Words(a) != []
    ensures Trim(a) != "" && a != ""
  {
    WordsTrim(a);
  }

  lemma TwoLines(a: string, b: string)
    requires '\n' !in a && '\n' !in b && Words(a) != [] && Words(b) != []
    ensures TidyText(a + ("\n" + b)) == CollapseSpaces(a) + "\n" + CollapseSpaces(b)
  {
    LinesAfter(a, b);
    Assoc(a, "\n", b);
    WordsStripCr(a);
    HasWord(StripCr(a));
    HasWord(b);
    assert Lines(b) == [b];
    TwoKept(StripCr(a), b);
  }

  lemma TwoKept(a: string, b: string)
    requires Words(a) != [] && Words(b) != [] && Trim(a) != "" && Trim(b) != ""
    ensures Join(PopBlank(TidyLoop([a] + [b], [], 0)), "\n") == CollapseSpaces(a) + "\n" + CollapseSpaces(b)
  {
    CollapseTrimmed(a);
    CollapseTrimmed(b);
    var x, y := CollapseSpaces(a), CollapseSpaces(b);
    assert ([a] + [b])[1..] == [b] && [b][1..] == [];
    assert TidyLoop([a] + [b], [], 0) == TidyLoop([b], [] + [x], 0) == TidyLoop([], [] + [x] + [y], 0);
    assert [] + [x] + [y] == [x, y] && [x, y][1..] == [y];
  }

  /** So two texts of one line each come out as two lines around a block tag and as one around any
      other. */
  lemma LinesAround(a: string, n: nat, name: string, behind: string, b: string)
    requires IsName(name) && BehindName(behind) && OpensNothing(TagNamed(n, name, behind))
    requires '\n' !in a && '\n' !in b && Words(a) != [] && Words(b) != []
    ensures HtmlToText(Escape(a) + (("<" + TagNamed(n, name, behind) + ">") + Escape(b)))
         == if Lower(name) in
                 ["br", "p", "div", "tr", "li", "h1", "h2", "h3", "h4", "h5", "h6", "table", "blockquote", "hr"]
            then CollapseSpaces(a) + "\n" + CollapseSpaces(b)
            else CollapseSpaces(a + b)
  {
    if Lower(name) in
         ["br", "p", "div", "tr", "li", "h1", "h2", "h3", "h4", "h5", "h6", "table", "blockquote", "hr"] {
      BlockSeparates(a, n, name, behind, b);
      TwoLines(a, b);
    } else {
      OtherJoins(a, n, name, behind, b);
      JoinedHasWords(a, b);
      OneLine(a + b);
    }
  }

  lemma {:induction false} JoinedHasWords(a: string, b: string)
    requires Words(a) != []
    ensures Words(a + b) != []
  {
    assert (a + b)[0] == a[0] && (a + b)[1..] == a[1..] + b;
    if IsWhite(a[0]) {
      JoinedHasWords(a[1..], b);
    } else {
      SomeWord(a + b);
    }
  }
}
