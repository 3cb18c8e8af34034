/** Whitespace tidying of text recovered from HTML. */
module Tidy {
  import opened Text

  function CollapseSpaces(line: string): string {
    Join(Words(line), " ")
  }

  /** The loop: the lines kept so far and the length of the current run of blank ones. */
  function TidyLoop(input: seq<string>, lines: seq<string>, blankRun: nat): seq<string> {
    if input == [] then lines
    else
      var line := Trim(input[0]);
      if line == "" then
        if blankRun + 1 > 1 || lines == [] then TidyLoop(input[1..], lines, blankRun + 1)
        else TidyLoop(input[1..], lines + [""], blankRun + 1)
      else TidyLoop(input[1..], lines + [CollapseSpaces(line)], 0)
  }

  function PopBlank(lines: seq<string>): seq<string> {
    if lines != [] && lines[|lines| - 1] == "" then PopBlank(lines[..|lines| - 1]) else lines
  }

  function TidiedLines(text: string): seq<string> {
    PopBlank(TidyLoop(Lines(text), [], 0))
  }

  function TidyText(text: string): string {
    Join(TidiedLines(text), "\n")
  }

  method Tidied(text: string) returns (r: string)
    ensures r == TidyText(text)
  {
    var input := Lines(text);
    var lines: seq<string> := [];
    var blankRun := 0;
    for i := 0 to |input|
      invariant TidyLoop(input[i..], lines, blankRun) == TidyLoop(input, [], 0)
    {
      assert input[i..][1..] == input[i + 1..];
      var line := Trim(input[i]);
      if line == "" {
        blankRun := blankRun + 1;
        if blankRun > 1 || lines == [] {
          continue;
        }
        lines := lines + [""];
      } else {
        blankRun := 0;
        lines := lines + [CollapseSpaces(line)];
      }
    }
    while lines != [] && lines[|lines| - 1] == ""
      invariant PopBlank(lines) == TidiedLines(text)
    {
      lines := lines[..|lines| - 1];
    }
    r := Join(lines, "\n");
  }

  // ---------------------------------------------------------------- words

  lemma {:induction false} WordEndWithin(a: string, w: char, b: string)
    requires IsWhite(w)
    ensures WordEnd(a + [w] + b) == WordEnd(a)
  {
    if a == [] {
      assert (a + [w] + b)[0] == w;
    } else {
      assert (a + [w] + b)[0] == a[0];
      if !IsWhite(a[0]) {
        assert (a + [w] + b)[1..] == a[1..] + [w] + b;
        WordEndWithin(a[1..], w, b);
      }
    }
  }

  /** Whitespace separates: the words of two texts with a blank between are theirs in turn. */
  lemma {:induction false} WordsApart(a: string, w: char, b: string)
    requires IsWhite(w)
    ensures Words(a + [w] + b) == Words(a) + Words(b)
    decreases |a|
  {
    var s := a + [w] + b;
    if a == [] {
      assert s[1..] == b;
    } else if IsWhite(a[0]) {
      assert s[1..] == a[1..] + [w] + b;
      WordsApart(a[1..], w, b);
    } else {
      var n := WordEnd(a);
      WordEndWithin(a, w, b);
      assert s[..n] == a[..n] && s[n..] == a[n..] + [w] + b;
      WordsApart(a[n..], w, b);
    }
  }

  lemma WordsEndWhite(a: string, w: char)
    requires IsWhite(w)
    ensures Words(a + [w]) == Words(a)
  {
    WordsApart(a, w, "");
    assert a + [w] + "" == a + [w];
  }

  lemma {:induction false} WordsTrimStart(s: string)
    ensures Words(TrimStart(s)) == Words(s)
  {
    if s != [] && IsWhite(s[0]) {
      WordsTrimStart(s[1..]);
    }
  }

  lemma {:induction false} WordsTrimEnd(s: string)
    ensures Words(TrimEnd(s)) == Words(s)
  {
    if s != [] && IsWhite(s[|s| - 1]) {
      WordsTrimEnd(s[..|s| - 1]);
      WordsEndWhite(s[..|s| - 1], s[|s| - 1]);
      assert s == s[..|s| - 1] + [s[|s| - 1]];
    }
  }

  lemma WordsTrim(s: string)
    ensures Words(Trim(s)) == Words(s)
  {
    WordsTrimStart(s);
    WordsTrimEnd(TrimStart(s));
  }

  lemma WordsStripCr(s: string)
    ensures Words(StripCr(s)) == Words(s)
  {
    if s != [] && s[|s| - 1] == '\r' {
      WordsEndWhite(s[..|s| - 1], '\r');
      assert s == s[..|s| - 1] + ['\r'];
    }
  }

  function WordsOf(lines: seq<string>): seq<string> {
    if lines == [] then [] else Words(lines[0]) + WordsOf(lines[1..])
  }

  lemma {:induction false} WordsOfAppend(lines: seq<string>, line: string)
    ensures WordsOf(lines + [line]) == WordsOf(lines) + Words(line)
  {
    if lines == [] {
      assert lines + [line] == [line];
    } else {
      assert (lines + [line])[1..] == lines[1..] + [line];
      WordsOfAppend(lines[1..], line);
    }
  }

  lemma {:induction false} WordsOfLines(text: string)
    ensures WordsOf(Lines(text)) == Words(text)
    decreases |text|
  {
    if text != [] {
      var i := IndexOf(text, '\n');
      if i == |text| {
        assert WordsOf([text]) == Words(text);
      } else {
        assert text == text[..i] + ['\n'] + text[i + 1..];
        WordsApart(text[..i], '\n', text[i + 1..]);
        WordsStripCr(text[..i]);
        WordsOfLines(text[i + 1..]);
        assert Lines(text)[1..] == Lines(text[i + 1..]);
      }
    }
  }

  lemma {:induction false} WordsOfJoin(lines: seq<string>, w: char)
    requires IsWhite(w)
    ensures Words(Join(lines, [w])) == WordsOf(lines)
  {
    if |lines| == 1 {
      assert WordsOf(lines) == Words(lines[0]) + [];
    } else if |lines| > 1 {
      WordsOfJoin(lines[1..], w);
      WordsApart(lines[0], w, Join(lines[1..], [w]));
    }
  }

  lemma WholeWord(word: string)
    requires word != "" && NoWhite(word)
    ensures Words(word) == [word]
  {
    assert WordEnd(word) == |word|;
    assert word[..|word|] == word && word[|word|..] == [];
  }

  lemma {:induction false} WordsOfWords(words: seq<string>)
    requires forall i :: 0 <= i < |words| ==> words[i] != "" && NoWhite(words[i])
    ensures WordsOf(words) == words
  {
    if words != [] {
      WholeWord(words[0]);
      WordsOfWords(words[1..]);
    }
  }

  lemma CollapseKeepsWords(line: string)
    ensures Words(CollapseSpaces(line)) == Words(line)
  {
    WordsOfJoin(Words(line), ' ');
    WordsOfWords(Words(line));
  }

  lemma {:induction false} LoopKeepsWords(input: seq<string>, lines: seq<string>, blankRun: nat)
    ensures WordsOf(TidyLoop(input, lines, blankRun)) == WordsOf(lines) + WordsOf(input)
  {
    if input != [] {
      var line := Trim(input[0]);
      WordsTrim(input[0]);
      WordsOfAppend(lines, "");
      WordsOfAppend(lines, CollapseSpaces(line));
      CollapseKeepsWords(line);
      if line == "" {
        LoopKeepsWords(input[1..], lines, blankRun + 1);
        LoopKeepsWords(input[1..], lines + [""], blankRun + 1);
      } else {
        LoopKeepsWords(input[1..], lines + [CollapseSpaces(line)], 0);
      }
    }
  }

  lemma {:induction false} PopKeepsWords(lines: seq<string>)
    ensures WordsOf(PopBlank(lines)) == WordsOf(lines)
  {
    if lines != [] && lines[|lines| - 1] == "" {
      var rest := lines[..|lines| - 1];
      PopKeepsWords(rest);
      WordsOfAppend(rest, "");
      assert lines == rest + [""];
    }
  }

  /** Tidying keeps exactly the text's words, in order. */
  lemma TidyKeepsWords(text: string)
    ensures Words(TidyText(text)) == Words(text)
  {
    WordsOfLines(text);
    LoopKeepsWords(Lines(text), [], 0);
    PopKeepsWords(TidyLoop(Lines(text), [], 0));
    WordsOfJoin(TidiedLines(text), '\n');
  }

  // ---------------------------------------------------------------- lines

  /** The lines with something on them, each with single spaces between its words. */
  function CollapsedLines(lines: seq<string>): seq<string> {
    if lines == [] then []
    else (if Trim(lines[0]) == "" then [] else [CollapseSpaces(lines[0])]) + CollapsedLines(lines[1..])
  }

  function NonBlank(lines: seq<string>): seq<string> {
    if lines == [] then [] else (if lines[0] == "" then [] else [lines[0]]) + NonBlank(lines[1..])
  }

  lemma {:induction false} NonBlankAppend(lines: seq<string>, line: string)
    ensures NonBlank(lines + [line]) == NonBlank(lines) + if line == "" then [] else [line]
  {
    if lines == [] {
      assert lines + [line] == [line];
    } else {
      assert (lines + [line])[0] == lines[0] && (lines + [line])[1..] == lines[1..] + [line];
      NonBlankAppend(lines[1..], line);
    }
  }

  lemma CollapseTrimmed(line: string)
    ensures CollapseSpaces(Trim(line)) == CollapseSpaces(line)
    ensures Trim(line) != "" ==> CollapseSpaces(line) != ""
  {
    WordsTrim(line);
    if Trim(line) != "" {
      TrimmedHasWord(line);
      CollapsedIsNeat(line);
    }
  }

  lemma {:induction false} LoopKeepsLines(input: seq<string>, lines: seq<string>, blankRun: nat)
    ensures NonBlank(TidyLoop(input, lines, blankRun)) == NonBlank(lines) + CollapsedLines(input)
  {
    if input != [] {
      CollapseTrimmed(input[0]);
      if Trim(input[0]) == "" {
        NonBlankAppend(lines, "");
        LoopKeepsLines(input[1..], lines, blankRun + 1);
        LoopKeepsLines(input[1..], lines + [""], blankRun + 1);
      } else {
        var line := CollapseSpaces(Trim(input[0]));
        NonBlankAppend(lines, line);
        LoopKeepsLines(input[1..], lines + [line], 0);
      }
    }
  }

  lemma {:induction false} PopKeepsLines(lines: seq<string>)
    ensures NonBlank(PopBlank(lines)) == NonBlank(lines)
  {
    if lines != [] && lines[|lines| - 1] == "" {
      var rest := lines[..|lines| - 1];
      PopKeepsLines(rest);
      NonBlankAppend(rest, "");
      assert lines == rest + [""];
    }
  }

  /** Words stay on their lines: the result's lines that are not blank are the text's, in order,
      with single spaces between their words. */
  lemma TidyKeepsLines(text: string)
    ensures NonBlank(Lines(TidyText(text))) == CollapsedLines(Lines(text))
  {
    LoopKeepsLines(Lines(text), [], 0);
    PopKeepsLines(TidyLoop(Lines(text), [], 0));
    TidyIsCanonical(text);
  }

  // ---------------------------------------------------------------- canonical form

  /** Words with single spaces between them, and nothing around. */
  predicate Neat(line: string) {
    line != "" && line == CollapseSpaces(line)
  }

  /** No blank line first, last or next to another; every other line neat. */
  ghost predicate Canonical(lines: seq<string>) {
    && (forall i :: 0 <= i < |lines| ==> lines[i] == "" || Neat(lines[i]))
    && (lines != [] ==> lines[0] != "" && lines[|lines| - 1] != "")
    && (forall i :: 0 < i < |lines| ==> lines[i - 1] != "" || lines[i] != "")
  }

  lemma {:induction false} JoinedWords(words: seq<string>)
    requires words != [] && forall i :: 0 <= i < |words| ==> words[i] != "" && NoWhite(words[i])
    ensures var s := Join(words, " ");
            s != "" && !IsWhite(s[0]) && !IsWhite(s[|s| - 1]) && '\n' !in s
  {
    if |words| > 1 {
      JoinedWords(words[1..]);
    }
    assert '\n' !in words[0] by {
      assert forall k :: 0 <= k < |words[0]| ==> !IsWhite(words[0][k]);
    }
  }

  lemma CollapsedIsNeat(line: string)
    requires Words(line) != []
    ensures Neat(CollapseSpaces(line))
  {
    CollapseKeepsWords(line);
    JoinedWords(Words(line));
  }

  lemma NeatEdges(line: string)
    requires Neat(line)
    ensures !IsWhite(line[0]) && !IsWhite(line[|line| - 1]) && '\n' !in line
    ensures Trim(line) == line && StripCr(line) == line
  {
    JoinedWords(Words(line));
    assert TrimStart(line) == line;
  }

  lemma {:induction false} SomeWord(line: string)
    requires line != "" && !IsWhite(line[0])
    ensures Words(line) != []
  {
  }

  lemma TrimmedHasWord(s: string)
    requires Trim(s) != ""
    ensures Words(Trim(s)) != []
  {
    var t := TrimStart(s);
    assert Trim(s) <= t && Trim(s)[0] == t[0];
    SomeWord(Trim(s));
  }

  /** What the loop keeps of its lines. */
  ghost predicate Tidying(lines: seq<string>, blankRun: nat) {
    && (forall i :: 0 <= i < |lines| ==> lines[i] == "" || Neat(lines[i]))
    && (lines != [] ==> lines[0] != "")
    && (forall i :: 0 < i < |lines| ==> lines[i - 1] != "" || lines[i] != "")
    && (blankRun == 0 && lines != [] ==> lines[|lines| - 1] != "")
  }

  lemma TidyingAppend(lines: seq<string>, run: nat, line: string)
    requires Tidying(lines, run) && (line == "" || Neat(line))
    requires line == "" ==> run == 0 && lines != []
    ensures Tidying(lines + [line], if line == "" then 1 else 0)
  {
  }

  lemma {:induction false} LoopTidies(input: seq<string>, lines: seq<string>, blankRun: nat) returns (run: nat)
    requires Tidying(lines, blankRun)
    ensures Tidying(TidyLoop(input, lines, blankRun), run)
  {
    if input == [] {
      return blankRun;
    }
    var line := Trim(input[0]);
    if line != "" {
      TrimmedHasWord(input[0]);
      CollapsedIsNeat(line);
      TidyingAppend(lines, blankRun, CollapseSpaces(line));
      run := LoopTidies(input[1..], lines + [CollapseSpaces(line)], 0);
    } else if blankRun + 1 > 1 || lines == [] {
      run := LoopTidies(input[1..], lines, blankRun + 1);
    } else {
      TidyingAppend(lines, blankRun, "");
      run := LoopTidies(input[1..], lines + [""], blankRun + 1);
    }
  }

  lemma {:induction false} PopCanonical(lines: seq<string>, run: nat)
    requires Tidying(lines, run)
    ensures Canonical(PopBlank(lines))
  {
    if lines != [] && lines[|lines| - 1] == "" {
      assert Tidying(lines[..|lines| - 1], 1);
      PopCanonical(lines[..|lines| - 1], 1);
    }
  }

  lemma LinesOfOne(line: string)
    requires line != "" && '\n' !in line
    ensures Lines(line) == [line]
  {
  }

  lemma LinesOfTwo(line: string, rest: seq<string>)
    requires rest != [] && '\n' !in line && StripCr(line) == line
    ensures Lines(Join([line] + rest, "\n")) == [line] + Lines(Join(rest, "\n"))
  {
    assert ([line] + rest)[1..] == rest;
    LinesAfter(line, Join(rest, "\n"));
  }

  lemma {:induction false} LinesOfJoin(lines: seq<string>)
    requires forall i :: 0 <= i < |lines| ==> lines[i] == "" || Neat(lines[i])
    requires lines != [] ==> lines[|lines| - 1] != ""
    ensures Lines(Join(lines, "\n")) == lines
  {
    if lines != [] {
      if lines[0] != "" { NeatEdges(lines[0]); }
      assert lines == [lines[0]] + lines[1..];
      if |lines| == 1 {
        LinesOfOne(lines[0]);
      } else {
        LinesOfJoin(lines[1..]);
        LinesOfTwo(lines[0], lines[1..]);
      }
    }
  }

  /** The result reads back as lines in canonical form. */
  lemma TidyIsCanonical(text: string)
    ensures Canonical(TidiedLines(text)) && Lines(TidyText(text)) == TidiedLines(text)
  {
    var run := LoopTidies(Lines(text), [], 0);
    PopCanonical(TidyLoop(Lines(text), [], 0), run);
    LinesOfJoin(TidiedLines(text));
  }

  lemma KeepsNeat(line: string, rest: seq<string>, lines: seq<string>, run: nat)
    requires Neat(line)
    ensures TidyLoop([line] + rest, lines, run) == TidyLoop(rest, lines + [line], 0)
  {
    NeatEdges(line);
    assert ([line] + rest)[1..] == rest;
  }

  lemma KeepsBlank(rest: seq<string>, lines: seq<string>)
    requires lines != []
    ensures TidyLoop([""] + rest, lines, 0) == TidyLoop(rest, lines + [""], 1)
  {
    assert Trim("") == "" && ([""] + rest)[1..] == rest;
  }

  lemma CutAt(lines: seq<string>, n: nat)
    requires n < |lines|
    ensures lines[n..] == [lines[n]] + lines[n + 1..] && lines[..n] + [lines[n]] == lines[..n + 1]
  {
  }

  lemma {:induction false} LoopKeepsCanonical(lines: seq<string>, n: nat)
    requires Canonical(lines) && n <= |lines|
    ensures TidyLoop(lines[n..], lines[..n], if n > 0 && lines[n - 1] == "" then 1 else 0) == lines
    decreases |lines| - n
  {
    if n < |lines| {
      LoopKeepsCanonical(lines, n + 1);
      CutAt(lines, n);
      if lines[n] != "" {
        KeepsNeat(lines[n], lines[n + 1..], lines[..n], if n > 0 && lines[n - 1] == "" then 1 else 0);
      } else {
        KeepsBlank(lines[n + 1..], lines[..n]);
      }
    } else {
      assert lines[n..] == [] && lines[..n] == lines;
    }
  }

  /** Tidying changes a text exactly when it is not already canonical lines joined by newlines. */
  lemma TidyFixes(text: string)
    ensures TidyText(text) == text <==> Canonical(Lines(text)) && text == Join(Lines(text), "\n")
  {
    TidyIsCanonical(text);
    var lines := Lines(text);
    if Canonical(lines) {
      LoopKeepsCanonical(lines, 0);
      assert lines[0..] == lines && lines[..0] == [];
    }
  }

  // ---------------------------------------------------------------- blank lines

  /** A line with something on it, single-spaced, and whether a blank one stands between it and the
      one before. */
  datatype Kept = Kept(line: string, apart: bool)

  predicate EndsBlank(lines: seq<string>) {
    lines != [] && Trim(lines[|lines| - 1]) == ""
  }

  function Spaced(lines: seq<string>): seq<Kept> {
    if lines == [] then []
    else
      var past, last := lines[..|lines| - 1], lines[|lines| - 1];
      if Trim(last) == "" then Spaced(past)
      else Spaced(past) + [Kept(CollapseSpaces(last), Spaced(past) != [] && EndsBlank(past))]
  }

  lemma SpacedNext(lines: seq<string>, line: string)
    ensures Spaced(lines + [line])
         == if Trim(line) == "" then Spaced(lines)
            else Spaced(lines) + [Kept(CollapseSpaces(line), Spaced(lines) != [] && EndsBlank(lines))]
    ensures EndsBlank(lines + [line]) <==> Trim(line) == ""
  {
    assert (lines + [line])[..|lines|] == lines;
  }

  /** The lines kept are spaced like those read so far. */
  ghost predicate SpacedAlike(done: seq<string>, lines: seq<string>, blankRun: nat) {
    && Spaced(lines) == Spaced(done) && (lines == [] <==> Spaced(done) == [])
    && (blankRun > 0 <==> EndsBlank(done)) && (lines != [] ==> (EndsBlank(lines) <==> EndsBlank(done)))
  }

  lemma KeptAlike(done: seq<string>, lines: seq<string>, blankRun: nat, line: string)
    requires SpacedAlike(done, lines, blankRun) && Trim(line) != ""
    ensures SpacedAlike(done + [line], lines + [CollapseSpaces(Trim(line))], 0)
  {
    CollapseTrimmed(line);
    TrimmedHasWord(line);
    CollapsedIsNeat(Trim(line));
    NeatEdges(CollapseSpaces(Trim(line)));
    SpacedNext(done, line);
    SpacedNext(lines, CollapseSpaces(Trim(line)));
  }

  lemma BlankAlike(done: seq<string>, lines: seq<string>, blankRun: nat, line: string)
    requires SpacedAlike(done, lines, blankRun) && Trim(line) == ""
    ensures blankRun > 0 || lines == [] ==> SpacedAlike(done + [line], lines, blankRun + 1)
    ensures lines != [] ==> SpacedAlike(done + [line], lines + [""], blankRun + 1)
  {
    SpacedNext(done, line);
    SpacedNext(lines, "");
  }

  lemma OneFurther(done: seq<string>, input: seq<string>)
    requires input != []
    ensures done + input == (done + [input[0]]) + input[1..]
  {
  }

  /** One turn of the loop. */
  lemma TidyTurn(done: seq<string>, input: seq<string>, lines: seq<string>, blankRun: nat)
      returns (next: seq<string>, run: nat)
    requires SpacedAlike(done, lines, blankRun) && input != []
    ensures TidyLoop(input, lines, blankRun) == TidyLoop(input[1..], next, run)
    ensures SpacedAlike(done + [input[0]], next, run)
  {
    var line := Trim(input[0]);
    if line != "" {
      KeptAlike(done, lines, blankRun, input[0]);
      next, run := lines + [CollapseSpaces(line)], 0;
    } else {
      BlankAlike(done, lines, blankRun, input[0]);
      next, run := if blankRun + 1 > 1 || lines == [] then lines else lines + [""], blankRun + 1;
    }
  }

  lemma {:induction false} LoopKeepsSpacing(done: seq<string>, input: seq<string>, lines: seq<string>, blankRun: nat)
    requires SpacedAlike(done, lines, blankRun)
    ensures Spaced(TidyLoop(input, lines, blankRun)) == Spaced(done + input)
    decreases |input|
  {
    if input == [] {
      assert done + input == done;
    } else {
      var next, run := TidyTurn(done, input, lines, blankRun);
      LoopKeepsSpacing(done + [input[0]], input[1..], next, run);
      OneFurther(done, input);
    }
  }

  lemma {:induction false} PopKeepsSpacing(lines: seq<string>)
    ensures Spaced(PopBlank(lines)) == Spaced(lines)
  {
    if lines != [] && lines[|lines| - 1] == "" {
      var rest := lines[..|lines| - 1];
      PopKeepsSpacing(rest);
      SpacedNext(rest, "");
      assert lines == rest + [""] && Trim("") == "";
    }
  }

  /** Two neighbouring lines of the result have a blank one between them if and only if the text has
      at least one there; being canonical, the result has one only. */
  lemma TidyKeepsSpacing(text: string)
    ensures Spaced(Lines(TidyText(text))) == Spaced(Lines(text)) && Canonical(Lines(TidyText(text)))
  {
    LoopKeepsSpacing([], Lines(text), [], 0);
    assert [] + Lines(text) == Lines(text);
    PopKeepsSpacing(TidyLoop(Lines(text), [], 0));
    TidyIsCanonical(text);
  }

  /** So tidying twice is tidying once. */
  lemma TidyIdempotent(text: string)
    ensures TidyText(TidyText(text)) == TidyText(text)
  {
    TidyIsCanonical(text);
    TidyFixes(TidyText(text));
  }
}
