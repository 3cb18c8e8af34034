/** Removal of whole HTML elements by name. */
module Strip {
  import opened Results
  import opened Text

  /** The text starts with `p`, in any letter case. */
  predicate Starts(s: string, p: string) {
    p == [] || (s != [] && LowerChar(s[0]) == p[0] && Starts(s[1..], p[1..]))
  }

  /** `p` occurs at position `i`, in any letter case. */
  predicate At(s: string, i: nat, p: string)
    requires i <= |s|
  {
    Starts(s[i..], p)
  }

  /** The text before the first `p`, in any letter case. */
  function Before(s: string, p: string): string {
    if s == [] || Starts(s, p) then [] else [s[0]] + Before(s[1..], p)
  }

  /** The text from the first `p` on, in any letter case; nothing when there is none. */
  function From(s: string, p: string): (rest: string)
    ensures |rest| <= |s|
  {
    if s == [] || Starts(s, p) then s else From(s[1..], p)
  }

  function AfterGt(s: string): (rest: string)
    ensures |rest| <= |s| && (s != [] ==> |rest| < |s|)
  {
    if s == [] then [] else if s[0] == '>' then s[1..] else AfterGt(s[1..])
  }

  /** What follows the element that starts here: behind the '>' of the first closing tag, or
      nothing when it is never closed. */
  function AfterElement(s: string, name: string): (rest: string)
    ensures |rest| <= |s| && (s != [] ==> |rest| < |s|)
  {
    AfterGt(From(s, "</" + name))
  }

  function Stripped(s: string, name: string): string
    decreases |s|
  {
    if s == [] then []
    else if Starts(s, "<" + name) then Stripped(AfterElement(s, name), name)
    else [s[0]] + Stripped(s[1..], name)
  }

  function StripAll(s: string): string {
    Stripped(Stripped(Stripped(s, "script"), "style"), "head")
  }

  // ---------------------------------------------------------------- sequence facts

  lemma LowerDrop(s: string, n: nat)
    requires n <= |s|
    ensures Lower(s)[n..] == Lower(s[n..])
  {
  }

  lemma TakeOne(s: string, i: nat, j: nat)
    requires i < j <= |s|
    ensures [s[i]] + s[i + 1..j] == s[i..j]
  {
  }

  // ---------------------------------------------------------------- the loop over a cursor

  /** `str::find`: the first place `p` occurs. */
  function Find(h: string, p: string): (r: Option<nat>)
    ensures r.Some? ==> r.value <= |h|
  {
    if p <= h then Some(0)
    else if h == [] then None
    else
      var rest := Find(h[1..], p);
      if rest.None? then None else Some(rest.value + 1)
  }

  lemma LowerAt(s: string, i: nat)
    requires i < |s|
    ensures s[i..] == [s[i]] + s[i + 1..] && Lower(s)[i..] == [LowerChar(s[i])] + Lower(s)[i + 1..]
  {
  }

  /** The first occurrence at or behind `i`, or the length when there is none. */
  function First(s: string, i: nat, p: string): (j: nat)
    requires i <= |s|
    ensures i <= j <= |s| && (j < |s| ==> At(s, j, p))
    ensures forall k :: i <= k < j ==> !At(s, k, p)
    decreases |s| - i
  {
    if i == |s| || At(s, i, p) then i else First(s, i + 1, p)
  }

  lemma {:induction false} FromFirst(s: string, i: nat, p: string)
    requires i <= |s|
    ensures From(s[i..], p) == s[First(s, i, p)..] && Before(s[i..], p) == s[i..First(s, i, p)]
    decreases |s| - i
  {
    if i < |s| {
      LowerAt(s, i);
      if !At(s, i, p) {
        FromFirst(s, i + 1, p);
        TakeOne(s, i, First(s, i, p));
      }
    }
  }

  lemma {:induction false} StartsLower(s: string, p: string)
    ensures Starts(s, p) <==> p <= Lower(s)
  {
    if p != [] && s != [] {
      LowerDrop(s, 1);
      StartsLower(s[1..], p[1..]);
      PrefixStep(Lower(s), p);
    }
  }

  lemma PrefixStep(s: string, p: string)
    requires s != [] && p != []
    ensures p <= s <==> p[0] == s[0] && p[1..] <= s[1..]
  {
    if p[0] == s[0] && p[1..] <= s[1..] {
      assert p == [p[0]] + p[1..] && s == [s[0]] + s[1..];
      assert s[1..] == p[1..] + s[1..][|p| - 1..];
      assert s == p + s[1..][|p| - 1..];
    }
  }

  /** Searching the lowercased copy finds the place in the text itself. */
  lemma {:induction false} FindFirst(s: string, i: nat, p: string)
    requires i <= |s| && p != []
    ensures Find(Lower(s)[i..], p) == if First(s, i, p) == |s| then None else Some(First(s, i, p) - i)
    decreases |s| - i
  {
    LowerDrop(s, i);
    StartsLower(s[i..], p);
    if i < |s| && !At(s, i, p) {
      LowerAt(s, i);
      FindFirst(s, i + 1, p);
    }
  }

  lemma FindFrom(s: string, i: nat, p: string) returns (j: nat)
    requires i <= |s| && p != []
    ensures i <= j <= |s| && From(s[i..], p) == s[j..] && Before(s[i..], p) == s[i..j]
    ensures Find(Lower(s)[i..], p) == if j == |s| then None else Some(j - i)
    ensures j < |s| ==> At(s, j, p)
    ensures forall k :: i <= k < j ==> !At(s, k, p)
  {
    j := First(s, i, p);
    FromFirst(s, i, p);
    FindFirst(s, i, p);
  }

  lemma GtStep(s: string, i: nat)
    requires i < |s|
    ensures AfterGt(s[i..]) == if s[i] == '>' then s[i + 1..] else AfterGt(s[i + 1..])
    ensures IndexOf(Lower(s)[i..], '>') == if s[i] == '>' then 0 else 1 + IndexOf(Lower(s)[i + 1..], '>')
  {
    LowerAt(s, i);
  }

  lemma {:induction false} FindGt(s: string, i: nat) returns (j: nat)
    requires i <= |s|
    ensures i <= j <= |s| && AfterGt(s[i..]) == s[if j < |s| then j + 1 else j..]
    ensures IndexOf(Lower(s)[i..], '>') == j - i
    ensures j < |s| ==> s[j] == '>'
    ensures forall k :: i <= k < j ==> s[k] != '>'
    decreases |s| - i
  {
    j := i;
    if i < |s| {
      GtStep(s, i);
      if s[i] != '>' {
        j := FindGt(s, i + 1);
      }
    }
  }

  /** Up to the next opener the text is kept. */
  lemma {:induction false} StripJump(s: string, name: string)
    ensures Stripped(s, name) == Before(s, "<" + name) + Stripped(From(s, "<" + name), name)
  {
    if s != [] && !Starts(s, "<" + name) {
      StripJump(s[1..], name);
    }
  }

  /** The element of that name that opens at `start` ends at `end`: behind the '>' of its first
      closing tag, or at the end of the text for want of a closing tag or of its '>'. */
  ghost predicate ElementSpans(s: string, name: string, start: nat, end: nat) {
    exists close: nat :: ClosesAt(s, name, start, close, end)
  }

  ghost predicate ClosesAt(s: string, name: string, start: nat, close: nat, end: nat) {
    && start <= close <= |s| && start < end <= |s| && close <= end
    && (close < |s| ==> At(s, close, "</" + name))
    && (forall k :: start <= k < close ==> !At(s, k, "</" + name))
    && (forall k :: close <= k < end - 1 ==> s[k] != '>')
    && (s[end - 1] != '>' || end <= close ==> end == |s|)
  }

  lemma SpanEnds(s: string, name: string, start: nat, close: nat, gt: nat, end: nat)
    requires start <= close <= gt <= |s| && start < |s| && end == if gt < |s| then gt + 1 else gt
    requires close < |s| ==> At(s, close, "</" + name)
    requires forall k :: start <= k < close ==> !At(s, k, "</" + name)
    requires gt < |s| ==> s[gt] == '>'
    requires forall k :: close <= k < gt ==> s[k] != '>'
    ensures ElementSpans(s, name, start, end)
  {
    assert ClosesAt(s, name, start, close, end);
  }

  /** Where the element that starts at `start` closes, the '>' behind that, and its end. */
  lemma ElementEnd(s: string, name: string, start: nat) returns (close: nat, gt: nat, end: nat)
    requires start < |s|
    ensures start <= close <= gt <= |s| && end == (if gt < |s| then gt + 1 else gt) && start < end
    ensures Find(Lower(s)[start..], "</" + name) == if close == |s| then None else Some(close - start)
    ensures IndexOf(Lower(s)[close..], '>') == gt - close
    ensures AfterElement(s[start..], name) == s[end..]
    ensures ElementSpans(s, name, start, end)
  {
    close := FindFrom(s, start, "</" + name);
    gt := FindGt(s, close);
    end := if gt < |s| then gt + 1 else gt;
    SpanEnds(s, name, start, close, gt, end);
  }

  /** The cursor behind the element that starts at `start`. */
  method PastElement(lower: string, start: nat, name: string, ghost out: string) returns (cursor: nat)
    requires start < |out| && lower == Lower(out)
    ensures start < cursor <= |out| && out[cursor..] == AfterElement(out[start..], name)
    ensures ElementSpans(out, name, start, cursor)
  {
    ghost var close, gt, past := ElementEnd(out, name, start);
    var found := Find(lower[start..], "</" + name);
    if found.None? {
      return |lower|;
    }
    var end := start + found.value;
    var i := IndexOf(lower[end..], '>');
    cursor := if i < |lower| - end then end + i + 1 else |lower|;
    assert cursor == past;
  }

  /** The deleted intervals: each starts at the first opener at or behind the end of the one
      before and spans its element; behind the last one nothing opens. */
  ghost predicate Cuts(s: string, name: string, cursor: nat, cuts: seq<(nat, nat)>)
    requires cursor <= |s|
    decreases |cuts|
  {
    if cuts == [] then forall k :: cursor <= k <= |s| ==> !At(s, k, "<" + name)
    else
      var (start, end) := cuts[0];
      && cursor <= start < end <= |s|
      && At(s, start, "<" + name) && (forall k :: cursor <= k < start ==> !At(s, k, "<" + name))
      && ElementSpans(s, name, start, end)
      && Cuts(s, name, end, cuts[1..])
  }

  /** What is left of the text behind the cursor. */
  ghost function Kept(s: string, name: string, cursor: nat, cuts: seq<(nat, nat)>): string
    requires cursor <= |s| && Cuts(s, name, cursor, cuts)
    decreases |cuts|
  {
    if cuts == [] then s[cursor..] else s[cursor..cuts[0].0] + Kept(s, name, cuts[0].1, cuts[1..])
  }

  lemma CutsNext(s: string, name: string, cursor: nat, start: nat, end: nat, cuts: seq<(nat, nat)>)
    requires cursor <= start < end <= |s| && ElementSpans(s, name, start, end)
    requires At(s, start, "<" + name) && (forall k :: cursor <= k < start ==> !At(s, k, "<" + name))
    requires Cuts(s, name, end, cuts)
    ensures Cuts(s, name, cursor, [(start, end)] + cuts)
    ensures Kept(s, name, cursor, [(start, end)] + cuts) == s[cursor..start] + Kept(s, name, end, cuts)
  {
    assert ([(start, end)] + cuts)[1..] == cuts;
  }

  /** What a pass does, on any text: it deletes exactly those intervals. */
  lemma {:induction false} StrippedCuts(s: string, name: string, cursor: nat) returns (cuts: seq<(nat, nat)>)
    requires cursor <= |s|
    ensures Cuts(s, name, cursor, cuts) && Stripped(s[cursor..], name) == Kept(s, name, cursor, cuts)
    decreases |s| - cursor
  {
    var start := FindFrom(s, cursor, "<" + name);
    StripJump(s[cursor..], name);
    if start == |s| {
      cuts := [];
      NothingOpens(s, name, cursor);
    } else {
      var close, gt, end := ElementEnd(s, name, start);
      StrippedAt(s, name, start);
      var rest := StrippedCuts(s, name, end);
      CutsNext(s, name, cursor, start, end, rest);
      cuts := [(start, end)] + rest;
    }
  }

  lemma NothingOpens(s: string, name: string, cursor: nat)
    requires cursor <= |s| && Before(s[cursor..], "<" + name) == s[cursor..|s|]
    requires From(s[cursor..], "<" + name) == s[|s|..]
    requires forall k :: cursor <= k < |s| ==> !At(s, k, "<" + name)
    ensures Stripped(s[cursor..], name) == s[cursor..] && Cuts(s, name, cursor, [])
  {
    StripJump(s[cursor..], name);
    assert s[cursor..|s|] == s[cursor..] && s[|s|..] == [] && s[cursor..] + [] == s[cursor..];
  }

  lemma StrippedAt(s: string, name: string, start: nat)
    requires start < |s| && At(s, start, "<" + name)
    ensures Stripped(s[start..], name) == Stripped(AfterElement(s[start..], name), name)
  {
  }

  /** One pass of the loop over all elements of one name. */
  method StripPass(out: string, name: string) returns (result: string)
    ensures result == Stripped(out, name)
  {
    var lower := Lower(out);
    result := "";
    var cursor := 0;
    assert out[0..] == out;
    while true
      invariant cursor <= |out| && result + Stripped(out[cursor..], name) == Stripped(out, name)
      decreases |out| - cursor
    {
      ghost var first := FindFrom(out, cursor, "<" + name);
      StripJump(out[cursor..], name);
      var found := Find(lower[cursor..], "<" + name);
      if found.None? {
        NothingOpens(out, name, cursor);
        break;
      }
      var start := cursor + found.value;
      StrippedAt(out, name, start);
      var next := PastElement(lower, start, name, out);
      Assoc(result, out[cursor..start], Stripped(out[next..], name));
      result := result + out[cursor..start];
      cursor := next;
    }
    result := result + out[cursor..];
  }

  method StripElements(html: string, names: seq<string>) returns (out: string)
    requires names == ["script", "style", "head"]
    ensures out == StripAll(html)
  {
    out := html;
    for i := 0 to |names|
      invariant i == 0 ==> out == html
      invariant i == 1 ==> out == Stripped(html, "script")
      invariant i == 2 ==> out == Stripped(Stripped(html, "script"), "style")
      invariant i == 3 ==> out == StripAll(html)
    {
      out := StripPass(out, names[i]);
    }
  }

  // ---------------------------------------------------------------- on any input

  ghost predicate Subsequence(a: string, b: string) {
    a == [] || (b != [] && ((a[0] == b[0] && Subsequence(a[1..], b[1..])) || Subsequence(a, b[1..])))
  }

  lemma {:induction false} SubsequenceOfSuffix(a: string, b: string, n: nat)
    requires n <= |b| && Subsequence(a, b[n..])
    ensures Subsequence(a, b)
  {
    if n == 0 {
      assert b[0..] == b;
    } else {
      assert b[1..][n - 1..] == b[n..];
      SubsequenceOfSuffix(a, b[1..], n - 1);
    }
  }

  lemma {:induction false} SubsequenceTransitive(a: string, b: string, c: string)
    requires Subsequence(a, b) && Subsequence(b, c)
    ensures Subsequence(a, c)
    decreases |c|
  {
    if a != [] {
      if b[0] == c[0] && Subsequence(b[1..], c[1..]) {
        if a[0] == b[0] && Subsequence(a[1..], b[1..]) {
          SubsequenceTransitive(a[1..], b[1..], c[1..]);
        } else {
          SubsequenceTransitive(a, b[1..], c[1..]);
        }
      } else {
        SubsequenceTransitive(a, b, c[1..]);
      }
    }
  }

  lemma {:induction false} StrippedIsSubsequence(s: string, name: string)
    ensures Subsequence(Stripped(s, name), s)
    decreases |s|
  {
    if s == [] {
    } else if Starts(s, "<" + name) {
      assert s[0..] == s;
      var close, gt, end := ElementEnd(s, name, 0);
      StrippedIsSubsequence(s[end..], name);
      SubsequenceOfSuffix(Stripped(s[end..], name), s, end);
    } else {
      StrippedIsSubsequence(s[1..], name);
      var t := Stripped(s, name);
      assert t[0] == s[0] && t[1..] == Stripped(s[1..], name);
    }
  }

  /** Stripping only deletes. */
  lemma StripAllIsSubsequence(s: string)
    ensures Subsequence(StripAll(s), s)
  {
    var a := Stripped(s, "script");
    var b := Stripped(a, "style");
    StrippedIsSubsequence(s, "script");
    StrippedIsSubsequence(a, "style");
    StrippedIsSubsequence(b, "head");
    SubsequenceTransitive(b, a, s);
    SubsequenceTransitive(StripAll(s), b, s);
  }

  predicate HasOpener(s: string, name: string) {
    Find(Lower(s), "<" + name).Some?
  }

  lemma {:induction false} StrippedLength(s: string, name: string)
    ensures |Stripped(s, name)| <= |s|
    ensures if HasOpener(s, name) then |Stripped(s, name)| < |s| else Stripped(s, name) == s
    decreases |s|
  {
    assert s[0..] == s && Lower(s)[0..] == Lower(s);
    var start := FindFrom(s, 0, "<" + name);
    if start == |s| {
      NothingOpens(s, name, 0);
    } else {
      StripJump(s, name);
      StrippedAt(s, name, start);
      StrippedLength(AfterElement(s[start..], name), name);
    }
  }

  /** The text is left alone exactly when none of the three elements opens anywhere in it. */
  lemma StripAllIdentity(s: string)
    ensures StripAll(s) == s <==> !HasOpener(s, "script") && !HasOpener(s, "style") && !HasOpener(s, "head")
  {
    var a := Stripped(s, "script");
    var b := Stripped(a, "style");
    StrippedLength(s, "script");
    StrippedLength(a, "style");
    StrippedLength(b, "head");
  }
}
