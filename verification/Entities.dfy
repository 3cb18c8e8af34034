/** Decoding of the named and numeric entities found in mail. */
module Entities {
  import opened Results
  import opened Text
  import opened Numerals

  /** Bytes of one code point in UTF-8, the unit the program measures an entity in. */
  function Utf8Len(c: char): (n: nat)
    ensures 1 <= n <= 4
  {
    var v := c as int;
    if v < 0x80 then 1 else if v < 0x800 then 2 else if v < 0x10000 then 3 else 4
  }

  function ByteLen(s: string): nat {
    if s == [] then 0 else Utf8Len(s[0]) + ByteLen(s[1..])
  }

  lemma {:induction false} ByteLenAppend(a: string, b: string)
    ensures ByteLen(a + b) == ByteLen(a) + ByteLen(b)
  {
    if a == [] {
      assert a + b == b;
    } else {
      assert (a + b)[1..] == a[1..] + b;
      ByteLenAppend(a[1..], b);
    }
  }

  function NamedEntity(entity: string): Option<string> {
    var name := Lower(entity);
    if name == "amp" then Some("&")
    else if name == "lt" then Some("<")
    else if name == "gt" then Some(">")
    else if name == "quot" then Some("\"")
    else if name == "apos" || name == "#39" then Some("'")
    else if name == "nbsp" then Some(" ")
    else None
  }

  function DigitValue(c: char, radix: nat): Option<nat> {
    var v :=
      if '0' <= c <= '9' then c as int - '0' as int
      else if 'a' <= c <= 'f' then c as int - 'a' as int + 10
      else if 'A' <= c <= 'F' then c as int - 'A' as int + 10
      else 16;
    if v < radix then Some(v) else None
  }

  function Digits(s: string, radix: nat): Option<nat> {
    if s == [] then Some(0)
    else
      var high, low := Digits(s[..|s| - 1], radix), DigitValue(s[|s| - 1], radix);
      if high.None? || low.None? then None else Some(high.value * radix + low.value)
  }

  const U32_MAX: nat := 0xFFFF_FFFF

  /** `u32::from_str_radix`: one leading plus sign is allowed, no digits or too many are not. */
  function ParseU32(s: string, radix: nat): Option<nat> {
    var digits := if s != [] && s[0] == '+' then s[1..] else s;
    if digits == [] then None
    else
      var n := Digits(digits, radix);
      if n.Some? && n.value <= U32_MAX then n else None
  }

  function CharFromU32(n: nat): Option<char> {
    if n < 0xD800 || 0xE000 <= n < 0x110000 then Some(n as char) else None
  }

  function NumericEntity(entity: string): Option<string> {
    if entity == [] || entity[0] != '#' then None
    else
      var digits := entity[1..];
      var code := if digits != [] && (digits[0] == 'x' || digits[0] == 'X') then ParseU32(digits[1..], 16)
                  else ParseU32(digits, 10);
      if code.None? then None
      else
        var c := CharFromU32(code.value);
        if c.None? then None else Some([c.value])
  }

  function EntityText(entity: string): (r: Option<string>)
    ensures r.Some? ==> |r.value| == 1
  {
    var named := NamedEntity(entity);
    if named.Some? then named else NumericEntity(entity)
  }

  /** Where the entity that starts `tail` ends, if its semicolon is at most ten bytes on. */
  function EntityEnd(tail: string): (end: Option<nat>)
    requires tail != []
    ensures end.Some? ==> 1 <= end.value < |tail|
  {
    var semi := IndexOf(tail[1..], ';');
    if semi == |tail| - 1 || ByteLen(tail[..semi + 1]) > 10 then None else Some(semi + 1)
  }

  /** What an ampersand and what follows it turn into; a stray or unknown one stays. */
  function Piece(tail: string): string
    requires tail != []
  {
    match EntityEnd(tail)
    case None => "&"
    case Some(end) =>
      var decoded := EntityText(tail[1..end]);
      if decoded.Some? then decoded.value else tail[..end + 1]
  }

  /** How much of the text that piece stands for. */
  function PieceLength(tail: string): (n: nat)
    requires tail != []
    ensures 1 <= n <= |tail|
  {
    match EntityEnd(tail)
    case None => 1
    case Some(end) => end + 1
  }

  function DecodeEntities(text: string): string
    decreases |text|
  {
    if text == [] then []
    else if text[0] != '&' then [text[0]] + DecodeEntities(text[1..])
    else Piece(text) + DecodeEntities(text[PieceLength(text)..])
  }

  lemma {:induction false} DecodePlain(plain: string, rest: string)
    requires '&' !in plain
    ensures DecodeEntities(plain + rest) == plain + DecodeEntities(rest)
  {
    if plain == [] {
      assert plain + rest == rest && plain + DecodeEntities(rest) == DecodeEntities(rest);
    } else {
      assert (plain + rest)[0] == plain[0] && (plain + rest)[1..] == plain[1..] + rest;
      DecodePlain(plain[1..], rest);
      Cons(plain[0], plain[1..], DecodeEntities(rest));
    }
  }

  lemma Cons(c: char, a: string, b: string)
    ensures [c] + (a + b) == ([c] + a) + b
  {
  }

  lemma TakeDrop(s: string, n: nat)
    requires n <= |s|
    ensures s[..n] + s[n..] == s
  {
  }

  lemma PlainHead(text: string, start: nat)
    requires start <= |text| && '&' !in text[..start]
    ensures DecodeEntities(text) == text[..start] + DecodeEntities(text[start..])
  {
    DecodePlain(text[..start], text[start..]);
    TakeDrop(text, start);
  }

  method PieceOf(tail: string) returns (piece: string, n: nat)
    requires tail != []
    ensures piece == Piece(tail) && n == PieceLength(tail)
  {
    match EntityEnd(tail) {
      case None => return "&", 1;
      case Some(end) =>
        var decoded := EntityText(tail[1..end]);
        return if decoded.Some? then decoded.value else tail[..end + 1], end + 1;
    }
  }

  /** The loop jumps from ampersand to ampersand. */
  method Decoded(text: string) returns (out: string)
    ensures out == DecodeEntities(text)
  {
    out := "";
    var rest := text;
    while true
      invariant out + DecodeEntities(rest) == DecodeEntities(text)
      decreases |rest|
    {
      var start := IndexOf(rest, '&');
      PlainHead(rest, start);
      var head, tail := rest[..start], rest[start..];
      Assoc(out, head, DecodeEntities(tail));
      out := out + head;
      if tail == "" {
        return;
      }
      var piece, n := PieceOf(tail);
      Assoc(out, piece, DecodeEntities(tail[n..]));
      out := out + piece;
      rest := tail[n..];
    }
  }

  // ---------------------------------------------------------------- decoding never grows the text

  lemma Shorter(a: string, b: string, c: string, d: string)
    requires |a| <= |c| && |b| <= |d| && ByteLen(a) <= ByteLen(c) && ByteLen(b) <= ByteLen(d)
    ensures |a + b| <= |c + d| && ByteLen(a + b) <= ByteLen(c + d)
  {
    ByteLenAppend(a, b);
    ByteLenAppend(c, d);
  }

  /** On any input at all: no more code points and no more bytes come out than went in. */
  lemma {:induction false} DecodedNoLonger(text: string)
    ensures |DecodeEntities(text)| <= |text| && ByteLen(DecodeEntities(text)) <= ByteLen(text)
    decreases |text|
  {
    if text != [] {
      var plain := text[0] != '&';
      var n := if plain then 1 else PieceLength(text);
      var piece := if plain then [text[0]] else Piece(text);
      if plain {
        assert text[..1] == piece;
      } else {
        PieceNoLonger(text);
      }
      DecodedNoLonger(text[n..]);
      Shorter(piece, DecodeEntities(text[n..]), text[..n], text[n..]);
      TakeDrop(text, n);
    }
  }

  lemma {:induction false} ByteLenAtLeast(s: string)
    ensures ByteLen(s) >= |s|
  {
    if s != [] {
      ByteLenAtLeast(s[1..]);
    }
  }

  lemma ByteLenOne(c: char)
    ensures ByteLen([c]) == Utf8Len(c)
  {
    assert [c][1..] == [];
  }

  lemma DecodedEntityShort(entity: string)
    requires EntityText(entity).Some?
    ensures |entity| >= 2 && ByteLen(EntityText(entity).value) <= |entity| + 2
  {
    var piece := EntityText(entity).value;
    ByteLenOne(piece[0]);
    assert piece == [piece[0]];
    if NamedEntity(entity).None? {
      assert entity[0] == '#' && entity[1..] != [];
    }
  }

  lemma PieceNoLonger(tail: string)
    requires tail != [] && tail[0] == '&'
    ensures |Piece(tail)| <= PieceLength(tail) && ByteLen(Piece(tail)) <= ByteLen(tail[..PieceLength(tail)])
  {
    var raw := tail[..PieceLength(tail)];
    ByteLenAtLeast(raw);
    ByteLenOne('&');
    match EntityEnd(tail)
    case None =>
    case Some(end) =>
      if EntityText(tail[1..end]).Some? {
        DecodedEntityShort(tail[1..end]);
      }
  }

  // ---------------------------------------------------------------- decoding undoes escaping

  lemma EntityEndsAt(entity: string, rest: string)
    requires ';' !in entity && ByteLen(entity) <= 9
    ensures EntityEnd("&" + (entity + ";" + rest)) == Some(|entity| + 1)
  {
    var after := entity + ";" + rest;
    var tail := "&" + after;
    assert tail[1..] == after;
    IndexOfAfter(entity, ';', rest);
    assert tail[..|entity| + 1] == "&" + entity;
    ByteLenAppend("&", entity);
    ByteLenOne('&');
  }

  lemma DecodeEntity(entity: string, rest: string)
    requires ';' !in entity && ByteLen(entity) <= 9 && EntityText(entity).Some?
    ensures DecodeEntities("&" + (entity + ";" + rest)) == EntityText(entity).value + DecodeEntities(rest)
  {
    var tail := "&" + (entity + ";" + rest);
    EntityEndsAt(entity, rest);
    assert tail[1..|entity| + 1] == entity && tail[|entity| + 2..] == rest;
  }

  lemma LowerAscii(entity: string)
    requires forall i :: 0 <= i < |Lower(entity)| ==> Lower(entity)[i] as int < 0x80 && Lower(entity)[i] != ';'
    ensures ';' !in entity && ByteLen(entity) == |entity|
  {
    forall i | 0 <= i < |entity|
      ensures entity[i] as int < 0x80 && entity[i] != ';'
    {
      assert Lower(entity)[i] == LowerChar(entity[i]);
    }
    AsciiBytes(entity);
  }

  /** What the named references stand for, in any letter case and whatever follows. */
  lemma NamedDecode(entity: string, rest: string)
    requires Lower(entity) in ["amp", "lt", "gt", "quot", "apos", "#39", "nbsp"]
    ensures
      var text :=
        if Lower(entity) == "amp" then "&"
        else if Lower(entity) == "lt" then "<"
        else if Lower(entity) == "gt" then ">"
        else if Lower(entity) == "quot" then "\""
        else if Lower(entity) == "nbsp" then " "
        else "'";
      DecodeEntities("&" + (entity + ";" + rest)) == text + DecodeEntities(rest)
  {
    LowerAscii(entity);
    DecodeEntity(entity, rest);
  }

  lemma UndecodedStays(entity: string, rest: string)
    requires ';' !in entity && ByteLen(entity) <= 9 && EntityText(entity).None?
    ensures DecodeEntities("&" + (entity + ";" + rest)) == ("&" + entity + ";") + DecodeEntities(rest)
  {
    var tail := "&" + (entity + ";" + rest);
    EntityEndsAt(entity, rest);
    assert tail[1..|entity| + 1] == entity && tail[..|entity| + 2] == "&" + entity + ";";
    assert tail[|entity| + 2..] == rest;
  }

  /** Any other name stays as it stands. */
  lemma UnknownStays(entity: string, rest: string)
    requires ';' !in entity && ByteLen(entity) <= 9 && (entity == "" || entity[0] != '#')
    requires Lower(entity) !in ["amp", "lt", "gt", "quot", "apos", "nbsp"]
    ensures DecodeEntities("&" + (entity + ";" + rest)) == ("&" + entity + ";") + DecodeEntities(rest)
  {
    assert entity != "" ==> Lower(entity)[0] == LowerChar(entity[0]) != '#';
    UndecodedStays(entity, rest);
  }

  /** A semicolon more than ten bytes behind the ampersand comes too late: the ampersand is stray. */
  lemma LateSemicolon(entity: string, rest: string)
    requires ';' !in entity && ByteLen(entity) >= 10
    ensures DecodeEntities("&" + (entity + ";" + rest)) == "&" + DecodeEntities(entity + ";" + rest)
  {
    var after := entity + ";" + rest;
    var tail := "&" + after;
    assert tail[1..] == after;
    IndexOfAfter(entity, ';', rest);
    assert tail[..|entity| + 1] == "&" + entity;
    ByteLenAppend("&", entity);
    ByteLenOne('&');
  }

  /** The entity names that escaping writes. */
  function EscapeName(c: char): (name: string)
    ensures ';' !in name
  {
    if c == '&' then "amp" else if c == '<' then "lt" else if c == '>' then "gt" else "quot"
  }

  predicate IsSpecial(c: char) {
    c == '&' || c == '<' || c == '>' || c == '"'
  }

  function EscapeChar(c: char): string {
    if IsSpecial(c) then "&" + EscapeName(c) + ";" else [c]
  }

  function Escape(text: string): string {
    if text == [] then [] else EscapeChar(text[0]) + Escape(text[1..])
  }

  lemma NameDecodes(c: char)
    requires IsSpecial(c)
    ensures EntityText(EscapeName(c)) == Some([c])
  {
    assert Lower(EscapeName(c)) == EscapeName(c);
  }

  lemma {:induction false} AsciiBytes(s: string)
    requires forall i :: 0 <= i < |s| ==> s[i] as int < 0x80
    ensures ByteLen(s) == |s|
  {
    if s != [] {
      AsciiBytes(s[1..]);
    }
  }

  lemma Regroup(name: string, rest: string)
    ensures ("&" + name + ";") + rest == "&" + (name + ";" + rest)
  {
  }

  lemma DecodeEscapedChar(c: char, rest: string)
    ensures DecodeEntities(EscapeChar(c) + rest) == [c] + DecodeEntities(rest)
  {
    if IsSpecial(c) {
      var name := EscapeName(c);
      NameDecodes(c);
      AsciiBytes(name);
      DecodeEntity(name, rest);
      Regroup(name, rest);
    } else {
      DecodePlain([c], rest);
    }
  }

  /** Escaped text decodes to itself, whatever follows. */
  lemma {:induction false} DecodeEscapedThen(text: string, rest: string)
    ensures DecodeEntities(Escape(text) + rest) == text + DecodeEntities(rest)
  {
    if text == [] {
      assert Escape(text) + rest == rest;
    } else {
      Assoc(EscapeChar(text[0]), Escape(text[1..]), rest);
      DecodeEscapedChar(text[0], Escape(text[1..]) + rest);
      DecodeEscapedThen(text[1..], rest);
      Cons(text[0], text[1..], DecodeEntities(rest));
      assert [text[0]] + text[1..] == text;
    }
  }

  lemma DecodeEscaped(text: string)
    ensures DecodeEntities(Escape(text)) == text
  {
    DecodeEscapedThen(text, "");
    assert Escape(text) + "" == Escape(text) && text + "" == text;
  }

  /** Every code point as a decimal character reference. */
  function NumericEscape(text: string): string {
    if text == [] then [] else "&" + (("#" + Decimal(text[0] as int)) + ";" + NumericEscape(text[1..]))
  }

  lemma {:induction false} DigitsOfDecimal(n: nat)
    ensures Digits(Decimal(n), 10) == Some(n)
  {
    var s := Decimal(n);
    if n < 10 {
      assert s[..|s| - 1] == [];
    } else {
      DigitsOfDecimal(n / 10);
      assert s[..|s| - 1] == Decimal(n / 10);
    }
  }

  lemma DecimalIsShort(c: char)
    ensures |Decimal(c as int)| <= 7
  {
    assert Pow10(7) == 10 * Pow10(6) == 100 * Pow10(5) == 1000 * Pow10(4) == 10000 * Pow10(3)
        == 100000 * Pow10(2) == 1000000 * Pow10(1) == 10000000;
    DecimalLength(c as int, 7);
  }

  lemma ReferenceIsNumeric(c: char)
    ensures NumericEntity("#" + Decimal(c as int)) == Some([c])
  {
    var digits := Decimal(c as int);
    assert ("#" + digits)[1..] == digits && IsDigit(digits[0]);
    DigitsOfDecimal(c as int);
  }

  lemma HashName(entity: string)
    requires entity != [] && entity[0] == '#'
    ensures NamedEntity(entity) == if Lower(entity) == "#39" then Some("'") else None
  {
    assert Lower(entity)[0] == '#';
  }

  lemma OnlyApostrophe(c: char)
    requires Lower("#" + Decimal(c as int)) == "#39"
    ensures c == '\''
  {
    var digits := Decimal(c as int);
    var entity := "#" + digits;
    assert |digits| == 2;
    assert digits[0] == entity[1] && digits[1] == entity[2] && IsDigit(digits[0]) && IsDigit(digits[1]);
    assert digits[0] == Lower(entity)[1] && digits[1] == Lower(entity)[2];
    ValueOfDecimal(c as int);
    assert digits[..1] == [digits[0]] && digits[..1][..0] == [];
    assert Value(digits) == 10 * Value(digits[..1]) + 9;
  }

  lemma ReferenceDecodes(c: char)
    ensures var entity := "#" + Decimal(c as int);
            ';' !in entity && ByteLen(entity) <= 9 && EntityText(entity) == Some([c])
  {
    var digits := Decimal(c as int);
    ReferenceIsNumeric(c);
    HashName("#" + digits);
    if Lower("#" + digits) == "#39" {
      OnlyApostrophe(c);
    }
    DecimalIsShort(c);
    assert forall i :: 0 <= i < |digits| ==> IsDigit(digits[i]);
    AsciiBytes("#" + digits);
  }

  /** Numeric references decode to any text whatsoever. */
  lemma {:induction false} DecodeNumeric(text: string)
    ensures DecodeEntities(NumericEscape(text)) == text
  {
    if text != [] {
      ReferenceDecodes(text[0]);
      DecodeEntity("#" + Decimal(text[0] as int), NumericEscape(text[1..]));
      DecodeNumeric(text[1..]);
      assert [text[0]] + text[1..] == text;
    }
  }

  lemma {:induction false} DigitsAre(s: string)
    requires forall i :: 0 <= i < |s| ==> IsDigit(s[i])
    ensures Digits(s, 10) == Some(Value(s)) && Value(s) < Pow10(|s|)
  {
    if s != "" {
      assert IsDigit(s[|s| - 1]);
      DigitsAre(s[..|s| - 1]);
    }
  }

  lemma EightDigits(k: nat)
    requires k <= 8
    ensures Pow10(k) <= 100_000_000
  {
    assert Pow10(8) == 10 * Pow10(7) == 100 * Pow10(6) == 1000 * Pow10(5) == 10000 * Pow10(4) == 100000 * Pow10(3)
        == 1000000 * Pow10(2) == 10000000 * Pow10(1) == 100000000;
    Pow10Grows(k, 8);
  }

  lemma {:induction false} Pow10Grows(j: nat, k: nat)
    requires j <= k
    ensures Pow10(j) <= Pow10(k)
    decreases k
  {
    if j < k {
      Pow10Grows(j, k - 1);
    }
  }

  /** A number sign, perhaps a plus sign, and digits. */
  function DecimalReference(plus: bool, digits: string): string {
    "#" + ((if plus then "+" else "") + digits)
  }

  lemma SignedNumber(plus: bool, digits: string)
    requires digits != "" && forall i :: 0 <= i < |digits| ==> IsDigit(digits[i])
    requires Value(digits) <= U32_MAX
    ensures var signed := (if plus then "+" else "") + digits;
            signed != "" && signed[0] != 'x' && signed[0] != 'X' && ParseU32(signed, 10) == Some(Value(digits))
  {
    var signed := (if plus then "+" else "") + digits;
    DigitsAre(digits);
    assert IsDigit(digits[0]);
    if plus {
      assert signed[0] == '+' && signed[1..] == digits;
    } else {
      assert signed == digits;
    }
  }

  lemma NumberSign(signed: string, n: nat)
    requires signed != "" && signed[0] != 'x' && signed[0] != 'X' && ParseU32(signed, 10) == Some(n)
    ensures NumericEntity("#" + signed) == if CharFromU32(n).Some? then Some([CharFromU32(n).value]) else None
  {
    assert ("#" + signed)[1..] == signed;
  }

  lemma ReferenceBytes(plus: bool, digits: string)
    requires forall i :: 0 <= i < |digits| ==> IsDigit(digits[i])
    ensures ';' !in DecimalReference(plus, digits)
    ensures ByteLen(DecimalReference(plus, digits)) == 1 + (if plus then 1 else 0) + |digits|
  {
    AsciiBytes(DecimalReference(plus, digits));
  }

  lemma ThirtyNine(a: char, b: char)
    requires a == '3' && b == '9'
    ensures Value([a, b]) == 39
  {
    assert [a, b][..1] == [a] && [a][..0] == [];
    assert Value([a]) == 3;
  }

  lemma LoweredDigit(c: char, d: char)
    requires LowerChar(c) == d && IsDigit(d)
    ensures c == d
  {
  }

  lemma NamedReference(plus: bool, digits: string)
    requires forall i :: 0 <= i < |digits| ==> IsDigit(digits[i])
    ensures var named := NamedEntity(DecimalReference(plus, digits));
            named.None? || (named == Some("'") && Value(digits) == 39)
  {
    var entity := DecimalReference(plus, digits);
    HashName(entity);
    if plus {
      assert entity[1] == '+' && Lower(entity)[1] == LowerChar(entity[1]);
    } else if Lower(entity) == "#39" {
      LoweredDigit(entity[1], '3');
      LoweredDigit(entity[2], '9');
      ThirtyNine(entity[1], entity[2]);
      assert |entity| == 3 && entity[1..] == [entity[1], entity[2]];
      assert entity[1..] == "" + digits && "" + digits == digits;
    }
  }

  /** Decimal references in general, with leading zeros and a plus sign if they like: the code point
      of that number, or the reference as it stands when there is none. */
  lemma DecimalStands(plus: bool, digits: string, rest: string)
    requires digits != "" && (forall i :: 0 <= i < |digits| ==> IsDigit(digits[i]))
    requires |digits| + (if plus then 1 else 0) <= 8
    ensures
      var entity, n := DecimalReference(plus, digits), Value(digits);
      DecodeEntities("&" + (entity + ";" + rest))
      == (if n < 0xD800 || 0xE000 <= n <= 0x10FFFF then [n as char] else "&" + entity + ";") + DecodeEntities(rest)
  {
    var entity := DecimalReference(plus, digits);
    DigitsAre(digits);
    EightDigits(|digits|);
    SignedNumber(plus, digits);
    NumberSign((if plus then "+" else "") + digits, Value(digits));
    ReferenceBytes(plus, digits);
    NamedReference(plus, digits);
    if EntityText(entity).Some? {
      DecodeEntity(entity, rest);
    } else {
      UndecodedStays(entity, rest);
    }
  }

  /** Nothing in the text decodes: its ampersands are stray or start unknown entities. */
  predicate Inert(text: string)
    decreases |text|
  {
    text == [] ||
    if text[0] != '&' then Inert(text[1..])
    else
      match EntityEnd(text)
      case None => Inert(text[1..])
      case Some(end) => EntityText(text[1..end]).None? && Inert(text[end + 1..])
  }

  lemma Rejoined(a: string, b: string, c: string)
    requires |b| <= |c|
    ensures a + b == a + c <==> b == c
  {
    if a + b == a + c {
      assert (a + b)[|a|..] == b && (a + c)[|a|..] == c;
    }
  }

  lemma PieceStays(text: string)
    requires text != [] && text[0] == '&'
    ensures EntityEnd(text).None? || EntityText(text[1..EntityEnd(text).value]).None? ==>
              Piece(text) == text[..PieceLength(text)]
    ensures EntityEnd(text).Some? && EntityText(text[1..EntityEnd(text).value]).Some? ==>
              |Piece(text)| < PieceLength(text)
  {
    assert text[..1] == "&";
    if EntityEnd(text).Some? && EntityText(text[1..EntityEnd(text).value]).Some? {
      DecodedEntityShort(text[1..EntityEnd(text).value]);
    }
  }

  /** Decoding leaves a text alone exactly when nothing in it decodes. */
  lemma {:induction false} DecodeFixes(text: string)
    ensures DecodeEntities(text) == text <==> Inert(text)
    decreases |text|
  {
    if text != [] {
      var n := if text[0] != '&' then 1 else PieceLength(text);
      var rest := text[n..];
      DecodeFixes(rest);
      DecodedNoLonger(rest);
      TakeDrop(text, n);
      Rejoined(text[..n], DecodeEntities(rest), rest);
      if text[0] == '&' {
        PieceStays(text);
      } else {
        assert text[..1] == [text[0]];
      }
    }
  }

  // ---------------------------------------------------------------- hexadecimal references

  function HexDigit(d: nat): char
    requires d < 16
  {
    if d < 10 then '0' + d as char else 'a' + (d - 10) as char
  }

  function Hex(n: nat): (s: string)
    ensures s != []
  {
    if n < 16 then [HexDigit(n)] else Hex(n / 16) + [HexDigit(n % 16)]
  }

  lemma {:induction false} DigitsOfHex(n: nat)
    ensures Digits(Hex(n), 16) == Some(n)
    ensures forall i :: 0 <= i < |Hex(n)| ==> DigitValue(Hex(n)[i], 16).Some?
  {
    var s := Hex(n);
    if n < 16 {
      assert s[..|s| - 1] == [];
    } else {
      DigitsOfHex(n / 16);
      assert s[..|s| - 1] == Hex(n / 16);
    }
  }

  function HexBound(k: nat): nat {
    if k == 0 then 1 else 16 * HexBound(k - 1)
  }

  lemma {:induction false} HexIsShort(n: nat, k: nat)
    requires k >= 1 && n < HexBound(k)
    ensures |Hex(n)| <= k
  {
    if n >= 16 {
      HexIsShort(n / 16, k - 1);
    }
  }

  lemma HexIsNumeric(c: char, x: char, digits: string)
    requires x == 'x' || x == 'X'
    requires digits != [] && DigitValue(digits[0], 16).Some? && Digits(digits, 16) == Some(c as int)
    ensures NumericEntity("#" + ([x] + digits)) == Some([c])
  {
    var entity := "#" + ([x] + digits);
    assert entity[1..] == [x] + digits && ([x] + digits)[1..] == digits;
  }

  lemma HexIsNoName(x: char, digits: string)
    requires x == 'x' || x == 'X'
    ensures NamedEntity("#" + ([x] + digits)).None?
  {
    var entity := "#" + ([x] + digits);
    HashName(entity);
    assert Lower(entity)[1] == LowerChar(entity[1]) == 'x';
  }

  lemma HexIsPlain(digits: string)
    requires forall i :: 0 <= i < |digits| ==> DigitValue(digits[i], 16).Some?
    ensures ';' !in digits && ByteLen(digits) == |digits|
  {
    AsciiBytes(digits);
  }

  lemma HexOfChar(c: char)
    ensures |Hex(c as int)| <= 6
  {
    assert HexBound(6) == 16 * HexBound(5) == 256 * HexBound(4) == 4096 * HexBound(3) == 65536 * HexBound(2);
    HexIsShort(c as int, 6);
  }

  lemma HexBytes(x: char, digits: string)
    requires (x == 'x' || x == 'X') && |digits| <= 6
    requires forall i :: 0 <= i < |digits| ==> DigitValue(digits[i], 16).Some?
    ensures ';' !in "#" + ([x] + digits) && ByteLen("#" + ([x] + digits)) <= 9
  {
    HexIsPlain(digits);
    AsciiBytes("#" + [x]);
    ByteLenAppend("#" + [x], digits);
    assert ("#" + [x]) + digits == "#" + ([x] + digits);
  }

  lemma HexReferenceDecodes(c: char, x: char, digits: string)
    requires (x == 'x' || x == 'X') && digits == Hex(c as int)
    ensures var entity := "#" + ([x] + digits);
            ';' !in entity && ByteLen(entity) <= 9 && EntityText(entity) == Some([c])
  {
    HexOfChar(c);
    DigitsOfHex(c as int);
    HexBytes(x, digits);
    HexIsNumeric(c, x, digits);
    HexIsNoName(x, digits);
  }

  /** One hexadecimal reference, in either case of its x, decodes to its code point. */
  lemma DecodeHex(c: char, x: char, rest: string)
    requires x == 'x' || x == 'X'
    ensures DecodeEntities("&" + (("#" + ([x] + Hex(c as int))) + ";" + rest)) == [c] + DecodeEntities(rest)
  {
    HexReferenceDecodes(c, x, Hex(c as int));
    DecodeEntity("#" + ([x] + Hex(c as int)), rest);
  }
}
