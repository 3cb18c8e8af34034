/** Strict UTF-8 decoding, as far as the command reader depends on it. */
module Utf8 {
  import opened Results
  import opened DataLines

  predicate Cont(b: byte) {
    0x80 <= b < 0xC0
  }

  /** Bytes in the sequence this byte starts; 0 for a byte that starts none. */
  function Width(b: byte): nat {
    if b < 0x80 then 1
    else if 0xC2 <= b < 0xE0 then 2
    else if 0xE0 <= b < 0xF0 then 3
    else if 0xF0 <= b < 0xF5 then 4
    else 0
  }

  /** The code point of one well-formed sequence; overlong forms, surrogates and values past
      0x10FFFF are rejected. */
  function Scalar(b: bytes): (c: Option<char>)
    requires b != [] && |b| == Width(b[0])
    ensures c.Some? && |b| > 1 ==> c.value as int >= 0x80
    ensures c.Some? && |b| == 1 ==> c.value as int == b[0] as int
  {
    if exists i :: 1 <= i < |b| && !Cont(b[i]) then None
    else
      var n :=
        if |b| == 1 then b[0] as int
        else if |b| == 2 then (b[0] as int - 0xC0) * 0x40 + (b[1] as int - 0x80)
        else if |b| == 3 then
          (b[0] as int - 0xE0) * 0x1000 + (b[1] as int - 0x80) * 0x40 + (b[2] as int - 0x80)
        else
          (b[0] as int - 0xF0) * 0x40000 + (b[1] as int - 0x80) * 0x1000
          + (b[2] as int - 0x80) * 0x40 + (b[3] as int - 0x80);
      if (|b| == 3 && n < 0x800) || (|b| == 4 && n < 0x10000) then None
      else if 0xD800 <= n < 0xE000 || n > 0x10FFFF then None
      else Some(n as char)
  }

  function Decode(b: bytes): Option<string>
    decreases |b|
  {
    if b == [] then Some("")
    else
      var w := Width(b[0]);
      if w == 0 || w > |b| then None
      else
        var head, tail := Scalar(b[..w]), Decode(b[w..]);
        if head.None? || tail.None? then None else Some([head.value] + tail.value)
  }

  /** A newline in the text comes only from an LF byte: a single line decodes to a single line. */
  lemma {:induction false} DecodedNewlines(b: bytes)
    requires Decode(b).Some? && forall i :: 0 <= i < |b| - 1 ==> b[i] != LF
    ensures var text := Decode(b).value; forall k :: 0 <= k < |text| - 1 ==> text[k] != '\n'
    ensures b != [] ==> Decode(b).value != ""
    decreases |b|
  {
    if b != [] {
      var w := Width(b[0]);
      DecodedNewlines(b[w..]);
      var head, tail := Scalar(b[..w]).value, Decode(b[w..]).value;
      if |b[w..]| > 0 {
        assert head != '\n';
      }
      forall k | 0 <= k < |Decode(b).value| - 1
        ensures Decode(b).value[k] != '\n'
      {
        assert k > 0 ==> Decode(b).value[k] == tail[k - 1];
      }
    }
  }

  // ---------------------------------------------------------------- the encoding

  /** The bytes of one code point, by the table in section 3 of RFC 3629. */
  function EncodeChar(c: char): (b: bytes)
    ensures 1 <= |b| <= 4
  {
    var n := c as int;
    if n < 0x80 then [n as byte]
    else if n < 0x800 then [(0xC0 + n / 0x40) as byte, (0x80 + n % 0x40) as byte]
    else if n < 0x10000 then
      [(0xE0 + n / 0x1000) as byte, (0x80 + n / 0x40 % 0x40) as byte, (0x80 + n % 0x40) as byte]
    else
      [(0xF0 + n / 0x40000) as byte, (0x80 + n / 0x1000 % 0x40) as byte, (0x80 + n / 0x40 % 0x40) as byte,
       (0x80 + n % 0x40) as byte]
  }

  function Encode(s: string): bytes {
    if s == "" then [] else EncodeChar(s[0]) + Encode(s[1..])
  }

  /** A number from its sextets, and back. */
  lemma Sextets(n: nat)
    ensures n == n / 0x40 * 0x40 + n % 0x40
    ensures n / 0x40 == n / 0x1000 * 0x40 + n / 0x40 % 0x40
    ensures n / 0x1000 == n / 0x40000 * 0x40 + n / 0x1000 % 0x40
  {
  }

  lemma FromSextets(a: nat, b: nat, c: nat, d: nat)
    requires b < 0x40 && c < 0x40 && d < 0x40
    ensures
      var n := a * 0x40000 + b * 0x1000 + c * 0x40 + d;
      n / 0x40000 == a && n / 0x1000 % 0x40 == b && n / 0x40 % 0x40 == c && n % 0x40 == d
  {
    var n := a * 0x40000 + b * 0x1000 + c * 0x40 + d;
    Sextets(n);
    assert n / 0x40 == a * 0x1000 + b * 0x40 + c;
    assert n / 0x1000 == a * 0x40 + b;
  }

  /** A value put together from the bytes behind the first. */
  lemma ScalarOf(b: bytes, n: nat)
    requires b != [] && |b| == Width(b[0])
    requires forall i :: 1 <= i < |b| ==> Cont(b[i])
    requires |b| == 1 ==> n == b[0] as int
    requires |b| == 2 ==> n == (b[0] as int - 0xC0) * 0x40 + (b[1] as int - 0x80)
    requires |b| == 3 ==> n == (b[0] as int - 0xE0) * 0x1000 + (b[1] as int - 0x80) * 0x40 + (b[2] as int - 0x80)
    requires |b| == 4 ==> n == (b[0] as int - 0xF0) * 0x40000 + (b[1] as int - 0x80) * 0x1000
                               + (b[2] as int - 0x80) * 0x40 + (b[3] as int - 0x80)
    ensures Scalar(b)
         == if (|b| == 3 && n < 0x800) || (|b| == 4 && n < 0x10000) || 0xD800 <= n < 0xE000 || n > 0x10FFFF then None
            else Some(n as char)
  {
  }

  lemma CharDecodes(c: char)
    ensures var b := EncodeChar(c); Width(b[0]) == |b| && Scalar(b) == Some(c)
  {
    var n := c as int;
    Sextets(n);
    ScalarOf(EncodeChar(c), n);
  }

  lemma CharEncodes(b: bytes)
    requires b != [] && |b| == Width(b[0]) && Scalar(b).Some?
    ensures EncodeChar(Scalar(b).value) == b
  {
    if |b| == 2 {
      FromSextets(0, 0, b[0] as int - 0xC0, b[1] as int - 0x80);
    } else if |b| == 3 {
      FromSextets(0, b[0] as int - 0xE0, b[1] as int - 0x80, b[2] as int - 0x80);
    } else if |b| == 4 {
      FromSextets(b[0] as int - 0xF0, b[1] as int - 0x80, b[2] as int - 0x80, b[3] as int - 0x80);
    }
  }

  /** Decoding is strict: a text comes from its own encoding and from no other bytes. */
  lemma DecodesExactly(b: bytes, s: string)
    ensures Decode(b) == Some(s) <==> b == Encode(s)
  {
    DecodeEncode(s);
    if Decode(b).Some? {
      EncodeDecode(b);
    }
  }

  lemma {:induction false} DecodeEncode(s: string)
    ensures Decode(Encode(s)) == Some(s)
  {
    if s != "" {
      var head, tail := EncodeChar(s[0]), Encode(s[1..]);
      CharDecodes(s[0]);
      DecodeEncode(s[1..]);
      assert (head + tail)[..|head|] == head && (head + tail)[|head|..] == tail;
      assert [s[0]] + s[1..] == s;
    }
  }

  lemma {:induction false} EncodeDecode(b: bytes)
    requires Decode(b).Some?
    ensures Encode(Decode(b).value) == b
    decreases |b|
  {
    if b != [] {
      var w := Width(b[0]);
      var head, tail := Scalar(b[..w]).value, Decode(b[w..]).value;
      CharEncodes(b[..w]);
      EncodeDecode(b[w..]);
      assert ([head] + tail)[1..] == tail && b[..w] + b[w..] == b;
    }
  }

  lemma {:induction false} EncodeAppend(a: string, b: string)
    ensures Encode(a + b) == Encode(a) + Encode(b)
  {
    if a == "" {
      assert a + b == b;
    } else {
      assert (a + b)[0] == a[0] && (a + b)[1..] == a[1..] + b;
      EncodeAppend(a[1..], b);
      var x, y, z := EncodeChar(a[0]), Encode(a[1..]), Encode(b);
      assert x + (y + z) == (x + y) + z;
    }
  }

  /** An LF byte stands for a newline only. */
  lemma {:induction false} EncodedLf(s: string)
    requires '\n' !in s
    ensures LF !in Encode(s)
  {
    if s != "" {
      assert s[0] in s && forall c :: c in s[1..] ==> c in s;
      EncodedLf(s[1..]);
      EncodedCharLf(s[0]);
    }
  }

  lemma EncodedCharLf(c: char)
    requires c != '\n'
    ensures LF !in EncodeChar(c)
  {
  }
}
