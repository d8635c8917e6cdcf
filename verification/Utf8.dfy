/**
  UTF-8 (section 3 of RFC 3629) and the fact both languages lean on: ordering
  strings by bytes, as Go does, is ordering them by code point, as Python does.
 */
module Utf8 {
  import opened Common
  import opened Sorting

  function EncodeChar(c: char): (bytes: Bytes)
    ensures 1 <= |bytes| <= 4
  {
    var n := c as int;
    var n1 := n / 0x40;
    var n2 := n1 / 0x40;
    var n3 := n2 / 0x40;
    if n < 0x80 then
      [n as byte]
    else if n < 0x800 then
      [(0xC0 + n1) as byte, (0x80 + n % 0x40) as byte]
    else if n < 0x10000 then
      [(0xE0 + n2) as byte, (0x80 + n1 % 0x40) as byte, (0x80 + n % 0x40) as byte]
    else
      [(0xF0 + n3) as byte, (0x80 + n2 % 0x40) as byte, (0x80 + n1 % 0x40) as byte, (0x80 + n % 0x40) as byte]
  }

  function Encode(s: string): Bytes {
    if s == [] then [] else EncodeChar(s[0]) + Encode(s[1..])
  }

  /** Strings compared as Python compares str values. */
  predicate CharsLess(a: string, b: string) {
    if b == [] then false
    else if a == [] then true
    else if a[0] != b[0] then a[0] < b[0]
    else CharsLess(a[1..], b[1..])
  }

  /** Byte strings compared as Go compares string values. */
  predicate BytesLess(a: Bytes, b: Bytes) {
    if b == [] then false
    else if a == [] then true
    else if a[0] != b[0] then a[0] < b[0]
    else BytesLess(a[1..], b[1..])
  }

  predicate GoLess(a: string, b: string) {
    BytesLess(Encode(a), Encode(b))
  }

  lemma {:induction false} EncodeConcat(a: string, b: string)
    ensures Encode(a + b) == Encode(a) + Encode(b)
  {
    if a == [] {
      assert a + b == b;
    } else {
      assert (a + b)[1..] == a[1..] + b;
      EncodeConcat(a[1..], b);
    }
  }

  /** How many bytes a character takes. */
  function Width(c: char): nat {
    if c as int < 0x80 then 1 else if c as int < 0x800 then 2 else if c as int < 0x10000 then 3 else 4
  }

  lemma WiderIsGreater(c: char, d: char)
    requires c < d && Width(c) != Width(d)
    ensures EncodeChar(c)[0] < EncodeChar(d)[0]
  {}

  lemma TwoBytesDiverge(c: char, d: char) returns (k: nat)
    requires c < d && Width(c) == Width(d) == 2
    ensures k < 2 && EncodeChar(c)[..k] == EncodeChar(d)[..k] && EncodeChar(c)[k] < EncodeChar(d)[k]
  {
    k := if EncodeChar(c)[0] != EncodeChar(d)[0] then 0 else 1;
  }

  lemma ThreeBytesDiverge(c: char, d: char) returns (k: nat)
    requires c < d && Width(c) == Width(d) == 3
    ensures k < 3 && EncodeChar(c)[..k] == EncodeChar(d)[..k] && EncodeChar(c)[k] < EncodeChar(d)[k]
  {
    var x, y := EncodeChar(c), EncodeChar(d);
    k := if x[0] != y[0] then 0 else if x[1] != y[1] then 1 else 2;
  }

  lemma FourBytesDiverge(c: char, d: char) returns (k: nat)
    requires c < d && Width(c) == Width(d) == 4
    ensures k < 4 && EncodeChar(c)[..k] == EncodeChar(d)[..k] && EncodeChar(c)[k] < EncodeChar(d)[k]
  {
    var x, y := EncodeChar(c), EncodeChar(d);
    k := if x[0] != y[0] then 0 else if x[1] != y[1] then 1 else if x[2] != y[2] then 2 else 3;
  }

  /** Encodings of different characters part at some byte, in code point order. */
  lemma EncodeCharDiverges(c: char, d: char) returns (k: nat)
    requires c < d
    ensures k < |EncodeChar(c)| && k < |EncodeChar(d)|
    ensures EncodeChar(c)[..k] == EncodeChar(d)[..k]
    ensures EncodeChar(c)[k] < EncodeChar(d)[k]
  {
    k := 0;
    if Width(c) != Width(d) {
      WiderIsGreater(c, d);
    } else if Width(c) == 2 {
      k := TwoBytesDiverge(c, d);
    } else if Width(c) == 3 {
      k := ThreeBytesDiverge(c, d);
    } else if Width(c) == 4 {
      k := FourBytesDiverge(c, d);
    }
  }

  lemma {:induction false} BytesLessAfterPrefix(p: Bytes, a: Bytes, b: Bytes)
    ensures BytesLess(p + a, p + b) <==> BytesLess(a, b)
  {
    if p == [] {
      assert p + a == a && p + b == b;
    } else {
      assert (p + a)[1..] == p[1..] + a && (p + b)[1..] == p[1..] + b;
      BytesLessAfterPrefix(p[1..], a, b);
    }
  }

  lemma FirstByteDecides(a: Bytes, b: Bytes)
    requires a != [] && b != [] && a[0] < b[0]
    ensures BytesLess(a, b) && !BytesLess(b, a)
  {}

  lemma DivergenceDecides(x: Bytes, y: Bytes, k: nat, u: Bytes, v: Bytes)
    requires k < |x| && k < |y| && x[..k] == y[..k] && x[k] < y[k]
    ensures BytesLess(x + u, y + v) && !BytesLess(y + v, x + u)
  {
    var a, b := x[k..] + u, y[k..] + v;
    assert x + u == x[..k] + a;
    assert y + v == x[..k] + b;
    FirstByteDecides(a, b);
    BytesLessAfterPrefix(x[..k], a, b);
    BytesLessAfterPrefix(x[..k], b, a);
  }

  lemma FirstCharDecides(a: string, b: string)
    requires a != [] && b != [] && a[0] < b[0]
    ensures GoLess(a, b) && !GoLess(b, a)
  {
    var k := EncodeCharDiverges(a[0], b[0]);
    DivergenceDecides(EncodeChar(a[0]), EncodeChar(b[0]), k, Encode(a[1..]), Encode(b[1..]));
  }

  /** Byte order of the encodings is code point order of the strings. */
  lemma {:induction false} Utf8Order(a: string, b: string)
    ensures GoLess(a, b) <==> CharsLess(a, b)
  {
    if a == [] || b == [] {
    } else if a[0] < b[0] {
      FirstCharDecides(a, b);
    } else if b[0] < a[0] {
      FirstCharDecides(b, a);
    } else {
      BytesLessAfterPrefix(EncodeChar(a[0]), Encode(a[1..]), Encode(b[1..]));
      Utf8Order(a[1..], b[1..]);
    }
  }

  lemma {:induction false} CharsLessTrichotomy(a: string, b: string)
    ensures CharsLess(a, b) ==> !CharsLess(b, a)
    ensures a != b ==> CharsLess(a, b) || CharsLess(b, a)
    ensures !CharsLess(a, a)
  {
    if a != [] && b != [] {
      CharsLessTrichotomy(a[1..], b[1..]);
      assert a == [a[0]] + a[1..] && b == [b[0]] + b[1..];
    } else if a != [] {
      CharsLessTrichotomy(a[1..], a[1..]);
    }
  }

  lemma {:induction false} NotLessTransitive(a: string, b: string, c: string)
    requires !CharsLess(b, a) && !CharsLess(c, b)
    ensures !CharsLess(c, a)
  {
    if a != [] && b != [] && c != [] && a[0] == b[0] == c[0] {
      NotLessTransitive(a[1..], b[1..], c[1..]);
    }
  }

  lemma CharsLessIsWeakOrder()
    ensures WeakOrder(CharsLess)
  {
    forall x, y | CharsLess(x, y) ensures !CharsLess(y, x) {
      CharsLessTrichotomy(x, y);
    }
    forall x, y, z | !CharsLess(y, x) && !CharsLess(z, y) ensures !CharsLess(z, x) {
      NotLessTransitive(x, y, z);
    }
  }

  /** No two strings share an encoding, so UTF-8 can be decoded. */
  lemma EncodeInjective(a: string, b: string)
    requires Encode(a) == Encode(b)
    ensures a == b
  {
    Utf8Order(a, b);
    Utf8Order(b, a);
    CharsLessTrichotomy(a, b);
    Utf8Order(a, a);
    CharsLessTrichotomy(a, a);
  }

  /** The text a byte string encodes, when it is valid UTF-8. */
  ghost function Decode(bytes: Bytes): (s: Option<string>)
    ensures s.Some? ==> Encode(s.value) == bytes
  {
    if exists t: string :: Encode(t) == bytes then
      var t: string :| Encode(t) == bytes;
      Some(t)
    else None
  }

  lemma DecodeEncode(s: string)
    ensures Decode(Encode(s)) == Some(s)
  {
    EncodeInjective(Decode(Encode(s)).value, s);
  }
}
