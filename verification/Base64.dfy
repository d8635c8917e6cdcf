/** Base64 (sections 4 and 5 of RFC 4648): the standard padded form of envelopes
    and payloads, and the unpadded URL-safe form of page cursors. */
module Base64 {
  import opened Common

  datatype Variant = Std | RawUrl

  function Digit(v: Variant, d: int): char
    requires 0 <= d < 64
  {
    if d < 26 then 'A' + d as char
    else if d < 52 then 'a' + (d - 26) as char
    else if d < 62 then '0' + (d - 52) as char
    else if d == 62 then (if v == Std then '+' else '-')
    else if v == Std then '/' else '_'
  }

  function Value(v: Variant, c: char): (r: Option<int>)
    ensures r.Some? ==> 0 <= r.value < 64
  {
    if 'A' <= c <= 'Z' then Some(c as int - 'A' as int)
    else if 'a' <= c <= 'z' then Some(c as int - 'a' as int + 26)
    else if '0' <= c <= '9' then Some(c as int - '0' as int + 52)
    else if c == (if v == Std then '+' else '-') then Some(62)
    else if c == (if v == Std then '/' else '_') then Some(63)
    else None
  }

  function Padding(v: Variant, n: nat): string
    requires n <= 2
  {
    if v == RawUrl || n == 0 then "" else if n == 1 then "=" else "=="
  }

  function Encode(v: Variant, b: Bytes): string {
    if b == [] then ""
    else if |b| == 1 then
      var x := b[0] as int;
      [Digit(v, x / 4), Digit(v, x % 4 * 16)] + Padding(v, 2)
    else if |b| == 2 then
      var x, y := b[0] as int, b[1] as int;
      [Digit(v, x / 4), Digit(v, x % 4 * 16 + y / 16), Digit(v, y % 16 * 4)] + Padding(v, 1)
    else
      EncodeThree(v, b[0] as int, b[1] as int, b[2] as int) + Encode(v, b[3..])
  }

  function EncodeThree(v: Variant, x: int, y: int, z: int): string
    requires 0 <= x < 256 && 0 <= y < 256 && 0 <= z < 256
  {
    [Digit(v, x / 4), Digit(v, x % 4 * 16 + y / 16), Digit(v, y % 16 * 4 + z / 64), Digit(v, z % 64)]
  }

  function DecodeTwo(v: Variant, c: char, d: char): Option<Bytes> {
    var p, q := Value(v, c), Value(v, d);
    if p.None? || q.None? then None else Some([(p.value * 4 + q.value / 16) as byte])
  }

  function DecodeThree(v: Variant, c: char, d: char, e: char): Option<Bytes> {
    var p, q, r := Value(v, c), Value(v, d), Value(v, e);
    if p.None? || q.None? || r.None? then None
    else Some([(p.value * 4 + q.value / 16) as byte, (q.value % 16 * 16 + r.value / 4) as byte])
  }

  function DecodeFour(v: Variant, c: char, d: char, e: char, f: char): Option<Bytes> {
    var p, q, r, t := Value(v, c), Value(v, d), Value(v, e), Value(v, f);
    if p.None? || q.None? || r.None? || t.None? then None
    else
      Some([(p.value * 4 + q.value / 16) as byte, (q.value % 16 * 16 + r.value / 4) as byte,
            (r.value % 4 * 64 + t.value) as byte])
  }

  /** Quanta of four characters; only the last may be short or padded. Bits
      beyond the last whole byte are ignored. */
  function Decode(v: Variant, s: string): Option<Bytes> {
    if s == "" then Some([])
    else if v == RawUrl && |s| == 2 then DecodeTwo(v, s[0], s[1])
    else if v == RawUrl && |s| == 3 then DecodeThree(v, s[0], s[1], s[2])
    else if |s| < 4 then None
    else if v == Std && |s| == 4 && s[3] == '=' then
      if s[2] == '=' then DecodeTwo(v, s[0], s[1]) else DecodeThree(v, s[0], s[1], s[2])
    else
      match DecodeFour(v, s[0], s[1], s[2], s[3])
      case None => None
      case Some(three) =>
        match Decode(v, s[4..])
        case None => None
        case Some(others) => Some(three + others)
  }

  lemma DigitReads(v: Variant, d: int)
    requires 0 <= d < 64
    ensures Value(v, Digit(v, d)) == Some(d) && Digit(v, d) != '=' && Digit(v, d) !in {'\r', '\n'}
  {}

  lemma BitsJoin(x: int, y: int, z: int)
    requires 0 <= x < 256 && 0 <= y < 256 && 0 <= z < 256
    ensures x / 4 * 4 + (x % 4 * 16 + y / 16) / 16 == x
    ensures (x % 4 * 16 + y / 16) % 16 * 16 + (y % 16 * 4 + z / 64) / 4 == y
    ensures (y % 16 * 4 + z / 64) % 4 * 64 + z % 64 == z
  {
    assert (x % 4 * 16 + y / 16) / 16 == x % 4 && (x % 4 * 16 + y / 16) % 16 == y / 16;
    assert (y % 16 * 4 + z / 64) / 4 == y % 16 && (y % 16 * 4 + z / 64) % 4 == z / 64;
  }

  lemma FourReads(v: Variant, x: int, y: int, z: int)
    requires 0 <= x < 256 && 0 <= y < 256 && 0 <= z < 256
    ensures var s := EncodeThree(v, x, y, z);
      s[3] != '=' && DecodeFour(v, s[0], s[1], s[2], s[3]) == Some([x as byte, y as byte, z as byte])
  {
    var p, q, r, t := x / 4, x % 4 * 16 + y / 16, y % 16 * 4 + z / 64, z % 64;
    DigitReads(v, p);
    DigitReads(v, q);
    DigitReads(v, r);
    DigitReads(v, t);
    BitsJoin(x, y, z);
    DecodeDigits(v, p, q, r, t);
  }

  lemma DecodeDigits(v: Variant, p: int, q: int, r: int, t: int)
    requires 0 <= p < 64 && 0 <= q < 64 && 0 <= r < 64 && 0 <= t < 64
    ensures DecodeFour(v, Digit(v, p), Digit(v, q), Digit(v, r), Digit(v, t)) ==
      Some([(p * 4 + q / 16) as byte, (q % 16 * 16 + r / 4) as byte, (r % 4 * 64 + t) as byte])
  {
    DigitReads(v, p);
    DigitReads(v, q);
    DigitReads(v, r);
    DigitReads(v, t);
  }

  /** A quantum in front that is not the padded end of the text. */
  lemma DecodeStep(v: Variant, head: string, tail: string)
    requires |head| == 4 && head[3] != '='
    requires DecodeFour(v, head[0], head[1], head[2], head[3]).Some? && Decode(v, tail).Some?
    ensures Decode(v, head + tail) ==
      Some(DecodeFour(v, head[0], head[1], head[2], head[3]).value + Decode(v, tail).value)
  {
    assert (head + tail)[4..] == tail;
  }

  lemma OneByteReads(v: Variant, b: Bytes)
    requires |b| == 1
    ensures Decode(v, Encode(v, b)) == Some(b)
  {
    var x := b[0] as int;
    BitsJoin(x, 0, 0);
    DigitReads(v, x / 4);
    DigitReads(v, x % 4 * 16);
    var p, q := Digit(v, x / 4), Digit(v, x % 4 * 16);
    assert DecodeTwo(v, p, q) == Some([b[0]]);
    assert Encode(v, b) == [p, q] + Padding(v, 2);
    assert b == [b[0]];
  }

  lemma ThreeDigitsRead(v: Variant, x: byte, y: byte)
    ensures var p, q, r := Digit(v, x as int / 4), Digit(v, x as int % 4 * 16 + y as int / 16), Digit(v, y as int % 16 * 4);
      r != '=' && DecodeThree(v, p, q, r) == Some([x, y])
  {
    BitsJoin(x as int, y as int, 0);
    DigitReads(v, x as int / 4);
    DigitReads(v, x as int % 4 * 16 + y as int / 16);
    DigitReads(v, y as int % 16 * 4);
  }

  lemma TwoBytesRead(v: Variant, b: Bytes)
    requires |b| == 2
    ensures Decode(v, Encode(v, b)) == Some(b)
  {
    var x, y := b[0] as int, b[1] as int;
    ThreeDigitsRead(v, b[0], b[1]);
    var p, q, r := Digit(v, x / 4), Digit(v, x % 4 * 16 + y / 16), Digit(v, y % 16 * 4);
    assert Encode(v, b) == [p, q, r] + Padding(v, 1);
    assert b == [b[0], b[1]];
  }

  lemma LongReads(v: Variant, x: byte, y: byte, z: byte, tail: string, others: Bytes)
    requires Decode(v, tail) == Some(others)
    ensures Decode(v, EncodeThree(v, x as int, y as int, z as int) + tail) == Some([x, y, z] + others)
  {
    FourReads(v, x as int, y as int, z as int);
    DecodeStep(v, EncodeThree(v, x as int, y as int, z as int), tail);
  }

  /** Decoding gives back every byte string, in both variants. */
  lemma {:induction false} DecodeEncode(v: Variant, b: Bytes)
    ensures Decode(v, Encode(v, b)) == Some(b)
  {
    if b == [] {
    } else if |b| == 1 {
      OneByteReads(v, b);
    } else if |b| == 2 {
      TwoBytesRead(v, b);
    } else {
      DecodeEncode(v, b[3..]);
      LongReads(v, b[0], b[1], b[2], Encode(v, b[3..]), b[3..]);
      assert b == [b[0], b[1], b[2]] + b[3..];
    }
  }

  lemma {:induction false} EncodeHasNoNewlines(v: Variant, b: Bytes, k: nat)
    requires k < |Encode(v, b)|
    ensures Encode(v, b)[k] !in {'\r', '\n'}
  {
    if |b| >= 3 && k >= 4 {
      EncodeHasNoNewlines(v, b[3..], k - 4);
    }
  }
}
