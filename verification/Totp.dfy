/**
  Time-based one-time passwords: the moving factor (section 5.2 of RFC 6238),
  dynamic truncation (section 5.3 of RFC 4226) and the clock-skew search.
 */
module Totp {
  import opened Common
  import opened Decimal
  import Utf8

  const PERIOD: int := 30
  const CODE_DIGITS: nat := 6
  const DIGEST_LENGTH: nat := 20
  const TWO_64: int := 0x1_0000_0000_0000_0000

  /** A keyed hash standing for HMAC-SHA-1: any function with digests of 20 bytes. */
  type Mac = mac: (Bytes, Bytes) -> Bytes | forall key, message :: |mac(key, message)| == DIGEST_LENGTH
    witness (key, message) => ZeroDigest(DIGEST_LENGTH)

  function ZeroDigest(n: nat): (s: Bytes)
    ensures |s| == n
  {
    if n == 0 then [] else ZeroDigest(n - 1) + [0]
  }

  /** Go's integer division truncates toward zero. */
  function GoDiv(a: int, b: int): int
    requires b > 0
  {
    if a >= 0 then a / b else -(-a / b)
  }

  function CounterAt(unix: int): int {
    GoDiv(unix, PERIOD)
  }

  // --- The eight message bytes ----------------------------------------------

  function BigEndian(s: Bytes): nat {
    if s == [] then 0 else BigEndian(s[..|s| - 1]) * 256 + s[|s| - 1] as nat
  }

  function ToBytes(v: nat, n: nat): (s: Bytes)
    ensures |s| == n
  {
    if n == 0 then [] else ToBytes(v / 256, n - 1) + [(v % 256) as byte]
  }

  function Limit(n: nat): nat {
    if n == 0 then 1 else 256 * Limit(n - 1)
  }

  lemma {:induction false} ToBytesDecodes(v: nat, n: nat)
    requires v < Limit(n)
    ensures BigEndian(ToBytes(v, n)) == v
  {
    if n > 0 {
      ToBytesDecodes(v / 256, n - 1);
      var s := ToBytes(v, n);
      assert s[..|s| - 1] == ToBytes(v / 256, n - 1);
    }
  }

  lemma LimitEight()
    ensures Limit(8) == TWO_64
  {
    assert Limit(4) == 0x1_0000_0000;
  }

  /** The shifting loop of TOTPCode over a 64-bit counter. */
  method CounterBytes(counter: nat) returns (message: array<byte>)
    requires counter < TWO_64
    ensures fresh(message) && message.Length == 8
    ensures message[..] == ToBytes(counter, 8) && BigEndian(message[..]) == counter
  {
    message := new byte[8];
    var rest := counter;
    var i := 7;
    assert message[8..] == [];
    while i >= 0
      invariant -1 <= i <= 7
      invariant ToBytes(counter, 8) == ToBytes(rest, i + 1) + message[i + 1..]
    {
      ghost var tail := message[i + 1..];
      message[i] := (rest % 256) as byte;
      assert message[i..] == [(rest % 256) as byte] + tail;
      rest := rest / 256;
      i := i - 1;
    }
    assert message[0..] == message[..];
    LimitEight();
    ToBytesDecodes(counter, 8);
  }

  // --- Truncation and printing ----------------------------------------------

  function Offset(digest: Bytes): nat
    requires |digest| == DIGEST_LENGTH
  {
    digest[DIGEST_LENGTH - 1] as nat % 16
  }

  /** The 31-bit number at the offset the digest names. */
  function Truncate(digest: Bytes): (v: nat)
    requires |digest| == DIGEST_LENGTH
    ensures v < 0x8000_0000
  {
    var o := Offset(digest);
    (digest[o] as nat % 128) * 0x100_0000 + digest[o + 1] as nat * 0x1_0000
      + digest[o + 2] as nat * 0x100 + digest[o + 3] as nat
  }

  /** Truncation reads four consecutive bytes inside the digest, sign bit dropped. */
  lemma TruncateReads(digest: Bytes)
    requires |digest| == DIGEST_LENGTH
    ensures Offset(digest) + 4 <= |digest|
    ensures Truncate(digest) == BigEndian(digest[Offset(digest)..Offset(digest) + 4]) % 0x8000_0000
  {
    var o := Offset(digest);
    BigEndianFour(digest[o], digest[o + 1], digest[o + 2], digest[o + 3]);
    assert digest[o..o + 4] == [digest[o], digest[o + 1], digest[o + 2], digest[o + 3]];
  }

  lemma BigEndianPush(s: Bytes, b: byte)
    ensures BigEndian(s + [b]) == BigEndian(s) * 256 + b as nat
  {
    assert (s + [b])[..|s|] == s;
  }

  lemma BigEndianFour(a: byte, b: byte, c: byte, d: byte)
    ensures BigEndian([a, b, c, d]) == ((a as nat * 256 + b as nat) * 256 + c as nat) * 256 + d as nat
  {
    BigEndianPush([], a);
    BigEndianPush([a], b);
    BigEndianPush([a, b], c);
    BigEndianPush([a, b, c], d);
    assert [] + [a] == [a] && [a] + [b] == [a, b] && [a, b] + [c] == [a, b, c] && [a, b, c] + [d] == [a, b, c, d];
  }

  /** The `n` low decimal digits of `v`, zero padded. */
  function PrintDigits(v: nat, n: nat): (s: string)
    ensures |s| == n
  {
    if n == 0 then "" else PrintDigits(v / 10, n - 1) + [DigitOf(v % 10)]
  }

  function Pow10(n: nat): nat {
    if n == 0 then 1 else 10 * Pow10(n - 1)
  }

  lemma {:induction false} PrintedDigitsRead(v: nat, n: nat)
    requires v < Pow10(n)
    ensures AllDigits(PrintDigits(v, n))
    ensures ReadDigits(PrintDigits(v, n)) == v
  {
    if n > 0 {
      PrintedDigitsRead(v / 10, n - 1);
      var s := PrintDigits(v, n);
      assert s[..|s| - 1] == PrintDigits(v / 10, n - 1);
    }
  }

  function CodeOf(digest: Bytes): string
    requires |digest| == DIGEST_LENGTH
  {
    PrintDigits(Truncate(digest) % 1_000_000, CODE_DIGITS)
  }

  /** A code is exactly six digits and reads back as the truncated value modulo 10^6. */
  lemma CodeIsSixDigits(digest: Bytes)
    requires |digest| == DIGEST_LENGTH
    ensures |CodeOf(digest)| == 6 && AllDigits(CodeOf(digest))
    ensures ReadDigits(CodeOf(digest)) == Truncate(digest) % 1_000_000
  {
    assert Pow10(3) == 1000;
    assert Pow10(6) == 1_000_000;
    PrintedDigitsRead(Truncate(digest) % 1_000_000, 6);
  }

  /** The code of the counter, as the conversion to uint64 wraps it. */
  ghost function CodeFor(key: Bytes, counter: int, mac: Mac): string
  {
    CodeOf(mac(key, ToBytes(counter % TWO_64, 8)))
  }

  /** TOTPCode for a decoded secret; an empty key is an error. */
  method TOTPCode(key: Bytes, unix: int, mac: Mac) returns (code: Option<string>)
    ensures code == if key == [] then None else Some(CodeFor(key, CounterAt(unix), mac))
  {
    if key == [] { return None; }
    var counter := CounterAt(unix) % TWO_64;
    var message := CounterBytes(counter);
    var digest := mac(key, message[..]);
    return Some(CodeOf(digest));
  }

  // --- Matching with one step of skew ---------------------------------------

  const OFFSETS: seq<int> := [-PERIOD, 0, PERIOD]

  ghost predicate Matches(key: Bytes, code: string, unix: int, mac: Mac)
  {
    key != [] && CodeFor(key, CounterAt(unix), mac) == code
  }

  /** The first counter within one period of the clock whose code is `code`. */
  ghost function Matching(key: Bytes, code: string, unix: int, mac: Mac): Option<int>
  {
    if Matches(key, code, unix - PERIOD, mac) then Some(CounterAt(unix - PERIOD))
    else if Matches(key, code, unix, mac) then Some(CounterAt(unix))
    else if Matches(key, code, unix + PERIOD, mac) then Some(CounterAt(unix + PERIOD))
    else None
  }

  lemma AsciiLength(s: string)
    requires AllDigits(s)
    ensures |Utf8.Encode(s)| == |s|
  {
    if s != "" {
      AsciiLength(s[1..]);
    }
  }

  lemma MatchingLength(key: Bytes, code: string, unix: int, mac: Mac)
    ensures Matches(key, code, unix, mac) ==> |Utf8.Encode(code)| == CODE_DIGITS
  {
    var digest := mac(key, ToBytes(CounterAt(unix) % TWO_64, 8));
    CodeIsSixDigits(digest);
    AsciiLength(CodeOf(digest));
  }

  /** TOTPMatchingCounter. */
  method MatchingCounter(key: Bytes, code: string, unix: int, mac: Mac) returns (counter: Option<int>)
    ensures counter == Matching(key, code, unix, mac)
  {
    if |Utf8.Encode(code)| != CODE_DIGITS {
      MatchingLength(key, code, unix - PERIOD, mac);
      MatchingLength(key, code, unix, mac);
      MatchingLength(key, code, unix + PERIOD, mac);
      return None;
    }
    counter := SearchOffsets(key, code, unix, mac);
  }

  method SearchOffsets(key: Bytes, code: string, unix: int, mac: Mac) returns (counter: Option<int>)
    ensures counter == Matching(key, code, unix, mac)
  {
    var k := 0;
    while k < |OFFSETS|
      invariant 0 <= k <= 3
      invariant k > 0 ==> !Matches(key, code, unix - PERIOD, mac)
      invariant k > 1 ==> !Matches(key, code, unix, mac)
      invariant k > 2 ==> !Matches(key, code, unix + PERIOD, mac)
    {
      var candidate := unix + OFFSETS[k];
      assert candidate == if k == 0 then unix - PERIOD else if k == 1 then unix else unix + PERIOD;
      var want := TOTPCode(key, candidate, mac);
      assert want == Some(code) <==> Matches(key, code, candidate, mac);
      if want == Some(code) {
        return Some(CounterAt(candidate));
      }
      k := k + 1;
    }
    return None;
  }

  /** An accepted counter is the clock's own or a direct neighbour, and carries the code. */
  lemma MatchingIsNear(key: Bytes, code: string, unix: int, mac: Mac)
    ensures Matching(key, code, unix, mac).Some? ==>
      var c := Matching(key, code, unix, mac).value;
      CounterAt(unix) - 1 <= c <= CounterAt(unix) + 1 && CodeFor(key, c, mac) == code
  {}
}
