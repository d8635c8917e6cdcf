/** Numbers as Go prints them and as both languages parse them. */
module Decimal {
  import opened Common

  const MIN_INT64: int := -0x8000_0000_0000_0000
  const MAX_INT64: int := 0x7FFF_FFFF_FFFF_FFFF

  predicate IsDigit(c: char) {
    '0' <= c <= '9'
  }

  predicate AllDigits(s: string) {
    forall k :: 0 <= k < |s| ==> IsDigit(s[k])
  }

  function DigitOf(d: nat): char
    requires d < 10
  {
    '0' + d as char
  }

  function ReadDigits(s: string): nat
    requires AllDigits(s)
  {
    if s == "" then 0 else ReadDigits(s[..|s| - 1]) * 10 + (s[|s| - 1] as nat - '0' as nat)
  }

  function FormatNat(n: nat): string {
    if n < 10 then [DigitOf(n)] else FormatNat(n / 10) + [DigitOf(n % 10)]
  }

  /** strconv.FormatInt in base 10, and Python's str of an int. */
  function FormatInt(n: int): string {
    if n < 0 then ['-'] + FormatNat(-n) else FormatNat(n)
  }

  /** strconv.ParseInt in base 10 for 64 bits. */
  function ParseInt(s: string): Option<int> {
    var negative := s != "" && s[0] == '-';
    var digits := if s != "" && (s[0] == '-' || s[0] == '+') then s[1..] else s;
    if digits == "" || !AllDigits(digits) then None
    else
      var n: int := ReadDigits(digits);
      var signed := if negative then -n else n;
      if MIN_INT64 <= signed <= MAX_INT64 then Some(signed) else None
  }

  lemma {:induction false} FormatNatReads(n: nat)
    ensures FormatNat(n) != "" && AllDigits(FormatNat(n)) && ReadDigits(FormatNat(n)) == n
  {
    if n < 10 {
      var s := [DigitOf(n)];
      assert s[..0] == "";
    } else {
      FormatNatReads(n / 10);
      var s := FormatNat(n);
      assert s[..|s| - 1] == FormatNat(n / 10);
    }
  }

  lemma ParseFormat(n: int)
    requires MIN_INT64 <= n <= MAX_INT64
    ensures ParseInt(FormatInt(n)) == Some(n)
  {
    if n < 0 {
      FormatNatReads(-n);
      assert FormatInt(n)[1..] == FormatNat(-n);
    } else {
      FormatNatReads(n);
    }
  }

  lemma FormatIntInjective(m: int, n: int)
    requires FormatInt(m) == FormatInt(n)
    ensures m == n
  {
    var a, b := Magnitude(m), Magnitude(n);
    FormatNatReads(a);
    FormatNatReads(b);
    assert FormatNat(a)[0] != '-' && FormatNat(b)[0] != '-';
    assert m < 0 ==> FormatInt(m)[1..] == FormatNat(a);
    assert n < 0 ==> FormatInt(n)[1..] == FormatNat(b);
    assert FormatNat(a) == FormatNat(b);
  }

  function Magnitude(n: int): nat {
    if n < 0 then -n else n
  }

  // --- Octal modes --------------------------------------------------------------

  predicate AllOctal(s: string) {
    forall k :: 0 <= k < |s| ==> '0' <= s[k] <= '7'
  }

  function ReadOctal(s: string): nat
    requires AllOctal(s)
  {
    if s == "" then 0 else ReadOctal(s[..|s| - 1]) * 8 + (s[|s| - 1] as nat - '0' as nat)
  }

  function Octal(n: nat): string {
    if n < 8 then [DigitOf(n)] else Octal(n / 8) + [DigitOf(n % 8)]
  }

  function PadZeros(s: string, width: nat): string {
    if |s| >= width then s else ['0'] + PadZeros(s, width - 1)
  }

  /** "%04o". */
  function ModeString(m: nat): string {
    PadZeros(Octal(m), 4)
  }

  lemma {:induction false} OctalReads(n: nat)
    ensures Octal(n) != "" && AllOctal(Octal(n)) && ReadOctal(Octal(n)) == n
  {
    if n < 8 {
      var s := [DigitOf(n)];
      assert s[..0] == "";
    } else {
      OctalReads(n / 8);
      var s := Octal(n);
      assert s[..|s| - 1] == Octal(n / 8);
    }
  }

  lemma {:induction false} LeadingZero(s: string)
    requires AllOctal(s)
    ensures ReadOctal(['0'] + s) == ReadOctal(s)
  {
    var z := ['0'] + s;
    if s == "" {
      assert z[..0] == "";
    } else {
      LeadingZero(s[..|s| - 1]);
      assert z[..|z| - 1] == ['0'] + s[..|s| - 1];
    }
  }

  lemma {:induction false} PadZerosReads(s: string, width: nat)
    requires AllOctal(s)
    ensures AllOctal(PadZeros(s, width)) && ReadOctal(PadZeros(s, width)) == ReadOctal(s) && |s| <= |PadZeros(s, width)|
  {
    if |s| < width {
      PadZerosReads(s, width - 1);
      LeadingZero(PadZeros(s, width - 1));
    }
  }

  /** A printed mode is octal digits that read back as the mode. */
  lemma ModeStringReads(m: nat)
    ensures ModeString(m) != "" && AllOctal(ModeString(m)) && ReadOctal(ModeString(m)) == m
  {
    OctalReads(m);
    PadZerosReads(Octal(m), 4);
  }
}
