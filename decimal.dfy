/** Swift's conversions between `Int` and decimal text: `Int(String)`,
    which accepts an optional sign followed by one or more ASCII digits and
    rejects values outside the 64-bit range, and `String(Int)` /
    string interpolation, which prints the shortest decimal form. */
module Decimal {
  import opened Wrappers

  const Int64Min: int := -0x8000_0000_0000_0000
  const Int64Max: int := 0x7fff_ffff_ffff_ffff

  predicate IsDigit(c: char) { '0' <= c <= '9' }

  predicate AllDigits(s: string) {
    forall i :: 0 <= i < |s| ==> IsDigit(s[i])
  }

  function DigitValue(c: char): nat
    requires IsDigit(c)
  {
    c as int - '0' as int
  }

  function DigitChar(d: nat): (c: char)
    requires d < 10
    ensures IsDigit(c) && DigitValue(c) == d
  {
    ('0' as int + d) as char
  }

  /** The value of a string of digits, most significant first. */
  function DigitsValue(s: string): nat
    requires AllDigits(s)
  {
    if s == [] then 0 else DigitsValue(s[..|s| - 1]) * 10 + DigitValue(s[|s| - 1])
  }

  /** Shortest decimal form of a natural number. */
  function NatToDecimal(n: nat): (s: string)
    ensures |s| >= 1 && AllDigits(s)
  {
    if n < 10 then [DigitChar(n)] else NatToDecimal(n / 10) + [DigitChar(n % 10)]
  }

  /** `String(i)` for an `Int`. */
  function IntToDecimal(i: int): string {
    if i < 0 then ['-'] + NatToDecimal(-i) else NatToDecimal(i)
  }

  /** `Int(s)`: `None` unless `s` is an optional `+` or `-` followed by at
      least one digit and the value fits in 64 bits. */
  function ParseInt(s: string): Option<int> {
    var signed := |s| > 0 && (s[0] == '+' || s[0] == '-');
    var digits := if signed then s[1..] else s;
    if |digits| == 0 || !AllDigits(digits) then None
    else
      var v: int := if signed && s[0] == '-' then -(DigitsValue(digits) as int) else DigitsValue(digits);
      if Int64Min <= v <= Int64Max then Some(v) else None
  }

  lemma {:induction false} NatToDecimalValue(n: nat)
    ensures DigitsValue(NatToDecimal(n)) == n
  {
    var s := NatToDecimal(n);
    if n >= 10 {
      NatToDecimalValue(n / 10);
      assert s[..|s| - 1] == NatToDecimal(n / 10);
    }
  }

  /** Parsing the printed form of any 64-bit integer gives it back. */
  lemma ParseIntRoundTrip(i: int)
    requires Int64Min <= i <= Int64Max
    ensures ParseInt(IntToDecimal(i)) == Some(i)
  {
    var s := IntToDecimal(i);
    if i < 0 {
      assert s[1..] == NatToDecimal(-i);
      NatToDecimalValue(-i);
    } else {
      NatToDecimalValue(i);
      assert IsDigit(s[0]);
    }
  }

  /** A successful parse is a 64-bit value written with at least one digit. */
  lemma ParseIntAccepts(s: string)
    requires ParseInt(s).Some?
    ensures Int64Min <= ParseInt(s).value <= Int64Max
    ensures exists k :: 0 <= k < |s| && IsDigit(s[k])
  {
    var k := if s[0] == '+' || s[0] == '-' then 1 else 0;
    assert IsDigit(s[k]);
  }

  /** Distinct naturals print differently. */
  lemma NatToDecimalInjective(m: nat, n: nat)
    requires NatToDecimal(m) == NatToDecimal(n)
    ensures m == n
  {
    NatToDecimalValue(m);
    NatToDecimalValue(n);
  }

  lemma ParseIntExamples()
    ensures ParseInt("52768") == Some(52768)
    ensures ParseInt("-7") == Some(-7)
    ensures ParseInt("+007") == Some(7)
    ensures ParseInt("abc") == None
    ensures ParseInt("") == None
    ensures ParseInt("-") == None
    ensures ParseInt("12a") == None
  {
    assert IntToDecimal(52768) == "52768";
    ParseIntRoundTrip(52768);
    assert "+007"[1..] == "007" && "007"[..2] == "00" && "00"[..1] == "0";
    assert !IsDigit("12a"[2]);
    assert IntToDecimal(-7) == "-7";
    ParseIntRoundTrip(-7);
  }
}
