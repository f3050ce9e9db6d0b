/**
  Decimal text of integers, as produced by `std::to_string` on an integral
  value, and the leading-number parse shared by `atol` and `std::stol`:
  optional white space, an optional sign, then the longest run of digits.
 */
module Decimal {
  import opened Wrappers

  /** The range of a C `long` on an LP64 platform. */
  const LongMin: int := -0x8000_0000_0000_0000
  const LongMax: int := 0x7fff_ffff_ffff_ffff

  predicate IsDigit(c: char) {
    '0' <= c <= '9'
  }

  /** The characters `isspace` accepts in the C locale. */
  predicate IsSpace(c: char) {
    c == ' ' || c == '\t' || c == '\n' || c == '\r' || c == '\U{B}' || c == '\U{C}'
  }

  function DigitChar(d: nat): (c: char)
    requires d < 10
    ensures IsDigit(c)
  {
    ('0' as int + d) as char
  }

  function DigitOf(c: char): (d: nat)
    requires IsDigit(c)
    ensures d < 10
  {
    c as int - '0' as int
  }

  /** The decimal digits of `n`, most significant first, without leading zeros. */
  function Digits(n: nat): (s: string)
    ensures |s| >= 1
    ensures forall i :: 0 <= i < |s| ==> IsDigit(s[i])
  {
    if n < 10 then [DigitChar(n)] else Digits(n / 10) + [DigitChar(n % 10)]
  }

  /** `std::to_string` of an integer. */
  function ToDecimal(x: int): (s: string)
    ensures |s| >= 1 && (IsDigit(s[0]) || s[0] == '-')
    ensures forall i :: 0 <= i < |s| ==> IsDigit(s[i]) || s[i] == '-'
  {
    if x < 0 then "-" + Digits(-x) else Digits(x)
  }

  /** The value of a run of digits, read most significant first. */
  function DigitsValue(ds: string): nat
    requires forall i :: 0 <= i < |ds| ==> IsDigit(ds[i])
  {
    if ds == [] then 0 else DigitsValue(ds[..|ds| - 1]) * 10 + DigitOf(ds[|ds| - 1])
  }

  /** The longest prefix of `s` made of digits. */
  function DigitRun(s: string): (ds: string)
    ensures |ds| <= |s| && ds == s[..|ds|]
    ensures forall i :: 0 <= i < |ds| ==> IsDigit(ds[i])
    ensures |ds| < |s| ==> !IsDigit(s[|ds|])
  {
    if s != [] && IsDigit(s[0]) then [s[0]] + DigitRun(s[1..]) else []
  }

  function SkipSpace(s: string): (t: string)
    ensures |t| <= |s| && t == s[|s| - |t|..]
    ensures t != [] ==> !IsSpace(t[0])
  {
    if s != [] && IsSpace(s[0]) then SkipSpace(s[1..]) else s
  }

  /**
    The number at the start of `s`, or None when no digit follows the optional
    white space and sign (where `std::stol` throws `invalid_argument` and `atol`
    returns 0).
   */
  function ParsePrefix(s: string): Option<int> {
    var t := SkipSpace(s);
    if t != [] && (t[0] == '-' || t[0] == '+') then
      var ds := DigitRun(t[1..]);
      var v: int := if ds == [] then 0 else DigitsValue(ds);
      if ds == [] then None
      else if t[0] == '-' then Some(-v)
      else Some(v)
    else
      var ds := DigitRun(t);
      if ds == [] then None else Some(DigitsValue(ds))
  }

  lemma {:induction false} DigitsValueOfDigits(n: nat)
    ensures DigitsValue(Digits(n)) == n
  {
    if n >= 10 {
      var s := Digits(n / 10) + [DigitChar(n % 10)];
      assert s[..|s| - 1] == Digits(n / 10);
      DigitsValueOfDigits(n / 10);
    }
  }

  lemma {:induction false} DigitRunOfDigits(ds: string)
    requires forall i :: 0 <= i < |ds| ==> IsDigit(ds[i])
    ensures DigitRun(ds) == ds
  {
    if ds != [] {
      DigitRunOfDigits(ds[1..]);
    }
  }

  /** Text that starts with a digit is read as its leading run of digits. */
  lemma ParseUnsigned(s: string)
    requires s != [] && IsDigit(s[0])
    ensures ParsePrefix(s) == Some(DigitsValue(DigitRun(s)))
  {
    assert SkipSpace(s) == s;
  }

  /** Text that starts with '-' is read as the negated run of digits after it. */
  lemma ParseMinus(s: string)
    requires s != [] && s[0] == '-' && DigitRun(s[1..]) != []
    ensures ParsePrefix(s) == Some(-(DigitsValue(DigitRun(s[1..])) as int))
  {
    assert SkipSpace(s) == s;
  }

  lemma ParseDigits(n: nat)
    ensures ParsePrefix(Digits(n)) == Some(n)
  {
    ParseUnsigned(Digits(n));
    DigitRunOfDigits(Digits(n));
    DigitsValueOfDigits(n);
  }

  lemma ParseNegative(x: int)
    requires x < 0
    ensures ParsePrefix("-" + Digits(-x)) == Some(x)
  {
    var d := Digits(-x);
    var s := "-" + d;
    assert s[1..] == d;
    DigitRunOfDigits(d);
    DigitsValueOfDigits(-x);
    var v := DigitsValue(DigitRun(s[1..]));
    assert v == -x;
    ParseMinus(s);
  }

  /** Reading back the decimal text of any integer gives that integer. */
  lemma ParseToDecimal(x: int)
    ensures ParsePrefix(ToDecimal(x)) == Some(x)
  {
    if x < 0 {
      ParseNegative(x);
    } else {
      ParseDigits(x);
    }
  }

  /** A parsed number is never read out of text that starts with no digit and no sign. */
  lemma ParseNeedsDigit(s: string)
    requires s != [] && !IsSpace(s[0]) && !IsDigit(s[0]) && s[0] != '-' && s[0] != '+'
    ensures ParsePrefix(s) == None
  {
    assert SkipSpace(s) == s;
  }
}
