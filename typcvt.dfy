/**
  `Ftypcvt32`: conversion of a field value from one field type to another, as
  the `CF*` functions use it. Integers are stored little-endian in two's
  complement with the LP64 widths (`short` 2, `long` 8, signed `char` 1), a
  narrowing cast keeps the low bytes, `std::to_string` gives the decimal text
  and `atol` reads one back (glibc's `atol` is `strtol`, which saturates at the
  `long` range). Conversions from or to `float` and `double` are left
  uninterpreted except for the shape of their result.
 */
module TypeConversion {
  import opened Wrappers
  import opened FmlErrors
  import opened FieldIds
  import opened Entries
  import opened Decimal

  function Pow256(n: nat): (p: nat)
    ensures p >= 1
  {
    if n == 0 then 1 else 256 * Pow256(n - 1)
  }

  /** The smallest value that does not fit the signed type of `n` bytes. */
  function Half(n: nat): (h: int)
    requires n > 0
    ensures h >= 128
  {
    128 * Pow256(n - 1)
  }

  /** The `n` low bytes of the two's-complement representation of `x`, least significant first. */
  function Encode(x: int, n: nat): (b: Bytes)
    ensures |b| == n
    decreases n
  {
    if n == 0 then [] else [x % 256] + Encode(x / 256, n - 1)
  }

  /** The bytes read as an unsigned little-endian number. */
  function Unsigned(b: Bytes): nat {
    if b == [] then 0 else b[0] + 256 * Unsigned(b[1..])
  }

  /** The bytes read as a signed little-endian number. */
  function Signed(b: Bytes): (x: int)
    requires |b| > 0
    ensures -Half(|b|) <= x < Half(|b|)
  {
    UnsignedBound(b);
    var u := Unsigned(b);
    if u >= Half(|b|) then u - Pow256(|b|) else u
  }

  lemma {:induction false} UnsignedBound(b: Bytes)
    ensures Unsigned(b) < Pow256(|b|)
  {
    if b != [] {
      UnsignedBound(b[1..]);
    }
  }

  /** Euclidean division has one quotient and one remainder. */
  lemma DivModUnique(x: int, m: int, q: int, t: int)
    requires m > 0 && x == m * q + t && 0 <= t < m
    ensures x % m == t && x / m == q
  {
    var q' := x / m;
    var t' := x % m;
    if q' < q {
      MulDifference(m, q, q');
      MulAtLeast(m, q - q');
    } else if q' > q {
      MulDifference(m, q', q);
      MulAtLeast(m, q' - q);
    }
  }

  lemma MulDifference(m: int, a: int, b: int)
    ensures m * a - m * b == m * (a - b)
  {
  }

  lemma MulAtLeast(m: int, d: int)
    requires m > 0 && d >= 1
    ensures m * d >= m
  {
  }

  lemma ModSplit(x: int, P: nat)
    requires P >= 1
    ensures x % (256 * P) == x % 256 + 256 * ((x / 256) % P)
  {
    var q := x / 256;
    var r := x % 256;
    var q2 := q / P;
    var r2 := q % P;
    assert q == P * q2 + r2;
    assert x == 256 * q + r;
    assert x == (256 * P) * q2 + (256 * r2 + r);
    DivModUnique(x, 256 * P, q2, 256 * r2 + r);
  }

  lemma {:induction false} UnsignedEncode(x: int, n: nat)
    ensures Unsigned(Encode(x, n)) == x % Pow256(n)
    decreases n
  {
    if n > 0 {
      var b := Encode(x, n);
      assert b[1..] == Encode(x / 256, n - 1);
      UnsignedEncode(x / 256, n - 1);
      ModSplit(x, Pow256(n - 1));
    }
  }

  lemma {:induction false} UnsignedInjective(a: Bytes, b: Bytes)
    requires |a| == |b| && Unsigned(a) == Unsigned(b)
    ensures a == b
  {
    if a != [] {
      assert a[0] + 256 * Unsigned(a[1..]) == b[0] + 256 * Unsigned(b[1..]);
      UnsignedInjective(a[1..], b[1..]);
    }
  }

  /** Encoding a value that fits the signed type of `n` bytes and reading it back gives the value. */
  lemma SignedEncode(x: int, n: nat)
    requires n > 0 && -Half(n) <= x < Half(n)
    ensures Signed(Encode(x, n)) == x
  {
    UnsignedEncode(x, n);
    if x >= 0 {
      DivModUnique(x, Pow256(n), 0, x);
    } else {
      DivModUnique(x, Pow256(n), -1, x + Pow256(n));
    }
  }

  /** Every byte string is the encoding of the number it reads as. */
  lemma EncodeSigned(b: Bytes)
    requires |b| > 0
    ensures Encode(Signed(b), |b|) == b
  {
    var n := |b|;
    UnsignedBound(b);
    UnsignedEncode(Signed(b), n);
    if Unsigned(b) >= Half(n) {
      DivModUnique(Signed(b), Pow256(n), -1, Unsigned(b));
    } else {
      DivModUnique(Signed(b), Pow256(n), 0, Unsigned(b));
    }
    UnsignedInjective(Encode(Signed(b), n), b);
  }

  /**
    A narrowing cast wraps around: the value read back from the `n` low bytes
    differs from the original by a multiple of 256^n and lies in the signed
    range of `n` bytes.
   */
  lemma NarrowingWraps(x: int, n: nat)
    requires n > 0
    ensures -Half(n) <= Signed(Encode(x, n)) < Half(n)
    ensures Signed(Encode(x, n)) % Pow256(n) == x % Pow256(n)
  {
    var b := Encode(x, n);
    UnsignedEncode(x, n);
    UnsignedBound(b);
    if Unsigned(b) >= Half(n) {
      DivModUnique(Signed(b), Pow256(n), -1, Unsigned(b));
    } else {
      DivModUnique(Signed(b), Pow256(n), 0, Unsigned(b));
    }
  }

  /**
    `b` holds `x` after a cast to the signed type of `|b|` bytes: equal modulo
    256^|b|, and equal outright when `x` fits the type.
   */
  predicate Narrowed(b: Bytes, x: int) {
    && |b| > 0
    && Signed(b) % Pow256(|b|) == x % Pow256(|b|)
    && (-Half(|b|) <= x < Half(|b|) ==> Signed(b) == x)
  }

  lemma EncodeNarrows(x: int, n: nat)
    requires n > 0
    ensures Narrowed(Encode(x, n), x)
  {
    NarrowingWraps(x, n);
    if -Half(n) <= x < Half(n) {
      SignedEncode(x, n);
    }
  }

  lemma LongRange()
    ensures Half(8) == LongMax + 1 && -Half(8) == LongMin
  {
  }

  /** Text as bytes, one byte per character. */
  function Ascii(s: string): (b: Bytes)
    requires forall i :: 0 <= i < |s| ==> s[i] as int < 256
    ensures |b| == |s| && forall i :: 0 <= i < |s| ==> b[i] == s[i] as int
  {
    seq(|s|, i requires 0 <= i < |s| => s[i] as int)
  }

  /** Bytes as text, one character per byte. */
  function Text(b: Bytes): (s: string)
    ensures |s| == |b| && forall i :: 0 <= i < |b| ==> s[i] as int == b[i]
  {
    seq(|b|, i requires 0 <= i < |b| => b[i] as char)
  }

  /** The bytes before the first NUL, as `c_str` hands them to the C library. */
  function CText(b: Bytes): (t: Bytes)
    ensures |t| <= |b| && 0 !in t && t == b[..|t|]
    ensures 0 !in b ==> t == b
  {
    if 0 in b then b[..CStringLength(b)] else b
  }

  /**
    `atol`: the leading number of the C string, 0 when there is none, pinned to
    the `long` range when it does not fit.
   */
  function Atol(from: Bytes): (x: int)
    ensures LongMin <= x <= LongMax
  {
    match ParsePrefix(Text(CText(from)))
    case None => 0
    case Some(v) => if v < LongMin then LongMin else if v > LongMax then LongMax else v
  }

  /** A NUL-terminated text without a NUL inside, as `std::to_string` leaves it. */
  predicate TextShaped(b: Bytes) {
    |b| >= 1 && b[|b| - 1] == 0 && 0 !in b[..|b| - 1]
  }

  /** The result of a floating conversion has the width of a fixed target, or is a terminated text. */
  ghost predicate FloatingShaped(f: (int, int, Bytes) -> Bytes) {
    forall totype: int, fromtype: int, v: Bytes ::
      (IsFixed(totype) ==> |f(totype, fromtype, v)| == SizeOf(totype))
      && (totype == FLD_STRING || totype == FLD_CARRAY ==> TextShaped(f(totype, fromtype, v)))
  }

  type FloatingFn = f: (int, int, Bytes) -> Bytes | FloatingShaped(f)
    witness (t: int, ft: int, v: Bytes) => if IsFixed(t) then seq(SizeOf(t), i => 0) else [0]

  /**
    The bytes of value `v` of type `fromtype` converted to `totype`, where one
    of the two is `float` or `double`: a C cast, `atof`, or `std::to_string`
    with its terminating NUL. Floating point is not modelled beyond the shape.
   */
  const FloatingConversion: FloatingFn

  /** The converted bytes at the returned pointer and the length written to `*tolen`. */
  datatype Converted = Converted(bytes: Bytes, len: nat)

  /** The types `Ftypcvt32` converts from and to. */
  predicate IsConvertible(t: int) {
    FLD_SHORT <= t <= FLD_CARRAY
  }

  /**
    What a conversion to `totype` delivers: `FEBADOP` exactly when the target
    does not convert, otherwise bytes readable as a `totype` value with the
    reported length; a fixed target has its width, a text target ends in NUL.
   */
  predicate Delivers(totype: int, r: Result<Converted, Error>) {
    && (r.Failure? <==> !IsConvertible(totype))
    && (r.Failure? ==> r.error == FEBADOP)
    && (r.Success? ==> r.value.len == |r.value.bytes| && Readable(totype, r.value.bytes, r.value.len))
    && (r.Success? && IsFixed(totype) ==> r.value.len == SizeOf(totype))
    && (r.Success? && (totype == FLD_STRING || totype == FLD_CARRAY) ==>
          r.value.len >= 1 && r.value.bytes[r.value.len - 1] == 0)
  }

  function Floating(totype: int, fromtype: int, v: Bytes): (r: Result<Converted, Error>)
    ensures Delivers(totype, r)
  {
    if IsConvertible(totype) then
      var b := FloatingConversion(totype, fromtype, v);
      Success(Converted(b, |b|))
    else Failure(FEBADOP)
  }

  /**
    `TYPCVT`: an integer value converted to `totype`. An integer target holds
    the value after a C cast; a text target holds `std::to_string`'s text, and
    the length counts its terminating NUL.
   */
  function FromInteger(totype: int, x: int): (r: Result<Converted, Error>)
    ensures Delivers(totype, r)
    ensures totype == FLD_SHORT || totype == FLD_CHAR || totype == FLD_LONG ==>
      r.Success? && Narrowed(r.value.bytes, x)
    ensures totype == FLD_STRING || totype == FLD_CARRAY ==>
      r == Success(Converted(Ascii(ToDecimal(x)) + [0], |ToDecimal(x)| + 1)) && TextShaped(r.value.bytes)
  {
    if totype == FLD_SHORT then EncodeNarrows(x, 2); Success(Converted(Encode(x, 2), 2))
    else if totype == FLD_CHAR then EncodeNarrows(x, 1); Success(Converted(Encode(x, 1), 1))
    else if totype == FLD_FLOAT then Floating(totype, FLD_LONG, Encode(x, 8))
    else if totype == FLD_LONG then EncodeNarrows(x, 8); Success(Converted(Encode(x, 8), 8))
    else if totype == FLD_DOUBLE then Floating(totype, FLD_LONG, Encode(x, 8))
    else if totype == FLD_STRING || totype == FLD_CARRAY then
      var text := Ascii(ToDecimal(x));
      DecimalHasNoNul(x);
      assert (text + [0])[..|text|] == text;
      Success(Converted(text + [0], |text| + 1))
    else Failure(FEBADOP)
  }

  /**
    `TYPCVTS`: a text value converted to `totype`. Integer targets read it with
    `atol` and cast; `char` takes its first character (the NUL of an empty
    string); a text target gets the text back with a terminating NUL counted
    in the length.
   */
  function FromText(totype: int, from: Bytes): (r: Result<Converted, Error>)
    ensures Delivers(totype, r)
    ensures totype == FLD_SHORT || totype == FLD_LONG ==> r.Success? && Narrowed(r.value.bytes, Atol(from))
    ensures totype == FLD_LONG ==> r.Success? && Signed(r.value.bytes) == Atol(from)
    ensures totype == FLD_CHAR ==> r == Success(Converted([if from == [] then 0 else from[0]], 1))
    ensures totype == FLD_STRING || totype == FLD_CARRAY ==> r == Success(Converted(from + [0], |from| + 1))
  {
    if totype == FLD_SHORT then EncodeNarrows(Atol(from), 2); Success(Converted(Encode(Atol(from), 2), 2))
    else if totype == FLD_CHAR then Success(Converted([if from == [] then 0 else from[0]], 1))
    else if totype == FLD_FLOAT then Floating(totype, FLD_STRING, CText(from))
    else if totype == FLD_LONG then
      EncodeNarrows(Atol(from), 8);
      LongRange();
      Success(Converted(Encode(Atol(from), 8), 8))
    else if totype == FLD_DOUBLE then Floating(totype, FLD_STRING, CText(from))
    else if totype == FLD_STRING || totype == FLD_CARRAY then Success(Converted(from + [0], |from| + 1))
    else Failure(FEBADOP)
  }

  /**
    The value of type `fromtype` in `mem` (of `fromlen` bytes for a carray)
    converted to `totype`. Only the seven scalar and text types convert, in
    both roles; anything else is `FEBADOP`. The result is always readable as a
    value of `totype` with the reported length, so it can be stored as is.
   */
  function Convert(totype: int, mem: Bytes, fromtype: int, fromlen: nat): (r: Result<Converted, Error>)
    requires Readable(fromtype, mem, fromlen)
    ensures r.Failure? <==> !IsConvertible(fromtype) || !IsConvertible(totype)
    ensures r.Failure? ==> r.error == FEBADOP
    ensures r.Success? ==> r.value.len == |r.value.bytes| && Readable(totype, r.value.bytes, r.value.len)
    ensures r.Success? && IsFixed(totype) ==> r.value.len == SizeOf(totype)
    ensures r.Success? && (totype == FLD_STRING || totype == FLD_CARRAY) ==> r.value.len >= 1 && r.value.bytes[r.value.len - 1] == 0
  {
    if fromtype == FLD_SHORT then FromInteger(totype, Signed(mem[..2]))
    else if fromtype == FLD_CHAR then
      if totype == FLD_STRING || totype == FLD_CARRAY then Success(Converted([mem[0], 0], 2))
      else FromInteger(totype, Signed(mem[..1]))
    else if fromtype == FLD_FLOAT then Floating(totype, fromtype, mem[..4])
    else if fromtype == FLD_LONG then FromInteger(totype, Signed(mem[..8]))
    else if fromtype == FLD_DOUBLE then Floating(totype, fromtype, mem[..8])
    else if fromtype == FLD_STRING then FromText(totype, mem[..CStringLength(mem)])
    else if fromtype == FLD_CARRAY then FromText(totype, mem[..fromlen])
    else Failure(FEBADOP)
  }

  /** The decimal text of a number, as bytes, has no NUL in it. */
  lemma DecimalHasNoNul(x: int)
    ensures forall i :: 0 <= i < |ToDecimal(x)| ==> 0 < ToDecimal(x)[i] as int < 256
    ensures 0 !in Ascii(ToDecimal(x))
  {
    var s := ToDecimal(x);
    assert forall i :: 0 <= i < |s| ==> IsDigit(s[i]) || s[i] == '-';
  }

  lemma TextOfAscii(s: string)
    requires forall i :: 0 <= i < |s| ==> s[i] as int < 256
    ensures Text(Ascii(s)) == s
  {
    var t := Text(Ascii(s));
    assert forall i :: 0 <= i < |s| ==> t[i] == s[i];
  }

  /** `atol` reads back the text `std::to_string` wrote, pinned to the `long` range. */
  lemma AtolOfDecimal(x: int)
    ensures Atol(Ascii(ToDecimal(x))) == if x < LongMin then LongMin else if x > LongMax then LongMax else x
  {
    DecimalHasNoNul(x);
    TextOfAscii(ToDecimal(x));
    ParseToDecimal(x);
  }

  /** A text that starts with neither a digit, a sign nor white space converts to the number 0. */
  lemma AtolWithoutNumber(from: Bytes)
    requires from != [] && from[0] != 0
    requires var c := from[0] as char; !IsSpace(c) && !IsDigit(c) && c != '-' && c != '+'
    ensures Atol(from) == 0
  {
    var t := Text(CText(from));
    assert t[0] == from[0] as char;
    ParseNeedsDigit(t);
  }

  /** A `short` widened to `long` and narrowed back is the same `short`. */
  lemma ShortLongShort(b: Bytes)
    requires |b| == 2
    ensures Convert(FLD_LONG, b, FLD_SHORT, 0).Success?
    ensures var c := Convert(FLD_LONG, b, FLD_SHORT, 0).value;
      Signed(c.bytes) == Signed(b)
      && Convert(FLD_SHORT, c.bytes, FLD_LONG, c.len) == Success(Converted(b, 2))
  {
    var c := Convert(FLD_LONG, b, FLD_SHORT, 0).value;
    assert b[..2] == b;
    assert c.bytes == Encode(Signed(b), 8);
    SignedEncode(Signed(b), 8);
    assert c.bytes[..8] == c.bytes;
    EncodeSigned(b);
  }

  /** A `long` written as a string and read back with `atol` is the same `long`. */
  lemma LongStringLong(b: Bytes)
    requires |b| == 8
    ensures Convert(FLD_STRING, b, FLD_LONG, 0).Success?
    ensures var c := Convert(FLD_STRING, b, FLD_LONG, 0).value;
      Convert(FLD_LONG, c.bytes, FLD_STRING, c.len) == Success(Converted(b, 8))
  {
    var x := Signed(b);
    assert b[..8] == b;
    var text := Ascii(ToDecimal(x));
    var c := Convert(FLD_STRING, b, FLD_LONG, 0).value;
    assert c.bytes == text + [0];
    DecimalHasNoNul(x);
    assert CStringLength(c.bytes) == |text| by {
      assert c.bytes[|text|] == 0;
      assert c.bytes[..|text|] == text;
    }
    assert c.bytes[..CStringLength(c.bytes)] == text;
    AtolOfDecimal(x);
    LongRange();
    EncodeSigned(b);
  }

  /** A `char` written as a string and read back is the same `char`. */
  lemma CharStringChar(c: Byte)
    ensures Convert(FLD_STRING, [c], FLD_CHAR, 0) == Success(Converted([c, 0], 2))
    ensures Convert(FLD_CHAR, [c, 0], FLD_STRING, 2) == Success(Converted([c], 1))
  {
    var mem: Bytes := [c, 0];
    if c == 0 {
      assert CStringLength(mem) == 0;
    } else {
      assert CStringLength(mem) == 1 by {
        assert mem[1..] == [0];
      }
    }
  }

  /** A stored string converted to a string is the same stored string. */
  lemma StringToString(v: Bytes, totype: int, fromlen: nat)
    requires TextShaped(v) && (totype == FLD_STRING || totype == FLD_CARRAY)
    ensures Convert(totype, v, FLD_STRING, fromlen) == Success(Converted(v, |v|))
  {
    assert CStringLength(v) == |v| - 1;
    assert v[..|v| - 1] + [0] == v;
  }

  /** The text a `string` or `carray` value holds: up to its NUL, or its `fromlen` bytes. */
  function SourceText(mem: Bytes, fromtype: int, fromlen: nat): (t: Bytes)
    requires fromtype == FLD_STRING || fromtype == FLD_CARRAY
    requires Readable(fromtype, mem, fromlen)
    ensures fromtype == FLD_STRING ==> t == CText(mem) && 0 !in t
    ensures fromtype == FLD_CARRAY ==> t == mem[..fromlen]
  {
    if fromtype == FLD_STRING then mem[..CStringLength(mem)] else mem[..fromlen]
  }

  /** A string converted to a `char` is its first character, or NUL for the empty string. */
  lemma StringToChar(mem: Bytes, n: nat)
    requires 0 in mem
    ensures Convert(FLD_CHAR, mem, FLD_STRING, n) == Success(Converted([if CStringLength(mem) == 0 then 0 else mem[0]], 1))
  {
    var k := CStringLength(mem);
    if k > 0 {
      assert mem[..k][0] == mem[0];
    }
  }

  /** A `short` or `long` converted to text is `std::to_string`'s text, its length counting the NUL. */
  lemma IntegerToText(totype: int, mem: Bytes, fromtype: int, n: nat)
    requires fromtype == FLD_SHORT || fromtype == FLD_LONG
    requires totype == FLD_STRING || totype == FLD_CARRAY
    requires |mem| >= SizeOf(fromtype)
    ensures var x := Signed(mem[..SizeOf(fromtype)]);
      Convert(totype, mem, fromtype, n) == Success(Converted(Ascii(ToDecimal(x)) + [0], |ToDecimal(x)| + 1))
  {
  }

  /** A `char` converted to text is that byte and a NUL, with length 2. */
  lemma CharToText(totype: int, mem: Bytes, n: nat)
    requires totype == FLD_STRING || totype == FLD_CARRAY
    requires |mem| >= 1
    ensures Convert(totype, mem, FLD_CHAR, n) == Success(Converted([mem[0], 0], 2))
  {
  }

  /** A string or carray converted to text is its text plus a NUL, the length counting the NUL. */
  lemma TextToText(totype: int, mem: Bytes, fromtype: int, n: nat)
    requires fromtype == FLD_STRING || fromtype == FLD_CARRAY
    requires totype == FLD_STRING || totype == FLD_CARRAY
    requires Readable(fromtype, mem, n)
    ensures var t := SourceText(mem, fromtype, n);
      Convert(totype, mem, fromtype, n) == Success(Converted(t + [0], |t| + 1))
  {
  }

  /** Between `short`, `char` and `long`, a conversion is a C cast of the value read. */
  lemma IntegerToInteger(totype: int, mem: Bytes, fromtype: int, n: nat)
    requires fromtype == FLD_SHORT || fromtype == FLD_CHAR || fromtype == FLD_LONG
    requires totype == FLD_SHORT || totype == FLD_CHAR || totype == FLD_LONG
    requires |mem| >= SizeOf(fromtype)
    ensures Convert(totype, mem, fromtype, n).Success?
    ensures Narrowed(Convert(totype, mem, fromtype, n).value.bytes, Signed(mem[..SizeOf(fromtype)]))
  {
  }

  /** A string or carray converted to `short` or `long` is `atol` of its text, cast. */
  lemma TextToInteger(totype: int, mem: Bytes, fromtype: int, n: nat)
    requires fromtype == FLD_STRING || fromtype == FLD_CARRAY
    requires totype == FLD_SHORT || totype == FLD_LONG
    requires Readable(fromtype, mem, n)
    ensures Convert(totype, mem, fromtype, n).Success?
    ensures Narrowed(Convert(totype, mem, fromtype, n).value.bytes, Atol(SourceText(mem, fromtype, n)))
    ensures totype == FLD_LONG ==> Signed(Convert(totype, mem, fromtype, n).value.bytes) == Atol(SourceText(mem, fromtype, n))
  {
  }

  /**
    The area `Ftypcvt32` converts into, one per thread: each conversion
    overwrites it and returns a pointer to it, so a result is valid only until
    the next conversion.
   */
  class ConversionArea {
    var toval: Bytes

    constructor ()
      ensures toval == []
    {
      toval := [];
    }

    /**
      `Ftypcvt32`: `tolen` and `fromval` are the caller's pointers (None for
      null). A null pointer is `FEINVAL`, tolen first; any other failure is the
      one `Convert` reports. On success the area holds the converted bytes and
      the new length is written to `*tolen`; on failure neither changes.
     */
    method Ftypcvt32(tolen: Option<nat>, totype: int, fromval: Option<Bytes>, fromtype: int, fromlen: nat)
      returns (r: Result<Unit, Error>, tolen': Option<nat>)
      requires fromval.Some? ==> Readable(fromtype, fromval.value, fromlen)
      modifies this
      ensures tolen.None? ==> r == Failure(FEINVAL)
      ensures tolen.Some? && fromval.None? ==> r == Failure(FEINVAL)
      ensures tolen.Some? && fromval.Some? ==>
        match Convert(totype, fromval.value, fromtype, fromlen)
        case Failure(e) => r == Failure(e)
        case Success(c) => r.Success? && toval == c.bytes && tolen' == Some(c.len)
      ensures r.Failure? ==> toval == old(toval) && tolen' == tolen
    {
      if tolen.None? || fromval.None? {
        return Failure(FEINVAL), tolen;
      }
      match Convert(totype, fromval.value, fromtype, fromlen)
      case Failure(e) =>
        return Failure(e), tolen;
      case Success(c) =>
        toval := c.bytes;
        return Success(Unit), Some(c.len);
    }
  }
}
