/**
 * Decimal text: std::to_string, C atoi, std::stoi, Java Integer.parseInt and Python's int(),
 * each with the edge cases of its own library.
 */
module Decimal {
  import opened Wire

  const ZERO: byte := 48
  const MINUS: byte := 45
  const PLUS: byte := 43

  predicate IsDigit(b: byte) { 48 <= b <= 57 }

  /** The bytes C's isspace accepts in the "C" locale: tab, newline, vertical tab, form feed, return, space. */
  predicate IsSpace(b: byte) { 9 <= b <= 13 || b == 32 }

  predicate AllDigits(s: seq<byte>) { forall i | 0 <= i < |s| :: IsDigit(s[i]) }

  /** Digits of n without leading zeros ("0" for zero), as std::to_string prints an unsigned value. */
  function ToDecimal(n: nat): (r: seq<byte>)
    ensures |r| >= 1 && AllDigits(r)
    ensures n > 0 ==> r[0] != ZERO
    decreases n
  {
    if n < 10 then [ZERO + n] else ToDecimal(n / 10) + [ZERO + n % 10]
  }

  /** std::to_string of a signed value. */
  function ToDecimalSigned(i: int): (r: seq<byte>)
    ensures |r| >= 1
    ensures i < 0 <==> r[0] == MINUS
  {
    if i < 0 then [MINUS] + ToDecimal(-i) else ToDecimal(i)
  }

  /** Value of a run of decimal digits, most significant first. */
  function DigitsValue(ds: seq<byte>): (r: nat)
    requires AllDigits(ds)
    ensures ds == [] ==> r == 0
  {
    if ds == [] then 0 else DigitsValue(ds[..|ds| - 1]) * 10 + (ds[|ds| - 1] - ZERO)
  }

  /** The longest prefix of s made of digits. */
  function LeadingDigits(s: seq<byte>): (r: seq<byte>)
    ensures r <= s && AllDigits(r)
    ensures |r| < |s| ==> !IsDigit(s[|r|])
  {
    if s == [] || !IsDigit(s[0]) then [] else [s[0]] + LeadingDigits(s[1..])
  }

  /** s without its leading C white space. */
  function SkipSpace(s: seq<byte>): (r: seq<byte>)
    ensures |r| <= |s| && r == s[|s| - |r|..]
    ensures r != [] ==> !IsSpace(r[0])
  {
    if s != [] && IsSpace(s[0]) then SkipSpace(s[1..]) else s
  }

  /** Optional sign followed by the rest: (negative, rest). */
  function Sign(s: seq<byte>): (r: (bool, seq<byte>))
    ensures |r.1| <= |s|
  {
    if s != [] && s[0] == MINUS then (true, s[1..])
    else if s != [] && s[0] == PLUS then (false, s[1..])
    else (false, s)
  }

  const LONG_MIN: int := -0x8000_0000_0000_0000
  const LONG_MAX: int := 0x7FFF_FFFF_FFFF_FFFF
  const INT_MIN: int := -0x8000_0000
  const INT_MAX: int := 0x7FFF_FFFF

  /** What strtol(s, _, 10) scans: the signed value of the digits after white space and sign, or None when no digit follows. */
  function StrtolExact(s: seq<byte>): (r: Option<int>)
    ensures r.None? <==> LeadingDigits(Sign(SkipSpace(s)).1) == []
  {
    var (neg, rest) := Sign(SkipSpace(s));
    var ds := LeadingDigits(rest);
    if ds == [] then None
    else if neg then Some(-(DigitsValue(ds) as int)) else Some(DigitsValue(ds))
  }

  /**
   * glibc atoi: (int) strtol(s, NULL, 10). strtol saturates at the long range and the cast keeps
   * the low 32 bits; no digits gives 0.
   */
  function Atoi(s: seq<byte>): (r: int32)
    ensures StrtolExact(s).None? ==> r == 0
    ensures StrtolExact(s).Some? && INT_MIN <= StrtolExact(s).value <= INT_MAX ==> r == StrtolExact(s).value
  {
    match StrtolExact(s)
      case None => 0
      case Some(v) =>
        var clamped := if v < LONG_MIN then LONG_MIN else if v > LONG_MAX then LONG_MAX else v;
        I32(clamped)
  }

  datatype StoiError = InvalidArgument | OutOfRange

  /** std::stoi: invalid_argument when no conversion happens, out_of_range outside long or int. */
  function Stoi(s: seq<byte>): (r: Result<int32, StoiError>)
    ensures r.Ok? <==> StrtolExact(s).Some? && INT_MIN <= StrtolExact(s).value <= INT_MAX
    ensures r.Ok? ==> r.value == StrtolExact(s).value
    ensures r == Err(InvalidArgument) <==> StrtolExact(s).None?
  {
    match StrtolExact(s)
      case None => Err(InvalidArgument)
      case Some(v) => if INT_MIN <= v <= INT_MAX then Ok(v) else Err(OutOfRange)
  }

  /** Java Integer.parseInt(s): an optional sign and at least one digit making up the whole string, within int. */
  function ParseInt(s: seq<byte>): (r: Option<int32>)
    ensures r.Some? ==> |s| >= 1
  {
    var (neg, rest) := Sign(s);
    if rest == [] || !AllDigits(rest) then None
    else
      var v := if neg then -(DigitsValue(rest) as int) else DigitsValue(rest);
      if INT_MIN <= v <= INT_MAX then Some(v) else None
  }

  /** Python 2 int(s) on a token with no white space: an optional sign and at least one digit, unbounded. */
  function PyInt(s: seq<byte>): (r: Option<int>)
    ensures r.Some? ==> |s| >= 1
  {
    var (neg, rest) := Sign(s);
    if rest == [] || !AllDigits(rest) then None
    else if neg then Some(-(DigitsValue(rest) as int)) else Some(DigitsValue(rest))
  }

  /** Python's int reads what Java's parseInt reads, with the same value, and differs only beyond 32 bits. */
  lemma PyIntExtendsParseInt(s: seq<byte>)
    ensures PyInt(s).Some? ==> |s| >= 1
    ensures ParseInt(s).Some? ==> PyInt(s) == Some(ParseInt(s).value as int)
    ensures PyInt(s).Some? && INT_MIN <= PyInt(s).value <= INT_MAX ==> ParseInt(s) == Some(PyInt(s).value as int32)
  {
  }

  /** A printed value is no longer than the value plus one: three digits at most for a uint8, five for a uint16. */
  lemma {:induction false} DecimalLength(n: nat)
    ensures |ToDecimal(n)| <= n + 1
    ensures n < 100 ==> |ToDecimal(n)| <= 2
    ensures n < 1000 ==> |ToDecimal(n)| <= 3
    ensures n < 10000 ==> |ToDecimal(n)| <= 4
    ensures n < 100000 ==> |ToDecimal(n)| <= 5
    decreases n
  {
    if n >= 10 {
      DecimalLength(n / 10);
    }
  }

  /** Printed numbers hold only digits and the minus sign. */
  lemma DecimalSymbols(i: int, x: byte)
    requires !IsDigit(x) && x != MINUS
    ensures x !in ToDecimalSigned(i)
  {
    if i < 0 {
      assert ToDecimalSigned(i) == [MINUS] + ToDecimal(-i);
    }
  }

  // ----- Round trips of the printed forms -----

  lemma {:induction false} DigitsValueOfDecimal(n: nat)
    ensures DigitsValue(ToDecimal(n)) == n
    decreases n
  {
    var r := ToDecimal(n);
    if n >= 10 {
      DigitsValueOfDecimal(n / 10);
      assert r[..|r| - 1] == ToDecimal(n / 10);
    }
  }

  lemma {:induction false} LeadingDigitsOfPrefix(ds: seq<byte>, rest: seq<byte>)
    requires AllDigits(ds)
    requires rest == [] || !IsDigit(rest[0])
    ensures LeadingDigits(ds + rest) == ds
    decreases |ds|
  {
    if ds != [] {
      LeadingDigitsOfPrefix(ds[1..], rest);
      assert (ds + rest)[1..] == ds[1..] + rest;
    }
  }

  lemma StrtolOfDecimal(n: nat, rest: seq<byte>)
    requires rest == [] || !IsDigit(rest[0])
    ensures StrtolExact(ToDecimal(n) + rest) == Some(n)
  {
    var s := ToDecimal(n) + rest;
    assert s[0] == ToDecimal(n)[0];
    assert SkipSpace(s) == s;
    assert Sign(s) == (false, s);
    LeadingDigitsOfPrefix(ToDecimal(n), rest);
    DigitsValueOfDecimal(n);
  }

  /** atoi reads back what to_string printed, whatever non-digit text follows it. */
  lemma AtoiOfDecimal(n: nat, rest: seq<byte>)
    requires n <= INT_MAX
    requires rest == [] || !IsDigit(rest[0])
    ensures Atoi(ToDecimal(n) + rest) == n
  {
    StrtolOfDecimal(n, rest);
  }

  lemma StrtolOfSigned(i: int, rest: seq<byte>)
    requires rest == [] || !IsDigit(rest[0])
    ensures StrtolExact(ToDecimalSigned(i) + rest) == Some(i)
  {
    if i < 0 {
      var d := ToDecimal(-i);
      var s := ToDecimalSigned(i) + rest;
      assert s == [MINUS] + (d + rest);
      assert SkipSpace(s) == s;
      assert Sign(s) == (true, d + rest);
      LeadingDigitsOfPrefix(d, rest);
      DigitsValueOfDecimal(-i);
    } else {
      StrtolOfDecimal(i, rest);
    }
  }

  /**
   * atoi reads back what to_string printed for any 64-bit value, keeping its low 32 bits, whatever
   * non-digit text follows it.
   */
  lemma AtoiOfSigned(i: int64, rest: seq<byte>)
    requires rest == [] || !IsDigit(rest[0])
    ensures Atoi(ToDecimalSigned(i) + rest) == I32(i)
  {
    StrtolOfSigned(i, rest);
  }

  lemma StoiOfDecimal(n: nat)
    requires n <= INT_MAX
    ensures Stoi(ToDecimal(n)) == Ok(n)
  {
    StrtolOfDecimal(n, []);
    assert ToDecimal(n) + [] == ToDecimal(n);
  }

  lemma ParseIntOfDecimal(n: nat)
    requires n <= INT_MAX
    ensures ParseInt(ToDecimal(n)) == Some(n)
  {
    var s := ToDecimal(n);
    assert Sign(s) == (false, s);
    DigitsValueOfDecimal(n);
  }

  /** Java Integer.parseInt reads back Integer.toString of any int. */
  lemma ParseIntOfSigned(i: int32)
    ensures ParseInt(ToDecimalSigned(i)) == Some(i)
  {
    var s := ToDecimalSigned(i);
    if i < 0 {
      assert Sign(s) == (true, ToDecimal(-(i as int)));
      DigitsValueOfDecimal(-(i as int));
    } else {
      assert Sign(s) == (false, s);
      DigitsValueOfDecimal(i);
    }
  }

  lemma PyIntOfDecimal(i: int)
    ensures PyInt(ToDecimalSigned(i)) == Some(i)
  {
    var s := ToDecimalSigned(i);
    if i < 0 {
      assert Sign(s) == (true, ToDecimal(-i));
      DigitsValueOfDecimal(-i);
    } else {
      assert Sign(s) == (false, s);
      DigitsValueOfDecimal(i);
    }
  }
}
