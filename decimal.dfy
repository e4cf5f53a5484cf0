/** Decimal rendering (strconv.Itoa, fmt's %d) and parsing (strconv.Atoi,
    strconv.ParseInt with base 10 and 64 bits) of integers. */
module Decimal {
  import opened Wrappers
  import opened Errors
  import Int64

  predicate IsDigit(c: char) {
    '0' <= c <= '9'
  }

  predicate AllDigits(s: string) {
    forall i :: 0 <= i < |s| ==> IsDigit(s[i])
  }

  function DigitValue(c: char): (d: nat)
    requires IsDigit(c)
    ensures d < 10
  {
    (c as int) - ('0' as int)
  }

  function DigitChar(d: nat): (c: char)
    requires d < 10
    ensures IsDigit(c) && DigitValue(c) == d
  {
    (('0' as int) + d) as char
  }

  /** The decimal digits of n, without leading zeros ("0" for zero). */
  function NatToString(n: nat): (s: string)
    ensures |s| > 0 && AllDigits(s)
    ensures s[0] == '0' ==> n == 0
    decreases n
  {
    if n < 10 then [DigitChar(n)] else NatToString(n / 10) + [DigitChar(n % 10)]
  }

  /** strconv.Itoa(n), which is also what fmt prints for %d. */
  function Itoa(n: int): (s: string)
    ensures |s| > 0
    ensures forall i :: 0 <= i < |s| ==> IsDigit(s[i]) || s[i] == '-'
  {
    if n < 0 then "-" + NatToString(-n) else NatToString(n)
  }

  /** The value of a string of decimal digits (leading zeros allowed). */
  function DigitsValue(s: string): nat
    requires AllDigits(s)
  {
    if s == [] then 0 else 10 * DigitsValue(s[..|s| - 1]) + DigitValue(s[|s| - 1])
  }

  /** The digits after an optional leading sign. */
  function Unsigned(s: string): string {
    if |s| > 0 && (s[0] == '-' || s[0] == '+') then s[1..] else s
  }

  /** An optional sign followed by at least one decimal digit: the syntax
      strconv accepts for base 10. */
  predicate IsDecimal(s: string) {
    Unsigned(s) != [] && AllDigits(Unsigned(s))
  }

  /** The mathematical value of a decimal string. */
  function DecimalValue(s: string): int
    requires IsDecimal(s)
  {
    if s[0] == '-' then -(DigitsValue(Unsigned(s)) as int) else DigitsValue(Unsigned(s))
  }

  /** strconv.ParseInt(s, 10, 64); `func` is the name its NumError carries
      ("Atoi" when reached through strconv.Atoi). */
  function ParseInt(s: string, func: string): (r: Result<int, Error>)
    ensures r.Ok? <==> IsDecimal(s) && Int64.InRange(DecimalValue(s))
    ensures r.Ok? ==> r.value == DecimalValue(s)
    ensures r.Err? ==> r.error == NumError(func, s, IsDecimal(s))
  {
    if !IsDecimal(s) then Err(NumError(func, s, false))
    else if Int64.InRange(DecimalValue(s)) then Ok(DecimalValue(s))
    else Err(NumError(func, s, true))
  }

  /** strconv.Atoi on a 64-bit platform. */
  function Atoi(s: string): Result<int, Error> {
    ParseInt(s, "Atoi")
  }

  /** Atoi of unsigned digits succeeds exactly when their value fits in
      int64, and then yields that value. */
  lemma AtoiDigits(s: string)
    requires s != [] && AllDigits(s)
    ensures Atoi(s).Ok? <==> DigitsValue(s) <= Int64.MaxInt64
    ensures Atoi(s).Ok? ==> Atoi(s).value == DigitsValue(s)
  {
    assert IsDigit(s[0]);
    assert Unsigned(s) == s;
  }

  lemma {:induction false} DigitsValueOfNatToString(n: nat)
    ensures DigitsValue(NatToString(n)) == n
    decreases n
  {
    var s := NatToString(n);
    if n >= 10 {
      DigitsValueOfNatToString(n / 10);
      assert s[..|s| - 1] == NatToString(n / 10);
    }
  }

  /** Rendering then parsing gives back every int64. */
  lemma ParseItoa(n: int, func: string)
    requires Int64.InRange(n)
    ensures ParseInt(Itoa(n), func) == Ok(n)
  {
    var s := Itoa(n);
    if n < 0 {
      assert Unsigned(s) == NatToString(-n);
      DigitsValueOfNatToString(-n);
    } else {
      assert Unsigned(s) == NatToString(n);
      DigitsValueOfNatToString(n);
    }
  }

  /** Parsing a decimal string and rendering the value again gives its
      canonical form: no '+' sign, no leading zeros, no "-0". */
  lemma ItoaParse(s: string, func: string)
    requires ParseInt(s, func).Ok?
    ensures Itoa(ParseInt(s, func).value) == Itoa(DecimalValue(s))
    ensures AllDigits(s) && s[0] != '0' ==> Itoa(ParseInt(s, func).value) == s
  {
    if AllDigits(s) && s[0] != '0' {
      NatToStringOfDigits(s);
    }
  }

  lemma {:induction false} NatToStringOfDigits(s: string)
    requires s != [] && AllDigits(s) && s[0] != '0'
    ensures NatToString(DigitsValue(s)) == s
    decreases |s|
  {
    var init := s[..|s| - 1];
    var v := DigitsValue(s);
    if |s| == 1 {
      assert init == [];
    } else {
      NatToStringOfDigits(init);
      PositiveDigits(init);
      assert v / 10 == DigitsValue(init);
      assert v % 10 == DigitValue(s[|s| - 1]);
      assert s == init + [s[|s| - 1]];
    }
  }

  lemma {:induction false} PositiveDigits(s: string)
    requires s != [] && AllDigits(s) && s[0] != '0'
    ensures DigitsValue(s) > 0
    decreases |s|
  {
    if |s| > 1 {
      PositiveDigits(s[..|s| - 1]);
    }
  }
}
