/**
 * Decimal rendering and parsing of integers: Kotlin's `Int.toString()` (string
 * templates such as "($x, $y)") and `String.toIntOrNull()`.
 */
module Decimal {
  import opened Wrappers

  /** Bounds of Kotlin's 32-bit `Int`. */
  const INT_MIN: int := -0x8000_0000
  const INT_MAX: int := 0x7fff_ffff

  predicate IsDigit(c: char) {
    '0' <= c <= '9'
  }

  predicate AllDigits(s: string) {
    forall i :: 0 <= i < |s| ==> IsDigit(s[i])
  }

  function DigitChar(d: nat): (c: char)
    requires d < 10
    ensures IsDigit(c) && c as int - '0' as int == d
  {
    ('0' as int + d) as char
  }

  /** The value of a non-empty run of decimal digits, most significant first. */
  function DigitsValue(s: string): nat
    requires AllDigits(s)
  {
    if s == [] then 0
    else DigitsValue(s[..|s| - 1]) * 10 + (s[|s| - 1] as int - '0' as int)
  }

  /** Shortest decimal rendering of a natural number (no leading zeros). */
  function NatToString(n: nat): (s: string)
    ensures |s| >= 1 && AllDigits(s)
    ensures |s| > 1 ==> s[0] != '0'
  {
    if n < 10 then [DigitChar(n)] else NatToString(n / 10) + [DigitChar(n % 10)]
  }

  /** Kotlin `Int.toString()`: a minus sign for negative values, then the digits. */
  function IntToString(n: int): (s: string)
    ensures |s| >= 1
    ensures forall i :: 0 <= i < |s| ==> IsDigit(s[i]) || (i == 0 && s[i] == '-')
    ensures (s[0] == '-') <==> n < 0
  {
    if n < 0 then "-" + NatToString(-n) else NatToString(n)
  }

  /**
   * Kotlin `String.toIntOrNull()` in radix 10: an optional leading '-' or '+',
   * then at least one digit; values outside the 32-bit range give null.
   */
  function ParseInt(s: string): (r: Option<int>)
    ensures r.Some? ==> INT_MIN <= r.value <= INT_MAX
    ensures r.Some? ==> |s| >= 1 && (IsDigit(s[0]) || s[0] == '-' || s[0] == '+')
  {
    if |s| == 0 then None
    else
      var signed := s[0] == '-' || s[0] == '+';
      var digits := if signed then s[1..] else s;
      if |digits| == 0 || !AllDigits(digits) then None
      else
        var magnitude: int := DigitsValue(digits);
        var v := if s[0] == '-' then -magnitude else magnitude;
        if INT_MIN <= v <= INT_MAX then Some(v) else None
  }

  function Pow10(k: nat): (r: nat)
    ensures r >= 1
  {
    if k == 0 then 1 else 10 * Pow10(k - 1)
  }

  /** Positional reading of a digit run: each digit weighted by ten to the number of digits after it. */
  function PositionalValue(s: string): nat
    requires AllDigits(s)
  {
    if s == [] then 0
    else (s[0] as int - '0' as int) * Pow10(|s| - 1) + PositionalValue(s[1..])
  }

  /** Splitting off the leading digit of a run, which weighs ten to the number of digits after it. */
  lemma {:induction false} DigitsValueFront(s: string)
    requires |s| >= 1 && AllDigits(s)
    ensures DigitsValue(s) == (s[0] as int - '0' as int) * Pow10(|s| - 1) + DigitsValue(s[1..])
    decreases |s|
  {
    var d := s[0] as int - '0' as int;
    var last := s[|s| - 1] as int - '0' as int;
    var init := s[..|s| - 1];
    if |s| == 1 {
      assert init == [] && s[1..] == [];
    } else {
      assert init[0] == s[0] && s[1..][..|s| - 2] == init[1..] && s[1..][|s| - 2] == s[|s| - 1];
      DigitsValueFront(init);
      var p := Pow10(|s| - 2);
      var rest := DigitsValue(init[1..]);
      assert DigitsValue(s[1..]) == rest * 10 + last;
      assert DigitsValue(s) == (d * p + rest) * 10 + last;
      assert (d * p + rest) * 10 == d * (p * 10) + rest * 10;
      assert Pow10(|s| - 1) == 10 * p;
    }
  }

  /** Reading a digit run left to right, digit by digit, equals its positional reading. */
  lemma {:induction false} DigitsValuePositional(s: string)
    requires AllDigits(s)
    ensures DigitsValue(s) == PositionalValue(s)
    decreases |s|
  {
    if |s| >= 1 {
      DigitsValueFront(s);
      DigitsValuePositional(s[1..]);
    }
  }

  /** Text `toIntOrNull` reads as a number: one or more digits, optionally after a single '-' or '+'. */
  predicate IsIntText(s: string) {
    || (|s| >= 1 && AllDigits(s))
    || (|s| >= 2 && (s[0] == '-' || s[0] == '+') && AllDigits(s[1..]))
  }

  /** The number such text denotes, read positionally and negated after a '-'. */
  function TextValue(s: string): int
    requires IsIntText(s)
  {
    var magnitude: int := if AllDigits(s) then PositionalValue(s) else PositionalValue(s[1..]);
    if !AllDigits(s) && s[0] == '-' then -magnitude else magnitude
  }

  /**
   * What `toIntOrNull` answers: a number exactly for signed or unsigned digit text whose
   * value fits in an `Int`, and then that value.
   */
  lemma ParseIntMeaning(s: string)
    ensures ParseInt(s).Some? <==> IsIntText(s) && INT_MIN <= TextValue(s) <= INT_MAX
    ensures ParseInt(s).Some? ==> ParseInt(s).value == TextValue(s)
  {
    if IsIntText(s) {
      if AllDigits(s) {
        DigitsValuePositional(s);
        assert !IsDigit('-') && !IsDigit('+');
      } else {
        DigitsValuePositional(s[1..]);
      }
    }
  }

  /** Worked cases: a plus sign and leading zeros are accepted; a bare sign, a stray letter and empty text are not. */
  lemma ParseIntExamples()
    ensures ParseInt("+5") == Some(5)
    ensures ParseInt("007") == Some(7)
    ensures ParseInt("-12") == Some(-12)
    ensures ParseInt("-") == None && ParseInt("1a") == None && ParseInt("") == None
  {
    assert "+5"[1..] == "5" && "5"[..0] == "";
    assert "007"[..2] == "00" && "00"[..1] == "0" && "0"[..0] == "";
    assert "-12"[1..] == "12" && "12"[..1] == "1" && "1"[..0] == "";
    assert !IsDigit("1a"[1]);
  }

  lemma {:induction false} DigitsValueOfNatToString(n: nat)
    ensures DigitsValue(NatToString(n)) == n
  {
    if n >= 10 {
      var s := NatToString(n);
      assert s[..|s| - 1] == NatToString(n / 10);
      DigitsValueOfNatToString(n / 10);
    }
  }

  /** Rendering an `Int` and parsing it back gives the same `Int`. */
  lemma ParseIntOfIntToString(n: int)
    requires INT_MIN <= n <= INT_MAX
    ensures ParseInt(IntToString(n)) == Some(n)
  {
    if n < 0 {
      DigitsValueOfNatToString(-n);
      assert IntToString(n)[1..] == NatToString(-n);
    } else {
      DigitsValueOfNatToString(n);
    }
  }

  /** The rendering of a value outside the 32-bit range parses to null. */
  lemma ParseIntOutOfRange(n: int)
    requires n < INT_MIN || INT_MAX < n
    ensures ParseInt(IntToString(n)) == None
  {
    if n < 0 {
      DigitsValueOfNatToString(-n);
      assert IntToString(n)[1..] == NatToString(-n);
    } else {
      DigitsValueOfNatToString(n);
    }
  }

  lemma NatToStringInjective(a: nat, b: nat)
    requires NatToString(a) == NatToString(b)
    ensures a == b
  {
    DigitsValueOfNatToString(a);
    DigitsValueOfNatToString(b);
  }

  /** Distinct integers have distinct renderings. */
  lemma IntToStringInjective(a: int, b: int)
    requires IntToString(a) == IntToString(b)
    ensures a == b
  {
    var s := IntToString(a);
    assert (a < 0) == (b < 0) by {
      assert (s[0] == '-') <==> a < 0;
      assert (IntToString(b)[0] == '-') <==> b < 0;
    }
    if a < 0 {
      assert s == "-" + NatToString(-a);
      assert s == "-" + NatToString(-b);
      assert NatToString(-a) == s[1..] == NatToString(-b);
      NatToStringInjective(-a, -b);
    } else {
      NatToStringInjective(a, b);
    }
  }
}
