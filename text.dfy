/**
 * Character-level helpers: Python's decimal rendering of integers (`str` of an
 * `Int64` value), the pattern `^\d{8}$`, a decimal-number grammar for
 * `float(...)` on text, and ASCII lower-casing for generated column names.
 */
module Text {
  import opened Wrappers

  predicate IsDigit(c: char)
  {
    '0' <= c <= '9'
  }

  predicate AllDigits(s: string)
  {
    forall i :: 0 <= i < |s| ==> IsDigit(s[i])
  }

  /** The regular expression `^\d{8}$` applied to a rendered integer. */
  predicate IsEightDigits(s: string)
  {
    |s| == 8 && AllDigits(s)
  }

  function DigitChar(d: nat): (c: char)
    requires d < 10
    ensures IsDigit(c) && DigitValue(c) == d
  {
    ('0' as int + d) as char
  }

  function DigitValue(c: char): nat
    requires IsDigit(c)
  {
    c as int - '0' as int
  }

  function Pow10(k: nat): (p: nat)
    ensures p >= 1
  {
    if k == 0 then 1 else 10 * Pow10(k - 1)
  }

  /** The value of a string of decimal digits, most significant first. */
  function DigitsValue(s: string): nat
    requires AllDigits(s)
  {
    if s == [] then 0 else DigitsValue(s[..|s| - 1]) * 10 + DigitValue(s[|s| - 1])
  }

  /** The value of two digits. */
  lemma DigitsValue2(s: string)
    requires |s| == 2 && AllDigits(s)
    ensures DigitsValue(s) == DigitValue(s[0]) * 10 + DigitValue(s[1])
  {
    var h := s[..1];
    assert h[..0] == [] && h[0] == s[0];
    assert DigitsValue(h) == DigitValue(s[0]);
  }

  /** The value of four digits. */
  lemma DigitsValue4(s: string)
    requires |s| == 4 && AllDigits(s)
    ensures DigitsValue(s) == DigitValue(s[0]) * 1000 + DigitValue(s[1]) * 100 + DigitValue(s[2]) * 10 + DigitValue(s[3])
  {
    DigitsValue2(s[..2]);
    assert s[..3][..2] == s[..2];
  }

  /** Decimal rendering of a natural number, without leading zeros; it reads back as `n`. */
  function NatToString(n: nat): (s: string)
    ensures |s| >= 1 && AllDigits(s)
    ensures DigitsValue(s) == n
    ensures |s| > 1 ==> s[0] != '0'
  {
    if n < 10 then [DigitChar(n)]
    else
      var s := NatToString(n / 10) + [DigitChar(n % 10)];
      assert s[..|s| - 1] == NatToString(n / 10);
      s
  }

  /**
   * A digit string without a leading zero is the rendering of its own value:
   * rendering and reading digits are inverse to each other.
   */
  lemma {:induction false} NatToStringOfDigits(s: string)
    requires |s| >= 1 && AllDigits(s) && (|s| > 1 ==> s[0] != '0')
    ensures NatToString(DigitsValue(s)) == s
    decreases |s|
  {
    var n := |s| - 1;
    var p, c := s[..n], s[n];
    if n == 0 {
      assert p == [];
      assert DigitsValue(s) == DigitValue(c);
      assert DigitChar(DigitValue(c)) == c;
      assert s == [c];
    } else {
      assert p[0] == s[0] && (|p| > 1 ==> p[0] != '0');
      NatToStringOfDigits(p);
      DigitsValueSplit(p, 1);
      assert p[..1][..0] == [] && DigitsValue(p[..1]) == DigitValue(p[0]) >= 1;
      var v := DigitsValue(s);
      assert v == DigitsValue(p) * 10 + DigitValue(c);
      assert v >= 10;
      assert v / 10 == DigitsValue(p) && v % 10 == DigitValue(c);
      assert DigitChar(DigitValue(c)) == c;
      assert s == p + [c];
    }
  }

  /** Python's `str` of an integer: a minus sign, then the digits of the magnitude. */
  function IntToString(n: int): string
  {
    if n < 0 then "-" + NatToString(-n) else NatToString(n)
  }

  /** A rendering has at most `k` digits exactly when the number is below 10^k. */
  lemma {:induction false} NatToStringLength(n: nat, k: nat)
    requires k >= 1
    ensures |NatToString(n)| <= k <==> n < Pow10(k)
    decreases n
  {
    if n >= 10 {
      if k == 1 {
        assert |NatToString(n)| == |NatToString(n / 10)| + 1;
      } else {
        NatToStringLength(n / 10, k - 1);
        assert n / 10 < Pow10(k - 1) <==> n < 10 * Pow10(k - 1);
      }
    } else if k > 1 {
      assert Pow10(k) == 10 * Pow10(k - 1);
    }
  }

  /**
   * The rendering of an integer matches `^\d{8}$` exactly when the integer is
   * between 10000000 and 99999999: negative values carry a '-', and shorter or
   * longer values have the wrong number of digits.
   */
  lemma EightDigitsIff(n: int)
    ensures IsEightDigits(IntToString(n)) <==> 10000000 <= n <= 99999999
  {
    if n < 0 {
      assert IntToString(n)[0] == '-';
    } else {
      assert Pow10(7) == 10000000 && Pow10(8) == 100000000 by {
        assert Pow10(1) == 10;
      }
      NatToStringLength(n, 7);
      NatToStringLength(n, 8);
    }
  }

  /** Splitting a digit string at `k` splits its value positionally. */
  lemma {:induction false} DigitsValueSplit(s: string, k: nat)
    requires AllDigits(s) && k <= |s|
    ensures DigitsValue(s) == DigitsValue(s[..k]) * Pow10(|s| - k) + DigitsValue(s[k..])
    ensures DigitsValue(s[k..]) < Pow10(|s| - k)
    decreases |s|
  {
    if k == |s| {
      assert s[..k] == s;
      assert s[k..] == [];
    } else {
      var n := |s| - 1;
      var t := s[..n];
      DigitsValueSplit(t, k);
      assert t[..k] == s[..k];
      assert s[k..][..|s[k..]| - 1] == t[k..];
      assert s[k..][|s[k..]| - 1] == s[n];
      PositionalStep(DigitsValue(s[..k]), DigitsValue(t[k..]), Pow10(n - k), DigitValue(s[n]));
      assert Pow10(|s| - k) == 10 * Pow10(n - k);
    }
  }

  lemma PositionalStep(a: nat, b: nat, p: nat, d: nat)
    requires b < p && d < 10
    ensures (a * p + b) * 10 + d == a * (10 * p) + (b * 10 + d)
    ensures b * 10 + d < 10 * p
  {
  }

  /** Position of the first '.', or `|s|` when there is none. */
  function IndexOfDot(s: string): (i: nat)
    ensures i <= |s|
    ensures i < |s| ==> s[i] == '.'
    ensures forall j :: 0 <= j < i ==> s[j] != '.'
  {
    if s == [] then 0 else if s[0] == '.' then 0 else 1 + IndexOfDot(s[1..])
  }

  /** The value of `whole.frac`: the fraction digits are scaled by a power of ten. */
  function DecimalValue(whole: string, frac: string): real
    requires AllDigits(whole) && AllDigits(frac)
  {
    DigitsValue(whole) as real + DigitsValue(frac) as real / Pow10(|frac|) as real
  }

  /** Digits, optionally followed by '.' and more digits; at least one digit in all. */
  function ParseUnsigned(s: string): Option<real>
  {
    var p := IndexOfDot(s);
    var whole := s[..p];
    var frac := if p < |s| then s[p + 1..] else [];
    if AllDigits(whole) && AllDigits(frac) && |whole| + |frac| > 0 then
      Some(DecimalValue(whole, frac))
    else
      None
  }

  /**
   * The decimal numbers that `float(...)` accepts as text, restricted to an
   * optional sign, digits and an optional fractional part.
   */
  function ParseDecimal(s: string): Option<real>
  {
    if |s| > 0 && (s[0] == '-' || s[0] == '+') then
      match ParseUnsigned(s[1..])
      case Some(x) => Some(if s[0] == '-' then -x else x)
      case None => None
    else
      ParseUnsigned(s)
  }

  lemma DigitsHaveNoDot(s: string)
    requires AllDigits(s)
    ensures IndexOfDot(s) == |s|
  {
  }

  /** A plain run of digits reads as its positional value. */
  lemma ParseDigits(digits: string)
    requires AllDigits(digits) && |digits| > 0
    ensures ParseUnsigned(digits) == Some(DigitsValue(digits) as real)
  {
    DigitsHaveNoDot(digits);
    var whole := digits[..IndexOfDot(digits)];
    assert whole == digits;
    var frac: string := [];
    assert AllDigits(frac) && DigitsValue(frac) == 0 && Pow10(|frac|) == 1;
    assert DecimalValue(whole, frac) == DigitsValue(digits) as real;
  }

  /** Digits, a dot and digits read as the whole part plus the scaled fraction. */
  lemma ParseWithFraction(whole: string, frac: string)
    requires AllDigits(whole) && AllDigits(frac) && |whole| > 0
    ensures ParseUnsigned(whole + "." + frac)
         == Some(DecimalValue(whole, frac))
  {
    var tail := "." + frac;
    var s := whole + tail;
    assert whole + "." + frac == s;
    DigitsHaveNoDot(whole);
    assert IndexOfDot(tail) == 0;
    IndexOfDotAppend(whole, tail);
    assert IndexOfDot(s) == |whole|;
    assert s[..|whole|] == whole;
    assert s[|whole| + 1..] == frac;
  }

  lemma {:induction false} IndexOfDotAppend(a: string, b: string)
    requires IndexOfDot(a) == |a|
    ensures IndexOfDot(a + b) == |a| + IndexOfDot(b)
  {
    if a != [] {
      assert (a + b)[1..] == a[1..] + b;
      IndexOfDotAppend(a[1..], b);
    } else {
      assert a + b == b;
    }
  }

  /** Text that starts with anything but a sign, a digit or a dot is not a number. */
  lemma NotANumber(s: string)
    requires |s| > 0 && !IsDigit(s[0]) && s[0] !in "+-."
    ensures ParseDecimal(s) == None
  {
    assert IndexOfDot(s) > 0;
  }

  /** Reading back the rendering of any integer gives that integer. */
  lemma ParseIntToString(n: int)
    ensures ParseDecimal(IntToString(n)) == Some(n as real)
  {
    var m: nat := if n < 0 then -n else n;
    var digits := NatToString(m);
    ParseDigits(digits);
    if n < 0 {
      assert IntToString(n)[1..] == digits;
    } else {
      assert IsDigit(digits[0]);
    }
  }

  /** The rendering of an integer has no fractional part: no '.' anywhere. */
  lemma IntToStringHasNoDot(n: int)
    ensures '.' !in IntToString(n)
  {
    var digits := NatToString(if n < 0 then -n else n);
    assert forall k :: 0 <= k < |digits| ==> digits[k] != '.';
    assert IntToString(n) == if n < 0 then "-" + digits else digits;
  }

  function LowerChar(c: char): char
  {
    if 'A' <= c <= 'Z' then (c as int + 32) as char else c
  }

  /** `str.lower()` on ASCII letters. */
  function Lower(s: string): string
  {
    if s == [] then [] else [LowerChar(s[0])] + Lower(s[1..])
  }

  lemma {:induction false} LowerAppend(a: string, b: string)
    ensures Lower(a + b) == Lower(a) + Lower(b)
  {
    if a != [] {
      assert (a + b)[0] == a[0];
      assert (a + b)[1..] == a[1..] + b;
      LowerAppend(a[1..], b);
      calc {
        Lower(a + b);
        [LowerChar(a[0])] + Lower(a[1..] + b);
        [LowerChar(a[0])] + (Lower(a[1..]) + Lower(b));
        ([LowerChar(a[0])] + Lower(a[1..])) + Lower(b);
      }
    } else {
      assert a + b == b;
    }
  }

  lemma {:induction false} LowerLength(s: string)
    ensures |Lower(s)| == |s|
  {
    if s != [] {
      LowerLength(s[1..]);
    }
  }

  lemma {:induction false} LowerAt(s: string, i: int)
    requires 0 <= i < |s|
    ensures |Lower(s)| == |s| && Lower(s)[i] == LowerChar(s[i])
  {
    LowerLength(s);
    if i > 0 {
      LowerAt(s[1..], i - 1);
    }
  }
}
