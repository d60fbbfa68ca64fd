/**
 * JavaScript's conversions from text to numbers, as the agent uses them:
 * `Number(s)` (StringToNumber, section 7.1.4.1.1 of ECMA-262) and `parseInt(s)` without a radix.
 * Values are kept exact; IEEE double rounding is not modelled.
 */
module Numbers {
  import opened Values
  import opened Text

  /** A number value: NaN, an infinity, or (-1)^negative * mantissa * 10^exponent. */
  datatype Num = NaN | Infinity(negative: bool) | Finite(negative: bool, mantissa: nat, exponent: int)

  /** The value of an alphanumeric digit in radix up to 36; 36 for any other character. */
  function DigitValue(c: char): nat {
    if '0' <= c <= '9' then c as int - '0' as int
    else if 'a' <= c <= 'z' then c as int - 'a' as int + 10
    else if 'A' <= c <= 'Z' then c as int - 'A' as int + 10
    else 36
  }

  predicate IsDigit(c: char, radix: nat) {
    DigitValue(c) < radix
  }

  predicate AllDigits(s: string, radix: nat) {
    forall i :: 0 <= i < |s| ==> IsDigit(s[i], radix)
  }

  /** The number a string of digits denotes in the given radix, most significant digit first. */
  function DigitsValue(s: string, radix: nat): nat
    requires AllDigits(s, radix)
  {
    if s == [] then 0 else DigitsValue(s[..|s| - 1], radix) * radix + DigitValue(s[|s| - 1])
  }

  /** The longest prefix of `s` made of digits of the radix. */
  function DigitPrefix(s: string, radix: nat): (r: string)
    ensures |r| <= |s| && r == s[..|r|]
    ensures AllDigits(r, radix)
    ensures |r| < |s| ==> !IsDigit(s[|r|], radix)
  {
    if s != [] && IsDigit(s[0], radix) then [s[0]] + DigitPrefix(s[1..], radix) else []
  }

  function Pow10(e: nat): (r: nat)
    ensures r >= 1
  {
    if e == 0 then 1 else 10 * Pow10(e - 1)
  }

  /** The exponent part `e[+-]digits` that may end a decimal literal; None when the rest is anything else. */
  function ExponentPart(s: string): Option<int> {
    if s == [] then Some(0)
    else if s[0] != 'e' && s[0] != 'E' then None
    else
      var t := s[1..];
      var negative := t != [] && t[0] == '-';
      var digits := if t != [] && (t[0] == '-' || t[0] == '+') then t[1..] else t;
      if digits != [] && AllDigits(digits, 10) then
        var magnitude: int := DigitsValue(digits, 10);
        Some(if negative then -magnitude else magnitude)
      else None
  }

  /** StrUnsignedDecimalLiteral: `Infinity`, or digits with an optional fraction and exponent. */
  function UnsignedDecimal(s: string, negative: bool): Num {
    if s == "Infinity" then Infinity(negative)
    else
      var whole := DigitPrefix(s, 10);
      var afterWhole := s[|whole|..];
      var dot := afterWhole != [] && afterWhole[0] == '.';
      var fraction := if dot then DigitPrefix(afterWhole[1..], 10) else [];
      var afterFraction := if dot then afterWhole[1 + |fraction|..] else afterWhole;
      if whole == [] && fraction == [] then NaN
      else
        match ExponentPart(afterFraction)
        case None => NaN
        case Some(e) =>
          assert AllDigits(whole + fraction, 10);
          Finite(negative, DigitsValue(whole + fraction, 10), e - |fraction|)
  }

  /** The digits after a `0x`, `0o` or `0b` prefix. */
  function NonDecimal(s: string, radix: nat): Num {
    if s != [] && AllDigits(s, radix) then Finite(false, DigitsValue(s, radix), 0) else NaN
  }

  /** `Number(s)` for a string `s`: white space around is ignored and blank text is 0. */
  function StringToNumber(s: string): (n: Num)
    ensures AllSpace(s) ==> n == Finite(false, 0, 0)
  {
    TrimmedToNumber(Trim(s))
  }

  /**
   * Text that, once trimmed, starts with anything but a digit, a sign, a `.` or the `I` of
   * `Infinity` is not a numeric literal: `Number` reads it as NaN.
   */
  lemma NotNumeric(s: string)
    requires Trim(s) != []
    requires var c := Trim(s)[0]; !IsDigit(c, 10) && c != '+' && c != '-' && c != '.' && c != 'I'
    ensures StringToNumber(s) == NaN
  {
    var t := Trim(s);
    assert t != "Infinity";
    assert t[0] != '0' by { assert IsDigit('0', 10); }
    assert DigitPrefix(t, 10) == [];
  }

  /** StringNumericLiteral without the surrounding white space: a `0x`/`0o`/`0b` literal or a signed decimal one. */
  function TrimmedToNumber(t: string): Num {
    if t == [] then Finite(false, 0, 0)
    else if |t| >= 2 && t[0] == '0' && (t[1] == 'x' || t[1] == 'X') then NonDecimal(t[2..], 16)
    else if |t| >= 2 && t[0] == '0' && (t[1] == 'o' || t[1] == 'O') then NonDecimal(t[2..], 8)
    else if |t| >= 2 && t[0] == '0' && (t[1] == 'b' || t[1] == 'B') then NonDecimal(t[2..], 2)
    else if t[0] == '+' then UnsignedDecimal(t[1..], false)
    else if t[0] == '-' then UnsignedDecimal(t[1..], true)
    else UnsignedDecimal(t, false)
  }

  /** SameValueZero(n, d) for a non-negative integer d: NaN and the infinities equal nothing, -0 equals 0. */
  function Equals(n: Num, d: nat): (b: bool)
    ensures n.NaN? || n.Infinity? ==> !b
    ensures n == Finite(false, d, 0) ==> b
    ensures n == Finite(true, 0, 0) ==> (b <==> d == 0)
  {
    match n
    case NaN => false
    case Infinity(_) => false
    case Finite(negative, m, e) =>
      if m == 0 then d == 0
      else !negative && (if e >= 0 then m * Pow10(e) == d else m == d * Pow10(-e))
  }

  /** ToIntegerOrInfinity (truncation toward zero) of a finite number; None for NaN and the infinities. */
  function Truncate(n: Num): (r: Option<int>)
    ensures r.Some? <==> n.Finite?
  {
    match n
    case Finite(negative, m, e) =>
      var magnitude: int := if e >= 0 then m * Pow10(e) else m / Pow10(-e);
      Some(if negative then -magnitude else magnitude)
    case _ => None
  }

  lemma DivisionBounds(m: nat, p: nat)
    requires p >= 1
    ensures 0 <= (m / p) * p <= m < (m / p + 1) * p
  {
  }

  /** Truncation keeps the sign and drops the fraction: |r| * 10^k <= mantissa < (|r| + 1) * 10^k. */
  lemma TruncateBounds(n: Num)
    requires n.Finite? && n.exponent < 0
    ensures var r := Truncate(n).value;
      var magnitude := if n.negative then -r else r;
      0 <= magnitude * Pow10(-n.exponent) <= n.mantissa < (magnitude + 1) * Pow10(-n.exponent)
  {
    var p := Pow10(-n.exponent);
    var q := n.mantissa / p;
    var r := Truncate(n).value;
    assert r == (if n.negative then -q else q);
    DivisionBounds(n.mantissa, p);
  }

  /** `parseInt(s)`: leading white space, a sign, an optional `0x`, then the longest run of digits; None is NaN. */
  function ParseInt(s: string): (r: Option<int>)
    ensures AllSpace(s) ==> r.None?
  {
    assert AllSpace(s) ==> TrimStart(s) == [] by {
      if AllSpace(s) {
        assert s + [] == s;
        TrimStartSpaces(s, []);
      }
    }
    SignedInt(TrimStart(s))
  }

  function SignedInt(t: string): Option<int> {
    var negative := t != [] && t[0] == '-';
    var unsigned := if t != [] && (t[0] == '-' || t[0] == '+') then t[1..] else t;
    match UnsignedInt(unsigned)
    case None => None
    case Some(magnitude) => Some(if negative then -magnitude else magnitude)
  }

  /** The digits after the sign: hexadecimal after `0x` or `0X`, decimal otherwise. */
  function UnsignedInt(u: string): Option<int> {
    var hex := |u| >= 2 && u[0] == '0' && (u[1] == 'x' || u[1] == 'X');
    var radix := if hex then 16 else 10;
    var digits := DigitPrefix(if hex then u[2..] else u, radix);
    if digits == [] then None else Some(DigitsValue(digits, radix))
  }

  /** A run of digits followed by a non-digit is exactly the digit prefix. */
  lemma {:induction false} DigitPrefixOf(ds: string, rest: string, radix: nat)
    requires AllDigits(ds, radix)
    requires rest == [] || !IsDigit(rest[0], radix)
    ensures DigitPrefix(ds + rest, radix) == ds
  {
    if ds != [] {
      assert (ds + rest)[1..] == ds[1..] + rest;
      DigitPrefixOf(ds[1..], rest, radix);
      assert [ds[0]] + ds[1..] == ds;
    } else {
      assert ds + rest == rest;
    }
  }

  /** A literal made of decimal digits only denotes their value. */
  lemma UnsignedDigits(ds: string)
    requires ds != [] && AllDigits(ds, 10)
    ensures UnsignedDecimal(ds, false) == Finite(false, DigitsValue(ds, 10), 0)
  {
    assert ds != "Infinity" by { assert IsDigit(ds[0], 10); }
    DigitPrefixOf(ds, [], 10);
    assert ds + [] == ds;
  }

  lemma DecimalDigitRange(c: char)
    requires IsDigit(c, 10)
    ensures '0' <= c <= '9'
  {
  }

  /** Decimal digits take the plain decimal path of StringToNumber. */
  lemma DigitsToNumber(ds: string)
    requires ds != [] && AllDigits(ds, 10)
    ensures TrimmedToNumber(ds) == Finite(false, DigitsValue(ds, 10), 0)
  {
    DecimalDigitRange(ds[0]);
    if |ds| >= 2 {
      DecimalDigitRange(ds[1]);
    }
    UnsignedDigits(ds);
  }

  /** `Number(" 7 ")` is 7: decimal digits surrounded by white space denote their value. */
  lemma DecimalNumber(pre: string, ds: string, post: string)
    requires AllSpace(pre) && AllSpace(post)
    requires ds != [] && AllDigits(ds, 10)
    ensures StringToNumber(pre + ds + post) == Finite(false, DigitsValue(ds, 10), 0)
  {
    DecimalDigitRange(ds[0]);
    DecimalDigitRange(ds[|ds| - 1]);
    TrimPadded(pre, ds, post);
    DigitsToNumber(ds);
  }

  /** `Number` of a string of decimal digits alone is their value. */
  lemma DigitsNumber(ds: string)
    requires ds != [] && AllDigits(ds, 10)
    ensures StringToNumber(ds) == Finite(false, DigitsValue(ds, 10), 0)
  {
    DecimalDigitRange(ds[0]);
    DecimalDigitRange(ds[|ds| - 1]);
    TrimOfTrimmed(ds);
    DigitsToNumber(ds);
  }

  /** `parseInt` of a string of decimal digits alone is their value. */
  lemma ParseIntDigits(ds: string)
    requires ds != [] && AllDigits(ds, 10)
    ensures ParseInt(ds) == Some(DigitsValue(ds, 10))
  {
    DecimalDigitRange(ds[0]);
    assert TrimStart(ds) == ds;
    assert ds + [] == ds;
    SignedLeadingDigits(ds, []);
  }

  /** The digits of a decimal run followed by a non-digit, not a `0x` prefix. */
  lemma UnsignedLeadingDigits(ds: string, rest: string)
    requires ds != [] && AllDigits(ds, 10)
    requires rest == [] || !IsDigit(rest[0], 10)
    requires !(ds == "0" && rest != [] && (rest[0] == 'x' || rest[0] == 'X'))
    ensures UnsignedInt(ds + rest) == Some(DigitsValue(ds, 10))
  {
    var t := ds + rest;
    if |ds| >= 2 {
      DecimalDigitRange(ds[1]);
    }
    assert !(|t| >= 2 && t[0] == '0' && (t[1] == 'x' || t[1] == 'X'));
    DigitPrefixOf(ds, rest, 10);
  }

  /** No sign in front of a decimal run: `SignedInt` is the unsigned reading. */
  lemma SignedLeadingDigits(ds: string, rest: string)
    requires ds != [] && AllDigits(ds, 10)
    requires rest == [] || !IsDigit(rest[0], 10)
    requires !(ds == "0" && rest != [] && (rest[0] == 'x' || rest[0] == 'X'))
    ensures SignedInt(ds + rest) == Some(DigitsValue(ds, 10))
  {
    var t := ds + rest;
    DecimalDigitRange(ds[0]);
    assert t[0] == ds[0];
    UnsignedLeadingDigits(ds, rest);
  }

  /** `parseInt` reads the leading run of decimal digits after white space and ignores the rest. */
  lemma ParseIntLeadingDigits(pre: string, ds: string, rest: string)
    requires AllSpace(pre)
    requires ds != [] && AllDigits(ds, 10)
    requires rest == [] || !IsDigit(rest[0], 10)
    requires !(ds == "0" && rest != [] && (rest[0] == 'x' || rest[0] == 'X'))
    ensures ParseInt(pre + ds + rest) == Some(DigitsValue(ds, 10))
  {
    assert !IsSpace(ds[0]) by {
      DecimalDigitRange(ds[0]);
    }
    TrimStartBefore(pre, ds, rest);
    SignedLeadingDigits(ds, rest);
  }
}
