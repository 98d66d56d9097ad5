/** The count normaliser `Weibo.string_to_int`: an API counter is either an
    integer already or a string such as "3456", "12万+", "1.2万" or "3亿". */
module Normalizer {
  import opened Values

  const TenThousandPlus: string := "万+"
  const TenThousand: string := "万"
  const HundredMillion: string := "亿"

  predicate IsDigit(c: char) { '0' <= c <= '9' }

  predicate AllDigits(s: string) { forall i :: 0 <= i < |s| ==> IsDigit(s[i]) }

  function DigitValue(c: char): (d: nat)
    requires IsDigit(c)
    ensures d < 10
  {
    c as int - '0' as int
  }

  /** The number a string of decimal digits denotes ("" denotes 0). */
  function DigitsValue(s: string): nat
    requires AllDigits(s)
    decreases |s|
  {
    if s == [] then 0 else DigitsValue(s[..|s| - 1]) * 10 + DigitValue(s[|s| - 1])
  }

  function Pow10(n: nat): (p: nat)
    ensures p >= 1
  {
    if n == 0 then 1 else 10 * Pow10(n - 1)
  }

  function DigitChar(d: nat): (c: char)
    requires d < 10
    ensures IsDigit(c) && DigitValue(c) == d
  {
    ('0' as int + d) as char
  }

  /** The decimal numeral of `n`, without leading zeros. */
  function Show(n: nat): (s: string)
    ensures |s| > 0 && AllDigits(s) && DigitsValue(s) == n
  {
    if n < 10 then [DigitChar(n)]
    else
      var s := Show(n / 10) + [DigitChar(n % 10)];
      assert s[..|s| - 1] == Show(n / 10);
      s
  }

  predicate EndsWith(s: string, suffix: string) {
    |suffix| <= |s| && s[|s| - |suffix|..] == suffix
  }

  /** A leading sign, if any, and what follows it. */
  function Unsigned(s: string): (body: string)
    ensures |body| <= |s|
  {
    if |s| > 0 && (s[0] == '-' || s[0] == '+') then s[1..] else s
  }

  function Negative(s: string): bool { |s| > 0 && s[0] == '-' }

  /** Python's `int(s)` on a string: an optional sign and at least one ASCII
      digit; `None` is the `ValueError` it raises on anything else. */
  function IntLiteral(s: string): (r: Option<int>)
    ensures r.Some? <==> |Unsigned(s)| > 0 && AllDigits(Unsigned(s))
    ensures r.Some? ==> (r.value < 0 ==> Negative(s))
  {
    var body := Unsigned(s);
    if |body| > 0 && AllDigits(body) then
      var n: int := DigitsValue(body);
      Some(if Negative(s) then -n else n)
    else None
  }

  /** Position of the first '.', or |s| when there is none. */
  function Dot(s: string): (k: nat)
    ensures k <= |s| && '.' !in s[..k] && (k < |s| ==> s[k] == '.')
  {
    if s == [] then 0
    else if s[0] == '.' then 0
    else
      var k := 1 + Dot(s[1..]);
      assert s[..k] == [s[0]] + s[1..][..k - 1];
      k
  }

  /** A decimal numeral: (-1 if negative) * mantissa / 10^scale. */
  datatype Decimal = Decimal(negative: bool, mantissa: nat, scale: nat)

  /** Python's `float(s)` on numerals without exponent: an optional sign,
      digits, and optionally a '.' followed by digits, with at least one digit
      in all; `None` is the `ValueError` it raises otherwise. */
  function FloatLiteral(s: string): Option<Decimal>
  {
    var body := Unsigned(s);
    var k := Dot(body);
    var whole := body[..k];
    var fraction := if k < |body| then body[k + 1..] else "";
    if |whole| + |fraction| > 0 && AllDigits(whole) && AllDigits(fraction) then
      assert AllDigits(whole + fraction);
      Some(Decimal(Negative(s), DigitsValue(whole + fraction), |fraction|))
    else None
  }

  /** `int(float(numeral) * factor)`: scales exactly and truncates toward zero. */
  function Scaled(d: Decimal, factor: nat): int
  {
    var q := d.mantissa * factor / Pow10(d.scale);
    if d.negative then -q else q
  }

  /** `int(float(numeral) * factor)`, or `None` when `float` raises. */
  function ScaledLiteral(numeral: string, factor: nat): Option<int> {
    var d := FloatLiteral(numeral);
    if d.Some? then Some(Scaled(d.value, factor)) else None
  }

  /** The string branches of `string_to_int`, checked in the source's order. */
  function ParseCount(s: string): Option<int>
  {
    if EndsWith(s, TenThousandPlus) then IntLiteral(s[..|s| - 2] + "0000")
    else if EndsWith(s, TenThousand) then ScaledLiteral(s[..|s| - 1], 10000)
    else if EndsWith(s, HundredMillion) then ScaledLiteral(s[..|s| - 1], 100000000)
    else IntLiteral(s)
  }

  /** `string_to_int(v)`; `None` is an exception (`ValueError` from `int` or
      `float`, `AttributeError` from `endswith` on a value that is no string). */
  function StringToInt(v: Value): (r: Option<Value>)
    ensures v.Int? || v.Bool? ==> r == Some(v)
    ensures r.Some? ==> r.value.Int? || r.value.Bool?
    ensures v.List? || v.Other? ==> r.None?
  {
    match v
    case Int(_) => Some(v)
    case Bool(_) => Some(v)   // isinstance(True, int) holds in Python
    case Str(s) =>
      var n := ParseCount(s);
      if n.Some? then Some(Int(n.value)) else None
    case _ => None
  }

  // ---------------------------------------------------------------------
  // Properties

  lemma AllDigitsAppend(a: string, b: string)
    requires AllDigits(a) && AllDigits(b)
    ensures AllDigits(a + b)
  {
  }

  /** Regrouping one more digit: (x * p + y) * 10 + d == x * (10 * p) + (y * 10 + d). */
  lemma ShiftDigit(x: int, p: int, y: int, d: int)
    ensures (x * p + y) * 10 + d == x * (10 * p) + (y * 10 + d)
  {
  }

  lemma {:induction false} DigitsAppend(a: string, b: string)
    requires AllDigits(a) && AllDigits(b)
    ensures AllDigits(a + b)
    ensures DigitsValue(a + b) == DigitsValue(a) * Pow10(|b|) + DigitsValue(b)
    decreases |b|
  {
    AllDigitsAppend(a, b);
    if b == [] {
      assert a + b == a;
    } else {
      var b' := b[..|b| - 1];
      DigitsAppend(a, b');
      assert (a + b)[..|a + b| - 1] == a + b';
      ShiftDigit(DigitsValue(a), Pow10(|b'|), DigitsValue(b'), DigitValue(b[|b| - 1]));
    }
  }

  /** `int` reads back every decimal numeral `Show` writes. */
  lemma ParseShow(n: nat)
    ensures IntLiteral(Show(n)) == Some(n)
  {
    assert IsDigit(Show(n)[0]);
  }

  /** `int` reads a signed string of digits as the signed number it denotes. */
  lemma SignedLiteral(digits: string)
    requires |digits| > 0 && AllDigits(digits)
    ensures IntLiteral("-" + digits) == Some(-(DigitsValue(digits) as int))
    ensures IntLiteral("+" + digits) == Some(DigitsValue(digits))
  {
    assert ("-" + digits)[1..] == digits;
    assert ("+" + digits)[1..] == digits;
  }

  /** `int` reads back the signed numerals of every natural number. */
  lemma ParseShowSigned(n: nat)
    ensures IntLiteral("-" + Show(n)) == Some(-(n as int))
    ensures IntLiteral("+" + Show(n)) == Some(n)
  {
    SignedLiteral(Show(n));
  }

  lemma ZerosValue()
    ensures AllDigits("0000") && DigitsValue("0000") == 0
  {
    assert "0"[..0] == "";
    assert DigitsValue("0") == 0;
    assert "00"[..1] == "0";
    assert DigitsValue("00") == 0;
    assert "000"[..2] == "00";
    assert DigitsValue("000") == 0;
    assert "0000"[..3] == "000";
  }

  /** "N万+" is N followed by four zeros. */
  lemma {:induction false} TenThousandPlusValue(digits: string)
    requires AllDigits(digits)
    ensures StringToInt(Str(digits + TenThousandPlus)) == Some(Int(DigitsValue(digits) * 10000))
  {
    var s := digits + TenThousandPlus;
    EndsWithAppend(digits, TenThousandPlus);
    var t := digits + "0000";
    DigitsAppend(digits, "0000");
    ZerosValue();
    assert Pow10(4) == 10000;
    DigitsLiteral(t);
  }

  /** `int` reads a string of digits as the number it denotes. */
  lemma DigitsLiteral(t: string)
    requires |t| > 0 && AllDigits(t)
    ensures IntLiteral(t) == Some(DigitsValue(t))
  {
    assert IsDigit(t[0]);
    assert Unsigned(t) == t;
  }

  /** Whole numerals only: "N万" is N * 10^4. */
  lemma {:induction false} TenThousandValue(digits: string)
    requires |digits| > 0 && AllDigits(digits)
    ensures StringToInt(Str(digits + TenThousand)) == Some(Int(DigitsValue(digits) * 10000))
  {
    var s := digits + TenThousand;
    EndsWithAppend(digits, TenThousand);
    EndsWithLast(s, TenThousand);
    EndsWithLast(s, TenThousandPlus);
    ScaledWhole(digits, 10000);
  }

  /** "N亿" is N * 10^8. */
  lemma {:induction false} HundredMillionValue(digits: string)
    requires |digits| > 0 && AllDigits(digits)
    ensures StringToInt(Str(digits + HundredMillion)) == Some(Int(DigitsValue(digits) * 100000000))
  {
    var s := digits + HundredMillion;
    EndsWithAppend(digits, HundredMillion);
    EndsWithLast(s, HundredMillion);
    EndsWithLast(s, TenThousandPlus);
    EndsWithLast(s, TenThousand);
    ScaledWhole(digits, 100000000);
  }

  /** `a + b` ends with `b` and starts with `a`. */
  lemma EndsWithAppend(a: string, b: string)
    ensures EndsWith(a + b, b) && (a + b)[..|a|] == a
  {
    assert (a + b)[|a|..] == b;
  }

  /** A whole numeral is scaled exactly. */
  lemma ScaledWhole(digits: string, factor: nat)
    requires |digits| > 0 && AllDigits(digits)
    ensures ScaledLiteral(digits, factor) == Some(DigitsValue(digits) * factor)
  {
    WholeFloat(digits);
    assert Pow10(0) == 1;
  }

  /** A string that ends with `suffix` ends with its last character. */
  lemma EndsWithLast(s: string, suffix: string)
    requires |suffix| > 0
    ensures EndsWith(s, suffix) ==> s[|s| - 1] == suffix[|suffix| - 1]
  {
    if EndsWith(s, suffix) {
      assert s[|s| - |suffix|..][|suffix| - 1] == s[|s| - 1];
    }
  }

  /** A numeral ends in a digit, so none of the suffix branches applies. */
  lemma NoSuffix(digits: string)
    requires |digits| > 0 && AllDigits(digits)
    ensures !EndsWith(digits, TenThousandPlus)
    ensures !EndsWith(digits, TenThousand)
    ensures !EndsWith(digits, HundredMillion)
  {
    assert IsDigit(digits[|digits| - 1]);
    EndsWithLast(digits, TenThousandPlus);
    EndsWithLast(digits, TenThousand);
    EndsWithLast(digits, HundredMillion);
  }

  /** A numeral without a suffix is read by `int`. */
  lemma {:induction false} PlainValue(digits: string)
    requires |digits| > 0 && AllDigits(digits)
    ensures StringToInt(Str(digits)) == Some(Int(DigitsValue(digits)))
  {
    NoSuffix(digits);
    DigitsLiteral(digits);
  }

  lemma {:induction false} WholeFloat(digits: string)
    requires |digits| > 0 && AllDigits(digits)
    ensures FloatLiteral(digits) == Some(Decimal(false, DigitsValue(digits), 0))
  {
    assert IsDigit(digits[0]);
    assert Unsigned(digits) == digits;
    assert forall i :: 0 <= i < |digits| ==> digits[i] != '.' by {
      forall i | 0 <= i < |digits| ensures digits[i] != '.' { assert IsDigit(digits[i]); }
    }
    var k := Dot(digits);
    assert k == |digits|;
    assert digits[..k] == digits;
    assert digits[..k] + "" == digits;
  }

  /** `Scaled` keeps the sign of the numeral. */
  lemma ScaledSign(d: Decimal, factor: nat)
    ensures d.negative ==> Scaled(d, factor) <= 0
    ensures !d.negative ==> Scaled(d, factor) >= 0
  {
    ProductNonNegative(d.mantissa, factor);
    QuotientNonNegative(d.mantissa * factor, Pow10(d.scale));
  }

  lemma ProductNonNegative(a: nat, b: nat)
    ensures a * b >= 0
  {
  }

  lemma QuotientNonNegative(a: int, m: int)
    requires a >= 0 && m > 0
    ensures a / m >= 0
  {
  }

  /** A count that does not start with '-' never becomes negative. */
  lemma {:induction false} NeverNegative(s: string)
    requires |s| == 0 || s[0] != '-'
    requires StringToInt(Str(s)).Some?
    ensures StringToInt(Str(s)).value.Int? && StringToInt(Str(s)).value.i >= 0
  {
    if EndsWith(s, TenThousandPlus) {
      var t := s[..|s| - 2] + "0000";
      assert !Negative(t) by { if |s| > 2 { assert t[0] == s[0]; } }
    } else if EndsWith(s, TenThousand) || EndsWith(s, HundredMillion) {
      var t := s[..|s| - 1];
      assert !Negative(t) by { if |s| > 1 { assert t[0] == s[0]; } }
      var d := FloatLiteral(t);
      ScaledSign(d.value, if EndsWith(s, TenThousand) then 10000 else 100000000);
    }
  }

  /** `float` reads "W.F" as the digits of W and F over 10^|F|. */
  lemma DecimalFloat(whole: string, fraction: string)
    requires AllDigits(whole) && AllDigits(fraction) && |whole| + |fraction| > 0
    ensures AllDigits(whole + fraction)
    ensures FloatLiteral(whole + "." + fraction) == Some(Decimal(false, DigitsValue(whole + fraction), |fraction|))
  {
    AllDigitsAppend(whole, fraction);
    var s := whole + "." + fraction;
    assert s[|whole|] == '.';
    assert Unsigned(s) == s by {
      if |whole| > 0 { assert s[0] == whole[0] && IsDigit(whole[0]); }
    }
    var k := Dot(s);
    assert forall i :: 0 <= i < |whole| ==> s[i] == whole[i] && IsDigit(whole[i]);
    assert s[..k] == whole;
    assert s[k + 1..] == fraction;
  }

  /** "W.F万" is W.F * 10^4, truncated toward zero. */
  lemma {:induction false} DecimalTenThousandValue(whole: string, fraction: string)
    requires AllDigits(whole) && AllDigits(fraction) && |whole| + |fraction| > 0
    ensures AllDigits(whole + fraction)
    ensures StringToInt(Str(whole + "." + fraction + TenThousand))
         == Some(Int(DigitsValue(whole + fraction) * 10000 / Pow10(|fraction|)))
  {
    var numeral := whole + "." + fraction;
    var s := numeral + TenThousand;
    EndsWithAppend(numeral, TenThousand);
    EndsWithLast(s, TenThousandPlus);
    DecimalFloat(whole, fraction);
  }

  /** "W.F亿" is W.F * 10^8, truncated toward zero. */
  lemma {:induction false} DecimalHundredMillionValue(whole: string, fraction: string)
    requires AllDigits(whole) && AllDigits(fraction) && |whole| + |fraction| > 0
    ensures AllDigits(whole + fraction)
    ensures StringToInt(Str(whole + "." + fraction + HundredMillion))
         == Some(Int(DigitsValue(whole + fraction) * 100000000 / Pow10(|fraction|)))
  {
    var numeral := whole + "." + fraction;
    var s := numeral + HundredMillion;
    EndsWithAppend(numeral, HundredMillion);
    EndsWithLast(s, TenThousandPlus);
    EndsWithLast(s, TenThousand);
    DecimalFloat(whole, fraction);
  }

  /** The "万+" branch only appends zeros, so any numeral with a '.' before
      it is refused by `int`. */
  lemma DottedTenThousandPlusRaises(numeral: string)
    requires '.' in numeral
    ensures StringToInt(Str(numeral + TenThousandPlus)).None?
  {
    var s := numeral + TenThousandPlus;
    EndsWithAppend(numeral, TenThousandPlus);
    var t := numeral + "0000";
    assert s[..|s| - 2] == numeral;
    var j :| 0 <= j < |numeral| && numeral[j] == '.';
    assert t[j] == '.';
    if Unsigned(t) == t {
      assert !IsDigit(Unsigned(t)[j]);
    } else {
      assert j > 0;
      assert Unsigned(t)[j - 1] == '.';
    }
  }

  /** A decimal numeral is scaled exactly and truncated: "1.2万" is 12000. */
  lemma DecimalTenThousand()
    ensures StringToInt(Str("1.2万")) == Some(Int(12000))
  {
    var s := "1.2万";
    assert !EndsWith(s, TenThousandPlus) by { assert s[3] != '+'; }
    assert EndsWith(s, TenThousand);
    var body := s[..3];
    assert body == "1.2";
    assert Unsigned(body) == body;
    assert Dot(body) == 1 by { assert Dot(body[1..]) == 0; }
    assert body[..1] + body[2..] == "12";
    assert DigitsValue("12") == 12 by { assert "12"[..1] == "1"; assert "1"[..0] == ""; }
    assert FloatLiteral(body) == Some(Decimal(false, 12, 1));
  }

  /** The "万+" branch only appends zeros, so a decimal numeral before it is
      refused by `int`: "1.5万+" raises. */
  lemma DecimalTenThousandPlusRaises()
    ensures StringToInt(Str("1.5万+")).None?
  {
    var s := "1.5万+";
    assert EndsWith(s, TenThousandPlus);
    var t := s[..3] + "0000";
    assert t[1] == '.';
    assert !AllDigits(Unsigned(t)) by { assert Unsigned(t) == t; assert !IsDigit(t[1]); }
  }
}
