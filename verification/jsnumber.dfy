/** The JavaScript numbers the ledger handles. A number is either a finite
    real or NaN, so that a malformed "RxW" value propagates NaN through sums
    exactly as the source's arithmetic does. Form fields hold non-negative
    fixed-point values: reps and weights in thousandths. */
module JsNumber {
  import opened Wrappers
  import Text

  datatype Num = Finite(v: real) | NaN

  function Add(a: Num, b: Num): Num {
    if a.Finite? && b.Finite? then Finite(a.v + b.v) else NaN
  }

  function Sub(a: Num, b: Num): Num {
    if a.Finite? && b.Finite? then Finite(a.v - b.v) else NaN
  }

  function Mul(a: Num, b: Num): Num {
    if a.Finite? && b.Finite? then Finite(a.v * b.v) else NaN
  }

  /** JavaScript truthiness of a number: 0 and NaN are falsy. */
  predicate Truthy(n: Num) {
    n.Finite? && n.v != 0.0
  }

  /** `n || 0`: a falsy number (0 or NaN) becomes 0. */
  function OrZero(n: Num): (r: Num)
    ensures r.Finite?
    ensures n.Finite? ==> r == n
  {
    if Truthy(n) then n else Finite(0.0)
  }

  predicate IsDigit(c: char) {
    '0' <= c <= '9'
  }

  predicate AllDigits(s: string) {
    forall i :: 0 <= i < |s| ==> IsDigit(s[i])
  }

  function DigitValue(c: char): nat
    requires IsDigit(c)
  {
    c as int - '0' as int
  }

  function DigitChar(d: nat): (c: char)
    requires d < 10
    ensures IsDigit(c) && DigitValue(c) == d
  {
    ('0' as int + d) as char
  }

  /** The value of a decimal digit string, most significant digit first. */
  function DigitsValue(s: string): nat
    requires AllDigits(s)
  {
    if |s| == 0 then 0 else 10 * DigitsValue(s[..|s| - 1]) + DigitValue(s[|s| - 1])
  }

  /** The value of the digits after a decimal point. */
  function FractionValue(s: string): (r: real)
    requires AllDigits(s)
    ensures 0.0 <= r < 1.0
  {
    if |s| == 0 then 0.0 else (DigitValue(s[0]) as real + FractionValue(s[1..])) / 10.0
  }

  /** `String(n)` for a non-negative integer: its decimal digits, no leading zero. */
  function NatToString(n: nat): (s: string)
    ensures |s| >= 1 && AllDigits(s)
    ensures |s| > 1 ==> s[0] != '0'
  {
    if n < 10 then [DigitChar(n)] else NatToString(n / 10) + [DigitChar(n % 10)]
  }

  lemma {:induction false} NatToStringRoundTrip(n: nat)
    ensures DigitsValue(NatToString(n)) == n
  {
    if n >= 10 {
      var s := NatToString(n);
      assert s[..|s| - 1] == NatToString(n / 10);
      NatToStringRoundTrip(n / 10);
    }
  }

  /** A leading zero does not change the value of a digit string. */
  lemma {:induction false} LeadingZero(s: string)
    requires AllDigits(s)
    ensures AllDigits("0" + s) && DigitsValue("0" + s) == DigitsValue(s)
  {
    var t := "0" + s;
    if |s| > 0 {
      assert t[..|t| - 1] == "0" + s[..|s| - 1];
      LeadingZero(s[..|s| - 1]);
    }
  }

  /** `Number(s)` for the forms the ledger produces: "" reads as 0, a digit
      string as its value, and "digits.digits" as a decimal; anything else is
      NaN. */
  function ParseNumber(s: string): (n: Num)
    ensures n.Finite? ==> n.v >= 0.0
    ensures s == "" ==> n == Finite(0.0)
  {
    if AllDigits(s) then Finite(DigitsValue(s) as real)
    else match Text.IndexOf(s, '.')
      case None => NaN
      case Some(k) =>
        var whole := s[..k];
        var frac := s[k + 1..];
        if |whole| > 0 && |frac| > 0 && AllDigits(whole) && AllDigits(frac)
        then Finite(DigitsValue(whole) as real + FractionValue(frac))
        else NaN
  }

  /** The shortest decimal digits of `f` thousandths, trailing zeros dropped,
      as `String` prints the fractional part of a number. */
  function FracDigits(f: nat): (s: string)
    requires 0 < f < 1000
    ensures 1 <= |s| <= 3 && AllDigits(s) && s[|s| - 1] != '0'
  {
    var d1 := f / 100;
    var d2 := (f / 10) % 10;
    var d3 := f % 10;
    if d3 != 0 then [DigitChar(d1), DigitChar(d2), DigitChar(d3)]
    else if d2 != 0 then [DigitChar(d1), DigitChar(d2)]
    else [DigitChar(d1)]
  }

  lemma FracDigitsValue(f: nat)
    requires 0 < f < 1000
    ensures FractionValue(FracDigits(f)) == f as real / 1000.0
  {
    var s := FracDigits(f);
    var d1 := f / 100;
    var d2 := (f / 10) % 10;
    var d3 := f % 10;
    assert f == 100 * d1 + 10 * d2 + d3;
    if d3 != 0 {
      assert FractionValue(s[2..]) == d3 as real / 10.0;
      assert FractionValue(s[1..]) == (d2 as real + d3 as real / 10.0) / 10.0;
    } else if d2 != 0 {
      assert FractionValue(s[1..]) == d2 as real / 10.0;
    }
  }

  /** `String(w / 1000)` for a weight of `w` thousandths: "50", "2.5", "0.125". */
  function ThousandthsToString(w: nat): (s: string)
    ensures |s| >= 1
    ensures '.' in s <==> w % 1000 != 0
    ensures 'x' !in s
  {
    var whole := NatToString(w / 1000);
    if w % 1000 == 0 then whole else whole + "." + FracDigits(w % 1000)
  }

  /** The digits `s` of a whole number `n` read back as `n` units. */
  lemma WholeField(n: nat, s: string)
    requires s == NatToString(n)
    ensures ParseThousandths(s) == Some(n * 1000)
  {
    WholeText(n);
    FieldRoundTrip(n * 1000);
  }

  /** A whole number of units prints without a fraction. */
  lemma WholeText(n: nat)
    ensures ThousandthsToString(n * 1000) == NatToString(n)
  {
    assert (n * 1000) / 1000 == n && (n * 1000) % 1000 == 0;
  }

  /** The real value of `w` thousandths. */
  function ThousandthsValue(w: nat): real {
    w as real / 1000.0
  }

  /** Printing a weight and reading it back with `Number` gives its value. */
  lemma {:induction false} ThousandthsRoundTrip(w: nat)
    ensures ParseNumber(ThousandthsToString(w)) == Finite(ThousandthsValue(w))
  {
    var q, m := w / 1000, w % 1000;
    var whole := NatToString(q);
    NatToStringRoundTrip(q);
    assert w == 1000 * q + m;
    assert ThousandthsValue(w) == q as real + m as real / 1000.0;
    if m == 0 {
      assert ParseNumber(whole) == Finite(q as real);
    } else {
      var frac := FracDigits(m);
      var s := whole + "." + frac;
      assert !AllDigits(s) by { assert s[|whole|] == '.'; }
      assert '.' !in whole;
      assert Text.IndexOf(s, '.') == Some(|whole|) by {
        assert s[..|whole|] == whole;
      }
      assert s[..|whole|] == whole;
      assert s[|whole| + 1..] == frac;
      FracDigitsValue(m);
      assert ParseNumber(s) == Finite(q as real + m as real / 1000.0);
    }
  }

  /** A parsed number in thousandths, when it has at most three decimals. */
  function ToThousandths(n: Num): (r: Option<nat>)
    ensures r.Some? <==> n.Finite? && n.v >= 0.0 && (n.v * 1000.0).Floor as real == n.v * 1000.0
    ensures r.Some? ==> ThousandthsValue(r.value) == n.v
  {
    if n.Finite? && n.v >= 0.0 && (n.v * 1000.0).Floor as real == n.v * 1000.0
    then Some((n.v * 1000.0).Floor)
    else None
  }

  /** `Number(s)` as a count of thousandths; None when it is NaN, negative
      or finer than a thousandth. */
  function ParseThousandths(s: string): Option<nat> {
    ToThousandths(ParseNumber(s))
  }

  /** A form field of `w` thousandths, reps or weight, printed with `String`
      and read back into thousandths, is `w` again. */
  lemma {:induction false} FieldRoundTrip(w: nat)
    ensures ParseThousandths(ThousandthsToString(w)) == Some(w)
  {
    ThousandthsRoundTrip(w);
    ThousandthsExact(w);
  }

  /** The value of `w` thousandths is a whole number of thousandths. */
  lemma ThousandthsExact(w: nat)
    ensures ToThousandths(Finite(ThousandthsValue(w))) == Some(w)
  {
    var v := ThousandthsValue(w);
    assert v * 1000.0 == w as real;
    assert (w as real).Floor == w;
  }
}
