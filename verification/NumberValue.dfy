/** The real number a numeral denotes: the normal form of DecimalNumber keeps it, is
    unique for it, and its plain range is the interval 1e-6 <= |x| < 1e21. */
module NumberValue {
  import opened DecimalNumber

  function Pow10(e: int): (r: real)
    ensures r > 0.0
    decreases if e < 0 then -e else e
  {
    if e == 0 then 1.0 else if e > 0 then 10.0 * Pow10(e - 1) else Pow10(e + 1) / 10.0
  }

  lemma Pow10Step(e: int)
    ensures Pow10(e + 1) == 10.0 * Pow10(e)
  {
  }

  function Times(x: real, y: real): real
  {
    x * y
  }

  lemma Pow10Add(a: int, b: nat)
    ensures Pow10(a + b) == Pow10(a) * Pow10(b)
  {
    Pow10Times(a, b);
    hide Pow10;
  }

  lemma {:induction false} Pow10Times(a: int, b: nat)
    ensures Pow10(a + b) == Times(Pow10(a), Pow10(b))
  {
    if b == 0 {
      TimesOne(Pow10(a));
      hide Times;
    } else {
      hide Times, Pow10;
      Pow10Times(a, b - 1);
      Pow10Step(a + b - 1);
      Pow10Step(b - 1);
      TimesTen(Pow10(a), Pow10(b - 1));
    }
  }

  lemma TimesOne(x: real)
    ensures Times(x, 1.0) == x
  {
  }

  lemma TimesTen(x: real, y: real)
    ensures 10.0 * Times(x, y) == Times(x, 10.0 * y)
  {
  }

  lemma {:induction false} Pow10Monotone(a: int, b: int)
    requires a <= b
    ensures Pow10(a) <= Pow10(b)
    decreases b - a
  {
    if a < b {
      Pow10Monotone(a, b - 1);
      Pow10Step(b - 1);
    }
  }

  function Signed(neg: bool, magnitude: real): real
  {
    if neg then -magnitude else magnitude
  }

  function Whole(s: string): real
    requires Digits(s)
  {
    DigitsValue(s) as real
  }

  /** The number a scanned numeral denotes. */
  function Denote(d: Decimal): real
    requires d.Valid()
  {
    Signed(d.neg, Whole(d.whole + d.frac) * Pow10(d.exp - |d.frac|))
  }

  function Magnitude(n: Number): real
    requires n.Number? && n.Valid()
  {
    Whole(n.digits) * Pow10(n.point - |n.digits|)
  }

  function Value(n: Number): real
    requires n.Valid()
  {
    if n.Zero? then 0.0 else Signed(n.neg, Magnitude(n))
  }

  lemma {:induction false} TrailingZerosScale(s: string, k: nat)
    requires Digits(s)
    ensures Whole(s + Zeros(k)) == Whole(s) * Pow10(k)
  {
    hide DigitsValue;
    if k == 0 {
      assert s + Zeros(0) == s;
    } else {
      TrailingZerosScale(s, k - 1);
      AppendZero(s + Zeros(k - 1));
      assert s + Zeros(k) == (s + Zeros(k - 1)) + ['0'];
      RegroupProduct(Whole(s), Pow10(k - 1), 10.0);
    }
  }

  lemma AppendZero(s: string)
    requires Digits(s)
    ensures DigitsValue(s + ['0']) == 10 * DigitsValue(s)
  {
    assert (s + ['0'])[..|s|] == s;
  }

  lemma {:induction false} LeadingZerosVanish(z: nat, s: string)
    requires Digits(s)
    ensures DigitsValue(Zeros(z) + s) == DigitsValue(s)
  {
    if s == "" {
      assert Zeros(z) + s == Zeros(z);
      AllZeros(z);
    } else {
      LeadingZerosVanish(z, s[..|s|-1]);
      var t := Zeros(z) + s;
      assert t[..|t|-1] == Zeros(z) + s[..|s|-1];
    }
  }

  lemma {:induction false} AllZeros(z: nat)
    ensures DigitsValue(Zeros(z)) == 0
  {
    if z > 0 {
      assert Zeros(z)[..z-1] == Zeros(z - 1);
      AllZeros(z - 1);
    }
  }

  /** Normalizing a numeral keeps the number it denotes. */
  lemma NormalizeKeepsValue(d: Decimal)
    requires d.Valid()
    ensures Value(Normalize(d)) == Denote(d)
  {
    hide Pow10, DigitsValue, LeadingZeros, StripTrailing;
    var ds := d.whole + d.frac;
    var z := LeadingZeros(ds);
    assert ds == Zeros(z) + ds[z..];
    LeadingZerosVanish(z, ds[z..]);
    if z == |ds| {
      assert ds[z..] == Zeros(0);
      AllZeros(0);
    } else {
      SignificantPart(d.whole, d.frac, d.exp, z);
    }
  }

  lemma SignificantPart(whole: string, frac: string, exp: int, z: nat)
    requires Digits(whole) && Digits(frac) && z < |whole + frac|
    ensures var rest := (whole + frac)[z..];
            var sig := StripTrailing(rest);
            Whole(sig) * Pow10(|whole| + exp - z - |sig|) == Whole(rest) * Pow10(exp - |frac|)
  {
    hide Pow10, DigitsValue, StripTrailing;
    var rest := (whole + frac)[z..];
    var sig := StripTrailing(rest);
    var t := |rest| - |sig|;
    assert rest == sig + Zeros(t);
    TrailingZerosScale(sig, t);
    Pow10Add(exp - |frac|, t);
    RegroupProduct(Whole(sig), Pow10(exp - |frac|), Pow10(t));
  }

  lemma RegroupProduct(a: real, b: real, c: real)
    ensures a * (b * c) == (a * c) * b
  {
  }

  // Size of a number

  lemma {:induction false} DigitsBelow(s: string)
    requires Digits(s)
    ensures Whole(s) + 1.0 <= Pow10(|s|)
  {
    if s != "" {
      DigitsBelow(s[..|s|-1]);
      Pow10Step(|s| - 1);
    }
  }

  lemma {:induction false} DigitsAtLeast(s: string)
    requires Digits(s) && s != "" && s[0] != '0'
    ensures Pow10(|s| - 1) <= Whole(s)
  {
    if |s| > 1 {
      DigitsAtLeast(s[..|s|-1]);
      Pow10Step(|s| - 2);
    }
  }

  /** The point position brackets the magnitude. */
  lemma MagnitudeBounds(n: Number)
    requires n.Number? && n.Valid()
    ensures Pow10(n.point - 1) <= Magnitude(n) < Pow10(n.point)
  {
    hide Pow10, DigitsValue;
    var k := |n.digits|;
    DigitsBelow(n.digits);
    DigitsAtLeast(n.digits);
    Pow10Add(n.point - k, k);
    Pow10Add(n.point - k, k - 1);
    ScaleBracket(Pow10(k - 1), Whole(n.digits), Pow10(k), Pow10(n.point - k));
  }

  lemma ScaleBracket(lo: real, x: real, hi: real, scale: real)
    requires scale > 0.0 && lo <= x && x + 1.0 <= hi
    ensures scale * lo <= x * scale < scale * hi
  {
    assert scale * (x - lo) >= 0.0;
    assert scale * (hi - x) > 0.0;
  }

  /** Section 3.2.2.3 of RFC 8785: plain notation is exactly 1e-6 <= |x| < 1e21. */
  lemma PlainRangeIsInterval(n: Number)
    requires n.Number? && n.Valid()
    ensures PlainRange(n) <==> Pow10(-6) <= Magnitude(n) < Pow10(21)
  {
    hide Pow10, Magnitude;
    MagnitudeBounds(n);
    if n.point <= -6 {
      Pow10Monotone(n.point, -6);
    } else {
      Pow10Monotone(-6, n.point - 1);
    }
    if n.point <= 21 {
      Pow10Monotone(n.point, 21);
    } else {
      Pow10Monotone(21, n.point - 1);
    }
  }

  // Uniqueness of the normal form

  /** Numbers in normal form are equal exactly when they denote the same real number. */
  lemma ValueInjective(a: Number, b: Number)
    requires a.Valid() && b.Valid()
    ensures Value(a) == Value(b) <==> a == b
  {
    hide Pow10, Magnitude;
    if a.Number? { MagnitudeBounds(a); }
    if b.Number? { MagnitudeBounds(b); }
    if a.Number? && b.Number? && Value(a) == Value(b) {
      SameScale(a, b);
      SameScale(b, a);
      SameDigits(a, b);
    }
  }

  lemma SameScale(a: Number, b: Number)
    requires a.Number? && b.Number? && a.Valid() && b.Valid() && Magnitude(a) == Magnitude(b)
    ensures a.point - |a.digits| >= b.point - |b.digits|
  {
    hide Pow10, DigitsValue;
    var p, q := a.point - |a.digits|, b.point - |b.digits|;
    if p < q {
      var k := q - p;
      Pow10Add(p, k);
      RegroupProduct(Whole(b.digits), Pow10(p), Pow10(k));
      CancelScale(Whole(a.digits), Whole(b.digits) * Pow10(k), Pow10(p));
      TrailingZerosScale(b.digits, k);
      assert DigitsValue(a.digits) == DigitsValue(b.digits + Zeros(k));
      LastDigit(a.digits);
      LastDigit(b.digits + Zeros(k));
      assert false;
    }
  }

  lemma ScaleLess(a: real, b: real, c: real)
    requires c > 0.0
    ensures a < b ==> a * c < b * c
    ensures a <= b ==> a * c <= b * c
  {
  }

  lemma CancelScale(a: real, b: real, c: real)
    requires c > 0.0 && a * c == b * c
    ensures a == b
  {
    if a < b {
      ScaleLess(a, b, c);
    } else if b < a {
      ScaleLess(b, a, c);
    }
  }

  lemma LastDigit(s: string)
    requires Digits(s) && s != ""
    ensures DigitsValue(s) % 10 == DigitValue(s[|s|-1])
  {
  }

  lemma SameDigits(a: Number, b: Number)
    requires a.Number? && b.Number? && a.Valid() && b.Valid() && Magnitude(a) == Magnitude(b)
    requires a.point - |a.digits| == b.point - |b.digits|
    ensures a.digits == b.digits && a.point == b.point
  {
    hide Pow10, DigitsValue, NatText;
    CancelScale(Whole(a.digits), Whole(b.digits), Pow10(a.point - |a.digits|));
    ValueNatText(a.digits);
    ValueNatText(b.digits);
  }
}
