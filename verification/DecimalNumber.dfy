/** Decimal numerals as text: what they denote, their normal form, and the ECMAScript
    rendering of a number that canonical JSON prescribes. */
module DecimalNumber {
  import opened Wrappers

  // Digit strings

  predicate IsDigit(c: char) { '0' <= c <= '9' }

  predicate Digits(s: string)
  {
    forall i :: 0 <= i < |s| ==> IsDigit(s[i])
  }

  function DigitValue(c: char): (d: int)
    requires IsDigit(c)
    ensures 0 <= d < 10
  {
    c as int - '0' as int
  }

  function DigitChar(d: int): (c: char)
    requires 0 <= d < 10
    ensures IsDigit(c) && DigitValue(c) == d
  {
    (d + '0' as int) as char
  }

  function DigitsValue(s: string): nat
    requires Digits(s)
  {
    if s == "" then 0 else 10 * DigitsValue(s[..|s|-1]) + DigitValue(s[|s|-1])
  }

  /** Python's str of a non-negative int. */
  function NatText(n: nat): (s: string)
    ensures |s| >= 1 && Digits(s)
  {
    if n < 10 then [DigitChar(n)] else NatText(n / 10) + [DigitChar(n % 10)]
  }

  lemma {:induction false} NatTextValue(n: nat)
    ensures DigitsValue(NatText(n)) == n
    ensures n > 0 ==> NatText(n)[0] != '0'
  {
    if n >= 10 {
      NatTextValue(n / 10);
      assert NatText(n)[..|NatText(n)|-1] == NatText(n / 10);
    }
  }

  lemma {:induction false} DigitsValuePositive(s: string)
    requires Digits(s) && s != "" && s[0] != '0'
    ensures DigitsValue(s) > 0
  {
    if |s| > 1 {
      DigitsValuePositive(s[..|s|-1]);
    }
  }

  /** A digit string without leading zero is the text of its value. */
  lemma {:induction false} ValueNatText(s: string)
    requires Digits(s) && s != "" && s[0] != '0'
    ensures NatText(DigitsValue(s)) == s
  {
    var t, d := s[..|s|-1], DigitValue(s[|s|-1]);
    assert s == t + [s[|s|-1]];
    if t != "" {
      ValueNatText(t);
      DigitsValuePositive(t);
      assert DigitsValue(s) / 10 == DigitsValue(t) && DigitsValue(s) % 10 == d;
    }
  }

  // Zeros

  function Zeros(n: nat): (s: string)
    ensures |s| == n && Digits(s)
    ensures forall i :: 0 <= i < n ==> s[i] == '0'
  {
    seq(n, _ => '0')
  }

  function LeadingZeros(s: string): (n: nat)
    ensures n <= |s|
    ensures forall i :: 0 <= i < n ==> s[i] == '0'
    ensures n < |s| ==> s[n] != '0'
  {
    if s == "" || s[0] != '0' then 0 else
      assert s == [s[0]] + s[1..];
      1 + LeadingZeros(s[1..])
  }

  function StripTrailing(s: string): (t: string)
    ensures |t| <= |s| && t == s[..|t|]
    ensures forall i :: |t| <= i < |s| ==> s[i] == '0'
    ensures t == "" || t[|t|-1] != '0'
  {
    if s == "" || s[|s|-1] != '0' then s else StripTrailing(s[..|s|-1])
  }

  lemma LeadingZerosUnique(n: nat, s: string)
    requires s != "" && s[0] != '0'
    ensures LeadingZeros(Zeros(n) + s) == n
  {
    var t := Zeros(n) + s;
    assert t[n] == s[0];
    assert forall i :: 0 <= i < n ==> t[i] == '0';
  }

  lemma StripTrailingUnique(s: string, n: nat)
    requires s != "" && s[|s|-1] != '0'
    ensures StripTrailing(s + Zeros(n)) == s
  {
    var t := s + Zeros(n);
    var r := StripTrailing(t);
    assert t[|s|-1] == s[|s|-1];
    assert |r| >= |s|;
    assert r[|r|-1] == t[|r|-1];
    assert forall i :: |s| <= i < |t| ==> t[i] == '0';
    assert t[..|s|] == s;
  }

  // Numbers in normal form

  /** Either zero, or a sign, significant digits without outer zeros, and the position of
      the decimal point: the number 0.digits times ten to the power point. */
  datatype Number = Zero | Number(neg: bool, digits: string, point: int)
  {
    predicate Valid()
    {
      Zero? || (digits != "" && Digits(digits) && digits[0] != '0' && digits[|digits|-1] != '0')
    }
  }

  function Sign(neg: bool): string
  {
    if neg then "-" else ""
  }

  function Abs(e: int): nat { if e < 0 then -e else e }

  function ExponentSign(e: int): char { if e < 0 then '-' else '+' }

  function ExponentText(e: int): string
  {
    ['e', ExponentSign(e)] + NatText(Abs(e))
  }

  /** ECMAScript Number::toString, the rendering that section 3.2.2.3 of RFC 8785 requires. */
  function EcmaText(n: Number): string
    requires n.Valid()
  {
    match n
    case Zero => "0"
    case Number(neg, digits, point) => Sign(neg) + EcmaMagnitude(digits, point)
  }

  function EcmaMagnitude(digits: string, point: int): string
    requires digits != ""
  {
    if |digits| <= point <= 21 then digits + Zeros(point - |digits|)
    else if 0 < point <= 21 then digits[..point] + ['.'] + digits[point..]
    else if -6 < point <= 0 then ['0'] + ['.'] + (Zeros(-point) + digits)
    else (if |digits| == 1 then digits else digits[..1] + ['.'] + digits[1..]) + ExponentText(point - 1)
  }

  /** Plain (exponent-free) notation is used exactly for 1e-6 <= |x| < 1e21. */
  predicate PlainRange(n: Number)
  {
    n.Zero? || -6 < n.point <= 21
  }

  // Reading numerals

  /** A numeral split into its parts. */
  datatype Decimal = Decimal(neg: bool, whole: string, frac: string, exp: int)
  {
    predicate Valid() { Digits(whole) && Digits(frac) }
  }

  /** Python's str.find for one character. */
  function Find(s: string, c: char): (i: int)
    ensures -1 <= i < |s|
    ensures i >= 0 ==> s[i] == c
    ensures forall j :: 0 <= j < (if i < 0 then |s| else i) ==> s[j] != c
  {
    if s == "" then -1
    else if s[0] == c then 0
    else
      assert s == [s[0]] + s[1..];
      var k := Find(s[1..], c);
      if k < 0 then -1 else k + 1
  }

  lemma FindFirst(a: string, c: char, b: string)
    requires c !in a
    ensures Find(a + [c] + b, c) == |a|
  {
    var s := a + [c] + b;
    assert s[|a|] == c;
    assert forall i :: 0 <= i < |a| ==> s[i] == a[i];
  }

  /** Python's int of an optionally signed digit string. */
  function IntValue(s: string): Option<int>
  {
    var body := if s != "" && (s[0] == '-' || s[0] == '+') then s[1..] else s;
    if body == "" || !Digits(body) then None
    else
      var magnitude: int := DigitsValue(body);
      Some(if s[0] == '-' then -magnitude else magnitude)
  }

  function ScanMantissa(neg: bool, mantissa: string, exp: int): (r: Option<Decimal>)
    ensures r.Some? ==> r.value.Valid()
  {
    var dot := Find(mantissa, '.');
    var whole := if dot < 0 then mantissa else mantissa[..dot];
    var frac := if dot < 0 then "" else mantissa[dot+1..];
    if Digits(whole) && Digits(frac) then Some(Decimal(neg, whole, frac, exp)) else None
  }

  function ScanUnsigned(neg: bool, body: string): (r: Option<Decimal>)
    ensures r.Some? ==> r.value.Valid()
  {
    var e := Find(body, 'e');
    if e < 0 then ScanMantissa(neg, body, 0)
    else
      var exp := IntValue(body[e+1..]);
      if exp.None? then None else ScanMantissa(neg, body[..e], exp.value)
  }

  /** Reads sign, whole part, fraction and exponent of a numeral. */
  function Scan(t: string): (r: Option<Decimal>)
    ensures r.Some? ==> r.value.Valid()
  {
    if t != "" && t[0] == '-' then ScanUnsigned(true, t[1..]) else ScanUnsigned(false, t)
  }

  function Normalize(d: Decimal): (n: Number)
    requires d.Valid()
    ensures n.Valid()
  {
    var ds := d.whole + d.frac;
    var z := LeadingZeros(ds);
    if z == |ds| then Zero
    else
      var sig := StripTrailing(ds[z..]);
      assert ds[z..][0] != '0';
      assert sig[0] == ds[z];
      Number(d.neg, sig, |d.whole| + d.exp - z)
  }

  // The rendering is read back to the same number

  lemma ExponentTextValue(e: int)
    ensures ExponentText(e) == ['e'] + ExponentText(e)[1..]
    ensures IntValue(ExponentText(e)[1..]) == Some(e)
  {
    NatTextValue(Abs(e));
    SignedDigits(e, NatText(Abs(e)));
    assert ExponentText(e)[1..] == [ExponentSign(e)] + NatText(Abs(e));
  }

  lemma SignedDigits(e: int, digits: string)
    requires digits != "" && Digits(digits) && DigitsValue(digits) == Abs(e)
    ensures IntValue([ExponentSign(e)] + digits) == Some(e)
  {
    hide DigitsValue;
    assert ([ExponentSign(e)] + digits)[1..] == digits;
  }

  lemma ScanDotted(neg: bool, whole: string, frac: string, exp: int)
    requires Digits(whole) && Digits(frac)
    ensures ScanMantissa(neg, whole + ['.'] + frac, exp) == Some(Decimal(neg, whole, frac, exp))
  {
    FindFirst(whole, '.', frac);
    var body := whole + ['.'] + frac;
    assert body[..|whole|] == whole && body[|whole|+1..] == frac;
  }

  lemma ScanDotless(neg: bool, whole: string, exp: int)
    requires Digits(whole)
    ensures ScanMantissa(neg, whole, exp) == Some(Decimal(neg, whole, "", exp))
  {
    assert Find(whole, '.') < 0;
  }

  lemma ScanTail(neg: bool, mantissa: string, tail: string, e: int)
    requires 'e' !in mantissa && IntValue(tail) == Some(e)
    ensures Find(mantissa + (['e'] + tail), 'e') == |mantissa|
    ensures ScanUnsigned(neg, mantissa + (['e'] + tail)) == ScanMantissa(neg, mantissa, e)
  {
    hide ScanMantissa, IntValue;
    FindFirst(mantissa, 'e', tail);
    hide Find;
    SplitAt(mantissa, 'e', tail);
  }

  lemma SplitAt(a: string, c: char, b: string)
    ensures var s := a + ([c] + b);
            s == a + [c] + b && s[..|a|] == a && s[|a|+1..] == b
  {
  }

  /** Outer zeros and the position of the point do not matter to the normal form. */
  lemma NormalizePadded(n: Number, d: Decimal, z: nat, t: nat)
    requires n.Number? && n.Valid() && d.Valid() && d.neg == n.neg
    requires d.whole + d.frac == Zeros(z) + (n.digits + Zeros(t))
    requires |d.whole| + d.exp - z == n.point
    ensures Normalize(d) == n
  {
    hide StripTrailing, LeadingZeros;
    var rest := n.digits + Zeros(t);
    LeadingZerosUnique(z, rest);
    assert (Zeros(z) + rest)[z..] == rest;
    StripTrailingUnique(n.digits, t);
  }

  ghost predicate Reads(n: Number, text: string)
    requires n.Number? && n.Valid()
  {
    ScanUnsigned(n.neg, text).Some? && Normalize(ScanUnsigned(n.neg, text).value) == n
  }

  lemma ReadsInteger(n: Number)
    requires n.Number? && n.Valid() && |n.digits| <= n.point
    ensures Reads(n, n.digits + Zeros(n.point - |n.digits|))
  {
    var t := n.point - |n.digits|;
    var whole := n.digits + Zeros(t);
    var d := Decimal(n.neg, whole, "", 0);
    assert Find(whole, 'e') < 0 && Find(whole, '.') < 0;
    assert ScanUnsigned(n.neg, whole) == Some(d);
    assert d.whole + d.frac == Zeros(0) + (n.digits + Zeros(t));
    NormalizePadded(n, d, 0, t);
  }

  lemma ReadsFixed(n: Number, whole: string, frac: string, z: nat)
    requires n.Number? && n.Valid() && Digits(whole) && Digits(frac)
    requires whole + frac == Zeros(z) + n.digits && |whole| - z == n.point
    ensures Reads(n, whole + ['.'] + frac)
  {
    var text := whole + ['.'] + frac;
    var d := Decimal(n.neg, whole, frac, 0);
    assert Find(text, 'e') < 0;
    ScanDotted(n.neg, whole, frac, 0);
    assert d.whole + d.frac == Zeros(z) + (n.digits + Zeros(0));
    NormalizePadded(n, d, z, 0);
  }

  lemma ReadsExponent(n: Number)
    requires n.Number? && n.Valid()
    ensures Reads(n, (if |n.digits| == 1 then n.digits else n.digits[..1] + ['.'] + n.digits[1..])
                     + ExponentText(n.point - 1))
  {
    hide ScanUnsigned, ScanMantissa, IntValue, ExponentText, Normalize;
    var whole, frac, e := n.digits[..1], n.digits[1..], n.point - 1;
    var mantissa := if |n.digits| == 1 then n.digits else whole + ['.'] + frac;
    ExponentTextValue(e);
    ScanTail(n.neg, mantissa, ExponentText(e)[1..], e);
    if |n.digits| == 1 {
      ScanDotless(n.neg, n.digits, e);
      assert whole == n.digits && frac == "";
    } else {
      ScanDotted(n.neg, whole, frac, e);
    }
    assert whole + frac == Zeros(0) + (n.digits + Zeros(0));
    NormalizePadded(n, Decimal(n.neg, whole, frac, e), 0, 0);
  }

  lemma ReadsMagnitude(n: Number)
    requires n.Number? && n.Valid()
    ensures Reads(n, EcmaMagnitude(n.digits, n.point))
  {
    hide Reads, ExponentText;
    var digits, point := n.digits, n.point;
    if |digits| <= point <= 21 {
      ReadsInteger(n);
    } else if 0 < point <= 21 {
      assert digits[..point] + digits[point..] == Zeros(0) + digits;
      ReadsFixed(n, digits[..point], digits[point..], 0);
    } else if -6 < point <= 0 {
      assert ['0'] + (Zeros(-point) + digits) == Zeros(1 - point) + digits;
      ReadsFixed(n, ['0'], Zeros(-point) + digits, 1 - point);
    } else {
      ReadsExponent(n);
    }
  }

  lemma EcmaMagnitudeHead(n: Number)
    requires n.Number? && n.Valid()
    ensures EcmaMagnitude(n.digits, n.point) != "" && IsDigit(EcmaMagnitude(n.digits, n.point)[0])
  {
  }

  /** Reading the ECMAScript rendering of a number gives the number back. */
  lemma ReadBack(n: Number)
    requires n.Valid()
    ensures Scan(EcmaText(n)).Some? && Normalize(Scan(EcmaText(n)).value) == n
  {
    if n.Zero? {
      ReadsZero();
    } else {
      ReadsMagnitude(n);
      EcmaMagnitudeHead(n);
      ScanSigned(n.neg, EcmaMagnitude(n.digits, n.point));
    }
  }

  lemma ScanSigned(neg: bool, body: string)
    requires body != "" && body[0] != '-'
    ensures Scan(Sign(neg) + body) == ScanUnsigned(neg, body)
  {
    if neg {
      assert (Sign(neg) + body)[1..] == body;
    } else {
      assert Sign(neg) + body == body;
    }
  }

  lemma ReadsZero()
    ensures Scan("0") == Some(Decimal(false, "0", "", 0))
    ensures Normalize(Decimal(false, "0", "", 0)) == Zero
  {
    assert Find("0", 'e') < 0 && Find("0", '.') < 0;
    var ds := "0" + "";
    assert ds[0] == '0' && |ds| == 1;
  }

  /** The rendering contains an exponent exactly outside the plain range. */
  lemma PlainNotationExactly(n: Number)
    requires n.Valid()
    ensures 'e' in EcmaText(n) <==> !PlainRange(n)
  {
    hide NatText;
    if n.Number? {
      PlainMagnitude(n);
      assert 'e' in EcmaText(n) <==> 'e' in EcmaMagnitude(n.digits, n.point);
    }
  }

  lemma PlainMagnitude(n: Number)
    requires n.Number? && n.Valid()
    ensures 'e' in EcmaMagnitude(n.digits, n.point) <==> !PlainRange(n)
  {
    hide NatText;
    var m := EcmaMagnitude(n.digits, n.point);
    if !PlainRange(n) {
      assert m[if |n.digits| == 1 then 1 else |n.digits| + 1] == 'e';
    }
  }
}
