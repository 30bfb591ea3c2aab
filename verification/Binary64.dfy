/** How canonical JSON prints a Python float: the repr text is rewritten, with two padding
    loops, into the ECMAScript rendering of the same number. */
module Binary64 {
  import opened Wrappers
  import opened DecimalNumber
  import opened NumberValue

  /** The text Python's repr gives a finite nonzero float. */
  datatype Repr =
    | Fixed(neg: bool, whole: string, frac: string)
    | Scientific(neg: bool, lead: char, frac: string, exp: int)
  {
    /** What repr guarantees and the rewriting uses: no outer zeros, an exponent exactly when
        it is at least 16 or at most -5, and then at most 17 significant digits. */
    predicate Valid()
    {
      match this
      case Fixed(_, whole, frac) =>
        && Digits(whole) && 1 <= |whole| <= 16 && (whole[0] != '0' || whole == "0")
        && Digits(frac) && 1 <= |frac| && (frac == "0" || frac[|frac|-1] != '0')
        && (whole == "0" ==> frac != "0" && LeadingZeros(frac) <= 3)
      case Scientific(_, lead, frac, exp) =>
        && IsDigit(lead) && lead != '0'
        && Digits(frac) && |frac| <= 16 && (frac == "" || frac[|frac|-1] != '0')
        && (exp >= 16 || exp <= -5)
    }

    function Mantissa(): string
    {
      match this
      case Fixed(_, whole, frac) => whole + ['.'] + frac
      case Scientific(_, lead, frac, _) => if frac == "" then [lead] else [lead] + ['.'] + frac
    }

    function Unsigned(): string
    {
      if Fixed? then Mantissa() else Mantissa() + ReprExponent(exp)
    }

    function Text(): string
    {
      Sign(neg) + Unsigned()
    }

    function Parts(): (d: Decimal)
      requires Valid()
      ensures d.Valid()
    {
      match this
      case Fixed(neg, whole, frac) => Decimal(neg, whole, frac, 0)
      case Scientific(neg, lead, frac, exp) => Decimal(neg, [lead], frac, exp)
    }

    /** The number written, in normal form. */
    function Number(): (n: DecimalNumber.Number)
      requires Valid()
      ensures n.Valid()
    {
      Normalize(Parts())
    }
  }

  /** repr pads the exponent to two digits. */
  function PaddedDigits(n: nat): string
  {
    if n < 10 then ['0'] + NatText(n) else NatText(n)
  }

  function ReprExponent(e: int): string
  {
    ['e', ExponentSign(e)] + PaddedDigits(Abs(e))
  }

  // Text surgery on the repr

  lemma ReprExponentValue(e: int)
    ensures ReprExponent(e) == ['e'] + ReprExponent(e)[1..]
    ensures IntValue(ReprExponent(e)[1..]) == Some(e)
  {
    PaddedValue(Abs(e));
    SignedDigits(e, PaddedDigits(Abs(e)));
    hide PaddedDigits;
    assert ReprExponent(e)[1..] == [ExponentSign(e)] + PaddedDigits(Abs(e));
  }

  lemma PaddedValue(n: nat)
    ensures Digits(PaddedDigits(n)) && PaddedDigits(n) != ""
    ensures DigitsValue(PaddedDigits(n)) == n
  {
    NatTextValue(n);
    LeadingZerosVanish(1, NatText(n));
    assert Zeros(1) == ['0'];
  }

  /** Dropping one padding zero gives the ECMAScript exponent. */
  lemma DropExponentPadding(e: int)
    requires e != 0
    ensures var t := ReprExponent(e);
            |t| > 2 && (if t[2] == '0' then t[..2] + t[3..] else t) == ExponentText(e)
  {
    NatTextValue(Abs(e));
    DropPadding(['e', ExponentSign(e)], Abs(e));
  }

  lemma DropPadding(head: string, n: nat)
    requires |head| == 2 && NatText(n)[0] != '0'
    ensures var t := head + PaddedDigits(n);
            |t| > 2 && (if t[2] == '0' then t[..2] + t[3..] else t) == head + NatText(n)
  {
    hide NatText;
    var digits := NatText(n);
    if n < 10 {
      assert (head + (['0'] + digits))[3..] == digits;
      assert (head + (['0'] + digits))[..2] == head;
    } else {
      assert (head + digits)[2] == digits[0];
    }
  }

  lemma MantissaScan(r: Repr)
    requires r.Valid()
    ensures 'e' !in r.Mantissa()
    ensures ScanMantissa(r.neg, r.Mantissa(), r.Parts().exp) == Some(r.Parts())
    ensures Find(r.Mantissa(), '.') == (if r.frac == "" then -1 else |r.Parts().whole|)
  {
    hide ScanMantissa;
    if r.frac == "" {
      ScanDotless(r.neg, r.Parts().whole, r.Parts().exp);
    } else {
      ScanDotted(r.neg, r.Parts().whole, r.frac, r.Parts().exp);
      FindFirst(r.Parts().whole, '.', r.frac);
    }
  }

  lemma UnsignedHead(r: Repr)
    requires r.Valid()
    ensures r.Unsigned() != "" && r.Unsigned()[0] != '-'
  {
  }

  lemma SignOfText(r: Repr)
    requires r.Valid()
    ensures r.Text() != "" && (r.Text()[0] == '-' <==> r.neg)
    ensures r.Unsigned() == if r.neg then r.Text()[1..] else r.Text()
    ensures Sign(r.neg) == if r.neg then "-" else ""
  {
    UnsignedHead(r);
    hide Repr.Unsigned, Repr.Valid;
    if r.neg {
      assert r.Text()[1..] == r.Unsigned();
    }
  }

  /** Reading the repr text gives the parts it was written from. */
  lemma ReprReads(r: Repr)
    requires r.Valid()
    ensures Scan(r.Text()) == Some(r.Parts())
  {
    hide ScanMantissa, ReprExponent;
    MantissaScan(r);
    if r.Scientific? {
      ReprExponentValue(r.exp);
      ScanTail(r.neg, r.Mantissa(), ReprExponent(r.exp)[1..], r.exp);
    } else {
      assert Find(r.Mantissa(), 'e') < 0;
    }
    UnsignedHead(r);
    ScanSigned(r.neg, r.Unsigned());
  }

  // The normal form of each shape of repr

  lemma FixedInteger(r: Repr)
    requires r.Valid() && r.Fixed? && r.frac == "0"
    ensures EcmaText(r.Number()) == Sign(r.neg) + r.whole
  {
    hide StripTrailing, LeadingZeros, Normalize;
    var sig := StripTrailing(r.whole);
    var k := |r.whole| - |sig|;
    assert r.whole == sig + Zeros(k);
    var n := Number.Number(r.neg, sig, |r.whole|);
    assert r.whole + "0" == Zeros(0) + (sig + Zeros(k + 1));
    NormalizePadded(n, r.Parts(), 0, k + 1);
  }

  lemma FixedFraction(r: Repr)
    requires r.Valid() && r.Fixed? && r.frac != "0" && r.whole != "0"
    ensures EcmaText(r.Number()) == Sign(r.neg) + (r.whole + ['.'] + r.frac)
  {
    hide StripTrailing, LeadingZeros, Normalize;
    var n := Number.Number(r.neg, r.whole + r.frac, |r.whole|);
    assert r.whole + r.frac == Zeros(0) + (n.digits + Zeros(0));
    NormalizePadded(n, r.Parts(), 0, 0);
    assert n.digits[..|r.whole|] == r.whole && n.digits[|r.whole|..] == r.frac;
    InnerPoint(n.digits, n.point);
    hide EcmaMagnitude;
  }

  lemma InnerPoint(digits: string, point: int)
    requires 0 < point <= 21 && point < |digits|
    ensures EcmaMagnitude(digits, point) == digits[..point] + ['.'] + digits[point..]
  {
  }

  lemma FixedBelowOne(r: Repr)
    requires r.Valid() && r.Fixed? && r.whole == "0"
    ensures EcmaText(r.Number()) == Sign(r.neg) + (r.whole + ['.'] + r.frac)
  {
    hide LeadingZeros, Normalize, EcmaMagnitude;
    var z := LeadingZeros(r.frac);
    assert r.frac[|r.frac|-1] != '0';
    var n := BelowOneNumber(r.neg, r.frac, z);
    BelowOneMagnitude(n.point, n.digits);
  }

  lemma BelowOneNumber(neg: bool, frac: string, z: nat) returns (n: Number)
    requires Digits(frac) && z < |frac| && frac[z] != '0' && frac[|frac|-1] != '0'
    requires forall i :: 0 <= i < z ==> frac[i] == '0'
    ensures n == Number.Number(neg, frac[z..], -(z as int)) && n.Valid()
    ensures Normalize(Decimal(neg, "0", frac, 0)) == n
    ensures Zeros(z) + n.digits == frac
  {
    hide Normalize;
    n := Number.Number(neg, frac[z..], -(z as int));
    assert "0" + frac == Zeros(z + 1) + (n.digits + Zeros(0));
    NormalizePadded(n, Decimal(neg, "0", frac, 0), z + 1, 0);
  }

  lemma BelowOneMagnitude(point: int, sig: string)
    requires -3 <= point <= 0 && sig != ""
    ensures EcmaMagnitude(sig, point) == ['0'] + ['.'] + (Zeros(-point) + sig)
  {
  }

  lemma ScientificNumber(r: Repr)
    requires r.Valid() && r.Scientific?
    ensures r.Number() == Number.Number(r.neg, [r.lead] + r.frac, r.exp + 1)
  {
    hide Normalize;
    var n := Number.Number(r.neg, [r.lead] + r.frac, r.exp + 1);
    assert [r.lead] + r.frac == Zeros(0) + (n.digits + Zeros(0));
    NormalizePadded(n, r.Parts(), 0, 0);
  }

  // The rewriting

  method SplitExponent(rendered: string, ghost r: Repr)
    returns (mantissa: string, exponentText: string, exponent: int)
    requires r.Valid() && rendered == r.Unsigned()
    ensures mantissa == r.Mantissa() && exponent == r.Parts().exp
    ensures exponentText == (if r.Fixed? then "" else ExponentText(r.exp))
  {
    mantissa, exponentText, exponent := rendered, "", 0;
    MantissaScan(r);
    if r.Scientific? {
      ReprExponentValue(r.exp);
      ScanTail(r.neg, r.Mantissa(), ReprExponent(r.exp)[1..], r.exp);
      DropExponentPadding(r.exp);
      ExponentTextValue(r.exp);
    }
    hide ExponentText, ReprExponent, IntValue;
    var exponentAt := Find(rendered, 'e');
    if exponentAt > 0 {
      exponentText := rendered[exponentAt..];
      assert exponentText == ReprExponent(r.exp);
      if |exponentText| > 2 && exponentText[2] == '0' {
        exponentText := exponentText[..2] + exponentText[3..];
      }
      mantissa := rendered[..exponentAt];
      exponent := IntValue(exponentText[1..]).value;
    }
  }

  method SplitFraction(mantissa: string, ghost r: Repr)
    returns (first: string, separator: string, last: string)
    requires r.Valid() && mantissa == r.Mantissa()
    ensures first == r.Parts().whole
    ensures if r.frac == "0" || r.frac == "" then separator == "" && last == ""
            else separator == "." && last == r.frac
  {
    first, separator, last := mantissa, "", "";
    MantissaScan(r);
    var dotAt := Find(mantissa, '.');
    if dotAt > 0 {
      separator := ".";
      first := mantissa[..dotAt];
      last := mantissa[dotAt+1..];
    }
    if last == "0" {
      separator := "";
      last := "";
    }
  }

  method PadRight(digits: string, exponent: int) returns (first: string)
    requires |digits| <= exponent + 1
    ensures first == digits + Zeros(exponent + 1 - |digits|)
  {
    first := digits;
    var pad := exponent - |first|;
    assert first == digits + Zeros(0);
    while pad >= 0
      invariant -1 <= pad <= exponent - |digits|
      invariant first == digits + Zeros(exponent - |digits| - pad)
    {
      pad := pad - 1;
      first := first + "0";
    }
  }

  method PadLeft(digits: string, exponent: int) returns (last: string)
    requires exponent < 0
    ensures last == Zeros(-exponent - 1) + digits
  {
    last := digits;
    var pad := exponent;
    assert last == Zeros(0) + digits;
    while pad < -1
      invariant exponent <= pad <= -1
      invariant last == Zeros(pad - exponent) + digits
    {
      pad := pad + 1;
      last := "0" + last;
    }
  }

  method Rearrange(first0: string, separator0: string, last0: string, exponentText0: string,
                   exponent: int, ghost r: Repr)
    returns (first: string, separator: string, last: string, exponentText: string)
    requires r.Valid() && exponent == r.Parts().exp && first0 == r.Parts().whole
    requires if r.frac == "0" || r.frac == "" then separator0 == "" && last0 == ""
             else separator0 == "." && last0 == r.frac
    requires exponentText0 == (if r.Fixed? then "" else ExponentText(r.exp))
    ensures EcmaText(r.Number()) == Sign(r.neg) + (first + separator + last + exponentText)
  {
    hide EcmaText, ExponentText, Repr.Number;
    first, separator, last, exponentText := first0, separator0, last0, exponentText0;
    if 0 < exponent < 21 {
      first := PadRight(first + last, exponent);
      last := "";
      separator := "";
      exponentText := "";
    } else if -7 < exponent < 0 {
      last := PadLeft(first + last, exponent);
      first := "0";
      separator := ".";
      exponentText := "";
    }
    Rendered(r, first, separator, last, exponentText);
  }

  /** The rewriting of a finite nonzero float, against the ECMAScript rendering. */
  method SerializeFinite(value: string, ghost r: Repr) returns (out: string)
    requires r.Valid() && value == r.Text()
    ensures out == EcmaText(r.Number())
  {
    SignOfText(r);
    hide *;
    var sign, rendered := "", value;
    if rendered[0] == '-' {
      sign := "-";
      rendered := rendered[1..];
    }
    var mantissa, exponentText, exponent := SplitExponent(rendered, r);
    var first, separator, last := SplitFraction(mantissa, r);
    first, separator, last, exponentText := Rearrange(first, separator, last, exponentText, exponent, r);
    out := sign + (first + separator + last + exponentText);
  }

  lemma Rendered(r: Repr, first: string, separator: string, last: string, exponentText: string)
    requires r.Valid()
    requires r.Fixed? ==> exponentText == "" && first == r.whole
    requires r.Fixed? && r.frac == "0" ==> separator == "" && last == ""
    requires r.Fixed? && r.frac != "0" ==> separator == "." && last == r.frac
    requires r.Scientific? ==>
               var digits := [r.lead] + r.frac;
               if 0 < r.exp < 21 then
                 first == digits + Zeros(r.exp + 1 - |digits|) && separator == last == exponentText == ""
               else if -7 < r.exp < 0 then
                 first == "0" && separator == "." && last == Zeros(-r.exp - 1) + digits && exponentText == ""
               else
                 first == [r.lead] && last == r.frac && exponentText == ExponentText(r.exp) &&
                 separator == (if r.frac == "" then "" else ".")
    ensures EcmaText(r.Number()) == Sign(r.neg) + (first + separator + last + exponentText)
  {
    hide Normalize, LeadingZeros, ExponentText;
    if r.Fixed? {
      if r.frac == "0" {
        FixedInteger(r);
        assert first + separator + last + exponentText == r.whole;
      } else {
        if r.whole == "0" { FixedBelowOne(r); } else { FixedFraction(r); }
        assert first + separator + last + exponentText == r.whole + ['.'] + r.frac;
      }
    } else {
      ScientificNumber(r);
      ScientificMagnitude(r, first, separator, last, exponentText);
    }
  }

  lemma ScientificMagnitude(r: Repr, first: string, separator: string, last: string, exponentText: string)
    requires r.Valid() && r.Scientific?
    requires var digits := [r.lead] + r.frac;
             if 0 < r.exp < 21 then
               first == digits + Zeros(r.exp + 1 - |digits|) && separator == last == exponentText == ""
             else if -7 < r.exp < 0 then
               first == "0" && separator == "." && last == Zeros(-r.exp - 1) + digits && exponentText == ""
             else
               first == [r.lead] && last == r.frac && exponentText == ExponentText(r.exp) &&
               separator == (if r.frac == "" then "" else ".")
    ensures EcmaMagnitude([r.lead] + r.frac, r.exp + 1) == first + separator + last + exponentText
  {
    hide ExponentText;
    var digits := [r.lead] + r.frac;
    if 0 < r.exp < 21 {
      assert first + separator + last + exponentText == first;
    } else if -7 < r.exp < 0 {
      assert first + separator + last + exponentText == ['0'] + ['.'] + last;
    } else {
      assert digits[..1] == [r.lead] && digits[1..] == r.frac;
      if r.frac == "" {
        assert first + separator + last == digits;
      } else {
        assert first + separator + last == digits[..1] + ['.'] + digits[1..];
      }
    }
  }

  /** A Python float, with the repr text of the finite nonzero ones. */
  datatype Float = NotANumber | Infinite(neg: bool) | ZeroFloat(neg: bool) | Finite(r: Repr)
  {
    predicate Valid() { Finite? ==> r.Valid() }

    /** The number a finite float stands for. */
    function Number(): (n: DecimalNumber.Number)
      requires Valid() && (ZeroFloat? || Finite?)
      ensures n.Valid()
    {
      if ZeroFloat? then Zero else r.Number()
    }
  }

  /** Prints a float; a value that is not finite is refused. */
  method SerializeBinary64(f: Float) returns (out: Option<string>)
    requires f.Valid()
    ensures out == if f.NotANumber? || f.Infinite? then None else Some(EcmaText(f.Number()))
  {
    match f
    case NotANumber => out := None;
    case Infinite(_) => out := None;
    case ZeroFloat(_) => out := Some("0");
    case Finite(r) =>
      var text := SerializeFinite(r.Text(), r);
      out := Some(text);
  }

  /** Rewriting keeps the number: the repr text and the printed text denote the same real. */
  lemma RewriteKeepsValue(r: Repr)
    requires r.Valid()
    ensures Scan(r.Text()).Some? && Scan(EcmaText(r.Number())).Some?
    ensures Denote(Scan(EcmaText(r.Number())).value) == Denote(Scan(r.Text()).value)
  {
    hide Scan, Normalize, Denote, EcmaText;
    ReprReads(r);
    ReadBack(r.Number());
    NormalizeKeepsValue(r.Parts());
    NormalizeKeepsValue(Scan(EcmaText(r.Number())).value);
  }

  lemma NonzeroRepr(r: Repr)
    requires r.Valid()
    ensures r.Number().Number?
  {
    var d := r.Parts();
    var ds := d.whole + d.frac;
    if r.Fixed? && r.whole == "0" {
      assert ds[|ds|-1] != '0';
    } else {
      assert ds[0] != '0';
    }
  }

  /** Plain notation appears exactly for 1e-6 <= |x| < 1e21. */
  lemma RewriteNotation(r: Repr)
    requires r.Valid()
    ensures r.Number().Number?
    ensures 'e' !in EcmaText(r.Number()) <==> Pow10(-6) <= Magnitude(r.Number()) < Pow10(21)
  {
    NonzeroRepr(r);
    hide Normalize, EcmaText, Magnitude;
    PlainNotationExactly(r.Number());
    PlainRangeIsInterval(r.Number());
  }

  // Integers

  /** Python's str of an int. */
  function IntText(n: int): string
  {
    Sign(n < 0) + NatText(Abs(n))
  }

  function IntNumber(n: int): (r: DecimalNumber.Number)
    ensures r.Valid()
  {
    Normalize(Decimal(n < 0, NatText(Abs(n)), "", 0))
  }

  /** The largest magnitude that is exact in binary64. */
  const SAFE_INTEGER: int := 9007199254740991

  lemma ShortText(n: nat)
    requires n <= SAFE_INTEGER
    ensures |NatText(n)| <= 16
  {
    NatTextValue(n);
    assert Pow10(4) == 10000.0;
    Pow10Add(4, 4);
    Pow10Add(8, 8);
    hide Pow10, DigitsValue;
    if |NatText(n)| > 16 {
      DigitsAtLeast(NatText(n));
      Pow10Monotone(16, |NatText(n)| - 1);
      assert false;
    }
  }

  /** An int in the safe range is printed as the ECMAScript rendering of its number. */
  lemma IntTextIsEcma(n: int)
    requires -SAFE_INTEGER <= n <= SAFE_INTEGER
    ensures IntText(n) == EcmaText(IntNumber(n))
    ensures Value(IntNumber(n)) == n as real
  {
    var text := NatText(Abs(n));
    NatTextValue(Abs(n));
    ShortText(Abs(n));
    IntDenotes(n, text);
    if n == 0 {
      ReadsZero();
      assert text == "0";
    }
    hide NatText, DigitsValue, Normalize, EcmaText, Denote, Value;
    NormalizeKeepsValue(Decimal(n < 0, text, "", 0));
    if n != 0 {
      NonzeroIntText(n < 0, text);
    } else {
      ZeroText();
    }
  }

  lemma ZeroText()
    ensures EcmaText(Zero) == Sign(false) + "0"
  {
  }

  lemma IntDenotes(n: int, text: string)
    requires Digits(text) && DigitsValue(text) == Abs(n)
    ensures Denote(Decimal(n < 0, text, "", 0)) == n as real
  {
    hide DigitsValue;
    assert text + "" == text;
  }

  lemma NonzeroIntText(neg: bool, text: string)
    requires Digits(text) && 1 <= |text| <= 16 && text[0] != '0'
    ensures EcmaText(Normalize(Decimal(neg, text, "", 0))) == Sign(neg) + text
  {
    hide StripTrailing, LeadingZeros, Normalize;
    var sig := StripTrailing(text);
    var k := |text| - |sig|;
    assert text == sig + Zeros(k);
    var n := Number.Number(neg, sig, |text|);
    assert text + "" == Zeros(0) + (sig + Zeros(k));
    NormalizePadded(n, Decimal(neg, text, "", 0), 0, k);
  }

  /** Two numbers are printed alike exactly when they are the same real number. */
  lemma SameNumeralIffSameValue(a: DecimalNumber.Number, b: DecimalNumber.Number)
    requires a.Valid() && b.Valid()
    ensures EcmaText(a) == EcmaText(b) <==> Value(a) == Value(b)
  {
    hide EcmaText, Value, Scan, Normalize;
    ReadBack(a);
    ReadBack(b);
    ValueInjective(a, b);
  }
}
