/** What a numeral of CSS is worth: its digits, with the point moved by its places and its exponent. */
module CalcNumbers {
  import opened Ascii
  import opened Wrappers
  import opened CssTokens
  import opened CssNumbers
  import D = Decimals
  import E = CalcEval

  /** How far the exponent moves the point to the right. */
  function ExponentOf(n: Numeral): int {
    if n.exponentSign == "-" then -(NatOf(n.exponent) as int) else NatOf(n.exponent)
  }

  /** The digits before and after the point as one number, the point moved past those after it and then by
      the exponent. */
  function Size(n: Numeral): real {
    D.Scaled(D.Shifted(NatOf(n.whole + n.fraction) as real, |n.fraction|), ExponentOf(n))
  }

  function NumeralValue(n: Numeral): real {
    if n.sign == "-" then -Size(n) else Size(n)
  }

  // ---- the parts of the text ----

  function Unsigned(n: Numeral): Numeral { n.(sign := "") }

  lemma UnsignedText(n: Numeral)
    requires IsNumeral(n)
    ensures NumeralText(n) != "" && NumeralText(Unsigned(n)) != ""
    ensures E.Unsigned(NumeralText(n)) == NumeralText(Unsigned(n))
    ensures E.Negative(NumeralText(n)) <==> n.sign == "-"
  {
    var u := n.whole + (PointText(n) + ExponentText(n));
    assert NumeralText(Unsigned(n)) == "" + u == u;
    if n.whole != "" { assert u[0] == n.whole[0]; } else { assert u[0] == '.'; }
    if n.sign == "" {
      assert NumeralText(n) == u;
    } else {
      assert NumeralText(n)[0] == n.sign[0] && NumeralText(n)[1..] == u;
    }
  }

  /** Where the digits and the fraction of an unsigned numeral end. */
  lemma UnsignedParts(n: Numeral)
    requires IsNumeral(n) && n.sign == ""
    ensures var u, b, c := NumeralText(n), |n.whole|, |n.whole| + |PointText(n)|;
      && b <= c <= |u| && DigitsEnd(u, 0) == b && FractionEnd(u, b) == c && (c < |u| <==> n.exponent != "")
  {
    var u := NumeralText(n);
    PartsStand(u, 0, n);
    WholeStands(u, 0, n);
    if n.fraction != "" {
      PointStands(u, 0, n);
    } else if n.exponent != "" {
      NoPoint(u, 0, n);
    }
  }

  lemma WholeText(n: Numeral)
    requires IsNumeral(n) && n.sign == ""
    ensures |NumeralText(n)| >= |n.whole| && NumeralText(n)[..|n.whole|] == n.whole
  {
    var u := NumeralText(n);
    PartsStand(u, 0, n);
    AtSlice(u, 0, n.whole);
  }

  lemma FractionText(n: Numeral)
    requires IsNumeral(n) && n.sign == "" && n.fraction != ""
    ensures var u, b := NumeralText(n), |n.whole|;
      |u| >= b + 1 + |n.fraction| && u[b + 1..b + 1 + |n.fraction|] == n.fraction
  {
    var u, b := NumeralText(n), |n.whole|;
    PartsStand(u, 0, n);
    AtParts(u, b, ".", n.fraction);
    AtSlice(u, b + 1, n.fraction);
  }

  lemma ToEnd(u: string, i: nat, t: string)
    requires i + |t| == |u| && u[i..i + |t|] == t
    ensures u[i..] == t
  {
  }

  lemma TailText(n: Numeral)
    requires IsNumeral(n) && n.sign == "" && n.exponent != ""
    ensures var u, c := NumeralText(n), |n.whole| + |PointText(n)|;
      c < |u| && u[c + 1..] == n.exponentSign + n.exponent
  {
    var u, c := NumeralText(n), |n.whole| + |PointText(n)|;
    var t := n.exponentSign + n.exponent;
    PartsStand(u, 0, n);
    TailOf(u, c, n.mark, t);
  }

  lemma TailOf(u: string, c: nat, mark: char, t: string)
    requires At(u, c, [mark] + t) && |u| == c + 1 + |t|
    ensures u[c + 1..] == t
  {
    AtParts(u, c, [mark], t);
    AtSlice(u, c + 1, t);
    ToEnd(u, c + 1, t);
  }

  lemma FractionIs(n: Numeral, u: string, b: nat)
    requires IsNumeral(n) && n.sign == "" && u == NumeralText(n) && b == |n.whole|
    ensures b <= |u| && E.FractionDigits(u, b) == n.fraction
  {
    UnsignedParts(n);
    if n.fraction != "" { FractionText(n); }
  }

  lemma ExponentIs(sign: string, digits: string, t: string)
    requires IsSign(sign) && AllDigits(digits) && digits != "" && t == sign + digits
    ensures E.ExponentValue(t) == if sign == "-" then -(NatOf(digits) as int) else NatOf(digits)
  {
    if sign == "" {
      assert t == digits && t[0] == digits[0];
    } else {
      assert t[0] == sign[0] && t[1..] == digits;
    }
  }

  lemma TailIs(n: Numeral, u: string, c: nat)
    requires IsNumeral(n) && n.sign == "" && u == NumeralText(n) && c == |n.whole| + |PointText(n)|
    ensures c <= |u| && E.ExponentPart(u, c) == ExponentOf(n)
  {
    UnsignedParts(n);
    if n.exponent != "" {
      var t := n.exponentSign + n.exponent;
      TailText(n);
      TailValue(u, c, t);
      ExponentIs(n.exponentSign, n.exponent, t);
    }
  }

  lemma TailValue(u: string, c: nat, t: string)
    requires c < |u| && u[c + 1..] == t
    ensures E.ExponentPart(u, c) == E.ExponentValue(t)
  {
  }

  lemma PartsFrom(u: string, b: nat, c: nat, p: E.Parts)
    requires b <= c <= |u| && DigitsEnd(u, 0) == b && FractionEnd(u, b) == c
    requires u[..b] == p.whole && E.FractionDigits(u, b) == p.fraction
    requires E.ExponentPart(u, c) == p.exponent
    ensures E.PartsOf(u) == p
  {
  }

  lemma PartsAre(n: Numeral, u: string, b: nat, c: nat)
    requires IsNumeral(n) && n.sign == "" && u == NumeralText(n) && b == |n.whole| && c == b + |PointText(n)|
    ensures E.PartsOf(u) == E.Parts(n.whole, n.fraction, ExponentOf(n))
  {
    UnsignedParts(n);
    WholeText(n);
    FractionIs(n, u, b);
    TailIs(n, u, c);
    PartsFrom(u, b, c, E.Parts(n.whole, n.fraction, ExponentOf(n)));
  }

  lemma WorthIs(n: Numeral)
    ensures E.Worth(E.Parts(n.whole, n.fraction, ExponentOf(n))) == Size(n)
  {
    D.PointValue(n.whole, n.fraction);
  }

  lemma MagnitudeIs(n: Numeral)
    requires IsNumeral(n) && n.sign == ""
    ensures E.Magnitude(NumeralText(n)) == Size(n)
  {
    PartsAre(n, NumeralText(n), |n.whole|, |n.whole| + |PointText(n)|);
    WorthIs(n);
  }

  /** The evaluator gives a numeral its value. */
  lemma NumberIsValue(n: Numeral)
    requires IsNumeral(n)
    ensures E.NumberValue(NumeralText(n)) == NumeralValue(n)
  {
    UnsignedText(n);
    MagnitudeIs(Unsigned(n));
    SameSize(n);
    SignedValue(NumeralText(n), NumeralText(Unsigned(n)), Size(n));
  }

  lemma SameSize(n: Numeral)
    ensures Size(Unsigned(n)) == Size(n)
  {
  }

  lemma SignedValue(t: string, u: string, m: real)
    requires E.Unsigned(t) == u && E.Magnitude(u) == m
    ensures E.NumberValue(t) == if E.Negative(t) then -m else m
  {
  }

  // ---- decimals ----

  /** The numeral of a decimal of so many places. */
  function Decimal(x: int, places: nat): Numeral {
    var m := if x < 0 then -x else x;
    if places == 0 then Numeral(if x < 0 then "-" else "", D.NatDigits(m), "", 'e', "", "")
    else Numeral(if x < 0 then "-" else "", D.WholePart(m, places), D.FractionPart(m, places), 'e', "", "")
  }

  lemma DecimalText(x: int, places: nat)
    ensures IsNumeral(Decimal(x, places)) && NumeralText(Decimal(x, places)) == D.Fixed(x, places)
  {
    var n := Decimal(x, places);
    var u := D.Unsigned(if x < 0 then -x else x, places);
    assert ExponentText(n) == "";
    Nothing(PointText(n));
    if places == 0 { Nothing(n.whole); }
    assert n.whole + (PointText(n) + ExponentText(n)) == u;
    Nothing(u);
  }

  lemma Nothing(t: string)
    ensures t + "" == t && "" + t == t
  {
  }

  lemma DecimalDigits(x: int, places: nat)
    ensures var n, m := Decimal(x, places), if x < 0 then -x else x;
      |n.fraction| == places && NatOf(n.whole + n.fraction) == m
  {
    var n, m := Decimal(x, places), if x < 0 then -x else x;
    if places == 0 {
      assert n.whole + n.fraction == D.NatDigits(m);
    } else {
      D.PaddedValue(D.NatDigits(m), places + 1);
      assert n.whole + n.fraction == D.Padded(D.NatDigits(m), places + 1);
    }
  }

  lemma DecimalIs(x: int, places: nat)
    ensures IsNumeral(Decimal(x, places)) && NumeralText(Decimal(x, places)) == D.Fixed(x, places)
    ensures NumeralValue(Decimal(x, places)) == D.Shifted(x as real, places)
  {
    DecimalText(x, places);
    DecimalDigits(x, places);
    var m: nat := if x < 0 then -x else x;
    PlainValue(Decimal(x, places), m, places);
    NegativeShift(x, m, places);
  }

  lemma PlainValue(n: Numeral, m: nat, places: nat)
    requires n.exponent == "" && |n.fraction| == places && NatOf(n.whole + n.fraction) == m
    ensures NumeralValue(n) == if n.sign == "-" then -D.Shifted(m as real, places) else D.Shifted(m as real, places)
  {
  }

  lemma NegativeShift(x: int, m: nat, places: nat)
    requires m == if x < 0 then -x else x
    ensures D.Shifted(x as real, places) == if x < 0 then -D.Shifted(m as real, places)
        else D.Shifted(m as real, places)
  {
    D.ScaledNegative(m as real, places);
    assert x < 0 ==> -(m as real) == x as real;
  }

  /** The value of a decimal written with its point. */
  lemma FixedIsValue(x: int, places: nat)
    ensures E.NumberValue(D.Fixed(x, places)) == D.Shifted(x as real, places)
  {
    DecimalIs(x, places);
    NumberIsValue(Decimal(x, places));
  }
}
