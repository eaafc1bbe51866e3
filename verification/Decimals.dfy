/** Decimal numerals as text, and what they are worth. */
module Decimals {
  import opened Ascii

  /** The value with its decimal point moved. */
  function Scaled(v: real, exponent: int): real
    decreases if exponent >= 0 then exponent else -exponent
  {
    if exponent == 0 then v
    else if exponent > 0 then Scaled(v * 10.0, exponent - 1)
    else Scaled(v / 10.0, exponent + 1)
  }

  /** The value with its decimal point moved to the left. */
  function Shifted(v: real, k: nat): real { Scaled(v, -(k as int)) }

  /** The value of the digits before and after the point. */
  function Composed(whole: nat, fraction: nat, places: nat, exponent: int): real {
    Scaled(whole as real + Shifted(fraction as real, places), exponent)
  }

  // ---- printed decimal numerals ----

  function NatDigits(n: nat): (s: string)
    ensures s != "" && AllDigits(s) && NatOf(s) == n
  {
    var last := ['0' + (n % 10) as char];
    if n < 10 then last else
      var s := NatDigits(n / 10) + last;
      assert s[..|s| - 1] == NatDigits(n / 10);
      s
  }

  /** With zeros before it up to a length. */
  function Padded(s: string, length: nat): (r: string)
    requires AllDigits(s)
    ensures AllDigits(r) && |r| >= length && |r| >= |s|
    decreases length - |s|
  {
    if |s| >= length then s else Padded("0" + s, length)
  }

  /** How `%g` prints an integer of at most six digits. */
  function Decimal(n: int): (s: string)
    ensures s != ""
  {
    if n < 0 then "-" + NatDigits(-n) else NatDigits(n)
  }

  /** The digits before and after the point of a number of so many places. */
  function WholePart(n: nat, places: nat): (s: string)
    ensures s != "" && AllDigits(s)
  {
    var ds := Padded(NatDigits(n), places + 1);
    ds[..|ds| - places]
  }

  function FractionPart(n: nat, places: nat): (s: string)
    ensures |s| == places && AllDigits(s)
  {
    var ds := Padded(NatDigits(n), places + 1);
    ds[|ds| - places..]
  }

  function Unsigned(n: nat, places: nat): (s: string)
    ensures s != "" && IsDigit(s[0])
  {
    if places == 0 then NatDigits(n) else WholePart(n, places) + ("." + FractionPart(n, places))
  }

  /** A number of so many decimal places. */
  function Fixed(n: int, places: nat): string {
    if n < 0 then "-" + Unsigned(-n, places) else Unsigned(n, places)
  }

  // ---- their values ----

  lemma {:induction false} ScaledSum(a: real, b: real, k: nat)
    ensures Shifted(a + b, k) == Shifted(a, k) + Shifted(b, k)
    decreases k
  {
    if k > 0 {
      assert (a + b) / 10.0 == a / 10.0 + b / 10.0;
      ScaledSum(a / 10.0, b / 10.0, k - 1);
    }
  }

  lemma {:induction false} ScaledLast(v: real, k: nat)
    ensures Shifted(v, k + 1) == Shifted(v, k) / 10.0
    decreases k
  {
    if k == 0 {
      assert Scaled(v / 10.0, 0) == v / 10.0;
    } else {
      ScaledLast(v / 10.0, k - 1);
    }
  }

  /** Moving the point there and back. */
  lemma {:induction false} ScaledBack(v: real, k: nat)
    ensures Shifted(Scaled(v, k), k) == v
    decreases k
  {
    if k > 0 {
      ScaledBack(v * 10.0, k - 1);
      ScaledLast(Scaled(v, k), k - 1);
    }
  }

  lemma {:induction false} ScaledNegative(v: real, k: nat)
    ensures Shifted(-v, k) == -Shifted(v, k)
    decreases k
  {
    if k > 0 {
      assert (-v) / 10.0 == -(v / 10.0);
      ScaledNegative(v / 10.0, k - 1);
    }
  }

  lemma {:induction false} ZeroBefore(s: string)
    ensures NatOf("0" + s) == NatOf(s)
  {
    if s == "" {
      assert "0" + s == "0";
    } else {
      var t := s[..|s| - 1];
      assert ("0" + s)[..|s|] == "0" + t;
      ZeroBefore(t);
    }
  }

  lemma {:induction false} PaddedValue(s: string, length: nat)
    requires AllDigits(s)
    ensures NatOf(Padded(s, length)) == NatOf(s)
    decreases length - |s|
  {
    if |s| < length {
      ZeroBefore(s);
      PaddedValue("0" + s, length);
    }
  }

  /** The point splits the value. */
  lemma {:induction false} PointValue(a: string, b: string)
    ensures Shifted(NatOf(a + b) as real, |b|) == NatOf(a) as real + Shifted(NatOf(b) as real, |b|)
  {
    if b == "" {
      assert a + b == a;
    } else {
      var c, k := b[..|b| - 1], |b| - 1;
      var last := NatOf(b) - 10 * NatOf(c);
      assert (a + b)[..|a + b| - 1] == a + c;
      assert NatOf(a + b) == 10 * NatOf(a + c) + last;
      PointValue(a, c);
      TenTimes(NatOf(a + c), last, k);
      TenTimes(NatOf(c), last, k);
    }
  }

  lemma TenTimes(m: nat, last: int, k: nat)
    ensures Shifted((10 * m + last) as real, k + 1) == Shifted(m as real, k) + Shifted(last as real / 10.0, k)
  {
    assert (10 * m + last) as real / 10.0 == m as real + last as real / 10.0;
    ScaledSum(m as real, last as real / 10.0, k);
  }

  lemma SplitValue(n: nat, places: nat)
    ensures Composed(NatOf(WholePart(n, places)), NatOf(FractionPart(n, places)), places, 0) ==
        Shifted(n as real, places)
  {
    var ds := Padded(NatDigits(n), places + 1);
    PaddedValue(NatDigits(n), places + 1);
    assert WholePart(n, places) + FractionPart(n, places) == ds;
    PointValue(WholePart(n, places), FractionPart(n, places));
  }
}
