/** Numerals of CSS as text: a sign perhaps, digits with a fraction perhaps or a fraction alone, and an
    exponent perhaps; and that the tokenizer takes the longest one. */
module CssNumbers {
  import opened Ascii
  import opened Wrappers
  import opened CssTokens

  /** The parts of a numeral.  Without a fraction there is no point, without exponent digits no mark. */
  datatype Numeral = Numeral(
    sign: string, whole: string, fraction: string, mark: char, exponentSign: string, exponent: string)

  predicate IsSign(s: string) { s == "" || s == "+" || s == "-" }

  predicate IsNumeral(n: Numeral) {
    && IsSign(n.sign) && AllDigits(n.whole) && AllDigits(n.fraction) && (n.whole != "" || n.fraction != "")
    && (n.mark == 'e' || n.mark == 'E') && IsSign(n.exponentSign) && AllDigits(n.exponent)
  }

  function PointText(n: Numeral): string { if n.fraction == "" then "" else "." + n.fraction }

  function ExponentText(n: Numeral): string {
    if n.exponent == "" then "" else [n.mark] + (n.exponentSign + n.exponent)
  }

  function NumeralText(n: Numeral): string {
    n.sign + (n.whole + (PointText(n) + ExponentText(n)))
  }

  /** The text stands at a place. */
  ghost predicate At(s: string, i: nat, t: string) {
    i + |t| <= |s| && forall k {:trigger t[k]} :: 0 <= k < |t| ==> t[k] == s[i + k]
  }

  lemma AtSlice(s: string, i: nat, t: string)
    requires i + |t| <= |s|
    ensures At(s, i, t) <==> s[i..i + |t|] == t
  {
    if At(s, i, t) {
      assert s[i..i + |t|] == t;
    } else {
      var k :| 0 <= k < |t| && t[k] != s[i + k];
      assert s[i..i + |t|][k] != t[k];
    }
  }

  lemma AtParts(s: string, i: nat, a: string, b: string)
    requires At(s, i, a + b)
    ensures At(s, i, a) && At(s, i + |a|, b)
  {
    forall k | 0 <= k < |a| ensures a[k] == s[i + k] { assert (a + b)[k] == a[k]; }
    forall k | 0 <= k < |b| ensures b[k] == s[i + |a| + k] { assert (a + b)[|a| + k] == b[k]; }
  }

  lemma AtChar(s: string, i: nat, t: string, k: nat)
    requires At(s, i, t) && k < |t|
    ensures s[i + k] == t[k]
  {
  }

  lemma AtDigits(s: string, i: nat, t: string)
    requires At(s, i, t) && AllDigits(t)
    ensures forall k :: i <= k < i + |t| ==> IsDigit(s[k])
  {
    forall k | i <= k < i + |t| ensures IsDigit(s[k]) { AtChar(s, i, t, k - i); }
  }

  // ---- the parts of a numeral, where they stand ----

  /** Where the digits after the sign, the point and the exponent begin, and where all of it ends. */
  function WholeAt(i: nat, n: Numeral): nat { i + |n.sign| }
  function PointAt(i: nat, n: Numeral): nat { WholeAt(i, n) + |n.whole| }
  function MarkAt(i: nat, n: Numeral): nat { PointAt(i, n) + |PointText(n)| }
  function EndAt(i: nat, n: Numeral): nat { MarkAt(i, n) + |ExponentText(n)| }

  lemma PartsStand(s: string, i: nat, n: Numeral)
    requires At(s, i, NumeralText(n))
    ensures EndAt(i, n) == i + |NumeralText(n)| <= |s|
    ensures At(s, i, n.sign) && At(s, WholeAt(i, n), n.whole) && At(s, PointAt(i, n), PointText(n))
    ensures At(s, MarkAt(i, n), ExponentText(n))
  {
    FourParts(s, i, n.sign, n.whole, PointText(n), ExponentText(n));
  }

  lemma FourParts(s: string, i: nat, a: string, b: string, c: string, d: string)
    requires At(s, i, a + (b + (c + d)))
    ensures At(s, i, a) && At(s, i + |a|, b) && At(s, i + |a| + |b|, c) && At(s, i + |a| + |b| + |c|, d)
    ensures i + |a| + |b| + |c| + |d| == i + |a + (b + (c + d))| <= |s|
  {
    AtParts(s, i, a, b + (c + d));
    AtParts(s, i + |a|, b, c + d);
    AtParts(s, i + |a| + |b|, c, d);
  }

  lemma {:induction false} RunReaches(s: string, i: nat, j: nat, p: char -> bool, n: nat)
    requires i <= j <= |s| && j - i <= n && forall k :: i <= k < j ==> p(s[k])
    ensures RunEnd(s, i, p, n) >= j
    ensures j - i < n && (j == |s| || !p(s[j])) ==> RunEnd(s, i, p, n) == j
    decreases j - i
  {
    if i < j { RunReaches(s, i + 1, j, p, n - 1); }
  }

  lemma DigitsReach(s: string, i: nat, t: string)
    requires At(s, i, t) && AllDigits(t)
    ensures DigitsEnd(s, i) >= i + |t|
    ensures !DigitAt(s, i + |t|) ==> DigitsEnd(s, i) == i + |t|
  {
    AtDigits(s, i, t);
    RunReaches(s, i, i + |t|, IsDigit, |s|);
    if |t| == |s| { assert DigitsEnd(s, i) <= |s|; }
  }

  /** Past the sign: where the number that begins at `i` has its digits. */
  function SignEnd(s: string, i: nat): (j: nat)
    requires i <= |s|
    ensures i <= j <= |s|
  {
    if i < |s| && (s[i] == '+' || s[i] == '-') then i + 1 else i
  }

  lemma SignStands(s: string, i: nat, n: Numeral)
    requires IsNumeral(n) && At(s, i, NumeralText(n))
    ensures SignEnd(s, i) == WholeAt(i, n)
  {
    PartsStand(s, i, n);
    if n.sign != "" { AtChar(s, i, n.sign, 0); }
    if n.whole != "" {
      AtChar(s, WholeAt(i, n), n.whole, 0);
    } else {
      AtChar(s, PointAt(i, n), PointText(n), 0);
    }
  }

  /** The digits before the point are read whole, and nothing else, if a point or an exponent follows. */
  lemma WholeStands(s: string, i: nat, n: Numeral)
    requires IsNumeral(n) && At(s, i, NumeralText(n))
    ensures DigitsEnd(s, WholeAt(i, n)) >= PointAt(i, n)
    ensures n.fraction != "" || n.exponent != "" || !DigitAt(s, PointAt(i, n)) ==>
      DigitsEnd(s, WholeAt(i, n)) == PointAt(i, n)
  {
    PartsStand(s, i, n);
    DigitsReach(s, WholeAt(i, n), n.whole);
    if n.fraction != "" {
      AtChar(s, PointAt(i, n), PointText(n), 0);
    } else if n.exponent != "" {
      AtChar(s, MarkAt(i, n), ExponentText(n), 0);
    }
  }

  lemma PointStands(s: string, i: nat, n: Numeral)
    requires IsNumeral(n) && At(s, i, NumeralText(n)) && n.fraction != ""
    ensures FractionEnd(s, PointAt(i, n)) >= MarkAt(i, n)
    ensures n.exponent != "" || !DigitAt(s, MarkAt(i, n)) ==> FractionEnd(s, PointAt(i, n)) == MarkAt(i, n)
  {
    PartsStand(s, i, n);
    var p := PointAt(i, n);
    AtChar(s, p, PointText(n), 0);
    AtParts(s, p, ".", n.fraction);
    AtChar(s, p + 1, n.fraction, 0);
    DigitsReach(s, p + 1, n.fraction);
    if n.exponent != "" { AtChar(s, MarkAt(i, n), ExponentText(n), 0); }
  }

  lemma MarkStands(s: string, i: nat, n: Numeral)
    requires IsNumeral(n) && At(s, i, NumeralText(n)) && n.exponent != ""
    ensures ExponentEnd(s, MarkAt(i, n)) >= EndAt(i, n)
    ensures !DigitAt(s, EndAt(i, n)) ==> ExponentEnd(s, MarkAt(i, n)) == EndAt(i, n)
  {
    PartsStand(s, i, n);
    ExponentStands(s, MarkAt(i, n), n);
  }

  lemma ExponentStands(s: string, m: nat, n: Numeral)
    requires IsNumeral(n) && n.exponent != "" && At(s, m, ExponentText(n))
    ensures ExponentEnd(s, m) >= m + |ExponentText(n)|
    ensures !DigitAt(s, m + |ExponentText(n)|) ==> ExponentEnd(s, m) == m + |ExponentText(n)|
  {
    MarkParts(s, m, n);
    var d := m + 1 + |n.exponentSign|;
    DigitsReach(s, d, n.exponent);
    assert m + |ExponentText(n)| == d + |n.exponent|;
  }

  lemma MarkParts(s: string, m: nat, n: Numeral)
    requires IsNumeral(n) && n.exponent != "" && At(s, m, ExponentText(n))
    ensures m + 1 < |s| && s[m] == n.mark && At(s, m + 1 + |n.exponentSign|, n.exponent)
    ensures DigitAt(s, m + 1 + |n.exponentSign|)
    ensures m + 1 + |n.exponentSign| == if s[m + 1] == '+' || s[m + 1] == '-' then m + 2 else m + 1
  {
    AtChar(s, m, ExponentText(n), 0);
    AtParts(s, m, [n.mark], n.exponentSign + n.exponent);
    AtParts(s, m + 1, n.exponentSign, n.exponent);
    AtChar(s, m + 1 + |n.exponentSign|, n.exponent, 0);
    if n.exponentSign != "" { AtChar(s, m + 1, n.exponentSign, 0); }
  }

  /** What may follow a numeral and make it longer: a digit; a fraction, if it has neither one nor an
      exponent; an exponent, if it has none. */
  ghost predicate Continues(s: string, j: nat, n: Numeral)
    requires j <= |s|
  {
    || DigitAt(s, j)
    || (n.exponent == "" && n.fraction == "" && FractionEnd(s, j) > j)
    || (n.exponent == "" && ExponentEnd(s, j) > j)
  }

  lemma PlainRead(s: string, i: nat, n: Numeral)
    requires IsNumeral(n) && At(s, i, NumeralText(n)) && n.fraction == "" && n.exponent == ""
    ensures EndAt(i, n) <= NumberEnd(s, i) && EndAt(i, n) <= |s|
    ensures !Continues(s, EndAt(i, n), n) ==> NumberEnd(s, i) == EndAt(i, n)
  {
    PartsStand(s, i, n);
    SignStands(s, i, n);
    WholeStands(s, i, n);
  }

  lemma FractionRead(s: string, i: nat, n: Numeral)
    requires IsNumeral(n) && At(s, i, NumeralText(n)) && n.fraction != "" && n.exponent == ""
    ensures EndAt(i, n) <= NumberEnd(s, i) && EndAt(i, n) <= |s|
    ensures !Continues(s, EndAt(i, n), n) ==> NumberEnd(s, i) == EndAt(i, n)
  {
    PartsStand(s, i, n);
    SignStands(s, i, n);
    WholeStands(s, i, n);
    PointStands(s, i, n);
  }

  lemma ExponentRead(s: string, i: nat, n: Numeral)
    requires IsNumeral(n) && At(s, i, NumeralText(n)) && n.exponent != ""
    ensures EndAt(i, n) <= NumberEnd(s, i) && EndAt(i, n) <= |s|
    ensures !Continues(s, EndAt(i, n), n) ==> NumberEnd(s, i) == EndAt(i, n)
  {
    PartsStand(s, i, n);
    SignStands(s, i, n);
    WholeStands(s, i, n);
    NoPoint(s, i, n);
    if n.fraction != "" { PointStands(s, i, n); }
    assert FractionEnd(s, PointAt(i, n)) == MarkAt(i, n);
    MarkStands(s, i, n);
  }

  lemma NoPoint(s: string, i: nat, n: Numeral)
    requires IsNumeral(n) && At(s, i, NumeralText(n)) && n.exponent != ""
    ensures n.fraction == "" ==> FractionEnd(s, PointAt(i, n)) == MarkAt(i, n)
  {
    PartsStand(s, i, n);
    AtChar(s, MarkAt(i, n), ExponentText(n), 0);
  }

  /** A numeral is read to its end at least, and exactly to its end if nothing there continues it. */
  lemma NumeralRead(s: string, i: nat, j: nat, n: Numeral)
    requires IsNumeral(n) && At(s, i, NumeralText(n)) && j == i + |NumeralText(n)|
    ensures j <= NumberEnd(s, i) && j <= |s|
    ensures !Continues(s, j, n) ==> NumberEnd(s, i) == j
  {
    if n.exponent != "" {
      ExponentRead(s, i, n);
    } else if n.fraction != "" {
      FractionRead(s, i, n);
    } else {
      PlainRead(s, i, n);
    }
  }

  // ---- what is read is a numeral ----

  /** The numeral that is read where a number starts. */
  ghost function NumeralOf(s: string, i: nat): Numeral
    requires i <= |s|
  {
    var a := SignEnd(s, i);
    var b := DigitsEnd(s, a);
    var c := FractionEnd(s, b);
    Numeral(s[i..a], s[a..b], if c == b then "" else s[b + 1..c], MarkOf(s, c), MarkSign(s, c), MarkDigits(s, c))
  }

  function MarkOf(s: string, c: nat): char
    requires c <= |s|
  {
    if ExponentEnd(s, c) == c then 'e' else s[c]
  }

  function MarkSign(s: string, c: nat): string
    requires c <= |s|
  {
    if ExponentEnd(s, c) == c || (s[c + 1] != '+' && s[c + 1] != '-') then "" else [s[c + 1]]
  }

  function MarkDigits(s: string, c: nat): string
    requires c <= |s|
  {
    if ExponentEnd(s, c) == c then "" else s[c + 1 + |MarkSign(s, c)|..ExponentEnd(s, c)]
  }

  lemma MarkIs(s: string, c: nat)
    requires c <= |s|
    ensures var e := ExponentEnd(s, c);
      && (e == c <==> MarkDigits(s, c) == "") && AllDigits(MarkDigits(s, c)) && IsSign(MarkSign(s, c))
      && (e > c ==> s[c..e] == [MarkOf(s, c)] + (MarkSign(s, c) + MarkDigits(s, c)))
  {
    var e := ExponentEnd(s, c);
    if e > c {
      var d := c + 1 + |MarkSign(s, c)|;
      assert DigitAt(s, d) && e > d && e == DigitsEnd(s, d);
      Three(s, c, d, e);
    }
  }

  lemma Three(s: string, c: nat, d: nat, e: nat)
    requires c < d <= e <= |s|
    ensures s[c..e] == [s[c]] + (s[c + 1..d] + s[d..e])
    ensures d == c + 2 ==> s[c + 1..d] == [s[c + 1]]
  {
  }

  lemma PointIs(s: string, b: nat)
    requires b <= |s|
    ensures var c := FractionEnd(s, b);
      c > b ==> c > b + 1 && AllDigits(s[b + 1..c]) && s[b..c] == "." + s[b + 1..c]
  {
    var c := FractionEnd(s, b);
    if c > b {
      assert DigitAt(s, b + 1);
    }
  }

  lemma ReadIsNumeral(s: string, i: nat)
    requires i < |s| && StartsNumber(s, i)
    ensures IsNumeral(NumeralOf(s, i)) && NumeralText(NumeralOf(s, i)) == s[i..NumberEnd(s, i)]
  {
    var a := SignEnd(s, i);
    var b := DigitsEnd(s, a);
    var c := FractionEnd(s, b);
    HasDigits(s, i);
    TextsOf(s, i, b, c);
    Four(s, i, a, b, c, NumberEnd(s, i));
  }

  lemma TextsOf(s: string, i: nat, b: nat, c: nat)
    requires i <= |s| && b == DigitsEnd(s, SignEnd(s, i)) && c == FractionEnd(s, b)
    ensures PointText(NumeralOf(s, i)) == s[b..c] && ExponentText(NumeralOf(s, i)) == s[c..ExponentEnd(s, c)]
    ensures AllDigits(NumeralOf(s, i).fraction) && AllDigits(NumeralOf(s, i).exponent)
    ensures IsSign(NumeralOf(s, i).exponentSign) && (c > b ==> NumeralOf(s, i).fraction != "")
  {
    PointIs(s, b);
    MarkIs(s, c);
  }

  lemma HasDigits(s: string, i: nat)
    requires i < |s| && StartsNumber(s, i)
    ensures var a := SignEnd(s, i);
      var b := DigitsEnd(s, a);
      b > a || FractionEnd(s, b) > b
  {
    var a := SignEnd(s, i);
    if s[a] == '.' {
      assert DigitsEnd(s, a) == a;
    } else {
      assert IsDigit(s[a]);
    }
  }

  lemma Four(s: string, i: nat, a: nat, b: nat, c: nat, e: nat)
    requires i <= a <= b <= c <= e <= |s|
    ensures s[i..a] + (s[a..b] + (s[b..c] + s[c..e])) == s[i..e]
  {
  }

  /** The stretch is a numeral. */
  ghost predicate NumeralFrom(s: string, i: nat, j: nat) {
    i <= j <= |s| && exists n :: IsNumeral(n) && NumeralText(n) == s[i..j]
  }

  lemma WithinRead(s: string, i: nat, j: nat)
    requires NumeralFrom(s, i, j)
    ensures j <= NumberEnd(s, i)
  {
    var n :| IsNumeral(n) && NumeralText(n) == s[i..j];
    NumeralRead(s, i, j, n);
  }

  /** Where a number starts, the longest numeral there is read. */
  lemma NumberIsLongest(s: string, i: nat)
    requires i < |s| && StartsNumber(s, i)
    ensures NumeralFrom(s, i, NumberEnd(s, i))
    ensures forall j: nat :: NumeralFrom(s, i, j) ==> j <= NumberEnd(s, i)
  {
    ReadIsNumeral(s, i);
    forall j: nat | NumeralFrom(s, i, j) ensures j <= NumberEnd(s, i) {
      WithinRead(s, i, j);
    }
  }

  /** A number starts exactly where some numeral stands. */
  lemma NumberStartsExactly(s: string, i: nat)
    requires i < |s|
    ensures StartsNumber(s, i) <==> exists j: nat :: NumeralFrom(s, i, j)
  {
    if StartsNumber(s, i) { NumberIsLongest(s, i); }
    if j: nat :| NumeralFrom(s, i, j) {
      var n :| IsNumeral(n) && NumeralText(n) == s[i..j];
      NumeralStarts(s, i, n);
    }
  }

  lemma NumeralStarts(s: string, i: nat, n: Numeral)
    requires IsNumeral(n) && At(s, i, NumeralText(n))
    ensures i < |s| && StartsNumber(s, i)
  {
    PartsStand(s, i, n);
    SignStands(s, i, n);
    if n.sign != "" { AtChar(s, i, n.sign, 0); }
    if n.whole != "" {
      AtChar(s, WholeAt(i, n), n.whole, 0);
    } else {
      AtChar(s, PointAt(i, n), PointText(n), 0);
      AtChar(s, PointAt(i, n), PointText(n), 1);
    }
  }
}
