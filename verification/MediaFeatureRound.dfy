/** A printed feature is parsed back to what it was. */
module MediaFeatureRound {
  import opened Ascii
  import opened Wrappers
  import opened Decimals
  import opened MediaText
  import opened MediaFeature

  // ---- what parsing gives ----

  predicate IdentText(s: string) {
    s != "" && Lower(s) == s && forall i :: 0 <= i < |s| ==> IdentChar(s[i])
  }

  predicate WellValue(v: Value, f: Feature) {
    match f.kind
    case Discrete => v.Ident? && v.text in f.keywords && IdentText(v.text) && |v.text| < 24
    case Ratio => v.Num? && v.num >= 0.0 && v.denom >= 0.0
    case Integer => v.Num? && v.denom == 1.0 && (f.name == "grid" ==> v.num == 0.0 || v.num == 1.0)
    case _ => v.Num? && v.denom == 1.0
  }

  predicate Comparable(f: Feature) { f.kind != Discrete && f.name != "grid" }

  predicate WellTest(t: Test) {
    && Lookup(t.feature.name) == Some(t.feature) && IdentText(t.feature.name) && |t.feature.name| < 40
    && match t.said
       case Bare => true
       case Plain(minmax, v) =>
         minmax <= 2 && WellValue(v, t.feature) &&
         (minmax != 0 ==> Comparable(t.feature) && |t.feature.name| + 4 < 40)
       case Compared(_, v) => Comparable(t.feature) && WellValue(v, t.feature)
       case Between(op1, low, op2, high) =>
         Comparable(t.feature) && WellValue(low, t.feature) && WellValue(high, t.feature) &&
         ((Below(op1) && Below(op2)) || (Above(op1) && Above(op2)))
  }

  lemma LowerTwice(s: string)
    ensures Lower(Lower(s)) == Lower(s)
  {
  }

  lemma ReadIdentWell(s: string, room: nat)
    requires ReadIdent(s, room).Some?
    ensures IdentText(ReadIdent(s, room).value.ident) && |ReadIdent(s, room).value.ident| < room
  {
    LowerTwice(s[..IdentLength(s)]);
  }

  lemma ParseValueWell(s: string, f: Feature, env: Env)
    requires ParseValue(s, f, env).Some?
    ensures WellValue(ParseValue(s, f, env).value, f)
  {
    if f.kind == Discrete { ReadIdentWell(Trim(s), 24); }
  }

  lemma SideFeatureWell(s: string)
    requires SideFeature(s).Some?
    ensures var f := SideFeature(s).value;
      Lookup(f.name) == Some(f) && IdentText(f.name) && |f.name| < 40 && Comparable(f)
  {
    ReadIdentWell(Trim(s), 40);
  }

  lemma PlainWell(name: string, value: string, env: Env)
    requires ParsePlain(name, value, env).Some?
    ensures WellTest(ParsePlain(name, value, env).value)
  {
    var r := ReadIdent(name, 40).value;
    ReadIdentWell(name, 40);
    ParseValueWell(value, ParsePlain(name, value, env).value.feature, env);
    if MinMax(r.ident) != 0 { TailText(r.ident, 4); }
  }

  lemma TailText(s: string, k: nat)
    requires IdentText(s) && k < |s|
    ensures IdentText(s[k..])
  {
    assert Lower(s)[k..] == Lower(s[k..]);
  }

  lemma BetweenWell(left: string, op1: Op, middle: string, op2: Op, right: string, env: Env)
    requires ParseBetween(left, op1, middle, op2, right, env).Some?
    ensures WellTest(ParseBetween(left, op1, middle, op2, right, env).value)
  {
    SideFeatureWell(middle);
    var f := SideFeature(middle).value;
    ParseValueWell(left, f, env);
    ParseValueWell(right, f, env);
  }

  lemma ComparedWell(left: string, op: Op, right: string, env: Env)
    requires ParseCompared(left, op, right, env).Some?
    ensures WellTest(ParseCompared(left, op, right, env).value)
  {
    if SideFeature(left).Some? {
      SideFeatureWell(left);
      ParseValueWell(right, SideFeature(left).value, env);
    } else {
      SideFeatureWell(right);
      ParseValueWell(left, SideFeature(right).value, env);
    }
  }

  lemma RangeWell(cut: Cut, env: Env)
    requires ParseRange(cut, env).Some?
    ensures WellTest(ParseRange(cut, env).value)
  {
    match cut
    case Whole(text) => ReadIdentWell(text, 40);
    case OneCut(left, op, right) => ComparedWell(left, op, right, env);
    case TwoCuts(left, op1, middle, op2, right) => BetweenWell(left, op1, middle, op2, right, env);
  }

  /** Whatever is parsed as a feature is well made. */
  lemma ParseTestWell(s: string, env: Env)
    requires ParseTest(s, env).Some?
    ensures WellTest(ParseTest(s, env).value)
  {
    var t := Trim(s);
    match FindColon(t, 0)
    case Some(colon) => PlainWell(t[..colon], t[colon + 1..], env);
    case None => RangeWell(CutAtOps(t), env);
  }

  // ---- values that print exactly ----

  /** An integer of at most six digits. */
  predicate SmallInt(x: real) { x == x.Floor as real && -1000000.0 < x < 1000000.0 }

  /** A decimal of at most six digits that `%g` prints without an exponent. */
  predicate Short(x: real) {
    (x == 0.0 || x >= 0.0001 || x <= -0.0001) && exists k: nat | k <= 9 :: SmallInt(Scaled(x, k))
  }

  predicate ShortValue(v: Value, kind: FeatureType) {
    v.Num? ==> Short(v.num) && Short(v.denom) && (kind == Integer ==> SmallInt(v.num))
  }

  /** A resolution is not negative. */
  predicate PrintableValue(v: Value, kind: FeatureType) {
    ShortValue(v, kind) && (v.Num? && kind == Resolution ==> v.num >= 0.0)
  }

  predicate ShortTest(t: Test) {
    match t.said
    case Bare => true
    case Plain(_, v) => ShortValue(v, t.feature.kind)
    case Compared(_, v) => ShortValue(v, t.feature.kind)
    case Between(_, low, _, high) => ShortValue(low, t.feature.kind) && ShortValue(high, t.feature.kind)
  }

  predicate PrintableTest(t: Test) {
    match t.said
    case Bare => true
    case Plain(_, v) => PrintableValue(v, t.feature.kind)
    case Compared(_, v) => PrintableValue(v, t.feature.kind)
    case Between(_, low, _, high) => PrintableValue(low, t.feature.kind) && PrintableValue(high, t.feature.kind)
  }

  ghost predicate PrintedAs(s: string, x: real) {
    if SmallInt(x) then s == Decimal(x.Floor)
    else exists k: nat | 0 < k <= 9 :: SmallInt(Scaled(x, k)) && s == Fixed(Scaled(x, k).Floor, k)
  }

  /** `%g` prints integers of at most six digits as they are, and other decimals of at most six digits with
      some digits after the point. */
  ghost predicate PrintsDecimals(g: real -> string) {
    forall x :: Short(x) ==> PrintedAs(g(x), x)
  }

  /** One such printing. */
  ghost function PrintDecimal(x: real): string {
    if SmallInt(x) || !Short(x) then Decimal(x.Floor)
    else
      var k: nat :| k <= 9 && SmallInt(Scaled(x, k));
      Fixed(Scaled(x, k).Floor, k)
  }

  lemma PrintDecimalPrints()
    ensures PrintsDecimals(PrintDecimal)
  {
    forall x | Short(x) ensures PrintedAs(PrintDecimal(x), x) {
      if !SmallInt(x) {
        var k: nat :| k <= 9 && SmallInt(Scaled(x, k)) && PrintDecimal(x) == Fixed(Scaled(x, k).Floor, k);
        assert Scaled(x, 0) == x;
      }
    }
  }

  // ---- reading printed text ----

  /** Text without parentheses, colons and comparisons. */
  predicate Quiet(s: string) {
    forall i :: 0 <= i < |s| ==> !(s[i] in "():<>=")
  }

  /** Text that begins and ends with something other than white space. */
  predicate Solid(s: string) { s != "" && !IsWs(s[0]) && !IsWs(s[|s| - 1]) }

  lemma TrimSolid(s: string)
    requires Solid(s)
    ensures Trim(s) == s && Trim(" " + s) == s && Trim(s + " ") == s && Trim(" " + (s + " ")) == s
  {
    assert SkipWs(s) == s && TrimEnd(s) == s;
    var right := s + " ";
    assert right[..|right| - 1] == s && TrimEnd(right) == TrimEnd(s) && SkipWs(right) == right;
    assert (" " + s)[1..] == s && (" " + right)[1..] == right;
  }

  lemma IdentLengthIs(s: string, n: nat)
    requires n <= |s| && (forall i :: 0 <= i < n ==> IdentChar(s[i])) && (n < |s| ==> !IdentChar(s[n]))
    ensures IdentLength(s) == n
  {
  }

  lemma ReadIdentBefore(name: string, rest: string, room: nat)
    requires IdentText(name) && |name| < room && (rest == "" || !IdentChar(rest[0]))
    ensures ReadIdent(name + rest, room) == Some(Read(name, rest))
  {
    var s := name + rest;
    IdentLengthIs(s, |name|);
    assert s[..|name|] == name && s[|name|..] == rest;
  }

  lemma {:induction false} QuietFinds(s: string, rest: string)
    requires Quiet(s)
    ensures FindColon(s, 0) == None && FindOp(s, 0) == None
    ensures FindColon(s + rest, 0) == match FindColon(rest, 0) case None => None case Some(k) => Some(|s| + k)
    ensures FindOp(s + rest, 0) == match FindOp(rest, 0) case None => None case Some(o) => Some(o.(at := |s| + o.at))
  {
    if s == "" {
      assert s + rest == rest;
    } else {
      QuietFinds(s[1..], rest);
      assert s[0] !in "():<>=" && (s + rest)[0] == s[0] && (s + rest)[1..] == s[1..] + rest;
    }
  }

  lemma OpFinds(op: Op, rest: string)
    requires rest != "" && rest[0] != '='
    ensures FindOp(OpText(op) + rest, 0) == Some(Found(0, op, |OpText(op)|))
    ensures forall i :: 0 <= i < |OpText(op)| ==> OpText(op)[i] in "<>="
  {
  }

  // ---- values ----

  lemma DigitsText(ds: string)
    requires ds != "" && AllDigits(ds)
    ensures Quiet(ds) && Solid(ds) && Quiet("-" + ds) && Solid("-" + ds)
  {
    assert IsDigit(ds[0]) && IsDigit(ds[|ds| - 1]);
    assert ("-" + ds)[|ds|] == ds[|ds| - 1];
  }

  /** Digits, a point and a sign, beginning with a digit or the sign. */
  predicate NumeralText(s: string) {
    && s != "" && (s[0] == '-' || IsDigit(s[0])) && IsDigit(s[|s| - 1])
    && forall i :: 0 <= i < |s| ==> IsDigit(s[i]) || s[i] == '.' || s[i] == '-'
  }

  lemma NumeralQuiet(s: string)
    requires NumeralText(s)
    ensures Quiet(s) && Solid(s)
  {
  }

  lemma UnsignedText(n: nat, places: nat)
    ensures NumeralText(Unsigned(n, places)) && NumeralText("-" + Unsigned(n, places))
  {
    var s := Unsigned(n, places);
    if places == 0 {
      assert forall i :: 0 <= i < |s| ==> IsDigit(s[i]);
    } else {
      var a, b := WholePart(n, places), FractionPart(n, places);
      assert s == a + ("." + b) && s[|s| - 1] == b[|b| - 1];
    }
  }

  lemma DecimalIsFixed(n: int)
    ensures Decimal(n) == Fixed(n, 0)
  {
  }

  lemma ShortText(x: real, g: real -> string)
    requires Short(x) && PrintsDecimals(g)
    ensures NumeralText(g(x))
  {
    assert PrintedAs(g(x), x);
    if SmallInt(x) {
      DecimalIsFixed(x.Floor);
      FixedText(x.Floor, 0);
    } else {
      var k: nat :| 0 < k <= 9 && SmallInt(Scaled(x, k)) && g(x) == Fixed(Scaled(x, k).Floor, k);
      FixedText(Scaled(x, k).Floor, k);
    }
  }

  lemma FixedText(n: int, places: nat)
    ensures NumeralText(Fixed(n, places))
  {
    UnsignedText(if n < 0 then -n else n, places);
  }

  /** What is printed of a short decimal is read back as the same number. */
  lemma ShortReads(x: real, rest: string, g: real -> string, number: string -> Option<Number>)
    requires Short(x) && PrintsDecimals(g) && ReadsDecimals(number) && EndsNumber(rest)
    ensures number(g(x) + rest) == Some(Number(x, rest))
  {
    assert PrintedAs(g(x), x);
    if SmallInt(x) {
      DecimalIsFixed(x.Floor);
      FixedReadsBack(x, 0, rest, number);
    } else {
      var k: nat :| 0 < k <= 9 && SmallInt(Scaled(x, k)) && g(x) == Fixed(Scaled(x, k).Floor, k);
      FixedReadsBack(x, k, rest, number);
    }
  }

  lemma FixedReadsBack(x: real, k: nat, rest: string, number: string -> Option<Number>)
    requires SmallInt(Scaled(x, k)) && ReadsDecimals(number) && EndsNumber(rest)
    ensures number(Fixed(Scaled(x, k).Floor, k) + rest) == Some(Number(x, rest))
  {
    ScaledBack(x, k);
  }

  lemma DecimalText(n: int)
    ensures Quiet(Decimal(n)) && Solid(Decimal(n)) && EndsNumber("")
    ensures Decimal(n)[0] == '-' || IsDigit(Decimal(n)[0])
    ensures SignLength(Decimal(n)) == (if n < 0 then 1 else 0)
    ensures AllDigits(Decimal(n)[SignLength(Decimal(n))..]) && |Decimal(n)| > SignLength(Decimal(n))
  {
    var ds := NatDigits(if n < 0 then -n else n);
    DigitsText(ds);
    assert IsDigit(ds[0]);
    assert ds[0..] == ds && ("-" + ds)[1..] == ds;
  }

  lemma NotCalc(s: string)
    requires s != "" && (s[0] == '-' || IsDigit(s[0]))
    ensures !IsCalc(s)
  {
    if |s| >= 5 { assert Lower(s[..5])[0] == LowerChar(s[0]); }
  }

  /** The reading of numerals knows decimals with a point and without. */
  ghost predicate ReadsDecimals(number: string -> Option<Number>) {
    forall n: int, places: nat, rest: string :: EndsNumber(rest) ==>
      number(Fixed(n, places) + rest) == Some(Number(Shifted(n as real, places), rest))
  }

  /** Reading decimal numerals with fractions and exponents, and nothing else, is one such reading. */
  lemma ReadNumberReadsDecimals()
    ensures ReadsDecimals(ReadNumber)
  {
    forall n: int, places: nat, rest: string | EndsNumber(rest)
      ensures ReadNumber(Fixed(n, places) + rest) == Some(Number(Shifted(n as real, places), rest))
    {
      ReadFixed(n, places, rest);
    }
  }

  lemma PrintedInteger(x: real, f: Feature, env: Env, g: real -> string)
    requires Short(x) && SmallInt(x) && PrintsDecimals(g) && ReadsDecimals(env.number)
    requires f.name == "grid" ==> x == 0.0 || x == 1.0
    ensures ParseInteger(g(x), f, env) == Some(Num(x, 1.0))
  {
    assert PrintedAs(g(x), x);
    DecimalText(x.Floor);
    ShortReads(x, "", g, env.number);
    assert g(x) + "" == g(x);
  }

  lemma PrintedRatio(a: real, b: real, env: Env, g: real -> string)
    requires Short(a) && Short(b) && a >= 0.0 && b >= 0.0 && PrintsDecimals(g) && ReadsDecimals(env.number)
    ensures ParseRatio(g(a) + (" / " + g(b)), env) == Some(Num(a, b))
  {
    ShortText(b, g);
    NumeralQuiet(g(b));
    ShortReads(a, " / " + g(b), g, env.number);
    ShortReads(b, "", g, env.number);
    assert g(b) + "" == g(b);
    RatioRest(g(b));
    assert SkipWs("") == "";
  }

  lemma RatioRest(q: string)
    requires q != "" && !IsWs(q[0])
    ensures SkipWs(" / " + q) == "/ " + q && ("/ " + q)[0] == '/' && SkipWs(("/ " + q)[1..]) == q
  {
    assert (" / " + q)[1..] == "/ " + q && ("/ " + q)[1..] == " " + q && (" " + q)[1..] == q;
  }

  lemma Units()
    ensures UnitOf("dppx") == Some("dppx") && UnitOf("px") == Some("px")
    ensures EndsNumber("dppx") && EndsNumber("px")
  {
    assert Lower("dppx") == "dppx" && Lower("px") == "px";
  }

  /** A printed resolution is read back unless it is negative, as a calc() expression may be. */
  lemma PrintedResolution(x: real, env: Env, g: real -> string)
    requires Short(x) && PrintsDecimals(g) && ReadsDecimals(env.number)
    ensures ParseResolution(g(x) + "dppx", env) == if x >= 0.0 then Some(Num(x, 1.0)) else None
  {
    Units();
    ShortText(x, g);
    NotCalc(g(x) + "dppx");
    ShortReads(x, "dppx", g, env.number);
  }

  lemma PrintedLength(x: real, env: Env, g: real -> string)
    requires Short(x) && PrintsDecimals(g) && ReadsDecimals(env.number)
    ensures ParseLength(g(x) + "px", env) == Some(Num(x, 1.0))
  {
    Units();
    ShortText(x, g);
    NotCalc(g(x) + "px");
    ShortReads(x, "px", g, env.number);
  }

  lemma PrintedDiscrete(text: string, f: Feature)
    requires IdentText(text) && |text| < 24 && text in f.keywords
    ensures ParseDiscrete(text, f) == Some(Ident(text))
  {
    ReadIdentBefore(text, "", 24);
    assert text + "" == text;
  }

  lemma JoinedText(a: string, b: string)
    requires Solid(a) && Quiet(a) && Quiet(b) && b != "" && !IsWs(b[|b| - 1])
    ensures Solid(a + b) && Quiet(a + b)
  {
  }

  lemma NumText(a: string, b: string)
    requires Solid(a) && Quiet(a) && Solid(b) && Quiet(b)
    ensures Solid(a + "dppx") && Quiet(a + "dppx") && Solid(a + "px") && Quiet(a + "px")
    ensures Solid(a + (" / " + b)) && Quiet(a + (" / " + b))
  {
    JoinedText(a, "dppx");
    JoinedText(a, "px");
    var c := " / " + b;
    assert c[|c| - 1] == b[|b| - 1];
    JoinedText(a, c);
  }

  /** The text of a value is quiet and solid. */
  lemma ValueText(v: Value, f: Feature, g: real -> string)
    requires WellValue(v, f) && ShortValue(v, f.kind) && PrintsDecimals(g)
    ensures Quiet(PrintValue(v, f.kind, g)) && Solid(PrintValue(v, f.kind, g))
  {
    match v
    case Ident(text) => IdentIsText(text);
    case Num(num, denom) =>
      ShortText(num, g);
      ShortText(denom, g);
      NumeralQuiet(g(num));
      NumeralQuiet(g(denom));
      NumText(g(num), g(denom));
  }

  lemma IdentIsText(text: string)
    requires IdentText(text)
    ensures Quiet(text) && Solid(text)
  {
    assert IdentChar(text[0]) && IdentChar(text[|text| - 1]);
    assert forall i :: 0 <= i < |text| ==> IdentChar(text[i]);
  }

  /** A printed value is parsed back, whatever white space is around it. */
  lemma PrintedValue(x: string, v: Value, f: Feature, env: Env, g: real -> string)
    requires WellValue(v, f) && PrintableValue(v, f.kind) && PrintsDecimals(g) && ReadsDecimals(env.number)
    requires Trim(x) == PrintValue(v, f.kind, g)
    ensures ParseValue(x, f, env) == Some(v)
  {
    ValueText(v, f, g);
    match f.kind
    case Discrete => PrintedDiscrete(v.text, f);
    case Integer => PrintedInteger(v.num, f, env, g);
    case Ratio => PrintedRatio(v.num, v.denom, env, g);
    case Resolution => PrintedResolution(v.num, env, g);
    case Length => PrintedLength(v.num, env, g);
  }

  /** A printed negative resolution is no value. */
  lemma LostValue(x: string, v: Value, f: Feature, env: Env, g: real -> string)
    requires WellValue(v, f) && ShortValue(v, f.kind) && !PrintableValue(v, f.kind) && PrintsDecimals(g) &&
        ReadsDecimals(env.number)
    requires Trim(x) == PrintValue(v, f.kind, g)
    ensures ParseValue(x, f, env) == None
  {
    ValueText(v, f, g);
    PrintedResolution(v.num, env, g);
  }

  // ---- tests ----

  lemma ColonFinds(a: string, b: string)
    requires Quiet(a)
    ensures FindColon(a + (": " + b), 0) == Some(|a|)
    ensures (a + (": " + b))[..|a|] == a && (a + (": " + b))[|a| + 1..] == " " + b
  {
    QuietFinds(a, ": " + b);
    ColonSlices(a, b);
  }

  lemma ColonSlices(a: string, b: string)
    ensures (": " + b)[0] == ':'
    ensures (a + (": " + b))[..|a|] == a && (a + (": " + b))[|a| + 1..] == " " + b
  {
  }

  /** A comparison after quiet text is found, and cuts it there. */
  lemma OpAt(left: string, op: Op, text: string, rest: string)
    requires Quiet(left) && rest != "" && rest[0] != '=' && text == OpText(op)
    ensures var t := left + (text + rest);
      && FindOp(t, 0) == Some(Found(|left|, op, |text|))
      && t[..|left|] == left && t[|left| + |text|..] == rest
  {
    QuietFinds(left, text + rest);
    OpFinds(op, rest);
  }

  lemma NoColonAt(left: string, op: Op, rest: string)
    requires Quiet(left) && FindColon(rest, 0) == None
    ensures FindColon(left + (OpText(op) + rest), 0) == None
  {
    QuietFinds(left, OpText(op) + rest);
    OpHasNoColon(op, rest);
  }

  lemma SpaceQuiet(s: string)
    requires Quiet(s)
    ensures Quiet(" " + s) && FindOp(" " + s, 0) == None && FindColon(" " + s, 0) == None
  {
    QuietFinds(" " + s, "");
  }

  lemma FirstCut(t: string, left: string, o: Found, after: string)
    requires FindOp(t, 0) == Some(o) && t[..o.at] == left && t[o.at + o.length..] == after
    requires FindOp(after, 0) == None
    ensures CutAtOps(t) == OneCut(left, o.op, after)
  {
  }

  lemma SecondCut(t: string, left: string, o: Found, after: string, middle: string, o2: Found, right: string)
    requires FindOp(t, 0) == Some(o) && t[..o.at] == left && t[o.at + o.length..] == after
    requires FindOp(after, 0) == Some(o2) && after[..o2.at] == middle && after[o2.at + o2.length..] == right
    ensures CutAtOps(t) == TwoCuts(left, o.op, middle, o2.op, right)
  {
  }

  /** Where text is cut that has a comparison after quiet text and none after that. */
  lemma CutAfter(left: string, op: Op, after: string)
    requires Quiet(left) && after != "" && after[0] != '=' && FindOp(after, 0) == None && FindColon(after, 0) == None
    ensures CutAtOps(left + (OpText(op) + after)) == OneCut(left, op, after)
    ensures FindColon(left + (OpText(op) + after), 0) == None
  {
    NoColonAt(left, op, after);
    OpAt(left, op, OpText(op), after);
    FirstCut(left + (OpText(op) + after), left, Found(|left|, op, |OpText(op)|), after);
  }

  /** Where one comparison cuts printed text. */
  lemma CutOne(left: string, op: Op, right: string)
    requires Quiet(left) && Quiet(right)
    ensures CutAtOps(left + (OpText(op) + (" " + right))) == OneCut(left, op, " " + right)
    ensures FindColon(left + (OpText(op) + (" " + right)), 0) == None
  {
    SpaceQuiet(right);
    CutAfter(left, op, " " + right);
  }

  /** Where two comparisons cut printed text. */
  lemma CutTwo(left: string, op1: Op, middle: string, op2: Op, right: string)
    requires Quiet(left) && Quiet(middle) && Quiet(right)
    ensures var t := left + (OpText(op1) + ((" " + middle) + (OpText(op2) + (" " + right))));
      CutAtOps(t) == TwoCuts(left, op1, " " + middle, op2, " " + right) && FindColon(t, 0) == None
  {
    SpaceQuiet(right);
    SpaceQuiet(middle);
    CutSecond(left, op1, " " + middle, op2, " " + right);
  }

  lemma CutSecond(left: string, op1: Op, middle: string, op2: Op, right: string)
    requires Quiet(left) && Quiet(middle) && middle != "" && right != "" && right[0] != '='
    requires FindColon(right, 0) == None
    ensures var t := left + (OpText(op1) + (middle + (OpText(op2) + right)));
      CutAtOps(t) == TwoCuts(left, op1, middle, op2, right) && FindColon(t, 0) == None
  {
    NoColonAt(middle, op2, right);
    NoColonAt(left, op1, middle + (OpText(op2) + right));
    CutMiddle(left, op1, middle, op2, right, middle + (OpText(op2) + right));
  }

  lemma CutMiddle(left: string, op1: Op, middle: string, op2: Op, right: string, after: string)
    requires Quiet(left) && Quiet(middle) && middle != "" && right != "" && right[0] != '='
    requires after == middle + (OpText(op2) + right)
    ensures CutAtOps(left + (OpText(op1) + after)) == TwoCuts(left, op1, middle, op2, right)
  {
    FirstKept(middle, OpText(op2) + right);
    OpAt(left, op1, OpText(op1), after);
    OpAt(middle, op2, OpText(op2), right);
    SecondCut(left + (OpText(op1) + after), left, Found(|left|, op1, |OpText(op1)|), after,
              middle, Found(|middle|, op2, |OpText(op2)|), right);
  }

  lemma FirstKept(a: string, b: string)
    requires a != "" && Quiet(a)
    ensures (a + b) != "" && (a + b)[0] != '='
  {
    assert a[0] !in "():<>=";
  }

  lemma OpHasNoColon(op: Op, rest: string)
    requires FindColon(rest, 0) == None
    ensures FindColon(OpText(op) + rest, 0) == None
  {
    var t := OpText(op) + rest;
    if |OpText(op)| == 1 {
      assert t[1..] == rest;
    } else {
      assert t[1..][1..] == rest && t[1..] != "" && t[1] == '=';
    }
  }

  lemma NameText(f: Feature)
    requires IdentText(f.name)
    ensures Solid(f.name) && Quiet(f.name) && Quiet(f.name + " ")
  {
    IdentIsText(f.name);
  }

  /** A printed name is found on a side of a comparison. */
  lemma PrintedSide(x: string, f: Feature)
    requires Lookup(f.name) == Some(f) && IdentText(f.name) && |f.name| < 40 && Comparable(f) && Trim(x) == f.name
    ensures SideFeature(x) == Some(f)
  {
    ReadIdentBefore(f.name, "", 40);
    assert f.name + "" == f.name;
  }

  lemma SolidText(a: string, b: string)
    requires Solid(a) && b != "" && !IsWs(b[|b| - 1])
    ensures Solid(a + b)
  {
  }

  lemma PrintedPrefix(minmax: nat, f: Feature)
    requires minmax <= 2 && Lookup(f.name) == Some(f) && IdentText(f.name) && |f.name| < 40
    requires minmax != 0 ==> |f.name| + 4 < 40
    ensures IdentText(PrefixedName(minmax, f.name)) && |PrefixedName(minmax, f.name)| < 40
    ensures MinMax(PrefixedName(minmax, f.name)) == minmax
    ensures (if minmax == 0 then PrefixedName(minmax, f.name) else PrefixedName(minmax, f.name)[4..]) == f.name
  {
    if minmax != 0 {
      LongerName(if minmax == 1 then "min-" else "max-", f.name);
    }
  }

  lemma LongerName(prefix: string, name: string)
    requires (prefix == "min-" || prefix == "max-") && IdentText(name)
    ensures IdentText(prefix + name) && (prefix + name)[..4] == prefix && (prefix + name)[4..] == name
  {
    var p := prefix + name;
    assert forall i :: 4 <= i < |p| ==>
        p[i] == name[i - 4] && IdentChar(name[i - 4]) && LowerChar(name[i - 4]) == Lower(name)[i - 4];
    assert Lower(p) == p;
  }

  /** What is read when the values are read out of printed text. */
  function Reread(t: Test, env: Env, g: real -> string): Option<Test> {
    var f := t.feature;
    match t.said
    case Bare => Some(t)
    case Plain(minmax, v) => RereadPlain(f, minmax, " " + PrintValue(v, f.kind, g), env)
    case Compared(op, v) => RereadCompared(f, op, " " + PrintValue(v, f.kind, g), env)
    case Between(op1, low, op2, high) =>
      RereadBetween(f, PrintValue(low, f.kind, g) + " ", op1, op2, " " + PrintValue(high, f.kind, g), env)
  }

  function RereadPlain(f: Feature, minmax: nat, value: string, env: Env): Option<Test> {
    match ParseValue(value, f, env) case None => None case Some(v) => Some(Test(f, Plain(minmax, v)))
  }

  function RereadCompared(f: Feature, op: Op, right: string, env: Env): Option<Test> {
    match ParseValue(right, f, env) case None => None case Some(v) => Some(Test(f, Compared(op, v)))
  }

  function RereadBetween(f: Feature, left: string, op1: Op, op2: Op, right: string, env: Env): Option<Test> {
    match ParseValue(left, f, env)
    case None => None
    case Some(low) =>
      match ParseValue(right, f, env) case None => None case Some(high) => Some(Test(f, Between(op1, low, op2, high)))
  }

  lemma PlainReads(f: Feature, minmax: nat, value: string, env: Env)
    requires minmax <= 2 && Lookup(f.name) == Some(f) && IdentText(f.name) && |f.name| < 40
    requires minmax != 0 ==> |f.name| + 4 < 40 && Comparable(f)
    ensures ParsePlain(PrefixedName(minmax, f.name), value, env) == RereadPlain(f, minmax, value, env)
  {
    var name := PrefixedName(minmax, f.name);
    PrintedPrefix(minmax, f);
    ReadIdentBefore(name, "", 40);
    assert name + "" == name && SkipWs("") == "";
  }

  lemma ComparedReads(f: Feature, op: Op, right: string, env: Env)
    requires Lookup(f.name) == Some(f) && IdentText(f.name) && |f.name| < 40 && Comparable(f)
    ensures ParseCompared(f.name + " ", op, right, env) == RereadCompared(f, op, right, env)
  {
    NameText(f);
    TrimSolid(f.name);
    PrintedSide(f.name + " ", f);
  }

  lemma BetweenReads(f: Feature, left: string, op1: Op, op2: Op, right: string, env: Env)
    requires Lookup(f.name) == Some(f) && IdentText(f.name) && |f.name| < 40 && Comparable(f)
    requires (Below(op1) && Below(op2)) || (Above(op1) && Above(op2))
    ensures ParseBetween(left, op1, " " + (f.name + " "), op2, right, env) ==
        RereadBetween(f, left, op1, op2, right, env)
  {
    NameText(f);
    TrimSolid(f.name);
    PrintedSide(" " + (f.name + " "), f);
  }

  lemma TestWithoutColon(s: string, env: Env)
    requires Solid(s) && FindColon(s, 0) == None
    ensures ParseTest(s, env) == ParseRange(CutAtOps(s), env)
  {
    TrimSolid(s);
  }

  lemma PrintedBareTest(t: Test, env: Env, g: real -> string)
    requires t.said.Bare? && WellTest(t)
    ensures ParseTest(PrintTest(t, g), env) == Some(t)
  {
    var name := t.feature.name;
    NameText(t.feature);
    QuietFinds(name, "");
    TestWithoutColon(name, env);
    ReadIdentBefore(name, "", 40);
    assert name + "" == name && SkipWs("") == "";
  }

  lemma PrintedPlainTest(t: Test, env: Env, g: real -> string)
    requires t.said.Plain? && WellTest(t) && ShortTest(t) && PrintsDecimals(g)
    ensures ParseTest(PrintTest(t, g), env) == Reread(t, env, g)
  {
    var name, text := PrefixedName(t.said.minmax, t.feature.name), PrintValue(t.said.value, t.feature.kind, g);
    PlainReads(t.feature, t.said.minmax, " " + text, env);
    PlainText(t.said.minmax, t.feature, text, t.said.value, g);
    TestWithColon(name + (": " + text), |name|, env);
  }

  lemma TestWithColon(s: string, k: nat, env: Env)
    requires s != "" && Trim(s) == s && k < |s| && FindColon(s, 0) == Some(k)
    ensures ParseTest(s, env) == ParsePlain(s[..k], s[k + 1..], env)
  {
  }

  lemma PrintedComparedTest(t: Test, env: Env, g: real -> string)
    requires t.said.Compared? && WellTest(t) && ShortTest(t) && PrintsDecimals(g)
    ensures ParseTest(PrintTest(t, g), env) == Reread(t, env, g)
  {
    var name, op, text := t.feature.name, t.said.op, PrintValue(t.said.value, t.feature.kind, g);
    NameText(t.feature);
    ValueText(t.said.value, t.feature, g);
    ComparedReads(t.feature, op, " " + text, env);
    CutOne(name + " ", op, text);
    ComparedSolid(name, op, text);
    TestWithoutColon((name + " ") + (OpText(op) + (" " + text)), env);
  }

  lemma ComparedSolid(a: string, op: Op, b: string)
    requires Solid(a) && Solid(b)
    ensures Solid((a + " ") + (OpText(op) + (" " + b)))
  {
    var t := (a + " ") + (OpText(op) + (" " + b));
    assert t[0] == a[0] && t[|t| - 1] == b[|b| - 1];
  }

  lemma PrintedBetweenTest(t: Test, env: Env, g: real -> string)
    requires t.said.Between? && WellTest(t) && ShortTest(t) && PrintsDecimals(g)
    ensures ParseTest(PrintTest(t, g), env) == Reread(t, env, g)
  {
    var f, a, b := t.feature, PrintValue(t.said.low, t.feature.kind, g), PrintValue(t.said.high, t.feature.kind, g);
    NameText(f);
    ValueText(t.said.low, f, g);
    ValueText(t.said.high, f, g);
    BetweenReads(f, a + " ", t.said.op1, t.said.op2, " " + b, env);
    BetweenText(a, t.said.op1, f.name, t.said.op2, b, env);
  }

  lemma BetweenText(a: string, op1: Op, name: string, op2: Op, b: string, env: Env)
    requires Solid(a) && Quiet(a) && Quiet(name + " ") && Solid(b) && Quiet(b)
    ensures ParseTest((a + " ") + (OpText(op1) + ((" " + (name + " ")) + (OpText(op2) + (" " + b)))), env) ==
      ParseBetween(a + " ", op1, " " + (name + " "), op2, " " + b, env)
  {
    assert Quiet(a + " ");
    CutTwo(a + " ", op1, name + " ", op2, b);
    BetweenSolid(a, op1, name, op2, b);
    TestWithoutColon((a + " ") + (OpText(op1) + ((" " + (name + " ")) + (OpText(op2) + (" " + b)))), env);
  }

  lemma BetweenSolid(a: string, op1: Op, name: string, op2: Op, b: string)
    requires Solid(a) && Solid(b)
    ensures Solid((a + " ") + (OpText(op1) + ((" " + (name + " ")) + (OpText(op2) + (" " + b)))))
  {
    var t := (a + " ") + (OpText(op1) + ((" " + (name + " ")) + (OpText(op2) + (" " + b))));
    assert t[0] == a[0] && t[|t| - 1] == b[|b| - 1];
  }

  /** A printed feature is parsed by reading its values out of the printed text. */
  lemma TestRereads(t: Test, env: Env, g: real -> string)
    requires WellTest(t) && ShortTest(t) && PrintsDecimals(g)
    ensures ParseTest(PrintTest(t, g), env) == Reread(t, env, g)
  {
    match t.said
    case Bare => PrintedBareTest(t, env, g);
    case Plain(_, _) => PrintedPlainTest(t, env, g);
    case Compared(_, _) => PrintedComparedTest(t, env, g);
    case Between(_, _, _, _) => PrintedBetweenTest(t, env, g);
  }

  /** The text of a value, with the spaces printed around it, is read back exactly when it is printable. */
  lemma ValueRereads(v: Value, f: Feature, env: Env, g: real -> string)
    requires WellValue(v, f) && ShortValue(v, f.kind) && PrintsDecimals(g) && ReadsDecimals(env.number)
    ensures var text, r := PrintValue(v, f.kind, g), if PrintableValue(v, f.kind) then Some(v) else None;
      ParseValue(" " + text, f, env) == r && ParseValue(text + " ", f, env) == r
  {
    var text := PrintValue(v, f.kind, g);
    ValueText(v, f, g);
    TrimSolid(text);
    if PrintableValue(v, f.kind) {
      PrintedValue(" " + text, v, f, env, g);
      PrintedValue(text + " ", v, f, env, g);
    } else {
      LostValue(" " + text, v, f, env, g);
      LostValue(text + " ", v, f, env, g);
    }
  }

  /** A feature with short decimals, printed from what was parsed, is parsed back to the same exactly when
      it has no negative resolution; one that has is no feature any more. */
  lemma PrintedTest(t: Test, env: Env, g: real -> string)
    requires WellTest(t) && ShortTest(t) && PrintsDecimals(g) && ReadsDecimals(env.number)
    ensures ParseTest(PrintTest(t, g), env) == if PrintableTest(t) then Some(t) else None
  {
    TestRereads(t, env, g);
    match t.said
    case Bare =>
    case Plain(_, v) => ValueRereads(v, t.feature, env, g);
    case Compared(_, v) => ValueRereads(v, t.feature, env, g);
    case Between(_, low, _, high) =>
      ValueRereads(low, t.feature, env, g);
      ValueRereads(high, t.feature, env, g);
  }

  lemma PlainText(minmax: nat, f: Feature, text: string, v: Value, g: real -> string)
    requires minmax <= 2 && Lookup(f.name) == Some(f) && IdentText(f.name) && |f.name| < 40
    requires minmax != 0 ==> |f.name| + 4 < 40
    requires WellValue(v, f) && ShortValue(v, f.kind) && PrintsDecimals(g) && text == PrintValue(v, f.kind, g)
    ensures ColonCuts(PrefixedName(minmax, f.name), text)
  {
    ValueText(v, f, g);
    NamedText(minmax, f, text);
  }

  /** A name, a colon and a space are cut off the text that follows them. */
  predicate ColonCuts(name: string, text: string) {
    var s := name + (": " + text);
    && Trim(s) == s && FindColon(s, 0) == Some(|name|) && s[..|name|] == name && s[|name| + 1..] == " " + text
  }

  lemma NamedText(minmax: nat, f: Feature, text: string)
    requires minmax <= 2 && Lookup(f.name) == Some(f) && IdentText(f.name) && |f.name| < 40
    requires minmax != 0 ==> |f.name| + 4 < 40
    requires Quiet(text) && Solid(text)
    ensures ColonCuts(PrefixedName(minmax, f.name), text)
  {
    var name := PrefixedName(minmax, f.name);
    PrintedPrefix(minmax, f);
    IdentIsText(name);
    SolidColon(name, text);
  }

  lemma SolidColon(name: string, text: string)
    requires Quiet(name) && Solid(name) && Solid(text)
    ensures ColonCuts(name, text)
  {
    SolidText(name, ": " + text);
    ColonFinds(name, text);
    TrimSolid(name + (": " + text));
  }
}
