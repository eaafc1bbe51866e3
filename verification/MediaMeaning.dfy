/** What media queries written in the usual ways mean: on the text of a list, without the tables and the
    comparisons of the evaluator. */
module MediaMeaning {
  import opened Ascii
  import opened Wrappers
  import opened Decimals
  import opened MediaText
  import opened MediaFeature
  import opened MediaFeatureRound
  import opened MediaQuery
  import opened MediaRound
  import opened MediaListRound

  // ---- prefixes ----

  /** A minimum is at least, a maximum at most, and no prefix equal. */
  lemma PrefixMeans(f: Feature, v: Value, env: Env)
    requires f.kind != Discrete
    ensures EvalTest(Test(f, Plain(1, v)), env) == EvalTest(Test(f, Compared(Ge, v)), env)
    ensures EvalTest(Test(f, Plain(2, v)), env) == EvalTest(Test(f, Compared(Le, v)), env)
    ensures EvalTest(Test(f, Plain(0, v)), env) == EvalTest(Test(f, Compared(Eq, v)), env)
  {
  }

  // ---- lengths as text ----

  /** A unit of lengths as it is written: a few small letters, not to be taken for an exponent. */
  predicate UnitText(u: string) {
    0 < |u| <= 7 && u[0] != 'e' && forall k :: 0 <= k < |u| ==> 'a' <= u[k] <= 'z'
  }

  function LengthText(n: int, places: nat, unit: string): string { Fixed(n, places) + unit }

  lemma UnitReads(u: string)
    requires UnitText(u)
    ensures UnitOf(u) == Some(u) && EndsNumber(u)
  {
    assert Lower(u) == u;
  }

  lemma LengthQuiet(n: int, places: nat, unit: string)
    requires UnitText(unit)
    ensures Quiet(LengthText(n, places, unit)) && Solid(LengthText(n, places, unit)) &&
        Flat(LengthText(n, places, unit))
    ensures !IsCalc(LengthText(n, places, unit))
  {
    FixedText(n, places);
    NumeralQuiet(Fixed(n, places));
    NumeralFlat(Fixed(n, places));
    JoinedText(Fixed(n, places), unit);
    assert Flat(unit);
    FlatConcat(Fixed(n, places), unit);
    NotCalc(LengthText(n, places, unit));
  }

  /** Written with white space around it, a length has the px its unit gives it. */
  lemma LengthReads(text: string, n: int, places: nat, unit: string, px: real, f: Feature, env: Env)
    requires UnitText(unit) && f.kind == Length && ReadsDecimals(env.number)
    requires Trim(text) == LengthText(n, places, unit) && LengthPx(Shifted(n as real, places), unit, env) == Some(px)
    ensures ParseValue(text, f, env) == Some(Num(px, 1.0))
  {
    LengthQuiet(n, places, unit);
    UnitReads(unit);
    assert env.number(Fixed(n, places) + unit) == Some(Number(Shifted(n as real, places), unit));
  }

  // ---- one feature in parentheses ----

  lemma BodyMatches(body: string, t: Test, env: Env)
    requires Flat(body) && Solid(body) && LowerChar(body[0]) != 'n' && ParseTest(body, env) == Some(t)
    ensures Matches("(" + (body + ")"), env) <==> EvalTest(t, env) == Yes
  {
    FlatSealed(body);
    FlatIsNoCondition(body, true, 2, Features(env));
    OneFeature(body, t, Features(env));
    OneMatches("(" + (body + ")"), t, env);
  }

  /** A length feature whose name is in small letters. */
  predicate LengthFeature(f: Feature) {
    Lookup(f.name) == Some(f) && f.kind == Length && IdentText(f.name) && |f.name| < 36 && f.name != "grid"
  }

  lemma PlainParses(f: Feature, minmax: nat, v: string, px: real, env: Env)
    requires LengthFeature(f) && minmax <= 2 && Quiet(v) && Solid(v) &&
        ParseValue(" " + v, f, env) == Some(Num(px, 1.0))
    ensures ParseTest(PrefixedName(minmax, f.name) + (": " + v), env) == Some(Test(f, Plain(minmax, Num(px, 1.0))))
  {
    var name := PrefixedName(minmax, f.name);
    NamedText(minmax, f, v);
    PlainReads(f, minmax, " " + v, env);
    TestWithColon(name + (": " + v), |name|, env);
  }

  lemma NameLead(f: Feature, minmax: nat)
    requires LengthFeature(f) && minmax <= 2
    ensures IdentText(PrefixedName(minmax, f.name)) && LowerChar(PrefixedName(minmax, f.name)[0]) != 'n'
  {
    PrintedPrefix(minmax, f);
    assert LowerChar(f.name[0]) == Lower(f.name)[0];
  }

  lemma PlainBody(f: Feature, minmax: nat, v: string)
    requires LengthFeature(f) && minmax <= 2 && Flat(v) && Solid(v)
    ensures var body := PrefixedName(minmax, f.name) + (": " + v);
      Flat(body) && Solid(body) && LowerChar(body[0]) != 'n'
  {
    var name := PrefixedName(minmax, f.name);
    NameLead(f, minmax);
    IdentFlat(name);
    IdentIsText(name);
    FlatConcat(": ", v);
    FlatConcat(name, ": " + v);
    SolidText(name, ": " + v);
  }

  /** A length feature with or without a prefix, a colon and a length. */
  lemma PlainMatches(f: Feature, minmax: nat, n: int, places: nat, unit: string, px: real, env: Env)
    requires LengthFeature(f) && minmax <= 2 && UnitText(unit) && ReadsDecimals(env.number)
    requires LengthPx(Shifted(n as real, places), unit, env) == Some(px)
    ensures Matches("(" + ((PrefixedName(minmax, f.name) + (": " + LengthText(n, places, unit))) + ")"), env)
       <==> EvalTest(Test(f, Plain(minmax, Num(px, 1.0))), env) == Yes
  {
    var v := LengthText(n, places, unit);
    LengthQuiet(n, places, unit);
    TrimSolid(v);
    LengthReads(" " + v, n, places, unit, px, f, env);
    PlainParses(f, minmax, v, px, env);
    PlainBody(f, minmax, v);
    BodyMatches(PrefixedName(minmax, f.name) + (": " + v), Test(f, Plain(minmax, Num(px, 1.0))), env);
  }

  // ---- what the text of a minimum and a maximum means ----

  function LengthNamed(name: string): Feature { Feature(name, Length, []) }

  lemma WidthIsLength()
    ensures LengthFeature(LengthNamed("width"))
  {
    assert Lower("width") == "width";
  }

  lemma HeightIsLength()
    ensures LengthFeature(LengthNamed("height"))
  {
    assert Lower("height") == "height";
  }

  lemma DeviceWidthIsLength()
    ensures LengthFeature(LengthNamed("device-width"))
  {
    assert Lower("device-width") == "device-width";
  }

  lemma DeviceHeightIsLength()
    ensures LengthFeature(LengthNamed("device-height"))
  {
    assert Lower("device-height") == "device-height";
  }

  /** The length that is written is worth so many px. */
  ghost predicate IsPx(n: int, places: nat, unit: string, px: real, env: Env) {
    UnitText(unit) && ReadsDecimals(env.number) && LengthPx(Shifted(n as real, places), unit, env) == Some(px)
  }

  lemma Shapes(name: string, v: string)
    ensures "(min-" + (name + (": " + (v + ")"))) == "(" + ((PrefixedName(1, name) + (": " + v)) + ")")
    ensures "(max-" + (name + (": " + (v + ")"))) == "(" + ((PrefixedName(2, name) + (": " + v)) + ")")
    ensures "(" + (name + (": " + (v + ")"))) == "(" + ((PrefixedName(0, name) + (": " + v)) + ")")
  {
    assert "(min-" == "(" + "min-" && "(max-" == "(" + "max-";
  }

  lemma SizeTruth(name: string, size: real, minmax: nat, px: real, env: Env)
    requires CurrentValue(name, env) == Some((size, 1.0)) && minmax <= 2
    ensures EvalTest(Test(LengthNamed(name), Plain(minmax, Num(px, 1.0))), env) == Yes <==>
      if minmax == 1 then size >= px else if minmax == 2 then size <= px else size == px
  {
  }

  lemma SizeMatches(name: string, size: real, n: int, places: nat, unit: string, px: real, env: Env)
    requires LengthFeature(LengthNamed(name)) && CurrentValue(name, env) == Some((size, 1.0))
    requires IsPx(n, places, unit, px, env)
    ensures var v := LengthText(n, places, unit) + ")";
      && (Matches("(min-" + (name + (": " + v)), env) <==> size >= px)
      && (Matches("(max-" + (name + (": " + v)), env) <==> size <= px)
      && (Matches("(" + (name + (": " + v)), env) <==> size == px)
  {
    var f := LengthNamed(name);
    Shapes(name, LengthText(n, places, unit));
    forall minmax: nat | minmax <= 2
      ensures Matches("(" + ((PrefixedName(minmax, name) + (": " + LengthText(n, places, unit))) + ")"), env)
         <==> if minmax == 1 then size >= px else if minmax == 2 then size <= px else size == px
    {
      PlainMatches(f, minmax, n, places, unit, px, env);
      SizeTruth(name, size, minmax, px, env);
    }
  }

  /** A minimum of the width, its maximum and the width itself ask for what they say. */
  lemma WidthMatches(n: int, places: nat, unit: string, px: real, env: Env)
    requires IsPx(n, places, unit, px, env)
    ensures var v := LengthText(n, places, unit) + ")";
      && (Matches("(min-" + ("width" + (": " + v)), env) <==> env.viewWidth >= px)
      && (Matches("(max-" + ("width" + (": " + v)), env) <==> env.viewWidth <= px)
      && (Matches("(" + ("width" + (": " + v)), env) <==> env.viewWidth == px)
  {
    WidthIsLength();
    SizeMatches("width", env.viewWidth, n, places, unit, px, env);
  }

  lemma HeightMatches(n: int, places: nat, unit: string, px: real, env: Env)
    requires IsPx(n, places, unit, px, env)
    ensures var v := LengthText(n, places, unit) + ")";
      && (Matches("(min-" + ("height" + (": " + v)), env) <==> env.viewHeight >= px)
      && (Matches("(max-" + ("height" + (": " + v)), env) <==> env.viewHeight <= px)
      && (Matches("(" + ("height" + (": " + v)), env) <==> env.viewHeight == px)
  {
    HeightIsLength();
    SizeMatches("height", env.viewHeight, n, places, unit, px, env);
  }

  lemma DeviceWidthMatches(n: int, places: nat, unit: string, px: real, env: Env)
    requires IsPx(n, places, unit, px, env)
    ensures var v := LengthText(n, places, unit) + ")";
      && (Matches("(min-" + ("device-width" + (": " + v)), env) <==> env.deviceWidth >= px)
      && (Matches("(max-" + ("device-width" + (": " + v)), env) <==> env.deviceWidth <= px)
  {
    DeviceWidthIsLength();
    SizeMatches("device-width", env.deviceWidth, n, places, unit, px, env);
  }

  lemma DeviceHeightMatches(n: int, places: nat, unit: string, px: real, env: Env)
    requires IsPx(n, places, unit, px, env)
    ensures var v := LengthText(n, places, unit) + ")";
      && (Matches("(min-" + ("device-height" + (": " + v)), env) <==> env.deviceHeight >= px)
      && (Matches("(max-" + ("device-height" + (": " + v)), env) <==> env.deviceHeight <= px)
  {
    DeviceHeightIsLength();
    SizeMatches("device-height", env.deviceHeight, n, places, unit, px, env);
  }

  /** One inch is 2.54cm, 25.4mm, 101.6q, 72pt, 6pc and 96px; a hundred vw are the width of the viewport. */
  lemma UnitRatios(x: real, env: Env)
    ensures LengthPx(x, "in", env) == Some(96.0 * x) == LengthPx(96.0 * x, "px", env)
    ensures LengthPx(2.54 * x, "cm", env) == Some(96.0 * x) == LengthPx(25.4 * x, "mm", env)
    ensures LengthPx(101.6 * x, "q", env) == Some(96.0 * x) == LengthPx(72.0 * x, "pt", env)
    ensures LengthPx(6.0 * x, "pc", env) == Some(96.0 * x)
    ensures LengthPx(100.0, "vw", env) == Some(env.viewWidth) && LengthPx(100.0, "vh", env) == Some(env.viewHeight)
    ensures UnitText("px") && UnitText("in") && UnitText("cm") && UnitText("mm") && UnitText("pt") && UnitText("pc")
  {
  }

  // ---- comparisons ----

  lemma ComparedParses(f: Feature, op: Op, v: string, px: real, env: Env)
    requires LengthFeature(f) && Quiet(v) && Solid(v) && ParseValue(" " + v, f, env) == Some(Num(px, 1.0))
    ensures ParseTest((f.name + " ") + (OpText(op) + (" " + v)), env) == Some(Test(f, Compared(op, Num(px, 1.0))))
  {
    NameText(f);
    ComparedReads(f, op, " " + v, env);
    CutOne(f.name + " ", op, v);
    ComparedSolid(f.name, op, v);
    TestWithoutColon((f.name + " ") + (OpText(op) + (" " + v)), env);
  }

  lemma ComparedBody(a: string, op: Op, b: string)
    requires Flat(a) && Solid(a) && Flat(b) && Solid(b) && LowerChar(a[0]) != 'n'
    ensures var body := (a + " ") + (OpText(op) + (" " + b));
      Flat(body) && Solid(body) && LowerChar(body[0]) != 'n'
  {
    ComparedFlat(a, op, b);
    ComparedSolid(a, op, b);
  }

  lemma ComparedMatches(f: Feature, op: Op, n: int, places: nat, unit: string, px: real, env: Env)
    requires LengthFeature(f) && IsPx(n, places, unit, px, env)
    ensures Matches("(" + (((f.name + " ") + (OpText(op) + (" " + LengthText(n, places, unit)))) + ")"), env)
       <==> EvalTest(Test(f, Compared(op, Num(px, 1.0))), env) == Yes
  {
    var v := LengthText(n, places, unit);
    LengthQuiet(n, places, unit);
    TrimSolid(v);
    LengthReads(" " + v, n, places, unit, px, f, env);
    ComparedParses(f, op, v, px, env);
    NameText(f);
    NameLead(f, 0);
    IdentFlat(f.name);
    ComparedBody(f.name, op, v);
    BodyMatches((f.name + " ") + (OpText(op) + (" " + v)), Test(f, Compared(op, Num(px, 1.0))), env);
  }

  /** What a sign of comparison says of two numbers. */
  predicate Says(sign: string, a: real, b: real) {
    match sign
    case "<" => a < b
    case "<=" => a <= b
    case ">" => a > b
    case ">=" => a >= b
    case "=" => a == b
    case _ => false
  }

  lemma OpSays(name: string, size: real, op: Op, px: real, env: Env)
    requires CurrentValue(name, env) == Some((size, 1.0))
    ensures EvalTest(Test(LengthNamed(name), Compared(op, Num(px, 1.0))), env) == Yes <==> Says(OpText(op), size, px)
    ensures EvalTest(Test(LengthNamed(name), Compared(Flipped(op), Num(px, 1.0))), env) == Yes
       <==> Says(OpText(op), px, size)
  {
  }

  /** The width compared with a length, by any sign. */
  lemma WidthCompared(op: Op, n: int, places: nat, unit: string, px: real, env: Env)
    requires IsPx(n, places, unit, px, env)
    ensures Matches("(" + ((("width" + " ") + (OpText(op) + (" " + LengthText(n, places, unit)))) + ")"), env)
       <==> Says(OpText(op), env.viewWidth, px)
  {
    WidthIsLength();
    ComparedMatches(LengthNamed("width"), op, n, places, unit, px, env);
    OpSays("width", env.viewWidth, op, px, env);
  }

  lemma HeightCompared(op: Op, n: int, places: nat, unit: string, px: real, env: Env)
    requires IsPx(n, places, unit, px, env)
    ensures Matches("(" + ((("height" + " ") + (OpText(op) + (" " + LengthText(n, places, unit)))) + ")"), env)
       <==> Says(OpText(op), env.viewHeight, px)
  {
    HeightIsLength();
    ComparedMatches(LengthNamed("height"), op, n, places, unit, px, env);
    OpSays("height", env.viewHeight, op, px, env);
  }

  // ---- the value first ----

  lemma NumberIsNoFeature(v: string)
    requires Solid(v) && (v[0] == '-' || IsDigit(v[0]))
    ensures SideFeature(v + " ") == None
  {
    TrimSolid(v);
    if ReadIdent(v, 40).Some? && ReadIdent(v, 40).value.rest == "" {
      var ident := ReadIdent(v, 40).value.ident;
      assert IdentLength(v) == |v| && v[..|v|] == v && ident == Lower(v) && ident[0] == v[0];
    }
  }

  lemma LengthLead(n: int, places: nat, unit: string)
    requires UnitText(unit)
    ensures var v := LengthText(n, places, unit); v != "" && (v[0] == '-' || IsDigit(v[0])) && LowerChar(v[0]) != 'n'
  {
    FixedText(n, places);
    assert LengthText(n, places, unit)[0] == Fixed(n, places)[0];
  }

  lemma FlippedParses(f: Feature, op: Op, v: string, px: real, env: Env)
    requires LengthFeature(f) && Quiet(v) && Solid(v) && (v[0] == '-' || IsDigit(v[0]))
    requires ParseValue(v + " ", f, env) == Some(Num(px, 1.0))
    ensures ParseTest((v + " ") + (OpText(op) + (" " + f.name)), env) ==
        Some(Test(f, Compared(Flipped(op), Num(px, 1.0))))
  {
    NameText(f);
    TrimSolid(f.name);
    NumberIsNoFeature(v);
    PrintedSide(" " + f.name, f);
    SpaceBehind(v);
    CutOne(v + " ", op, f.name);
    ComparedSolid(v, op, f.name);
    TestWithoutColon((v + " ") + (OpText(op) + (" " + f.name)), env);
  }

  lemma SpaceBehind(v: string)
    requires Quiet(v)
    ensures Quiet(v + " ")
  {
  }

  /** A length compared with the width, by any sign. */
  lemma ComparedWidth(op: Op, n: int, places: nat, unit: string, px: real, env: Env)
    requires IsPx(n, places, unit, px, env)
    ensures Matches("(" + (((LengthText(n, places, unit) + " ") + (OpText(op) + (" " + "width"))) + ")"), env)
       <==> Says(OpText(op), px, env.viewWidth)
  {
    var v, f := LengthText(n, places, unit), LengthNamed("width");
    WidthIsLength();
    LengthQuiet(n, places, unit);
    LengthLead(n, places, unit);
    TrimSolid(v);
    LengthReads(v + " ", n, places, unit, px, f, env);
    FlippedParses(f, op, v, px, env);
    NameText(f);
    IdentFlat(f.name);
    ComparedBody(v, op, f.name);
    BodyMatches((v + " ") + (OpText(op) + (" " + f.name)), Test(f, Compared(Flipped(op), Num(px, 1.0))), env);
    OpSays("width", env.viewWidth, op, px, env);
  }

  // ---- two comparisons ----

  lemma BetweenSays(name: string, size: real, op1: Op, low: real, op2: Op, high: real, env: Env)
    requires CurrentValue(name, env) == Some((size, 1.0))
    ensures EvalTest(Test(LengthNamed(name), Between(op1, Num(low, 1.0), op2, Num(high, 1.0))), env) == Yes
       <==> Says(OpText(op1), low, size) && Says(OpText(op2), size, high)
  {
  }

  function BetweenForm(a: string, op1: Op, name: string, op2: Op, b: string): string {
    (a + " ") + (OpText(op1) + ((" " + (name + " ")) + (OpText(op2) + (" " + b))))
  }

  lemma BetweenParses(f: Feature, a: string, op1: Op, op2: Op, b: string, low: real, high: real, env: Env)
    requires LengthFeature(f) && Quiet(a) && Solid(a) && Quiet(b) && Solid(b)
    requires (Below(op1) && Below(op2)) || (Above(op1) && Above(op2))
    requires ParseValue(a + " ", f, env) == Some(Num(low, 1.0)) && ParseValue(" " + b, f, env) == Some(Num(high, 1.0))
    ensures ParseTest(BetweenForm(a, op1, f.name, op2, b), env) ==
        Some(Test(f, Between(op1, Num(low, 1.0), op2, Num(high, 1.0))))
  {
    NameText(f);
    BetweenReads(f, a + " ", op1, op2, " " + b, env);
    BetweenText(a, op1, f.name, op2, b, env);
  }

  /** The width between two lengths. */
  lemma WidthBetween(n: int, places: nat, unit: string, low: real, op1: Op, op2: Op,
                     m: int, places': nat, unit': string, high: real, env: Env)
    requires IsPx(n, places, unit, low, env) && IsPx(m, places', unit', high, env)
    requires (Below(op1) && Below(op2)) || (Above(op1) && Above(op2))
    ensures var body := BetweenForm(LengthText(n, places, unit), op1, "width", op2, LengthText(m, places', unit'));
      Matches("(" + (body + ")"), env)
      <==> Says(OpText(op1), low, env.viewWidth) && Says(OpText(op2), env.viewWidth, high)
  {
    var a, b, f := LengthText(n, places, unit), LengthText(m, places', unit'), LengthNamed("width");
    WidthIsLength();
    LengthQuiet(n, places, unit);
    LengthQuiet(m, places', unit');
    LengthLead(n, places, unit);
    TrimSolid(a);
    TrimSolid(b);
    LengthReads(a + " ", n, places, unit, low, f, env);
    LengthReads(" " + b, m, places', unit', high, f, env);
    BetweenParses(f, a, op1, op2, b, low, high, env);
    IdentFlat(f.name);
    BetweenFlat(a, op1, f.name, op2, b);
    BetweenSolid(a, op1, f.name, op2, b);
    BodyMatches(BetweenForm(a, op1, f.name, op2, b), Test(f, Between(op1, Num(low, 1.0), op2, Num(high, 1.0))), env);
    BetweenSays("width", env.viewWidth, op1, low, op2, high, env);
  }

  // ---- other features ----

  lemma PrintedTruth(t: Test, env: Env)
    requires WellTest(t) && PrintableTest(t) && ReadsDecimals(env.number)
    ensures Matches("(" + (PrintTest(t, PrintDecimal) + ")"), env) <==> EvalTest(t, env) == Yes
  {
    ShortIfPrintable(t);
    PrintDecimalPrints();
    PrintedTest(t, env, PrintDecimal);
    TestFlat(t, PrintDecimal);
    TestSolid(t, PrintDecimal);
    BodyMatches(PrintTest(t, PrintDecimal), t, env);
  }

  lemma ShortIfPrintable(t: Test)
    requires PrintableTest(t)
    ensures ShortTest(t)
  {
  }

  lemma KeywordTruth(name: string, keyword: string, env: Env)
    requires IdentText(name) && |name| < 40 && KindOf(name) == Some(Discrete)
    requires IdentText(keyword) && |keyword| < 24 && keyword in Keywords(name) && ReadsDecimals(env.number)
    ensures Matches("(" + ((name + (": " + keyword)) + ")"), env) <==> CurrentKeyword(name, env) == Some(keyword)
  {
    var t := Test(Feature(name, Discrete, Keywords(name)), Plain(0, Ident(keyword)));
    PrintedTruth(t, env);
    assert PrintTest(t, PrintDecimal) == name + (": " + keyword);
  }

  /** Landscape is at least as wide as high, portrait is not. */
  lemma OrientationMatches(env: Env)
    requires ReadsDecimals(env.number)
    ensures Matches("(" + (("orientation" + (": " + "landscape")) + ")"), env) <==> env.viewWidth >= env.viewHeight
    ensures Matches("(" + (("orientation" + (": " + "portrait")) + ")"), env) <==> env.viewWidth < env.viewHeight
  {
    assert Lower("orientation") == "orientation" && Lower("landscape") == "landscape" &&
        Lower("portrait") == "portrait";
    KeywordTruth("orientation", "landscape", env);
    KeywordTruth("orientation", "portrait", env);
  }

  /** A feature of keywords whose current keyword is as given. */
  ghost predicate Chosen(name: string, keyword: string, env: Env, chosen: bool) {
    && IdentText(name) && |name| < 40 && KindOf(name) == Some(Discrete)
    && IdentText(keyword) && |keyword| < 24 && keyword in Keywords(name)
    && (CurrentKeyword(name, env) == Some(keyword) <==> chosen)
  }

  lemma ChosenMatches(name: string, keyword: string, env: Env, chosen: bool)
    requires Chosen(name, keyword, env, chosen) && ReadsDecimals(env.number)
    ensures Matches("(" + ((name + (": " + keyword)) + ")"), env) <==> chosen
  {
    KeywordTruth(name, keyword, env);
  }

  lemma DarkChosen(env: Env)
    ensures Chosen("prefers-color-scheme", "dark", env, env.dark)
  {
    SchemeName();
    assert Lower("dark") == "dark";
  }

  lemma SchemeName()
    ensures Lower("prefers-color-scheme") == "prefers-color-scheme"
  {
  }

  lemma LightChosen(env: Env)
    ensures Chosen("prefers-color-scheme", "light", env, !env.dark)
  {
    SchemeName();
    assert Lower("light") == "light";
  }

  /** The scheme the user prefers, and whether motion is to be reduced. */
  lemma SchemeMatches(env: Env)
    requires ReadsDecimals(env.number)
    ensures Matches("(" + (("prefers-color-scheme" + (": " + "dark")) + ")"), env) <==> env.dark
    ensures Matches("(" + (("prefers-color-scheme" + (": " + "light")) + ")"), env) <==> !env.dark
  {
    DarkChosen(env);
    LightChosen(env);
    ChosenMatches("prefers-color-scheme", "dark", env, env.dark);
    ChosenMatches("prefers-color-scheme", "light", env, !env.dark);
  }

  lemma ReducedChosen(env: Env)
    ensures Chosen("prefers-reduced-motion", "reduce", env, env.reduce)
  {
    MotionName();
    ReduceName();
  }

  lemma MotionName()
    ensures Lower("prefers-reduced-motion") == "prefers-reduced-motion"
  {
  }

  lemma ReduceName()
    ensures Lower("reduce") == "reduce"
  {
  }

  lemma ReducedMatches(env: Env)
    requires ReadsDecimals(env.number)
    ensures Matches("(" + (("prefers-reduced-motion" + (": " + "reduce")) + ")"), env) <==> env.reduce
  {
    ReducedChosen(env);
    ChosenMatches("prefers-reduced-motion", "reduce", env, env.reduce);
  }

  lemma RatioKnown(f: Feature)
    requires f == Feature("aspect-ratio", Ratio, [])
    ensures Lookup(f.name) == Some(f) && IdentText(f.name) && |f.name| < 36 && Comparable(f)
  {
    assert Lower("aspect-ratio") == "aspect-ratio";
  }

  lemma RatioTruth(t: Test, a: real, b: real, env: Env)
    requires t == Test(Feature("aspect-ratio", Ratio, []), Plain(1, Num(a, b)))
    ensures EvalTest(t, env) == Yes <==> env.viewWidth * b >= a * env.viewHeight
  {
  }

  lemma RatioText(t: Test, a: nat, b: nat)
    requires a < 1000000 && b < 1000000
    requires t == Test(Feature("aspect-ratio", Ratio, []), Plain(1, Num(a as real, b as real)))
    ensures PrintTest(t, PrintDecimal) == "min-aspect-ratio" + (": " + (Decimal(a) + (" / " + Decimal(b))))
  {
    WholeShort(a);
    WholeShort(b);
    assert "min-" + "aspect-ratio" == "min-aspect-ratio";
  }

  lemma RatioWell(t: Test, a: nat, b: nat)
    requires a < 1000000 && b < 1000000
    requires t == Test(Feature("aspect-ratio", Ratio, []), Plain(1, Num(a as real, b as real)))
    ensures ReadBack(t)
  {
    RatioKnown(t.feature);
    WholeShort(a);
    WholeShort(b);
  }

  /** The test is printed as this text, which is read again, and means this. */
  ghost predicate Shows(t: Test, text: string, truth: bool, env: Env) {
    ReadBack(t) && PrintTest(t, PrintDecimal) == text && (EvalTest(t, env) == Yes <==> truth)
  }

  ghost predicate ReadBack(t: Test) { WellTest(t) && PrintableTest(t) }

  lemma ShownMatches(t: Test, text: string, truth: bool, env: Env)
    requires Shows(t, text, truth, env) && ReadsDecimals(env.number)
    ensures Matches("(" + (text + ")"), env) <==> truth
  {
    PrintedTruth(t, env);
  }

  lemma RatioShows(t: Test, text: string, truth: bool, a: nat, b: nat, env: Env)
    requires a < 1000000 && b < 1000000
    requires t == Test(Feature("aspect-ratio", Ratio, []), Plain(1, Num(a as real, b as real)))
    requires text == "min-aspect-ratio" + (": " + (Decimal(a) + (" / " + Decimal(b))))
    requires truth == (env.viewWidth * b as real >= a as real * env.viewHeight)
    ensures Shows(t, text, truth, env)
  {
    RatioTruth(t, a as real, b as real, env);
    RatioWritten(t, text, truth, a, b, env);
  }

  lemma RatioWritten(t: Test, text: string, truth: bool, a: nat, b: nat, env: Env)
    requires a < 1000000 && b < 1000000 && (EvalTest(t, env) == Yes <==> truth)
    requires t == Test(Feature("aspect-ratio", Ratio, []), Plain(1, Num(a as real, b as real)))
    requires text == "min-aspect-ratio" + (": " + (Decimal(a) + (" / " + Decimal(b))))
    ensures Shows(t, text, truth, env)
  {
    RatioText(t, a, b);
    RatioKept(t, text, truth, a, b, env);
  }

  lemma RatioKept(t: Test, text: string, truth: bool, a: nat, b: nat, env: Env)
    requires a < 1000000 && b < 1000000 && (EvalTest(t, env) == Yes <==> truth)
    requires t == Test(Feature("aspect-ratio", Ratio, []), Plain(1, Num(a as real, b as real)))
    requires PrintTest(t, PrintDecimal) == text
    ensures Shows(t, text, truth, env)
  {
    RatioWell(t, a, b);
  }

  lemma RatioTest(text: string, truth: bool, a: nat, b: nat, env: Env)
    requires a < 1000000 && b < 1000000
    requires text == "min-aspect-ratio" + (": " + (Decimal(a) + (" / " + Decimal(b))))
    requires truth == (env.viewWidth * b as real >= a as real * env.viewHeight)
    ensures exists t :: Shows(t, text, truth, env)
  {
    var t := Test(Feature("aspect-ratio", Ratio, []), Plain(1, Num(a as real, b as real)));
    RatioShows(t, text, truth, a, b, env);
  }

  /** A minimal ratio of width to height. */
  lemma RatioMatches(a: nat, b: nat, env: Env)
    requires a < 1000000 && b < 1000000 && ReadsDecimals(env.number)
    ensures Matches("(" + (("min-aspect-ratio" + (": " + (Decimal(a) + (" / " + Decimal(b))))) + ")"), env)
       <==> env.viewWidth * b as real >= a as real * env.viewHeight
  {
    var text := "min-aspect-ratio" + (": " + (Decimal(a) + (" / " + Decimal(b))));
    var truth := env.viewWidth * b as real >= a as real * env.viewHeight;
    RatioTest(text, truth, a, b, env);
    var t :| Shows(t, text, truth, env);
    ShownMatches(t, text, truth, env);
  }

  lemma WholeShort(a: nat)
    requires a < 1000000
    ensures Short(a as real) && SmallInt(a as real) && PrintDecimal(a as real) == Decimal(a)
  {
    assert Scaled(a as real, 0) == a as real && (a as real).Floor == a;
  }

  // ---- conditions: what is unknown may be either ----

  /** What a condition can be, when every part that is not known may be true or false. */
  ghost predicate CanBe(n: Node, b: bool, env: Env)
    decreases n
  {
    match n
    case Enclosed(_) => true
    case Feat(t) => EvalTest(t, env) == Dunno || (b <==> EvalTest(t, env) == Yes)
    case NotN(k) => CanBe(k, !b, env)
    case AndN(ks) =>
      if b then forall i :: 0 <= i < |ks| ==> CanBe(ks[i], true, env)
      else exists i :: 0 <= i < |ks| && CanBe(ks[i], false, env)
    case OrN(ks) =>
      if b then exists i :: 0 <= i < |ks| && CanBe(ks[i], true, env)
      else forall i :: 0 <= i < |ks| ==> CanBe(ks[i], false, env)
  }

  /** The value is the one the condition cannot but have. */
  ghost predicate Settled(n: Node, v: Tri, env: Env) {
    && (v == Yes <==> !CanBe(n, false, env)) && (v == No <==> !CanBe(n, true, env))
  }

  lemma {:induction false} AllSettled(ks: seq<Node>, env: Env)
    requires forall i :: 0 <= i < |ks| ==> Settled(ks[i], Meaning(ks[i], env), env)
    ensures MeansAll(ks, env) == Yes <==> forall i :: 0 <= i < |ks| ==> !CanBe(ks[i], false, env)
    ensures MeansAll(ks, env) == No <==> exists i :: 0 <= i < |ks| && !CanBe(ks[i], true, env)
  {
    if ks != [] {
      var front := ks[..|ks| - 1];
      AllSettled(front, env);
      assert Settled(ks[|ks| - 1], Meaning(ks[|ks| - 1], env), env);
    }
  }

  lemma {:induction false} AnySettled(ks: seq<Node>, env: Env)
    requires forall i :: 0 <= i < |ks| ==> Settled(ks[i], Meaning(ks[i], env), env)
    ensures MeansAny(ks, env) == No <==> forall i :: 0 <= i < |ks| ==> !CanBe(ks[i], true, env)
    ensures MeansAny(ks, env) == Yes <==> exists i :: 0 <= i < |ks| && !CanBe(ks[i], false, env)
  {
    if ks != [] {
      var front := ks[..|ks| - 1];
      AnySettled(front, env);
      assert Settled(ks[|ks| - 1], Meaning(ks[|ks| - 1], env), env);
    }
  }

  /** The three-valued value of a condition is true, or false, exactly when it can be nothing else. */
  lemma {:induction false} MeaningSettled(n: Node, env: Env)
    ensures Settled(n, Meaning(n, env), env)
    decreases n
  {
    match n
    case NotN(k) => MeaningSettled(k, env);
    case AndN(ks) =>
      forall i | 0 <= i < |ks| ensures Settled(ks[i], Meaning(ks[i], env), env) { MeaningSettled(ks[i], env); }
      AllSettled(ks, env);
    case OrN(ks) =>
      forall i | 0 <= i < |ks| ensures Settled(ks[i], Meaning(ks[i], env), env) { MeaningSettled(ks[i], env); }
      AnySettled(ks, env);
    case _ =>
  }

  // ---- queries and lists ----

  predicate TypeFits(name: string, env: Env) {
    name == "all" || (name == "print" && env.printing) || (name == "screen" && !env.printing)
  }

  /** A query asks for a condition that cannot be false; or for a media type, and such a condition perhaps;
      or for the contrary. */
  ghost predicate Holds(q: Query, env: Env) {
    match q
    case Invalid => false
    case Conditional(c) => !CanBe(c, false, env)
    case Typed(name, negated, _, tail) =>
      if negated then !TypeFits(name, env) || (tail.Some? && !CanBe(tail.value, true, env))
      else TypeFits(name, env) && (tail.Some? ==> !CanBe(tail.value, false, env))
  }

  lemma QueryHolds(q: Query, env: Env)
    requires WellQuery(q)
    ensures EvalQuery(q, env) == Yes <==> Holds(q, env)
  {
    match q
    case Invalid =>
    case Conditional(c) =>
      EvalIsMeaning(c, 0, 0, env);
      MeaningSettled(c, env);
    case Typed(name, negated, _, tail) =>
      if tail.Some? {
        EvalIsMeaning(tail.value, 0, 0, env);
        MeaningSettled(tail.value, env);
      }
  }

  /** A list matches if it is empty or some query of it holds. */
  lemma MatchesMeans(text: string, env: Env)
    ensures Matches(text, env) <==>
      SkipWs(text) == "" || exists q <- Queries(SkipWs(text), Features(env)) :: Holds(q, env)
  {
    forall s | Features(env)(s).Some? ensures WellTest(Features(env)(s).value) { ParseTestWell(s, env); }
    QueriesWell(SkipWs(text), Features(env));
    var qs := Queries(SkipWs(text), Features(env));
    forall q <- qs ensures EvalQuery(q, env) == Yes <==> Holds(q, env) {
      var i :| 0 <= i < |qs| && qs[i] == q;
      QueryHolds(q, env);
    }
  }

  /** Two texts with a comma between them match when one of them does. */
  lemma CommaMatches(a: string, b: string, env: Env)
    requires Sealed(a) && Solid(a) && Solid(b)
    ensures Matches(a + ("," + b), env) <==> Matches(a, env) || Matches(b, env)
  {
    var parse := Features(env);
    var s := a + ("," + b);
    FirstQuery("", a, "," + b, parse);
    FirstQuery("", a, "", parse);
    assert "" + s == s && ("," + b)[1..] == b && "" + (a + "") == a;
    assert SkipWs(s) == s && SkipWs(a) == a && SkipWs(b) == b;
    assert Queries(s, parse) == [ParseQuery(a, parse)] + Queries(b, parse);
    assert Queries(a, parse) == [ParseQuery(a, parse)] + Queries("", parse) == [ParseQuery(a, parse)];
  }
}
