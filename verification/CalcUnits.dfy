/** Length units: where each stands in the table, and how they compare. */
module CalcUnits {
  import opened Ascii
  import opened Wrappers
  import opened Numbers
  import opened CalcValue
  import opened CalcEval
  import opened CalcMeaning
  import P = CssParser

  lemma AbsoluteRows()
    ensures |UNITS| > 6 && UNITS[0] == ("px", 0) && UNITS[1] == ("cm", 1) && UNITS[2] == ("mm", 2)
    ensures UNITS[3] == ("q", 3) && UNITS[4] == ("in", 4) && UNITS[5] == ("pt", 5) && UNITS[6] == ("pc", 6)
  {
    assert forall k :: 0 <= k < 7 ==> UNITS[k] == ABSOLUTE[k];
  }

  lemma FontRows()
    ensures |UNITS| > 12 && UNITS[7] == ("em", 7) && UNITS[8] == ("ex", 8) && UNITS[9] == ("ch", 9)
    ensures UNITS[10] == ("ic", 10) && UNITS[11] == ("cap", 11) && UNITS[12] == ("lh", 12)
  {
    var rest := OF_ROOT + (OF_VIEWPORT + OF_CONTAINER);
    assert UNITS == ABSOLUTE + (OF_FONT + rest) && |ABSOLUTE| == 7;
    assert forall k :: 0 <= k < 6 ==> UNITS[7 + k] == OF_FONT[k];
  }

  lemma RootRows()
    ensures |UNITS| > 18 && UNITS[13] == ("rem", 13) && UNITS[14] == ("rex", 14) && UNITS[15] == ("rch", 15)
    ensures UNITS[16] == ("ric", 16) && UNITS[17] == ("rcap", 17) && UNITS[18] == ("rlh", 18)
  {
    var rest := OF_VIEWPORT + OF_CONTAINER;
    assert UNITS == (ABSOLUTE + OF_FONT) + (OF_ROOT + rest) && |ABSOLUTE + OF_FONT| == 13;
    assert forall k :: 0 <= k < 6 ==> UNITS[13 + k] == OF_ROOT[k];
  }

  lemma ViewportRows()
    ensures |UNITS| > 20 && UNITS[19] == ("vw", 19) && UNITS[20] == ("vh", 20)
  {
    var front := ABSOLUTE + (OF_FONT + OF_ROOT);
    assert UNITS == front + (OF_VIEWPORT + OF_CONTAINER) && |front| == 19;
    assert OF_VIEWPORT[0] == ("vw", 19) && OF_VIEWPORT[1] == ("vh", 20);
  }

  /** The names differ in length, or in one of their first two letters. */
  predicate Differ(a: string, b: string) {
    |a| != |b| || (|a| > 0 && LowerChar(a[0]) != LowerChar(b[0])) || (|a| > 1 && LowerChar(a[1]) != LowerChar(b[1]))
  }

  lemma Step(name: string, i: nat, unit: string)
    requires i < |UNITS| && UNITS[i].0 == unit && Differ(name, unit)
    ensures UnitFrom(name, i) == UnitFrom(name, i + 1)
  {
  }

  lemma Here(name: string, i: nat, row: (string, nat))
    requires i < |UNITS| && UNITS[i] == row && SameName(name, row.0) && row.1 < LEN_COUNT
    ensures UnitFrom(name, i) == Some(row.1)
  {
  }

  // ---- the rows of the table ----

  lemma Px()
    ensures UnitFrom("px", 0) == Some(0)
  {
    AbsoluteRows();
    Here("px", 0, ("px", 0));
  }

  lemma Metric()
    ensures UnitFrom("cm", 0) == Some(1) && UnitFrom("mm", 0) == Some(2) && UnitFrom("q", 0) == Some(3)
  {
    AbsoluteRows();
    Step("cm", 0, "px");
    Here("cm", 1, ("cm", 1));
    Step("mm", 0, "px");
    Step("mm", 1, "cm");
    Here("mm", 2, ("mm", 2));
    Step("q", 0, "px");
    Step("q", 1, "cm");
    Step("q", 2, "mm");
    Here("q", 3, ("q", 3));
  }

  lemma BeforeInches(name: string)
    requires |name| == 2 && Differ(name, "px") && Differ(name, "cm") && Differ(name, "mm")
    ensures UnitFrom(name, 0) == UnitFrom(name, 4)
  {
    BeforeMetric(name);
    BeforeMore(name);
  }

  lemma BeforeMetric(name: string)
    requires Differ(name, "px") && Differ(name, "cm")
    ensures UnitFrom(name, 0) == UnitFrom(name, 2)
  {
    AbsoluteRows();
    Step(name, 0, "px");
    Step(name, 1, "cm");
  }

  lemma BeforeMore(name: string)
    requires |name| == 2 && Differ(name, "mm")
    ensures UnitFrom(name, 2) == UnitFrom(name, 4)
  {
    AbsoluteRows();
    Step(name, 2, "mm");
    Step(name, 3, "q");
  }

  lemma Imperial()
    ensures UnitFrom("in", 0) == Some(4) && UnitFrom("pt", 0) == Some(5) && UnitFrom("pc", 0) == Some(6)
  {
    AbsoluteRows();
    BeforeInches("in");
    Here("in", 4, ("in", 4));
    BeforeInches("pt");
    Step("pt", 4, "in");
    Here("pt", 5, ("pt", 5));
    BeforeInches("pc");
    Step("pc", 4, "in");
    Step("pc", 5, "pt");
    Here("pc", 6, ("pc", 6));
  }

  lemma PastAbsolute(name: string)
    requires |name| == 2 && LowerChar(name[0]) in "ev" && LowerChar(name[1]) != 'x'
    ensures UnitFrom(name, 0) == UnitFrom(name, 7)
  {
    AbsoluteRows();
    BeforeInches(name);
    Step(name, 4, "in");
    Step(name, 5, "pt");
    Step(name, 6, "pc");
  }

  lemma Em()
    ensures UnitFrom("em", 0) == Some(7)
  {
    PastAbsolute("em");
    FontRows();
    Here("em", 7, ("em", 7));
  }

  lemma PastFont(name: string)
    requires |name| == 2 && LowerChar(name[0]) == 'v'
    ensures UnitFrom(name, 7) == UnitFrom(name, 13)
  {
    FontRows();
    Step(name, 7, "em");
    Step(name, 8, "ex");
    Step(name, 9, "ch");
    FontRest(name);
  }

  lemma FontRest(name: string)
    requires |name| == 2 && LowerChar(name[0]) == 'v'
    ensures UnitFrom(name, 10) == UnitFrom(name, 13)
  {
    FontRows();
    Step(name, 10, "ic");
    Step(name, 11, "cap");
    Step(name, 12, "lh");
  }

  lemma PastRoot(name: string)
    requires |name| == 2
    ensures UnitFrom(name, 13) == UnitFrom(name, 19)
  {
    RootRows();
    Step(name, 13, "rem");
    Step(name, 14, "rex");
    Step(name, 15, "rch");
    RootRest(name);
  }

  lemma RootRest(name: string)
    requires |name| == 2
    ensures UnitFrom(name, 16) == UnitFrom(name, 19)
  {
    RootRows();
    Step(name, 16, "ric");
    Step(name, 17, "rcap");
    Step(name, 18, "rlh");
  }

  lemma ToViewport(name: string)
    requires |name| == 2 && LowerChar(name[0]) == 'v' && LowerChar(name[1]) != 'x'
    ensures UnitFrom(name, 0) == UnitFrom(name, 19)
  {
    PastAbsolute(name);
    PastFont(name);
    PastRoot(name);
  }

  lemma Vw()
    ensures UnitFrom("vw", 0) == Some(19)
  {
    ToViewport("vw");
    ViewportRows();
    Here("vw", 19, ("vw", 19));
  }

  lemma Vh()
    ensures UnitFrom("vh", 0) == Some(20)
  {
    ToViewport("vh");
    ViewportRows();
    Step("vh", 19, "vw");
    Here("vh", 20, ("vh", 20));
  }

  // ---- what they are worth ----

  /** A dimension is accepted as a length of so many px. */
  ghost predicate IsPx(x: real, unit: string, ctx: Option<Ctx>, px: real) {
    LeafWith(P.Dimension, unit, x).Some? &&
    forall basis :: Meaning(LeafWith(P.Dimension, unit, x).value, Env(UnitsOf(ctx), basis)) == px
  }

  lemma LengthIs(x: real, unit: string, row: nat, ctx: Option<Ctx>, px: real)
    requires UnitFrom(unit, 0) == Some(row) && row < LEN_COUNT && px == x * UnitsOf(ctx)[row]
    ensures IsPx(x, unit, ctx, px)
  {
    assert LeafWith(P.Dimension, unit, x) == Some(Len(row, x));
  }

  lemma AbsoluteSizes(ctx: Option<Ctx>)
    ensures var u := UnitsOf(ctx);
      u[0] == 1.0 && u[1] == 96.0 / 2.54 && u[2] == 96.0 / 25.4 && u[3] == 96.0 / 101.6 && u[4] == 96.0 &&
      u[5] == 96.0 / 72.0 && u[6] == 16.0
  {
  }

  /** One inch is 96px, 2.54cm, 25.4mm and 101.6q, with a context and without. */
  lemma InchIs(x: real, ctx: Option<Ctx>)
    ensures IsPx(x, "in", ctx, 96.0 * x) && IsPx(96.0 * x, "px", ctx, 96.0 * x)
    ensures IsPx(2.54 * x, "cm", ctx, 96.0 * x) && IsPx(25.4 * x, "mm", ctx, 96.0 * x)
    ensures IsPx(101.6 * x, "q", ctx, 96.0 * x)
  {
    AbsoluteSizes(ctx);
    Imperial();
    Px();
    Metric();
    LengthIs(x, "in", 4, ctx, 96.0 * x);
    LengthIs(96.0 * x, "px", 0, ctx, 96.0 * x);
    LengthIs(2.54 * x, "cm", 1, ctx, 96.0 * x);
    LengthIs(25.4 * x, "mm", 2, ctx, 96.0 * x);
    LengthIs(101.6 * x, "q", 3, ctx, 96.0 * x);
  }

  /** And 72pt and 6pc. */
  lemma PointsAre(x: real, ctx: Option<Ctx>)
    ensures IsPx(72.0 * x, "pt", ctx, 96.0 * x) && IsPx(6.0 * x, "pc", ctx, 96.0 * x)
  {
    AbsoluteSizes(ctx);
    Imperial();
    LengthIs(72.0 * x, "pt", 5, ctx, 96.0 * x);
    LengthIs(6.0 * x, "pc", 6, ctx, 96.0 * x);
  }

  lemma ContextSizes(c: Ctx)
    ensures var u := UnitsOf(Some(c));
      u[7] == c.fontSize && u[19] == c.viewportW / 100.0 && u[20] == c.viewportH / 100.0
  {
  }

  lemma Hundredth(w: real)
    ensures 100.0 * (w / 100.0) == w
  {
  }

  lemma HundredIs(unit: string, row: nat, ctx: Option<Ctx>, w: real)
    requires UnitFrom(unit, 0) == Some(row) && row < LEN_COUNT && UnitsOf(ctx)[row] == w / 100.0
    ensures IsPx(100.0, unit, ctx, w)
  {
    Hundredth(w);
    LengthIs(100.0, unit, row, ctx, w);
  }

  lemma WidthIs(c: Ctx)
    ensures IsPx(100.0, "vw", Some(c), c.viewportW)
  {
    ContextSizes(c);
    Vw();
    HundredIs("vw", 19, Some(c), c.viewportW);
  }

  lemma HeightIs(c: Ctx)
    ensures IsPx(100.0, "vh", Some(c), c.viewportH)
  {
    ContextSizes(c);
    Vh();
    HundredIs("vh", 20, Some(c), c.viewportH);
  }

  lemma EmIs(c: Ctx)
    ensures IsPx(1.0, "em", Some(c), c.fontSize)
  {
    ContextSizes(c);
    Em();
    LengthIs(1.0, "em", 7, Some(c), c.fontSize);
  }

  /** A hundred vw and vh are the viewport, one em the font size. */
  lemma ViewportIs(c: Ctx)
    ensures IsPx(100.0, "vw", Some(c), c.viewportW) && IsPx(100.0, "vh", Some(c), c.viewportH)
    ensures IsPx(1.0, "em", Some(c), c.fontSize)
  {
    WidthIs(c);
    HeightIs(c);
    EmIs(c);
  }
}
