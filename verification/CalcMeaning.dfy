/** What an accepted calc() expression is worth, in any environment. */
module CalcMeaning {
  import opened Numbers
  import opened Wrappers
  import opened CalcValue
  import opened CalcEval
  import opened CalcMachine
  import P = CssParser

  // ---- everything read is well formed ----

  lemma {:induction false} TermFormed(items: seq<P.Component>, pos: nat, end: nat, depth: nat)
    requires pos <= end <= |items|
    ensures var r := ReadTerm(items, pos, end, depth); r.Some? ==> WellFormed(r.value.0)
    decreases items, end - pos, 0
  {
    var p := SkipWs(items, pos, end);
    if p < end {
      var c := items[p];
      if c.kind == P.Block && c.delimiter == ')' {
        SumFormed(c.children, 0, |c.children|, depth + 1);
      } else if c.kind == P.Function {
        if SameName(c.value, "calc") && depth <= MAX_DEPTH && NoComma(c.children) {
          SumFormed(c.children, 0, |c.children|, depth + 1);
        }
      } else {
        LeafFormed(c);
      }
    }
  }

  lemma LeafFormed(c: P.Component)
    ensures LeafOf(c).Some? ==> WellFormed(LeafOf(c).value)
  {
    LeafWithFormed(c.kind, c.value, NumberValue(c.number));
  }

  lemma LeafWithFormed(kind: P.Kind, unit: string, x: real)
    ensures var leaf := LeafWith(kind, unit, x); leaf.Some? ==> WellFormed(leaf.value)
  {
    UnitBelow(unit, 0);
    PlainFormed(unit, x);
  }

  lemma PlainFormed(unit: string, x: real)
    ensures var leaf := PlainOf(unit, x);
            leaf.Some? ==> leaf.value.Plain? && leaf.value.kind != Length && leaf.value.kind != Percent
  {
  }

  lemma {:induction false} FactorsFormed(items: seq<P.Component>, pos: nat, end: nat, depth: nat, acc: Expr)
    requires pos <= end <= |items| && WellFormed(acc)
    ensures var r := ReadFactors(items, pos, end, depth, acc); r.Some? ==> WellFormed(r.value.0)
    decreases items, end - pos, 1
  {
    var p := SkipWs(items, pos, end);
    if p < end && IsOp(items[p], '*', '/') {
      TermFormed(items, p + 1, end, depth);
      var r := ReadTerm(items, p + 1, end, depth);
      if r.Some? {
        var t := r.value;
        FactorsFormed(items, t.1, end, depth, if items[p].delimiter == '*' then Mul(acc, t.0) else Div(acc, t.0));
      }
    }
  }

  lemma {:induction false} ProductFormed(items: seq<P.Component>, pos: nat, end: nat, depth: nat)
    requires pos <= end <= |items|
    ensures var r := ReadProduct(items, pos, end, depth); r.Some? ==> WellFormed(r.value.0)
    decreases items, end - pos, 2
  {
    TermFormed(items, pos, end, depth);
    var r := ReadTerm(items, pos, end, depth);
    if r.Some? {
      FactorsFormed(items, r.value.1, end, depth, r.value.0);
    }
  }

  lemma {:induction false} AddendsFormed(items: seq<P.Component>, pos: nat, end: nat, depth: nat, acc: Expr)
    requires pos <= end <= |items| && WellFormed(acc)
    ensures var r := ReadAddends(items, pos, end, depth, acc); r.Some? ==> WellFormed(r.value)
    decreases items, end - pos, 3
  {
    var p := SkipWs(items, pos, end);
    if p < end && IsOp(items[p], '+', '-') && p + 1 < end {
      ProductFormed(items, p + 1, end, depth);
      var r := ReadProduct(items, p + 1, end, depth);
      if r.Some? {
        var t := r.value;
        AddendsFormed(items, t.1, end, depth, if items[p].delimiter == '+' then Add(acc, t.0) else Sub(acc, t.0));
      }
    }
  }

  lemma {:induction false} SumFormed(items: seq<P.Component>, pos: nat, end: nat, depth: nat)
    requires pos <= end <= |items|
    ensures var r := ReadSum(items, pos, end, depth); r.Some? ==> WellFormed(r.value)
    decreases items, end - pos, 4
  {
    ProductFormed(items, pos, end, depth);
    var r := ReadProduct(items, pos, end, depth);
    if r.Some? {
      AddendsFormed(items, r.value.1, end, depth, r.value.0);
    }
  }

  /** If a sum is accepted, its symbolic value means the same as the expression in every
      environment, and a value of kind number carries no length or percentage term. */
  lemma AcceptedMeaning(items: seq<P.Component>, pos: nat, end: nat, depth: nat, env: Env)
    requires pos <= end <= |items|
    requires ReadSum(items, pos, end, depth).Some? && Compile(ReadSum(items, pos, end, depth).value).Some?
    ensures var e := ReadSum(items, pos, end, depth).value;
            var v := Compile(e).value;
            && Resolve(v, env) == Meaning(e, env)
            && (v.kind != Length ==> !HasLengths(v))
            && (v.kind == Number ==> !v.hasPercent && v.percent == 0.0 && Meaning(e, env) == v.number)
  {
    var e := ReadSum(items, pos, end, depth).value;
    SumFormed(items, pos, end, depth);
    CompileFaithful(e, env);
    if Compile(e).value.kind == Number {
      PureResolves(Compile(e).value, env);
    }
  }

  // ---- lengths in px ----

  datatype Ctx = Ctx(
    fontSize: real, rootFontSize: real, lineHeight: real, rootLineHeight: real,
    ex: real, ch: real, cap: real, ic: real, rootEx: real, rootCh: real, rootCap: real, rootIc: real,
    viewportW: real, viewportH: real, containerW: real, containerH: real)

  /** The px size of every length unit; units that need a context count nothing without one. */
  function UnitsOf(ctx: Option<Ctx>): Lengths
  {
    [1.0, 96.0 / 2.54, 96.0 / 25.4, 96.0 / 101.6, 96.0, 96.0 / 72.0, 16.0] +
    match ctx
    case None => seq(24, i => 0.0)
    case Some(c) =>
      [c.fontSize, c.ex, c.ch, c.ic, c.cap, c.lineHeight,
       c.rootFontSize, c.rootEx, c.rootCh, c.rootIc, c.rootCap, c.rootLineHeight,
       c.viewportW / 100.0, c.viewportH / 100.0, c.viewportW / 100.0, c.viewportH / 100.0,
       MinReal(c.viewportW, c.viewportH) / 100.0, MaxReal(c.viewportW, c.viewportH) / 100.0,
       c.containerW / 100.0, c.containerH / 100.0, c.containerW / 100.0, c.containerH / 100.0,
       MinReal(c.containerW, c.containerH) / 100.0, MaxReal(c.containerW, c.containerH) / 100.0]
  }

  /** The px value of the length terms: for an accepted sum of kind length without percentages,
      what the expression is worth. */
  method LengthPx(v: Value, ctx: Option<Ctx>) returns (px: real)
    ensures px == Dot(v.len, UnitsOf(ctx))
    ensures forall e, basis :: WellFormed(e) && Compile(e) == Some(v) && v.kind == Length && !v.hasPercent ==>
              px == Meaning(e, Env(UnitsOf(ctx), basis))
  {
    var units := UnitsOf(ctx);
    px := 0.0;
    assert v.len[..0] == [];
    for i := 0 to LEN_COUNT
      invariant px == Dot(v.len[..i], units)
    {
      DotMore(v.len, units, i);
      if v.len[i] != 0.0 {
        px := px + v.len[i] * units[i];
      }
    }
    assert v.len[..LEN_COUNT] == v.len;
    forall e, basis | WellFormed(e) && Compile(e) == Some(v) && v.kind == Length && !v.hasPercent
      ensures px == Meaning(e, Env(units, basis))
    {
      CompileFaithful(e, Env(units, basis));
    }
  }

  lemma {:induction false} DotMore(a: seq<real>, u: seq<real>, i: nat)
    requires i < |a| <= |u|
    ensures Dot(a[..i + 1], u) == Dot(a[..i], u) + a[i] * u[i]
    decreases i
  {
    if i > 0 {
      assert a[..i + 1][1..] == a[1..][..i] && a[..i][1..] == a[1..][..i - 1];
      DotMore(a[1..], u[1..], i - 1);
    }
  }
}
