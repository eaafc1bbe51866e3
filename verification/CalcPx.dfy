/** Lengths in px written down, added and subtracted. */
module CalcPx {
  import opened Wrappers
  import opened CssNumbers
  import opened CssPrinted
  import opened CalcValue
  import opened CalcEval
  import opened CalcMachine
  import opened CalcMeaning
  import opened CalcText
  import N = CalcNumbers
  import P = CssParser
  import U = CalcUnits

  function Both(a: Numeral, minus: bool, b: Numeral): Calc {
    if minus then Diff(Val(a, "px"), Val(b, "px")) else Sum(Val(a, "px"), Val(b, "px"))
  }

  lemma PxLeaf(n: Numeral)
    requires IsNumeral(n)
    ensures LeafExpr(n, "px") == Some(Len(0, N.NumeralValue(n))) && LeafPiece(n, "px") == Dim(n, "px")
  {
    U.Px();
  }

  /** Both lengths are known, and both pieces are written so that they are read again. */
  lemma BothWritten(a: Numeral, minus: bool, b: Numeral)
    requires IsNumeral(a) && IsNumeral(b)
    ensures var c := Both(a, minus, b);
      && Known(c) && Clean(c) && Within(SumPieces(c), MAX_DEPTH)
      && SumPieces(c) == [Dim(a, "px")] + ([Mark(if minus then '-' else '+')] + [Dim(b, "px")])
  {
    PxLeaf(a);
    PxLeaf(b);
    assert SumPieces(Val(a, "px")) == ProductPieces(Val(a, "px")) == [TermPiece(Val(a, "px"))];
    assert ProductPieces(Val(b, "px")) == [TermPiece(Val(b, "px"))];
  }

  lemma BothMean(a: Numeral, minus: bool, b: Numeral, env: Env)
    requires IsNumeral(a) && IsNumeral(b) && env.units[0] == 1.0 && Known(Both(a, minus, b))
    ensures var e, x, y := ExprOf(Both(a, minus, b)), N.NumeralValue(a), N.NumeralValue(b);
      && Compile(e).Some? && Compile(e).value.kind == Length && !Compile(e).value.hasPercent && WellFormed(e)
      && Meaning(e, env) == if minus then x - y else x + y
  {
    PxLeaf(a);
    PxLeaf(b);
  }

  /** Two lengths in px, signed as they may be, written with a plus or a minus between them: the text is
      accepted and worth the sum or the difference of what their numbers are worth. */
  method PxValue(a: Numeral, minus: bool, b: Numeral, ctx: Option<Ctx>) returns (ok: bool, px: real)
    requires IsNumeral(a) && IsNumeral(b)
    ensures ok && px == if minus then N.NumeralValue(a) - N.NumeralValue(b) else N.NumeralValue(a) + N.NumeralValue(b)
  {
    BothWritten(a, minus, b);
    BothMean(a, minus, b, Env(UnitsOf(ctx), 0.0));
    var out;
    out, ok := EvaluateText(Both(a, minus, b));
    px := LengthPx(out.Val(), ctx);
  }
}
