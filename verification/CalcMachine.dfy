/** The evaluator as it runs: accumulators changed in place, a cursor over component values. */
module CalcMachine {
  import opened Wrappers
  import opened CalcValue
  import opened CalcEval
  import P = CssParser

  class MathValue {
    var kind: Option<Kind>   // none while invalid
    var number: real
    var percent: real
    var hasPercent: bool
    const len: array<real>

    constructor ()
      ensures Valid() && fresh(len) && kind == None
    {
      kind, number, percent, hasPercent := None, 0.0, 0.0, false;
      len := new real[LEN_COUNT](i => 0.0);
    }

    predicate Valid()
      reads this
    {
      len.Length == LEN_COUNT
    }

    function Val(): Value
      requires Valid() && kind.Some?
      reads this, len
    {
      Value(kind.value, number, percent, hasPercent, len[..])
    }

    method IsZeroValue() returns (b: bool)
      requires Valid() && kind.Some?
      ensures b == IsZero(Val())
    {
      if hasPercent && percent != 0.0 {
        return false;
      }
      b := HasLengthTerms();
      b := !b && number == 0.0;
    }

    method HasLengthTerms() returns (b: bool)
      requires Valid() && kind.Some?
      ensures b == HasLengths(Val())
    {
      for i := 0 to LEN_COUNT
        invariant forall k :: 0 <= k < i ==> len[k] == 0.0
      {
        if len[i] != 0.0 {
          assert Val().len[i] != 0.0;
          return true;
        }
      }
      b := false;
    }

    method Scale(f: real)
      requires Valid() && kind.Some?
      modifies this, len
      ensures Valid() && kind == old(kind) && Val() == Scaled(old(Val()), f)
    {
      ghost var v := Val();
      number := number * f;
      percent := percent * f;
      for i := 0 to LEN_COUNT
        invariant kind == old(kind) && hasPercent == old(hasPercent)
        invariant number == old(number) * f && percent == old(percent) * f
        invariant forall k :: 0 <= k < i ==> len[k] == old(len[k]) * f
        invariant forall k :: i <= k < LEN_COUNT ==> len[k] == old(len[k])
      {
        len[i] := len[i] * f;
      }
      assert forall k :: 0 <= k < LEN_COUNT ==> len[k] == v.len[k] * f == Scaled(v, f).len[k];
      assert len[..] == Scaled(v, f).len;
    }

    /** Adds `sign` times `b` when the kinds fit, and leaves this value alone when they do not. */
    method AddValue(b: MathValue, sign: real) returns (ok: bool)
      requires Valid() && b.Valid() && b != this && b.len != len && kind.Some? && b.kind.Some?
      modifies this, len
      ensures Valid() && kind.Some?
      ensures match Added(old(Val()), b.Val(), sign)
              case None => !ok && Val() == old(Val())
              case Some(v) => ok && Val() == v
    {
      ghost var v, w := Val(), b.Val();
      ok := FitKind(b);
      if !ok { return; }
      ghost var k := kind;
      number := number + sign * b.number;
      percent := percent + sign * b.percent;
      hasPercent := hasPercent || b.hasPercent;
      AddLengths(b, sign);
      SumOfLengths(v, w, sign, len[..]);
      assert Val() == Plus(v, w, sign).(kind := k.value);
    }

    /** The kind of the sum, when the kinds fit. */
    method FitKind(b: MathValue) returns (ok: bool)
      requires Valid() && b.Valid() && b != this && kind.Some? && b.kind.Some?
      modifies this`kind
      ensures kind.Some? && ok == SumKind(old(Val()), b.Val()).Some?
      ensures kind == if ok then SumKind(old(Val()), b.Val()) else old(kind)
    {
      ok := true;
      if kind != b.kind {
        var aZero := IsZeroValue();
        var bZero := b.IsZeroValue();
        if kind == Some(Length) && b.kind == Some(Percent) {
        } else if kind == Some(Percent) && b.kind == Some(Length) {
          kind := Some(Length);
        } else if aZero && kind == Some(Number) {
          kind := b.kind;
        } else if bZero && b.kind == Some(Number) {
        } else {
          ok := false;
        }
      }
    }

    method AddLengths(b: MathValue, sign: real)
      requires Valid() && b.Valid() && b.len != len
      modifies len
      ensures forall k :: 0 <= k < LEN_COUNT ==> len[..][k] == old(len[..])[k] + sign * b.len[..][k]
    {
      for i := 0 to LEN_COUNT
        invariant forall k :: 0 <= k < i ==> len[k] == old(len[k]) + sign * b.len[k]
        invariant forall k :: i <= k < LEN_COUNT ==> len[k] == old(len[k])
      {
        len[i] := len[i] + sign * b.len[i];
      }
    }

    method Assign(v: MathValue)
      requires Valid() && v.Valid() && v != this && v.len != len && v.kind.Some?
      modifies this, len
      ensures Valid() && kind.Some? && Val() == v.Val()
    {
      kind, number, percent, hasPercent := v.kind, v.number, v.percent, v.hasPercent;
      for i := 0 to LEN_COUNT
        invariant kind == v.kind && number == v.number && percent == v.percent && hasPercent == v.hasPercent
        invariant forall k :: 0 <= k < i ==> len[k] == v.len[k]
      {
        len[i] := v.len[i];
      }
      assert len[..] == v.len[..];
    }

    method Set(e: Expr)
      requires Valid() && (e.Plain? || e.Pct? || (e.Len? && e.unit < LEN_COUNT))
      modifies this, len
      ensures Valid() && kind.Some? && Val() == LeafValue(e)
    {
      number, percent, hasPercent := 0.0, 0.0, false;
      for i := 0 to LEN_COUNT
        invariant number == 0.0 && percent == 0.0 && !hasPercent
        invariant forall k :: 0 <= k < i ==> len[k] == 0.0
      {
        len[i] := 0.0;
      }
      assert len[..] == Zeros();
      match e
      case Plain(k, x) => kind, number := Some(k), x;
      case Pct(x) => kind, percent, hasPercent := Some(Percent), x, true;
      case Len(unit, x) =>
        kind := Some(Length);
        len[unit] := x;
        assert len[..] == Zeros()[unit := x];
    }
  }

  /** Every function component is calc(), or no math function at all. */
  ghost predicate OnlyCalc(items: seq<P.Component>)
  {
    forall i :: 0 <= i < |items| ==> OnlyCalcIn(items[i])
  }

  ghost predicate OnlyCalcIn(c: P.Component)
  {
    && (c.kind == P.Function ==> SameName(c.value, "calc") || !MathFunction(c.value))
    && forall i :: 0 <= i < |c.children| ==> OnlyCalcIn(c.children[i])
  }

  const MATH_FUNCTIONS: seq<string> := [
    "calc", "min", "max", "clamp", "round", "mod", "rem", "abs", "sign", "sin", "cos", "tan", "asin", "acos",
    "atan", "atan2", "pow", "sqrt", "hypot", "log", "exp", "calc-size"]

  predicate MathFunction(name: string)
  {
    exists i :: 0 <= i < |MATH_FUNCTIONS| && SameName(name, MATH_FUNCTIONS[i])
  }

  /** What reading an operand or product must have left behind. */
  ghost predicate Holds(read: Option<(Expr, nat)>, ok: bool, next: nat, out: MathValue)
    reads out, out.len
  {
    && (ok <==> read.Some? && Compile(read.value.0).Some?)
    && (ok ==> next == read.value.1 && out.Valid() && out.kind.Some? && out.Val() == Compile(read.value.0).value)
  }

  method FindUnit(name: string) returns (unit: Option<nat>)
    ensures unit == UnitFrom(name, 0)
  {
    var i := 0;
    while i < |UNITS|
      invariant i <= |UNITS| && UnitFrom(name, i) == UnitFrom(name, 0)
    {
      if SameName(name, UNITS[i].0) {
        return if UNITS[i].1 < LEN_COUNT then Some(UNITS[i].1) else None;
      }
      i := i + 1;
    }
    unit := None;
  }

  lemma UnitBelow(name: string, i: nat)
    requires i <= |UNITS|
    ensures UnitFrom(name, i).Some? ==> UnitFrom(name, i).value < LEN_COUNT
    decreases |UNITS| - i
  {
    if i < |UNITS| {
      UnitBelow(name, i + 1);
    }
  }

  method SkipSpace(items: seq<P.Component>, pos: nat, end: nat) returns (p: nat, saw: bool)
    requires pos <= end <= |items|
    ensures p == SkipWs(items, pos, end) && saw == (p != pos)
  {
    p, saw := pos, false;
    while p < end && IsWs(items[p])
      invariant pos <= p <= end && SkipWs(items, p, end) == SkipWs(items, pos, end) && saw == (p != pos)
    {
      p, saw := p + 1, true;
    }
  }

  method FindLeaf(c: P.Component) returns (e: Option<Expr>)
    ensures e == LeafOf(c)
  {
    var x := NumberValue(c.number);
    if c.kind == P.Number {
      return Some(Plain(Number, x));
    }
    if c.kind == P.Percentage {
      return Some(Pct(x));
    }
    if c.kind != P.Dimension {
      return None;
    }
    var unit := FindUnit(c.value);
    if unit.Some? {
      return Some(Len(unit.value, x));
    }
    e := PlainOf(c.value, x);
  }

  method EvalDimension(c: P.Component, out: MathValue) returns (ok: bool)
    requires out.Valid()
    modifies out, out.len
    ensures out.Valid()
    ensures match LeafOf(c)
            case None => !ok
            case Some(e) => ok && out.kind.Some? && Compile(e) == Some(out.Val())
  {
    var e := FindLeaf(c);
    if e.None? {
      return false;
    }
    UnitBelow(c.value, 0);
    out.Set(e.value);
    ok := true;
  }

  method EvalTerm(items: seq<P.Component>, pos: nat, end: nat, out: MathValue, depth: nat) returns (ok: bool, next: nat)
    requires pos <= end <= |items| && out.Valid() && OnlyCalc(items)
    modifies out, out.len
    ensures out.Valid() && Holds(ReadTerm(items, pos, end, depth), ok, next, out)
    decreases items, end - pos, 0
  {
    var p, _ := SkipSpace(items, pos, end);
    next := p;
    if p >= end {
      return false, next;
    }
    var c := items[p];
    if c.kind == P.Block && c.delimiter == ')' {
      assert OnlyCalcIn(c);
      ok := EvalSum(c.children, 0, |c.children|, out, depth + 1);
      next := p + 1;
      return;
    }
    if c.kind == P.Function {
      assert OnlyCalcIn(c);
      if !MathFunction(c.value) {
        CalcIsMath(c.value);
        return false, next;
      }
      if depth > MAX_DEPTH || !NoComma(c.children) {
        return false, next;
      }
      ok := EvalSum(c.children, 0, |c.children|, out, depth + 1);
      next := p + 1;
      return;
    }
    ok := EvalDimension(c, out);
    next := p + 1;
  }

  lemma CalcIsMath(name: string)
    requires !MathFunction(name)
    ensures !SameName(name, "calc")
  {
    assert MATH_FUNCTIONS[0] == "calc";
  }

  /** A left part that does not compile spoils the whole product. */
  lemma {:induction false} FactorsSpoiled(items: seq<P.Component>, pos: nat, end: nat, depth: nat, acc: Expr)
    requires pos <= end <= |items| && Compile(acc).None?
    ensures var r := ReadFactors(items, pos, end, depth, acc); r.Some? ==> Compile(r.value.0).None?
    decreases end - pos
  {
    var p := SkipWs(items, pos, end);
    if p < end && IsOp(items[p], '*', '/') && ReadTerm(items, p + 1, end, depth).Some? {
      var t := ReadTerm(items, p + 1, end, depth).value;
      FactorsSpoiled(items, t.1, end, depth, if items[p].delimiter == '*' then Mul(acc, t.0) else Div(acc, t.0));
    }
  }

  /** What follows a factor, read or not. */
  lemma FactorsFrom(items: seq<P.Component>, pos: nat, p: nat, end: nat, depth: nat, acc: Expr, combined: Expr)
    requires pos <= p < end <= |items| && p == SkipWs(items, pos, end) && IsOp(items[p], '*', '/')
    requires var read := ReadTerm(items, p + 1, end, depth);
      read.Some? ==>
        combined == if items[p].delimiter == '*' then Mul(acc, read.value.0) else Div(acc, read.value.0)
    ensures var whole, read := ReadFactors(items, pos, end, depth, acc), ReadTerm(items, p + 1, end, depth);
      && (read.None? ==> whole.None?)
      && (read.Some? ==> whole == ReadFactors(items, read.value.1, end, depth, combined))
      && (read.Some? && Compile(combined).None? && whole.Some? ==> Compile(whole.value.0).None?)
  {
    var read := ReadTerm(items, p + 1, end, depth);
    if read.Some? && Compile(combined).None? {
      FactorsSpoiled(items, read.value.1, end, depth, combined);
    }
  }

  lemma {:induction false} AddendsSpoiled(items: seq<P.Component>, pos: nat, end: nat, depth: nat, acc: Expr)
    requires pos <= end <= |items| && Compile(acc).None?
    ensures var r := ReadAddends(items, pos, end, depth, acc); r.Some? ==> Compile(r.value).None?
    decreases end - pos
  {
    var p := SkipWs(items, pos, end);
    if p < end && IsOp(items[p], '+', '-') && p + 1 < end && ReadProduct(items, p + 1, end, depth).Some? {
      var t := ReadProduct(items, p + 1, end, depth).value;
      AddendsSpoiled(items, t.1, end, depth, if items[p].delimiter == '+' then Add(acc, t.0) else Sub(acc, t.0));
    }
  }

  /** `*out` becomes the product or the quotient by `rhs`, if there is one. */
  method Combine(out: MathValue, rhs: MathValue, times: bool) returns (ok: bool)
    requires out.Valid() && rhs.Valid() && out != rhs && out.len != rhs.len && out.kind.Some? && rhs.kind.Some?
    modifies out, out.len
    ensures out.Valid()
    ensures match (if times then Multiplied(old(out.Val()), old(rhs.Val()))
        else Divided(old(out.Val()), old(rhs.Val())))
            case None => !ok
            case Some(v) => ok && out.kind.Some? && out.Val() == v
  {
    var outLengths := out.HasLengthTerms();
    var rhsLengths := rhs.HasLengthTerms();
    if times {
      if out.kind == Some(Number) && !outLengths && !out.hasPercent {
        var f := out.number;
        out.Assign(rhs);
        out.Scale(f);
      } else if rhs.kind == Some(Number) && !rhsLengths && !rhs.hasPercent {
        out.Scale(rhs.number);
      } else {
        return false;
      }
    } else {
      if rhs.kind != Some(Number) || rhsLengths || rhs.hasPercent || rhs.number == 0.0 {
        return false;
      }
      out.Scale(1.0 / rhs.number);
    }
    ok := true;
  }

  /** One more factor: reads the operand after the operator at `p` into the product. */
  method EvalFactor(items: seq<P.Component>, p: nat, end: nat, out: MathValue, depth: nat, ghost acc: Expr)
    returns (ok: bool, after: nat, ghost combined: Expr)
    requires p < end <= |items| && OnlyCalc(items) && IsOp(items[p], '*', '/')
    requires out.Valid() && out.kind.Some? && Compile(acc) == Some(out.Val())
    modifies out, out.len
    ensures out.Valid()
    ensures var read := ReadTerm(items, p + 1, end, depth);
            && (read.Some? ==> combined == if items[p].delimiter == '*' then Mul(acc, read.value.0)
                else Div(acc, read.value.0))
            && (ok <==> read.Some? && Compile(combined).Some?)
            && (ok ==> after == read.value.1 && out.kind.Some? && Compile(combined) == Some(out.Val()))
    decreases items, end - p, 1
  {
    var rhs := new MathValue();
    ghost var read := ReadTerm(items, p + 1, end, depth);
    combined := acc;
    if read.Some? {
      combined := if items[p].delimiter == '*' then Mul(acc, read.value.0) else Div(acc, read.value.0);
    }
    ok, after := EvalTerm(items, p + 1, end, rhs, depth);
    if ok {
      ok := Combine(out, rhs, items[p].delimiter == '*');
    }
  }

  method EvalProduct(items: seq<P.Component>, pos: nat, end: nat, out: MathValue, depth: nat)
      returns (ok: bool, next: nat)
    requires pos <= end <= |items| && out.Valid() && OnlyCalc(items)
    modifies out, out.len
    ensures out.Valid() && Holds(ReadProduct(items, pos, end, depth), ok, next, out)
    decreases items, end - pos, 2
  {
    ghost var first := ReadTerm(items, pos, end, depth);
    ok, next := EvalTerm(items, pos, end, out, depth);
    if !ok {
      if first.Some? {
        FactorsSpoiled(items, first.value.1, end, depth, first.value.0);
      }
      return;
    }
    ok, next := EvalFactors(items, pos, next, end, out, depth, first.value.0, ReadProduct(items, pos, end, depth));
  }

  /** The loop over further factors; `whole` is the product that is read. */
  method EvalFactors(items: seq<P.Component>, pos: nat, from: nat, end: nat, out: MathValue, depth: nat,
                     ghost first: Expr, ghost whole: Option<(Expr, nat)>)
    returns (ok: bool, next: nat)
    requires pos < from <= end <= |items| && out.Valid() && OnlyCalc(items)
    requires out.kind.Some? && Compile(first) == Some(out.Val())
    requires ReadFactors(items, from, end, depth, first) == whole
    modifies out, out.len
    ensures out.Valid() && Holds(whole, ok, next, out)
    decreases items, end - pos, 1
  {
    ghost var acc := first;
    next := from;
    while true
      invariant pos < next <= end && out.Valid() && out.kind.Some? && Compile(acc) == Some(out.Val())
      invariant ReadFactors(items, next, end, depth, acc) == whole
      decreases end - next
    {
      var p, _ := SkipSpace(items, next, end);
      if p >= end || !IsOp(items[p], '*', '/') {
        return true, next;
      }
      var after: nat;
      ghost var combined: Expr;
      ok, after, combined := EvalFactor(items, p, end, out, depth, acc);
      FactorsFrom(items, next, p, end, depth, acc, combined);
      if !ok { return false, next; }
      acc := combined;
      next := after;
    }
  }

  /** One more addend: reads the product after the operator at `p` into the sum. */
  method EvalAddend(items: seq<P.Component>, p: nat, end: nat, out: MathValue, depth: nat, ghost acc: Expr)
    returns (ok: bool, after: nat, ghost combined: Expr)
    requires p < end <= |items| && OnlyCalc(items) && IsOp(items[p], '+', '-')
    requires out.Valid() && out.kind.Some? && Compile(acc) == Some(out.Val())
    modifies out, out.len
    ensures out.Valid()
    ensures var read := ReadProduct(items, p + 1, end, depth);
            && (read.Some? ==> combined == if items[p].delimiter == '+' then Add(acc, read.value.0)
                else Sub(acc, read.value.0))
            && (ok <==> read.Some? && Compile(combined).Some?)
            && (ok ==> after == read.value.1 && out.kind.Some? && Compile(combined) == Some(out.Val()))
    decreases items, end - p, 3
  {
    var sign := if items[p].delimiter == '+' then 1.0 else -1.0;
    var rhs := new MathValue();
    ghost var read := ReadProduct(items, p + 1, end, depth);
    combined := acc;
    if read.Some? {
      combined := if items[p].delimiter == '+' then Add(acc, read.value.0) else Sub(acc, read.value.0);
    }
    ok, after := EvalProduct(items, p + 1, end, rhs, depth);
    if ok {
      ok := out.AddValue(rhs, sign);
    }
  }

  method EvalSum(items: seq<P.Component>, pos: nat, end: nat, out: MathValue, depth: nat) returns (ok: bool)
    requires pos <= end <= |items| && out.Valid() && OnlyCalc(items)
    modifies out, out.len
    ensures out.Valid()
    ensures ok <==> ReadSum(items, pos, end, depth).Some? && Compile(ReadSum(items, pos, end, depth).value).Some?
    ensures ok ==> out.kind.Some? && Compile(ReadSum(items, pos, end, depth).value) == Some(out.Val())
    decreases items, end - pos, 4
  {
    if depth > MAX_DEPTH {
      return false;
    }
    ghost var first := ReadProduct(items, pos, end, depth);
    var next: nat;
    ok, next := EvalProduct(items, pos, end, out, depth);
    if !ok {
      if first.Some? {
        AddendsSpoiled(items, first.value.1, end, depth, first.value.0);
      }
      return;
    }
    ok := EvalAddends(items, next, end, out, depth, first.value.0);
  }

  /** Whether another addend follows, and whether the sum may end where none does. */
  method NextAddend(items: seq<P.Component>, next: nat, end: nat, ghost depth: nat, ghost acc: Expr)
    returns (p: nat, more: bool, ok: bool)
    requires next <= end <= |items|
    ensures !more ==> ReadAddends(items, next, end, depth, acc) == if ok then Some(acc) else None
    ensures more ==>
      && next <= p && p + 1 < end && IsOp(items[p], '+', '-')
      && ReadAddends(items, next, end, depth, acc) == Continued(items, p, end, depth, acc)
  {
    var sawWs;
    p, sawWs := SkipSpace(items, next, end);
    if p >= end {
      return p, false, true;
    }
    more := IsOp(items[p], '+', '-') && sawWs && p + 1 < end && IsWs(items[p + 1]);
    ok := more;
  }

  /** The sum that goes on with the product after the operator at `p`. */
  ghost function Continued(items: seq<P.Component>, p: nat, end: nat, depth: nat, acc: Expr): Option<Expr>
    requires p < end <= |items|
  {
    match ReadProduct(items, p + 1, end, depth)
    case None => None
    case Some(t) => ReadAddends(items, t.1, end, depth, if items[p].delimiter == '+' then Add(acc, t.0)
        else Sub(acc, t.0))
  }

  /** The loop over further addends. */
  method EvalAddends(items: seq<P.Component>, from: nat, end: nat, out: MathValue, depth: nat, ghost first: Expr)
    returns (ok: bool)
    requires from <= end <= |items| && out.Valid() && OnlyCalc(items) && depth <= MAX_DEPTH
    requires out.kind.Some? && Compile(first) == Some(out.Val())
    modifies out, out.len
    ensures out.Valid()
    ensures var read := ReadAddends(items, from, end, depth, first);
            && (ok <==> read.Some? && Compile(read.value).Some?)
            && (ok ==> out.kind.Some? && Compile(read.value) == Some(out.Val()))
    decreases items, end - from, 4
  {
    ghost var acc := first;
    var next := from;
    while true
      invariant from <= next <= end && out.Valid() && out.kind.Some? && Compile(acc) == Some(out.Val())
      invariant ReadAddends(items, next, end, depth, acc) == ReadAddends(items, from, end, depth, first)
      decreases end - next
    {
      var p, more;
      p, more, ok := NextAddend(items, next, end, depth, acc);
      if !more {
        return;
      }
      ghost var read := ReadProduct(items, p + 1, end, depth);
      var after: nat;
      ghost var combined: Expr;
      ok, after, combined := EvalAddend(items, p, end, out, depth, acc);
      if !ok {
        if read.Some? {
          AddendsSpoiled(items, read.value.1, end, depth, combined);
        }
        return;
      }
      acc := combined;
      next := after;
    }
  }

  lemma SumOfLengths(v: Value, w: Value, sign: real, len: seq<real>)
    requires |v.len| == |w.len| == |len| == LEN_COUNT
    requires forall k :: 0 <= k < LEN_COUNT ==> len[k] == v.len[k] + sign * w.len[k]
    ensures len == Plus(v, w, sign).len
  {
    assert forall k :: 0 <= k < LEN_COUNT ==> Plus(v, w, sign).len[k] == v.len[k] + sign * w.len[k] == len[k];
  }
}
