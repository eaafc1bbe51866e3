/** The calc() evaluator: it reads sums and products straight off the component values, and
    keeps one symbolic accumulator. */
module CalcEval {
  import opened Ascii
  import opened Wrappers
  import opened CalcValue
  import CssTokens
  import D = Decimals
  import P = CssParser

  // ---- numbers and units ----

  const ABSOLUTE: seq<(string, nat)> := [("px", 0), ("cm", 1), ("mm", 2), ("q", 3), ("in", 4), ("pt", 5), ("pc", 6)]
  const OF_FONT: seq<(string, nat)> := [("em", 7), ("ex", 8), ("ch", 9), ("ic", 10), ("cap", 11), ("lh", 12)]
  const OF_ROOT: seq<(string, nat)> := [("rem", 13), ("rex", 14), ("rch", 15), ("ric", 16), ("rcap", 17), ("rlh", 18)]
  const OF_VIEWPORT: seq<(string, nat)> := [
    ("vw", 19), ("vh", 20), ("vi", 21), ("vb", 22), ("vmin", 23), ("vmax", 24),
    ("svw", 19), ("svh", 20), ("svi", 21), ("svb", 22), ("svmin", 23), ("svmax", 24),
    ("lvw", 19), ("lvh", 20), ("lvi", 21), ("lvb", 22), ("lvmin", 23), ("lvmax", 24),
    ("dvw", 19), ("dvh", 20), ("dvi", 21), ("dvb", 22), ("dvmin", 23), ("dvmax", 24)]
  const OF_CONTAINER: seq<(string, nat)> := [
    ("cqw", 25), ("cqh", 26), ("cqi", 27), ("cqb", 28), ("cqmin", 29), ("cqmax", 30)]

  /** The names of the length units, in the order in which they are looked up. */
  const UNITS: seq<(string, nat)> := ABSOLUTE + (OF_FONT + (OF_ROOT + (OF_VIEWPORT + OF_CONTAINER)))

  const PI := 3.1415926535897932384626433832795028841971693993751

  predicate SameName(a: string, b: string)
  {
    |a| == |b| && forall i :: 0 <= i < |a| ==> LowerChar(a[i]) == LowerChar(b[i])
  }

  /** The row of the first unit with this name. */
  function UnitFrom(name: string, i: nat): Option<nat>
    requires i <= |UNITS|
    decreases |UNITS| - i
  {
    if i == |UNITS| then None
    else if SameName(name, UNITS[i].0) then (if UNITS[i].1 < LEN_COUNT then Some(UNITS[i].1) else None)
    else UnitFrom(name, i + 1)
  }

  predicate Signed(s: string)
  {
    s != "" && (s[0] == '+' || s[0] == '-')
  }

  predicate Negative(s: string)
  {
    s != "" && s[0] == '-'
  }

  function Unsigned(s: string): string
  {
    if Signed(s) then s[1..] else s
  }

  /** The digits after the point. */
  function FractionDigits(s: string, b: nat): string
    requires b <= |s|
  {
    if CssTokens.FractionEnd(s, b) > b then s[b + 1..CssTokens.FractionEnd(s, b)] else ""
  }

  function ExponentValue(s: string): int
  {
    if Negative(s) then -(NatOf(Unsigned(s)) as int) else NatOf(Unsigned(s))
  }

  function ExponentPart(s: string, c: nat): int
    requires c <= |s|
  {
    if c < |s| then ExponentValue(s[c + 1..]) else 0
  }

  /** The digits of a number token before and after the point, and its exponent. */
  datatype Parts = Parts(whole: string, fraction: string, exponent: int)

  function PartsOf(s: string): Parts
  {
    var b := CssTokens.DigitsEnd(s, 0);
    var c := CssTokens.FractionEnd(s, b);
    Parts(s[..b], FractionDigits(s, b), ExponentPart(s, c))
  }

  function Worth(p: Parts): real
  {
    D.Composed(NatOf(p.whole), NatOf(p.fraction), |p.fraction|, p.exponent)
  }

  /** The value of a number token without its sign. */
  function Magnitude(s: string): real { Worth(PartsOf(s)) }

  /** The value of a number token. */
  function NumberValue(s: string): real
  {
    if Negative(s) then -Magnitude(Unsigned(s)) else Magnitude(Unsigned(s))
  }

  // ---- expressions ----

  datatype Expr =
    | Plain(kind: Kind, x: real)
    | Pct(x: real)
    | Len(unit: nat, x: real)
    | Add(l: Expr, r: Expr)
    | Sub(l: Expr, r: Expr)
    | Mul(l: Expr, r: Expr)
    | Div(l: Expr, r: Expr)

  /** What an expression is worth when every leaf is resolved before anything is computed. */
  ghost function Meaning(e: Expr, env: Env): real
  {
    match e
    case Plain(_, x) => x
    case Pct(x) => x * env.basis / 100.0
    case Len(unit, x) => if unit < LEN_COUNT then x * env.units[unit] else 0.0
    case Add(l, r) => Meaning(l, env) + Meaning(r, env)
    case Sub(l, r) => Meaning(l, env) - Meaning(r, env)
    case Mul(l, r) => Meaning(l, env) * Meaning(r, env)
    case Div(l, r) => if Meaning(r, env) == 0.0 then 0.0 else Meaning(l, env) / Meaning(r, env)
  }

  function LeafValue(e: Expr): Value
    requires e.Plain? || e.Pct? || (e.Len? && e.unit < LEN_COUNT)
  {
    match e
    case Plain(kind, x) => Value(kind, x, 0.0, false, Zeros())
    case Pct(x) => Value(Percent, 0.0, x, true, Zeros())
    case Len(unit, x) => Value(Length, 0.0, 0.0, false, Zeros()[unit := x])
  }

  /** The symbolic value of an expression, if its kinds fit together. */
  function Compile(e: Expr): Option<Value>
  {
    match e
    case Plain(_, _) => Some(LeafValue(e))
    case Pct(_) => Some(LeafValue(e))
    case Len(unit, _) => if unit < LEN_COUNT then Some(LeafValue(e)) else None
    case Add(l, r) => if Compile(l).None? || Compile(r).None? then None
        else Added(Compile(l).value, Compile(r).value, 1.0)
    case Sub(l, r) => if Compile(l).None? || Compile(r).None? then None
        else Added(Compile(l).value, Compile(r).value, -1.0)
    case Mul(l, r) => if Compile(l).None? || Compile(r).None? then None
        else Multiplied(Compile(l).value, Compile(r).value)
    case Div(l, r) => if Compile(l).None? || Compile(r).None? then None else Divided(Compile(l).value, Compile(r).value)
  }

  /** A leaf is a number, a percentage, or a dimension of a known unit. */
  ghost predicate WellFormed(e: Expr)
  {
    match e
    case Plain(kind, _) => kind != Length && kind != Percent
    case Pct(_) => true
    case Len(unit, _) => unit < LEN_COUNT
    case Add(l, r) => WellFormed(l) && WellFormed(r)
    case Sub(l, r) => WellFormed(l) && WellFormed(r)
    case Mul(l, r) => WellFormed(l) && WellFormed(r)
    case Div(l, r) => WellFormed(l) && WellFormed(r)
  }

  // ---- compiling keeps the meaning ----

  lemma {:induction false} DotUnit(a: seq<real>, u: seq<real>, i: nat, x: real)
    requires i < |a| <= |u| && (forall k :: 0 <= k < |a| ==> a[k] == if k == i then x else 0.0)
    ensures Dot(a, u) == x * u[i]
    decreases i
  {
    if i == 0 {
      DotZero(a[1..], u[1..]);
    } else {
      DotUnit(a[1..], u[1..], i - 1, x);
    }
  }

  lemma LeafMeaning(e: Expr, env: Env)
    requires WellFormed(e) && (e.Plain? || e.Pct? || e.Len?)
    ensures WellKinded(LeafValue(e)) && Resolve(LeafValue(e), env) == Meaning(e, env)
  {
    if e.Len? {
      DotUnit(LeafValue(e).len, env.units, e.unit, e.x);
    } else {
      DotZero(Zeros(), env.units);
    }
  }

  lemma ProductMeaning(v: Value, w: Value, env: Env)
    requires WellKinded(v) && WellKinded(w) && Multiplied(v, w).Some?
    ensures WellKinded(Multiplied(v, w).value)
    ensures Resolve(Multiplied(v, w).value, env) == Resolve(v, env) * Resolve(w, env)
  {
    if Pure(v) {
      PureResolves(v, env);
      ResolveScaled(w, v.number, env);
      ScaledKinded(w, v.number);
    } else {
      PureResolves(w, env);
      ResolveScaled(v, w.number, env);
      ScaledKinded(v, w.number);
    }
  }

  lemma QuotientMeaning(v: Value, w: Value, env: Env)
    requires WellKinded(v) && WellKinded(w) && Divided(v, w).Some?
    ensures WellKinded(Divided(v, w).value) && Resolve(w, env) != 0.0
    ensures Resolve(Divided(v, w).value, env) == Resolve(v, env) / Resolve(w, env)
  {
    PureResolves(w, env);
    ResolveScaled(v, 1.0 / w.number, env);
    ScaledKinded(v, 1.0 / w.number);
  }

  lemma SumMeaning(v: Value, w: Value, sign: real, env: Env)
    requires WellKinded(v) && WellKinded(w) && Added(v, w, sign).Some?
    ensures WellKinded(Added(v, w, sign).value)
    ensures Resolve(Added(v, w, sign).value, env) == Resolve(v, env) + sign * Resolve(w, env)
  {
    AddedKinded(v, w, sign);
    ResolvePlus(v, w, sign, env);
  }

  /** The conclusion for an expression that compiles. */
  ghost predicate Faithful(e: Expr, env: Env)
  {
    Compile(e).Some? ==> WellKinded(Compile(e).value) && Resolve(Compile(e).value, env) == Meaning(e, env)
  }

  lemma SumFaithful(e: Expr, env: Env)
    requires e.Add? || e.Sub?
    requires Faithful(e.l, env) && Faithful(e.r, env)
    ensures Faithful(e, env)
  {
    if Compile(e).Some? {
      SumMeaning(Compile(e.l).value, Compile(e.r).value, if e.Add? then 1.0 else -1.0, env);
    }
  }

  lemma ProductFaithful(e: Expr, env: Env)
    requires e.Mul? || e.Div?
    requires Faithful(e.l, env) && Faithful(e.r, env)
    ensures Faithful(e, env)
  {
    if e.Mul? {
      MulFaithful(e, env);
    } else {
      DivFaithful(e, env);
    }
  }

  lemma MulFaithful(e: Expr, env: Env)
    requires e.Mul? && Faithful(e.l, env) && Faithful(e.r, env)
    ensures Faithful(e, env)
  {
    if Compile(e).Some? {
      ProductMeaning(Compile(e.l).value, Compile(e.r).value, env);
    }
  }

  lemma DivFaithful(e: Expr, env: Env)
    requires e.Div? && Faithful(e.l, env) && Faithful(e.r, env)
    ensures Faithful(e, env)
  {
    if Compile(e).Some? {
      QuotientMeaning(Compile(e.l).value, Compile(e.r).value, env);
    }
  }

  /** The symbolic value resolves, in every environment, to what the expression is worth there. */
  lemma {:induction false} CompileFaithful(e: Expr, env: Env)
    requires WellFormed(e)
    ensures Faithful(e, env)
  {
    if e.Add? || e.Sub? {
      CompileFaithful(e.l, env);
      CompileFaithful(e.r, env);
      SumFaithful(e, env);
    } else if e.Mul? || e.Div? {
      CompileFaithful(e.l, env);
      CompileFaithful(e.r, env);
      ProductFaithful(e, env);
    } else {
      LeafMeaning(e, env);
    }
  }

  // ---- reading expressions off component values ----

  predicate IsWs(c: P.Component)
  {
    c.kind == P.Whitespace
  }

  function SkipWs(items: seq<P.Component>, pos: nat, end: nat): (p: nat)
    requires pos <= end <= |items|
    ensures pos <= p <= end
    decreases end - pos
  {
    if pos < end && IsWs(items[pos]) then SkipWs(items, pos + 1, end) else pos
  }

  predicate IsOp(c: P.Component, a: char, b: char)
  {
    c.kind == P.Delim && (c.delimiter == a || c.delimiter == b)
  }

  /** Degrees per unit of an angle. */
  function AngleScale(name: string): Option<real>
  {
    if SameName(name, "deg") then Some(1.0)
    else if SameName(name, "grad") then Some(0.9)
    else if SameName(name, "rad") then Some(180.0 / PI)
    else if SameName(name, "turn") then Some(360.0)
    else None
  }

  /** Dots per px per unit of a resolution. */
  function ResolutionScale(name: string): Option<real>
  {
    if SameName(name, "dppx") || SameName(name, "x") then Some(1.0)
    else if SameName(name, "dpi") then Some(1.0 / 96.0)
    else if SameName(name, "dpcm") then Some(2.54 / 96.0)
    else None
  }

  function PlainOf(name: string, x: real): Option<Expr>
  {
    if AngleScale(name).Some? then Some(Plain(Angle, x * AngleScale(name).value))
    else if SameName(name, "s") then Some(Plain(Time, x))
    else if SameName(name, "ms") then Some(Plain(Time, x / 1000.0))
    else if ResolutionScale(name).Some? then Some(Plain(Resolution, x * ResolutionScale(name).value))
    else if SameName(name, "fr") then Some(Plain(Flex, x))
    else None
  }

  /** The leaf a component value stands for. */
  function LeafOf(c: P.Component): Option<Expr>
  {
    LeafWith(c.kind, c.value, NumberValue(c.number))
  }

  function LeafWith(kind: P.Kind, unit: string, x: real): Option<Expr>
  {
    if kind == P.Number then Some(Plain(Number, x))
    else if kind == P.Percentage then Some(Pct(x))
    else if kind != P.Dimension then None
    else if UnitFrom(unit, 0).Some? then Some(Len(UnitFrom(unit, 0).value, x))
    else PlainOf(unit, x)
  }

  const MAX_DEPTH := 32

  predicate NoComma(items: seq<P.Component>)
  {
    forall i :: 0 <= i < |items| ==> items[i].kind != P.Comma
  }

  /** One operand, and the position after it. */
  function ReadTerm(items: seq<P.Component>, pos: nat, end: nat, depth: nat): (r: Option<(Expr, nat)>)
    requires pos <= end <= |items|
    ensures r.Some? ==> pos < r.value.1 <= end
    decreases items, end - pos, 0
  {
    var p := SkipWs(items, pos, end);
    if p >= end then None
    else
      var c := items[p];
      if c.kind == P.Block && c.delimiter == ')' then
        Advanced(ReadSum(c.children, 0, |c.children|, depth + 1), p)
      else if c.kind == P.Function then
        if !SameName(c.value, "calc") || depth > MAX_DEPTH || !NoComma(c.children) then None
        else Advanced(ReadSum(c.children, 0, |c.children|, depth + 1), p)
      else
        Advanced(LeafOf(c), p)
  }

  /** What has been read, and the position after it. */
  function Advanced(e: Option<Expr>, p: nat): Option<(Expr, nat)> {
    match e case None => None case Some(x) => Some((x, p + 1))
  }

  /** The rest of a product whose left part is `acc`. */
  function ReadFactors(items: seq<P.Component>, pos: nat, end: nat, depth: nat, acc: Expr): (r: Option<(Expr, nat)>)
    requires pos <= end <= |items|
    ensures r.Some? ==> pos <= r.value.1 <= end
    decreases items, end - pos, 1
  {
    var p := SkipWs(items, pos, end);
    if p >= end || !IsOp(items[p], '*', '/') then Some((acc, pos))
    else
      match ReadTerm(items, p + 1, end, depth)
      case None => None
      case Some(t) =>
        ReadFactors(items, t.1, end, depth, if items[p].delimiter == '*' then Mul(acc, t.0) else Div(acc, t.0))
  }

  function ReadProduct(items: seq<P.Component>, pos: nat, end: nat, depth: nat): (r: Option<(Expr, nat)>)
    requires pos <= end <= |items|
    ensures r.Some? ==> pos < r.value.1 <= end
    decreases items, end - pos, 2
  {
    match ReadTerm(items, pos, end, depth)
    case None => None
    case Some(t) => ReadFactors(items, t.1, end, depth, t.0)
  }

  /** The rest of a sum, up to the very end: operators need white space on both sides. */
  function ReadAddends(items: seq<P.Component>, pos: nat, end: nat, depth: nat, acc: Expr): Option<Expr>
    requires pos <= end <= |items|
    decreases items, end - pos, 3
  {
    var p := SkipWs(items, pos, end);
    if p >= end then Some(acc)
    else if !IsOp(items[p], '+', '-') || p == pos || p + 1 >= end || !IsWs(items[p + 1]) then None
    else
      match ReadProduct(items, p + 1, end, depth)
      case None => None
      case Some(t) =>
        ReadAddends(items, t.1, end, depth, if items[p].delimiter == '+' then Add(acc, t.0) else Sub(acc, t.0))
  }

  function ReadSum(items: seq<P.Component>, pos: nat, end: nat, depth: nat): Option<Expr>
    requires pos <= end <= |items|
    decreases items, end - pos, 4
  {
    if depth > MAX_DEPTH then None
    else
      match ReadProduct(items, pos, end, depth)
      case None => None
      case Some(t) => ReadAddends(items, t.1, end, depth, t.0)
  }
}
