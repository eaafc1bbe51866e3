/** Symbolic values of math functions (CSS Values and Units Level 4, section 10): a number, a
    percentage, and one coefficient per length unit, and how they add, scale and resolve. */
module CalcValue {
  import opened Wrappers

  datatype Kind = Number | Length | Percent | Angle | Time | Resolution | Flex

  const LEN_COUNT := 31

  type Lengths = s: seq<real> | |s| == LEN_COUNT witness seq(31, i => 0.0)

  datatype Value = Value(kind: Kind, number: real, percent: real, hasPercent: bool, len: Lengths)

  function Zeros(): Lengths
  {
    seq(LEN_COUNT, i => 0.0)
  }

  function Scaled(v: Value, f: real): Value
  {
    v.(number := v.number * f, percent := v.percent * f,
        len := seq(LEN_COUNT, i requires 0 <= i < LEN_COUNT => v.len[i] * f))
  }

  function Plus(v: Value, w: Value, sign: real): Value
  {
    v.(number := v.number + sign * w.number, percent := v.percent + sign * w.percent,
       hasPercent := v.hasPercent || w.hasPercent,
       len := seq(LEN_COUNT, i requires 0 <= i < LEN_COUNT => v.len[i] + sign * w.len[i]))
  }

  predicate HasLengths(v: Value)
  {
    exists i :: 0 <= i < LEN_COUNT && v.len[i] != 0.0
  }

  predicate IsZero(v: Value)
  {
    !(v.hasPercent && v.percent != 0.0) && !HasLengths(v) && v.number == 0.0
  }

  /** A plain number, fit to be a factor. */
  predicate Pure(v: Value)
  {
    v.kind == Number && !HasLengths(v) && !v.hasPercent
  }

  /** The kind of a sum: equal kinds, a length with a percentage, or a zero number beside
      anything. */
  function SumKind(v: Value, w: Value): Option<Kind>
  {
    if v.kind == w.kind then Some(v.kind)
    else if v.kind == Length && w.kind == Percent then Some(Length)
    else if v.kind == Percent && w.kind == Length then Some(Length)
    else if IsZero(v) && v.kind == Number then Some(w.kind)
    else if IsZero(w) && w.kind == Number then Some(v.kind)
    else None
  }

  function Added(v: Value, w: Value, sign: real): Option<Value>
  {
    match SumKind(v, w)
    case None => None
    case Some(kind) => Some(Plus(v, w, sign).(kind := kind))
  }

  function Multiplied(v: Value, w: Value): Option<Value>
  {
    if Pure(v) then Some(Scaled(w, v.number))
    else if Pure(w) then Some(Scaled(v, w.number))
    else None
  }

  function Divided(v: Value, w: Value): Option<Value>
  {
    if !Pure(w) || w.number == 0.0 then None else Some(Scaled(v, 1.0 / w.number))
  }

  // ---- meaning ----

  /** The size of every length unit, and what 100% stands for. */
  datatype Env = Env(units: Lengths, basis: real)

  ghost function Dot(a: seq<real>, u: seq<real>): real
    requires |a| <= |u|
  {
    if a == [] then 0.0 else a[0] * u[0] + Dot(a[1..], u[1..])
  }

  ghost function Resolve(v: Value, env: Env): real
  {
    v.number + v.percent * env.basis / 100.0 + Dot(v.len, env.units)
  }

  lemma {:induction false} DotScaled(a: seq<real>, b: seq<real>, u: seq<real>, f: real)
    requires |a| == |b| <= |u| && forall i :: 0 <= i < |a| ==> b[i] == a[i] * f
    ensures Dot(b, u) == Dot(a, u) * f
  {
    if a != [] {
      DotScaled(a[1..], b[1..], u[1..], f);
      Distribute(a[0], u[0], Dot(a[1..], u[1..]), f);
    }
  }

  lemma Distribute(x: real, u: real, d: real, f: real)
    ensures (x * f) * u + d * f == (x * u + d) * f
  {
  }

  lemma {:induction false} DotPlus(a: seq<real>, b: seq<real>, c: seq<real>, u: seq<real>, sign: real)
    requires |a| == |b| == |c| <= |u| && forall i :: 0 <= i < |a| ==> c[i] == a[i] + sign * b[i]
    ensures Dot(c, u) == Dot(a, u) + sign * Dot(b, u)
  {
    if a != [] {
      DotPlus(a[1..], b[1..], c[1..], u[1..], sign);
      Collect(a[0], b[0], u[0], Dot(a[1..], u[1..]), Dot(b[1..], u[1..]), sign);
    }
  }

  lemma Collect(x: real, y: real, u: real, d: real, e: real, sign: real)
    ensures (x + sign * y) * u + (d + sign * e) == (x * u + d) + sign * (y * u + e)
  {
    assert (x + sign * y) * u == x * u + sign * (y * u);
  }

  lemma {:induction false} DotZero(a: seq<real>, u: seq<real>)
    requires |a| <= |u| && forall i :: 0 <= i < |a| ==> a[i] == 0.0
    ensures Dot(a, u) == 0.0
  {
    if a != [] {
      DotZero(a[1..], u[1..]);
    }
  }

  lemma ResolveScaled(v: Value, f: real, env: Env)
    ensures Resolve(Scaled(v, f), env) == Resolve(v, env) * f
  {
    var w := Scaled(v, f);
    DotScaled(v.len, w.len, env.units, f);
    var p, d := v.percent, Dot(v.len, env.units);
    assert w.percent * env.basis / 100.0 == (p * env.basis / 100.0) * f;
    assert (v.number + p * env.basis / 100.0 + d) * f == v.number * f + (p * env.basis / 100.0) * f + d * f;
  }

  lemma ResolvePlus(v: Value, w: Value, sign: real, env: Env)
    ensures Resolve(Plus(v, w, sign), env) == Resolve(v, env) + sign * Resolve(w, env)
  {
    var x := Plus(v, w, sign);
    DotPlus(v.len, w.len, x.len, env.units, sign);
    var b := env.basis / 100.0;
    assert x.percent * env.basis / 100.0 == v.percent * env.basis / 100.0 + sign * (w.percent * env.basis / 100.0);
    assert sign * Resolve(w, env)
        == sign * w.number + sign * (w.percent * env.basis / 100.0) + sign * Dot(w.len, env.units);
  }

  // ---- kinds ----

  /** A value carries only the terms its kind allows: lengths and percentages mix, nothing else. */
  ghost predicate WellKinded(v: Value)
  {
    && (v.kind != Length ==> !HasLengths(v))
    && (v.kind != Length && v.kind != Percent ==> !v.hasPercent)
    && (!v.hasPercent ==> v.percent == 0.0)
    && (v.kind == Length || v.kind == Percent ==> v.number == 0.0)
  }

  lemma ScaledKinded(v: Value, f: real)
    requires WellKinded(v)
    ensures WellKinded(Scaled(v, f))
  {
  }

  lemma AddedKinded(v: Value, w: Value, sign: real)
    requires WellKinded(v) && WellKinded(w) && Added(v, w, sign).Some?
    ensures WellKinded(Added(v, w, sign).value)
  {
  }

  /** A plain number stands for itself in every environment. */
  lemma PureResolves(v: Value, env: Env)
    requires WellKinded(v) && Pure(v)
    ensures Resolve(v, env) == v.number
  {
    DotZero(v.len, env.units);
  }
}
