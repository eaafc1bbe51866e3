/** The loops of the media query parser, evaluator and printer, each against what it computes. */
module MediaParser {
  import opened Ascii
  import opened Wrappers
  import opened MediaText
  import opened MediaFeature
  import opened MediaQuery

  // ---- text ----

  method SkipSpace(s: string) returns (r: string)
    ensures r == SkipWs(s)
  {
    var p := 0;
    while p < |s| && IsWs(s[p])
      invariant 0 <= p <= |s| && SkipWs(s[p..]) == SkipWs(s)
    {
      p := p + 1;
    }
    return s[p..];
  }

  method TrimSpace(s: string) returns (r: string)
    ensures r == Trim(s)
  {
    var t := SkipSpace(s);
    var e := |t|;
    assert t[..e] == t;
    while e > 0 && IsWs(t[e - 1])
      invariant 0 <= e <= |t| && TrimEnd(t[..e]) == TrimEnd(t)
    {
      assert t[..e][..e - 1] == t[..e - 1];
      e := e - 1;
    }
    return t[..e];
  }

  method ReadName(s: string, room: nat) returns (r: Option<Read>)
    ensures r == ReadIdent(s, room)
  {
    var p := 0;
    while p < |s| && IdentChar(s[p])
      invariant 0 <= p <= |s| && IdentLength(s) == p + IdentLength(s[p..])
    {
      p := p + 1;
    }
    if p == 0 || p >= room { return None; }
    return Some(Read(Lower(s[..p]), s[p..]));
  }

  method CloseAt(s: string) returns (k: nat)
    ensures k == CloseParen(s, 1)
  {
    var depth := 1;
    k := 0;
    while k < |s|
      invariant 0 <= k <= |s| && depth > 0 && CloseParen(s, 1) == k + CloseParen(s[k..], depth)
    {
      if s[k] == '(' {
        depth := depth + 1;
      } else if s[k] == ')' {
        depth := depth - 1;
        if depth == 0 { return; }
      }
      k := k + 1;
    }
  }

  method ValueAllowed(s: string) returns (ok: bool)
    ensures ok == AnyValueOk(s, 0, 0, 0)
  {
    var paren, bracket, brace := 0, 0, 0;
    var p := 0;
    while p < |s|
      invariant 0 <= p <= |s| && paren >= 0 && bracket >= 0 && brace >= 0
      invariant AnyValueOk(s, 0, 0, 0) == AnyValueOk(s[p..], paren, bracket, brace)
    {
      var c := s[p];
      if c == '(' { paren := paren + 1; }
      else if c == ')' { if paren == 0 { return false; } paren := paren - 1; }
      else if c == '[' { bracket := bracket + 1; }
      else if c == ']' { if bracket == 0 { return false; } bracket := bracket - 1; }
      else if c == '{' { brace := brace + 1; }
      else if c == '}' { if brace == 0 { return false; } brace := brace - 1; }
      else if c == ';' || c == '!' { return false; }
      p := p + 1;
    }
    return true;
  }

  method FindOperator(s: string) returns (r: Option<Found>)
    ensures r == FindOp(s, 0)
  {
    var depth, p := 0, 0;
    while p < |s|
      invariant 0 <= p <= |s| && depth >= 0
      invariant FindOp(s, 0) == match FindOp(s[p..], depth) case None => None case Some(f) => Some(f.(at := p + f.at))
    {
      var c := s[p];
      if c == '(' {
        depth := depth + 1;
      } else if c == ')' {
        if depth > 0 { depth := depth - 1; }
      } else if depth == 0 && (c == '<' || c == '>' || c == '=') {
        var eq := c != '=' && p + 1 < |s| && s[p + 1] == '=';
        if c == '<' { return Some(Found(p, if eq then Le else Lt, if eq then 2 else 1)); }
        if c == '>' { return Some(Found(p, if eq then Ge else Gt, if eq then 2 else 1)); }
        return Some(Found(p, Eq, 1));
      }
      p := p + 1;
    }
    return None;
  }

  method SplitNext(s: string) returns (k: nat)
    ensures k == SplitAt(s, 0, 0)
  {
    var paren, bracket := 0, 0;
    k := 0;
    while k < |s|
      invariant 0 <= k <= |s| && paren >= 0 && bracket >= 0
      invariant SplitAt(s, 0, 0) == k + SplitAt(s[k..], paren, bracket)
    {
      var c := s[k];
      if c == '(' { paren := paren + 1; }
      else if c == ')' { if paren > 0 { paren := paren - 1; } }
      else if c == '[' { bracket := bracket + 1; }
      else if c == ']' { if bracket > 0 { bracket := bracket - 1; } }
      else if c == ',' && paren == 0 && bracket == 0 { return; }
      k := k + 1;
    }
  }

  method FindColonIn(s: string) returns (r: Option<nat>)
    ensures r == FindColon(s, 0)
  {
    var depth, p := 0, 0;
    while p < |s|
      invariant 0 <= p <= |s| && depth >= 0
      invariant FindColon(s, 0) == match FindColon(s[p..], depth) case None => None case Some(k) => Some(p + k)
    {
      var c := s[p];
      if c == '(' {
        depth := depth + 1;
      } else if c == ')' {
        if depth > 0 { depth := depth - 1; }
      } else if c == ':' && depth == 0 {
        return Some(p);
      }
      p := p + 1;
    }
    return None;
  }

  // ---- parsing ----

  /** Cuts the text at its first two comparisons. */
  method CutText(t: string) returns (cut: Cut)
    ensures cut == CutAtOps(t)
  {
    var first := FindOperator(t);
    if first.None? { return Whole(t); }
    var left, after := t[..first.value.at], t[first.value.at + first.value.length..];
    var second := FindOperator(after);
    if second.None? { return OneCut(left, first.value.op, after); }
    cut := TwoCuts(left, first.value.op, after[..second.value.at], second.value.op,
                   after[second.value.at + second.value.length..]);
  }

  method FindShape(t: string) returns (shape: Shape)
    ensures shape == ShapeOf(t)
  {
    var colon := FindColonIn(t);
    if colon.Some? { return Named(t[..colon.value], t[colon.value + 1..]); }
    var cut := CutText(t);
    shape := Ranged(cut);
  }

  /** What stands between the parentheses of a feature: a name and a value, comparisons, or a name. */
  method ReadFeature(s: string, env: Env) returns (r: Option<Test>)
    ensures r == ParseTest(s, env)
  {
    var t := TrimSpace(s);
    if t == "" { return None; }
    var shape := FindShape(t);
    r := ParseShape(shape, env);
  }

  method ParseInParens(s: string, depth: nat, env: Env) returns (r: Option<Parsed>)
    ensures r == InParens(s, depth, Features(env))
    decreases Room(depth), 2
  {
    if depth > MAX_DEPTH { return None; }
    var p := SkipSpace(s);
    if p != "" && p[0] == '(' {
      var inner := p[1..];
      var k := CloseAt(inner);
      r := ParseInside(inner[..k], After(inner, k), depth, env);
      return;
    }
    r := ParseNamed(p);
  }

  method ParseNamed(p: string) returns (r: Option<Parsed>)
    ensures r == NamedParens(p)
  {
    var name := ReadName(p, 40);
    if name.None? || name.value.rest == "" || name.value.rest[0] != '(' { return None; }
    var inner := name.value.rest[1..];
    var k := CloseAt(inner);
    var ok := ValueAllowed(inner[..k]);
    r := if ok then Some(EnclosedTo(p, After(inner, k))) else None;
  }

  /** A condition, else a feature, else something that is not understood. */
  method ParseInside(body: string, after: string, depth: nat, env: Env) returns (r: Option<Parsed>)
    requires depth <= MAX_DEPTH
    ensures r == Inside(body, after, depth, Features(env))
    decreases Room(depth), 1
  {
    var cond := ParseCondition(body, true, depth + 1, env);
    if cond.Some? {
      var rest := SkipSpace(cond.value.rest);
      if rest == "" { return Some(Parsed(AndN([cond.value.node]), after)); }
    }
    var feature := ReadFeature(body, env);
    if feature.Some? { return Some(Parsed(Feat(feature.value), after)); }
    var ok := ValueAllowed(body);
    if !ok { return None; }
    var text := TrimSpace(body);
    return Some(Parsed(Enclosed(text), after));
  }

  method ParseCondition(s: string, allowOr: bool, depth: nat, env: Env) returns (r: Option<Parsed>)
    ensures r == Condition(s, allowOr, depth, Features(env))
    decreases Room(depth), 0
  {
    if depth > MAX_DEPTH { return None; }
    var p := SkipSpace(s);
    if KwAt(p, "not") {
      var child := ParseInParens(p[3..], depth + 1, env);
      if child.None? { return None; }
      return Some(Parsed(NotN(child.value.node), child.value.rest));
    }
    var first := ParseInParens(p, depth + 1, env);
    if first.None? { return None; }
    var q := SkipSpace(first.value.rest);
    if KwAt(q, "and") {
      var more := ParseChain(first.value.rest, "and", depth, env);
      if more.None? { return None; }
      return Some(Parsed(AndN([first.value.node] + more.value.0), more.value.1));
    }
    if allowOr && KwAt(q, "or") {
      var more := ParseChain(first.value.rest, "or", depth, env);
      if more.None? { return None; }
      return Some(Parsed(OrN([first.value.node] + more.value.0), more.value.1));
    }
    return first;
  }

  /** The loop over further terms. */
  method ParseChain(s: string, kw: string, depth: nat, env: Env)
    returns (r: Option<(seq<Node>, string)>)
    requires depth <= MAX_DEPTH && kw != ""
    ensures r == Chain(s, kw, depth, Features(env))
    decreases Room(depth + 1), 3
  {
    var kids: seq<Node>, p := [], s;
    ghost var parse := Features(env);
    ChainFromNothing(Chain(s, kw, depth, parse));
    while true
      invariant Chain(s, kw, depth, parse) == Before(kids, Chain(p, kw, depth, parse))
      decreases |p|
    {
      var q := SkipSpace(p);
      if !KwAt(q, kw) {
        ChainEnds(kids, p, kw, depth, parse);
        return Some((kids, p));
      }
      var next := ParseInParens(q[|kw|..], depth + 1, env);
      if next.None? { return None; }
      ChainGoesOn(kids, p, kw, depth, parse, next.value);
      kids := kids + [next.value.node];
      p := next.value.rest;
    }
  }

  /** One query: a condition, or a media type with a condition after it. */
  method ReadQuery(s: string, env: Env) returns (q: Query)
    ensures q == ParseQuery(s, Features(env))
  {
    var t := TrimSpace(s);
    if t == "" { return Invalid; }
    var cond := ParseCondition(t, true, 0, env);
    if cond.Some? {
      var rest := SkipSpace(cond.value.rest);
      if rest == "" { return Conditional(cond.value.node); }
    }
    q := ReadTyped(t, env);
  }

  method ReadTyped(t: string, env: Env) returns (q: Query)
    ensures q == ParseTyped(t, Features(env))
  {
    var first := ReadName(t, 64);
    if first.None? { return Invalid; }
    var negated, only := first.value.ident == "not", first.value.ident == "only";
    var p := SkipSpace(if negated || only then first.value.rest else t);
    var name := ReadName(p, 64);
    if name.None? || Reserved(name.value.ident) { return Invalid; }
    p := SkipSpace(name.value.rest);
    if p == "" { return Typed(name.value.ident, negated, only, None); }
    if !KwAt(p, "and") { return Invalid; }
    var tail := ParseCondition(p[3..], false, 0, env);
    if tail.None? { return Invalid; }
    p := SkipSpace(tail.value.rest);
    q := if p == "" then Typed(name.value.ident, negated, only, Some(tail.value.node)) else Invalid;
  }

  /** Terms before those of a chain. */
  function Before(kids: seq<Node>, r: Option<(seq<Node>, string)>): Option<(seq<Node>, string)> {
    match r case None => None case Some(more) => Some((kids + more.0, more.1))
  }

  lemma ChainFromNothing(r: Option<(seq<Node>, string)>)
    ensures Before([], r) == r
  {
    if r.Some? { assert [] + r.value.0 == r.value.0; }
  }

  lemma ChainEnds(kids: seq<Node>, p: string, kw: string, depth: nat, parse: string -> Option<Test>)
    requires depth <= MAX_DEPTH && kw != "" && !KwAt(SkipWs(p), kw)
    ensures Before(kids, Chain(p, kw, depth, parse)) == Some((kids, p))
  {
    assert kids + [] == kids;
  }

  lemma ChainGoesOn(kids: seq<Node>, p: string, kw: string, depth: nat, parse: string -> Option<Test>, next: Parsed)
    requires depth <= MAX_DEPTH && kw != "" && KwAt(SkipWs(p), kw)
    requires InParens(SkipWs(p)[|kw|..], depth + 1, parse) == Some(next)
    ensures Before(kids, Chain(p, kw, depth, parse)) == Before(kids + [next.node], Chain(next.rest, kw, depth, parse))
  {
    match Chain(next.rest, kw, depth, parse)
    case None =>
    case Some(more) => Rejoined(kids, next.node, more.0);
  }

  lemma Rejoined(a: seq<Node>, n: Node, b: seq<Node>)
    ensures a + ([n] + b) == (a + [n]) + b
  {
  }

  // ---- evaluating ----

  method Evaluate(n: Node, depth: nat, env: Env) returns (r: Tri)
    ensures r == EvalNode(n, depth, env)
    decreases n
  {
    if depth > MAX_DEPTH { return Dunno; }
    match n
    case Enclosed(_) => return Dunno;
    case Feat(t) => return EvalTest(t, env);
    case NotN(k) =>
      var v := Evaluate(k, depth + 1, env);
      return Not(v);
    case AndN(ks) =>
      r := Yes;
      for i := 0 to |ks|
        invariant r == EvalAll(ks[..i], depth, env)
      {
        var v := Evaluate(ks[i], depth + 1, env);
        assert ks[..i + 1][..i] == ks[..i];
        r := And(r, v);
      }
      assert ks[..|ks|] == ks;
    case OrN(ks) =>
      r := No;
      for i := 0 to |ks|
        invariant r == EvalAny(ks[..i], depth, env)
      {
        var v := Evaluate(ks[i], depth + 1, env);
        assert ks[..i + 1][..i] == ks[..i];
        r := Or(r, v);
      }
      assert ks[..|ks|] == ks;
  }

  method EvaluateQuery(q: Query, env: Env) returns (r: Tri)
    ensures r == EvalQuery(q, env)
  {
    match q
    case Invalid => return No;
    case Conditional(c) => r := Evaluate(c, 0, env);
    case Typed(name, negated, _, tail) =>
      r := EvalType(name, env);
      if tail.Some? {
        var v := Evaluate(tail.value, 0, env);
        r := And(r, v);
      }
      if negated { r := Not(r); }
  }

  /** Whether a list matches: queries are tried until one is true. */
  method MatchList(text: string, env: Env) returns (any: bool)
    ensures any == Matches(text, env)
  {
    var p := SkipSpace(text);
    if p == "" { return true; }
    any := false;
    ghost var all := Queries(p, Features(env));
    while p != "" && !any
      invariant (exists q <- all :: EvalQuery(q, env) == Yes) <==>
        any || exists q <- Queries(p, Features(env)) :: EvalQuery(q, env) == Yes
      decreases |p|
    {
      var k := SplitNext(p);
      var q := ReadQuery(p[..k], env);
      assert Queries(p, Features(env)) == [q] + Queries(After(p, k), Features(env));
      var v := EvaluateQuery(q, env);
      if v == Yes { any := true; }
      p := After(p, k);
    }
  }

  // ---- printing ----

  method PrintCondition(n: Node, depth: nat, show: Test -> string) returns (out: string)
    ensures out == PrintNode(n, depth, show)
    decreases n, 1
  {
    if depth > MAX_DEPTH { return ""; }
    match n
    case Enclosed(text) =>
      return if text != "" && (text[0] == '(' || '(' in text) then text else "(" + (text + ")");
    case Feat(t) => return "(" + (show(t) + ")");
    case NotN(k) =>
      var kid := PrintCondition(k, depth + 1, show);
      return "not " + kid;
    case AndN(ks) =>
      if |ks| == 1 && depth > 0 {
        var kid := PrintCondition(ks[0], depth + 1, show);
        return "(" + (kid + ")");
      }
      out := PrintTerms(ks, " and ", depth, show);
    case OrN(ks) =>
      if |ks| == 1 && depth > 0 {
        var kid := PrintCondition(ks[0], depth + 1, show);
        return "(" + (kid + ")");
      }
      out := PrintTerms(ks, " or ", depth, show);
  }

  /** The loop over terms, with the keyword before every one but the first. */
  method PrintTerms(ks: seq<Node>, sep: string, depth: nat, show: Test -> string) returns (out: string)
    ensures out == PrintKids(ks, sep, depth, show)
    decreases ks, 0
  {
    out := "";
    for i := 0 to |ks|
      invariant i == 0 ==> out == ""
      invariant i > 0 ==> PrintKids(ks, sep, depth, show) == out + PrintMore(ks[i..], sep, depth, show)
    {
      var kid := PrintCondition(ks[i], depth + 1, show);
      assert ks[i..][1..] == ks[i + 1..];
      Regroup(out, sep, kid, PrintMore(ks[i + 1..], sep, depth, show));
      if i > 0 { out := out + sep; }
      out := out + kid;
    }
    assert out + "" == out;
  }

  lemma Regroup(a: string, b: string, c: string, d: string)
    ensures a + (b + (c + d)) == ((a + b) + c) + d
    ensures a == "" ==> c + d == (a + c) + d
  {
  }

  method PrintOne(q: Query, g: real -> string) returns (out: string)
    ensures out == PrintQuery(q, Shown(g))
  {
    match q
    case Invalid => return "not all";
    case Conditional(c) => out := PrintCondition(c, 0, Shown(g));
    case Typed(name, negated, only, tail) =>
      var prefix := if negated then "not " else if only then "only " else "";
      if tail.None? { return prefix + (Lower(name) + ""); }
      var cond := PrintCondition(tail.value, 1, Shown(g));
      out := prefix + (Lower(name) + (" and " + cond));
  }

  /** The printed list: its queries with commas between them. */
  method PrintList(text: string, env: Env, g: real -> string) returns (out: string)
    ensures out == Serialize(text, env, g)
  {
    var p := SkipSpace(text);
    out := "";
    var first := true;
    ghost var all := PrintQueries(Queries(p, Features(env)), Shown(g));
    while p != ""
      invariant first ==> out == "" && all == PrintQueries(Queries(p, Features(env)), Shown(g))
      invariant !first ==> all == out + PrintFurther(Queries(p, Features(env)), Shown(g))
      decreases |p|
    {
      var k := SplitNext(p);
      var q := ReadQuery(p[..k], env);
      var one := PrintOne(q, g);
      ghost var rest := Queries(After(p, k), Features(env));
      assert Queries(p, Features(env)) == [q] + rest && ([q] + rest)[1..] == rest;
      Regroup(out, ", ", one, PrintFurther(rest, Shown(g)));
      if !first { out := out + ", "; }
      out := out + one;
      first := false;
      p := After(p, k);
    }
    assert out + "" == out;
  }
}
