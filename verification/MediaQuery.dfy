/** Media query lists: how they are parsed, what they mean, and how they are printed
    (Media Queries Level 4, sections 2 and 3). */
module MediaQuery {
  import opened Ascii
  import opened Wrappers
  import opened MediaText
  import opened MediaFeature

  const MAX_DEPTH: nat := 32

  /** A condition.  A condition in parentheses is an And of one; what is not understood is kept as text. */
  datatype Node =
    | Feat(test: Test)
    | NotN(kid: Node)
    | AndN(kids: seq<Node>)
    | OrN(kids: seq<Node>)
    | Enclosed(text: string)

  datatype Parsed = Parsed(node: Node, rest: string)

  function Room(depth: nat): nat { if depth <= MAX_DEPTH then MAX_DEPTH + 1 - depth else 0 }

  /** What stands after the parenthesis that closes at a place. */
  function After(s: string, k: nat): (r: string)
    requires k <= |s|
    ensures |r| <= |s|
  {
    if k < |s| then s[k + 1..] else ""
  }

  /** What stands in parentheses: a condition, a feature, or something that is not understood. */
  function Inside(body: string, after: string, depth: nat, parse: string -> Option<Test>): (r: Option<Parsed>)
    requires depth <= MAX_DEPTH
    ensures r.Some? ==> r.value.rest == after
    decreases Room(depth), 2, 0
  {
    var cond := Condition(body, true, depth + 1, parse);
    if cond.Some? && SkipWs(cond.value.rest) == "" then Some(Parsed(AndN([cond.value.node]), after))
    else match parse(body)
      case Some(t) => Some(Parsed(Feat(t), after))
      case None => if AnyValueOk(body, 0, 0, 0) then Some(Parsed(Enclosed(Trim(body)), after)) else None
  }

  /** Something in parentheses after a name, which is not understood. */
  function NamedParens(p: string): (r: Option<Parsed>)
    ensures r.Some? ==> |r.value.rest| < |p|
  {
    match ReadIdent(p, 40)
    case None => None
    case Some(r) =>
      if r.rest == "" || r.rest[0] != '(' then None
      else
        var inner := r.rest[1..];
        var k := CloseParen(inner, 1);
        if AnyValueOk(inner[..k], 0, 0, 0) then Some(EnclosedTo(p, After(inner, k))) else None
  }

  /** The text up to what is left, kept as it is. */
  function EnclosedTo(p: string, rest: string): Parsed
    requires |rest| <= |p|
  {
    Parsed(Enclosed(p[..|p| - |rest|]), rest)
  }

  /** A term: something in parentheses, after a name perhaps. */
  function InParens(s: string, depth: nat, parse: string -> Option<Test>): (r: Option<Parsed>)
    ensures r.Some? ==> |r.value.rest| < |s|
    decreases Room(depth), 3, 0
  {
    if depth > MAX_DEPTH then None
    else
      var p := SkipWs(s);
      if p != "" && p[0] == '(' then
        var inner := p[1..];
        var k := CloseParen(inner, 1);
        Inside(inner[..k], After(inner, k), depth, parse)
      else NamedParens(p)
  }

  /** A negation, or terms joined by one of the two keywords. */
  function Condition(s: string, allowOr: bool, depth: nat, parse: string -> Option<Test>): (r: Option<Parsed>)
    ensures r.Some? ==> |r.value.rest| < |s|
    decreases Room(depth), 1, 0
  {
    if depth > MAX_DEPTH then None
    else
      var p := SkipWs(s);
      if KwAt(p, "not") then
        match InParens(p[3..], depth + 1, parse)
        case None => None
        case Some(k) => Some(Parsed(NotN(k.node), k.rest))
      else match InParens(p, depth + 1, parse)
        case None => None
        case Some(first) => Joined(first, allowOr, depth, parse)
  }

  /** The condition that begins with a term. */
  function Joined(first: Parsed, allowOr: bool, depth: nat, parse: string -> Option<Test>): (r: Option<Parsed>)
    ensures r.Some? ==> |r.value.rest| <= |first.rest|
    decreases Room(depth), 0, |first.rest| + 1
  {
    var q := SkipWs(first.rest);
    if KwAt(q, "and") then
      (match Chain(first.rest, "and", depth, parse)
       case None => None
       case Some(more) => Some(Parsed(AndN([first.node] + more.0), more.1)))
    else if allowOr && KwAt(q, "or") then
      (match Chain(first.rest, "or", depth, parse)
       case None => None
       case Some(more) => Some(Parsed(OrN([first.node] + more.0), more.1)))
    else Some(first)
  }

  /** Further terms, each after the keyword. */
  function Chain(s: string, kw: string, depth: nat, parse: string -> Option<Test>): (r: Option<(seq<Node>, string)>)
    requires kw != ""
    ensures r.Some? ==> |r.value.1| <= |s|
    decreases Room(depth), 0, |s|
  {
    var q := SkipWs(s);
    if depth > MAX_DEPTH || !KwAt(q, kw) then Some(([], s))
    else match InParens(q[|kw|..], depth + 1, parse)
      case None => None
      case Some(next) =>
        match Chain(next.rest, kw, depth, parse)
        case None => None
        case Some(more) => Some(([next.node] + more.0, more.1))
  }

  // ---- queries ----

  /** A query; one that is not valid matches nothing. */
  datatype Query =
    | Invalid
    | Conditional(cond: Node)
    | Typed(name: string, negated: bool, only: bool, tail: Option<Node>)

  predicate Reserved(ident: string) {
    ident == "not" || ident == "only" || ident == "and" || ident == "or" || ident == "layer"
  }

  /** What follows a media type: nothing, or a condition after the keyword. */
  function ParseTail(s: string, name: string, negated: bool, only: bool, parse: string -> Option<Test>): Query {
    if s == "" then Typed(name, negated, only, None)
    else if !KwAt(s, "and") then Invalid
    else match Condition(s[3..], false, 0, parse)
      case None => Invalid
      case Some(c) => if SkipWs(c.rest) == "" then Typed(name, negated, only, Some(c.node)) else Invalid
  }

  function ParseTyped(t: string, parse: string -> Option<Test>): Query {
    match ReadIdent(t, 64)
    case None => Invalid
    case Some(first) =>
      var negated, only := first.ident == "not", first.ident == "only";
      match ReadIdent(SkipWs(if negated || only then first.rest else t), 64)
      case None => Invalid
      case Some(r) => if Reserved(r.ident) then Invalid else ParseTail(SkipWs(r.rest), r.ident, negated, only, parse)
  }

  function ParseQuery(s: string, parse: string -> Option<Test>): Query {
    var t := Trim(s);
    if t == "" then Invalid
    else
      var c := Condition(t, true, 0, parse);
      if c.Some? && SkipWs(c.value.rest) == "" then Conditional(c.value.node) else ParseTyped(t, parse)
  }

  /** The first comma outside parentheses and brackets, or the end. */
  function SplitAt(s: string, paren: nat, bracket: nat): (k: nat)
    ensures k <= |s|
    decreases |s|
  {
    if s == "" then 0
    else if s[0] == ',' && paren == 0 && bracket == 0 then 0
    else
      1 + SplitAt(s[1..],
        if s[0] == '(' then paren + 1 else if s[0] == ')' && paren > 0 then paren - 1 else paren,
        if s[0] == '[' then bracket + 1 else if s[0] == ']' && bracket > 0 then bracket - 1 else bracket)
  }

  function Queries(p: string, parse: string -> Option<Test>): seq<Query>
    decreases |p|
  {
    if p == "" then []
    else
      var k := SplitAt(p, 0, 0);
      [ParseQuery(p[..k], parse)] + Queries(After(p, k), parse)
  }

  // ---- meaning ----

  function EvalNode(n: Node, depth: nat, env: Env): Tri
    decreases n
  {
    if depth > MAX_DEPTH then Dunno
    else match n
      case Enclosed(_) => Dunno
      case Feat(t) => EvalTest(t, env)
      case NotN(k) => Not(EvalNode(k, depth + 1, env))
      case AndN(ks) => EvalAll(ks, depth, env)
      case OrN(ks) => EvalAny(ks, depth, env)
  }

  function EvalAll(ks: seq<Node>, depth: nat, env: Env): Tri
    decreases ks
  {
    if ks == [] then Yes else And(EvalAll(ks[..|ks| - 1], depth, env), EvalNode(ks[|ks| - 1], depth + 1, env))
  }

  function EvalAny(ks: seq<Node>, depth: nat, env: Env): Tri
    decreases ks
  {
    if ks == [] then No else Or(EvalAny(ks[..|ks| - 1], depth, env), EvalNode(ks[|ks| - 1], depth + 1, env))
  }

  function EvalType(name: string, env: Env): Tri {
    Truth(Lower(name) == "all" || Lower(name) == (if env.printing then "print" else "screen"))
  }

  function EvalQuery(q: Query, env: Env): Tri {
    match q
    case Invalid => No
    case Conditional(c) => And(Yes, EvalNode(c, 0, env))
    case Typed(name, negated, _, tail) =>
      var r := EvalType(name, env);
      var both := if tail.Some? then And(r, EvalNode(tail.value, 0, env)) else r;
      if negated then Not(both) else both
  }

  /** The reading of features in an environment. */
  function Features(env: Env): string -> Option<Test> { s => ParseTest(s, env) }

  /** Whether a list matches: an empty one does, and one with a query that is true. */
  predicate Matches(text: string, env: Env) {
    var p := SkipWs(text);
    p == "" || exists q <- Queries(p, Features(env)) :: EvalQuery(q, env) == Yes
  }

  // ---- printing; `show` is the printing of a feature ----

  function PrintNode(n: Node, depth: nat, show: Test -> string): string
    decreases n
  {
    if depth > MAX_DEPTH then ""
    else match n
      case Enclosed(text) =>
        if text != "" && (text[0] == '(' || '(' in text) then text else "(" + (text + ")")
      case Feat(t) => "(" + (show(t) + ")")
      case NotN(k) => "not " + PrintNode(k, depth + 1, show)
      case AndN(ks) =>
        if |ks| == 1 && depth > 0 then "(" + (PrintNode(ks[0], depth + 1, show) + ")")
            else PrintKids(ks, " and ", depth, show)
      case OrN(ks) =>
        if |ks| == 1 && depth > 0 then "(" + (PrintNode(ks[0], depth + 1, show) + ")")
            else PrintKids(ks, " or ", depth, show)
  }

  /** The terms with the keyword between them. */
  function PrintKids(ks: seq<Node>, sep: string, depth: nat, show: Test -> string): string
    decreases ks
  {
    if ks == [] then "" else PrintNode(ks[0], depth + 1, show) + PrintMore(ks[1..], sep, depth, show)
  }

  function PrintMore(ks: seq<Node>, sep: string, depth: nat, show: Test -> string): string
    decreases ks
  {
    if ks == [] then "" else sep + (PrintNode(ks[0], depth + 1, show) + PrintMore(ks[1..], sep, depth, show))
  }

  function PrintQuery(q: Query, show: Test -> string): string {
    match q
    case Invalid => "not all"
    case Conditional(c) => PrintNode(c, 0, show)
    case Typed(name, negated, only, tail) =>
      (if negated then "not " else if only then "only " else "") +
      (Lower(name) + (if tail.Some? then " and " + PrintNode(tail.value, 1, show) else ""))
  }

  function PrintQueries(qs: seq<Query>, show: Test -> string): string {
    if qs == [] then "" else PrintQuery(qs[0], show) + PrintFurther(qs[1..], show)
  }

  function PrintFurther(qs: seq<Query>, show: Test -> string): string {
    if qs == [] then "" else ", " + (PrintQuery(qs[0], show) + PrintFurther(qs[1..], show))
  }

  function Shown(g: real -> string): Test -> string { t => PrintTest(t, g) }

  function Serialize(text: string, env: Env, g: real -> string): string {
    PrintQueries(Queries(SkipWs(text), Features(env)), Shown(g))
  }
}
