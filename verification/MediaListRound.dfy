/** Printing and reparsing whole media query lists. */
module MediaListRound {
  import opened Ascii
  import opened Wrappers
  import opened Decimals
  import opened MediaText
  import opened MediaFeature
  import opened MediaFeatureRound
  import opened MediaQuery
  import opened MediaRound

  // ---- printed features, again ----

  lemma FlatConcat(a: string, b: string)
    requires Flat(a) && Flat(b)
    ensures Flat(a + b)
  {
  }

  lemma IdentFlat(s: string)
    requires IdentText(s)
    ensures Flat(s)
  {
    assert forall i :: 0 <= i < |s| ==> IdentChar(s[i]);
  }

  lemma NumeralFlat(s: string)
    requires NumeralText(s)
    ensures Flat(s)
  {
  }

  lemma ValueFlat(v: Value, f: Feature, g: real -> string)
    requires WellValue(v, f) && ShortValue(v, f.kind) && PrintsDecimals(g)
    ensures Flat(PrintValue(v, f.kind, g))
  {
    match v
    case Ident(text) => IdentFlat(text);
    case Num(num, denom) =>
      ShortText(num, g);
      ShortText(denom, g);
      NumeralFlat(g(num));
      NumeralFlat(g(denom));
      NumFlat(g(num), g(denom));
  }

  lemma NumFlat(a: string, b: string)
    requires Flat(a) && Flat(b)
    ensures Flat(a + "dppx") && Flat(a + "px") && Flat(a + (" / " + b))
  {
    FlatConcat(a, "dppx");
    FlatConcat(a, "px");
    FlatConcat(" / ", b);
    FlatConcat(a, " / " + b);
  }

  lemma OpFlat(op: Op)
    ensures Flat(OpText(op))
  {
  }

  lemma PlainFlat(minmax: nat, name: string, text: string)
    requires IdentText(name) && Flat(text) && LowerChar(name[0]) != 'n'
    ensures var s := PrefixedName(minmax, name) + (": " + text);
      Flat(s) && s != "" && LowerChar(s[0]) != 'n'
  {
    IdentFlat(name);
    FlatConcat("min-", name);
    FlatConcat("max-", name);
    FlatConcat(": ", text);
    FlatConcat(PrefixedName(minmax, name), ": " + text);
    assert (PrefixedName(minmax, name) + (": " + text))[0] == PrefixedName(minmax, name)[0];
  }

  /** A printed feature is flat, and is not taken for a negation. */
  lemma TestFlat(t: Test, g: real -> string)
    requires WellTest(t) && ShortTest(t) && PrintsDecimals(g)
    ensures Flat(PrintTest(t, g)) && PrintTest(t, g) != "" && LowerChar(PrintTest(t, g)[0]) != 'n'
  {
    var f, name := t.feature, t.feature.name;
    IdentFlat(name);
    assert LowerChar(name[0]) == Lower(name)[0];
    match t.said
    case Bare =>
    case Plain(minmax, v) =>
      ValueFlat(v, f, g);
      PlainFlat(minmax, name, PrintValue(v, f.kind, g));
    case Compared(op, v) =>
      ValueFlat(v, f, g);
      ComparedFlat(name, op, PrintValue(v, f.kind, g));
    case Between(op1, low, op2, high) =>
      ValueFlat(low, f, g);
      ValueFlat(high, f, g);
      BetweenFlat(PrintValue(low, f.kind, g), op1, name, op2, PrintValue(high, f.kind, g));
  }

  lemma ComparedFlat(a: string, op: Op, b: string)
    requires Flat(a) && Flat(b) && a != ""
    ensures Flat((a + " ") + (OpText(op) + (" " + b))) && ((a + " ") + (OpText(op) + (" " + b)))[0] == a[0]
  {
    OpFlat(op);
    FlatConcat(a, " ");
    FlatConcat(" ", b);
    FlatConcat(OpText(op), " " + b);
    FlatConcat(a + " ", OpText(op) + (" " + b));
  }

  lemma BetweenFlat(a: string, op1: Op, name: string, op2: Op, b: string)
    requires Flat(a) && Flat(name) && Flat(b) && a != ""
    ensures var s := (a + " ") + (OpText(op1) + ((" " + (name + " ")) + (OpText(op2) + (" " + b))));
      Flat(s) && s[0] == a[0]
  {
    FlatConcat(name, " ");
    FlatConcat(" ", name + " ");
    OpFlat(op1);
    OpFlat(op2);
    FlatConcat(" ", b);
    FlatConcat(OpText(op2), " " + b);
    var rest := (" " + (name + " ")) + (OpText(op2) + (" " + b));
    FlatConcat(" " + (name + " "), OpText(op2) + (" " + b));
    FlatConcat(OpText(op1), rest);
    FlatConcat(a, " ");
    FlatConcat(a + " ", OpText(op1) + rest);
  }

  lemma TestSolid(t: Test, g: real -> string)
    requires WellTest(t) && ShortTest(t) && PrintsDecimals(g)
    ensures Solid(PrintTest(t, g))
  {
    NameText(t.feature);
    match t.said
    case Bare =>
    case Plain(minmax, v) =>
      PrintedPrefix(minmax, t.feature);
      IdentIsText(PrefixedName(minmax, t.feature.name));
      ValueText(v, t.feature, g);
      SolidText(PrefixedName(minmax, t.feature.name), ": " + PrintValue(v, t.feature.kind, g));
    case Compared(op, v) =>
      ValueText(v, t.feature, g);
      ComparedSolid(t.feature.name, op, PrintValue(v, t.feature.kind, g));
    case Between(op1, low, op2, high) =>
      ValueText(low, t.feature, g);
      ValueText(high, t.feature, g);
      BetweenSolid(PrintValue(low, t.feature.kind, g), op1, t.feature.name, op2, PrintValue(high, t.feature.kind, g));
  }

  /** Features are read sensibly, and printed so that they are read back or not understood. */
  lemma FeaturesFaithful(env: Env, g: real -> string)
    requires PrintsDecimals(g) && ReadsDecimals(env.number)
    ensures Sensible(Features(env)) && Faithful(Features(env), Shown(g))
  {
    forall s | Features(env)(s).Some? ensures WellTest(Features(env)(s).value) {
      ParseTestWell(s, env);
    }
    forall t | WellTest(t) && ShortTest(t)
      ensures Features(env)(Shown(g)(t)) == (if PrintableTest(t) then Some(t) else None) && Flat(Shown(g)(t)) &&
          Solid(Shown(g)(t)) &&
          LowerChar(Shown(g)(t)[0]) != 'n'
    {
      PrintedTest(t, env, g);
      TestFlat(t, g);
      TestSolid(t, g);
    }
  }

  // ---- queries ----

  predicate WellQuery(q: Query) {
    match q
    case Invalid => true
    case Conditional(c) => WellCondition(c, 0)
    case Typed(name, negated, only, tail) =>
      IdentText(name) && |name| < 64 && !Reserved(name) && !(negated && only) &&
      (tail.Some? ==> WellCondition(tail.value, 0) && !tail.value.OrN?)
  }

  predicate PrintableQuery(q: Query) {
    match q
    case Invalid => true
    case Conditional(c) => Printable(c)
    case Typed(_, _, _, tail) => tail.Some? ==> Printable(tail.value)
  }

  predicate UnderstoodQuery(q: Query) {
    match q
    case Invalid => true
    case Conditional(c) => Understood(c)
    case Typed(_, _, _, tail) => tail.Some? ==> Understood(tail.value)
  }

  /** What is left of a query when it is printed and read again. */
  function KeptQuery(q: Query, show: Test -> string): Query {
    match q
    case Invalid => Invalid
    case Conditional(c) => Conditional(Kept(c, show))
    case Typed(name, negated, only, tail) =>
      Typed(name, negated, only, if tail.Some? then Some(Kept(tail.value, show)) else None)
  }

  function KeptQueries(qs: seq<Query>, show: Test -> string): (rs: seq<Query>)
    ensures |rs| == |qs| && forall i :: 0 <= i < |qs| ==> rs[i] == KeptQuery(qs[i], show)
  {
    seq(|qs|, i requires 0 <= i < |qs| => KeptQuery(qs[i], show))
  }

  lemma PrintableQueryKept(q: Query, show: Test -> string)
    requires PrintableQuery(q)
    ensures KeptQuery(q, show) == q && UnderstoodQuery(q)
  {
    match q
    case Invalid =>
    case Conditional(c) => PrintableKept(c, show);
    case Typed(_, _, _, tail) => if tail.Some? { PrintableKept(tail.value, show); }
  }

  lemma TailWell(s: string, name: string, negated: bool, only: bool, parse: string -> Option<Test>)
    requires Sensible(parse) && IdentText(name) && |name| < 64 && !Reserved(name) && !(negated && only)
    ensures WellQuery(ParseTail(s, name, negated, only, parse))
  {
    if s != "" && KwAt(s, "and") && Condition(s[3..], false, 0, parse).Some? {
      ConditionWell(s[3..], false, 0, parse);
    }
  }

  lemma TypedWell(t: string, parse: string -> Option<Test>)
    requires Sensible(parse)
    ensures WellQuery(ParseTyped(t, parse))
  {
    match ReadIdent(t, 64)
    case None =>
    case Some(first) =>
      var negated, only := first.ident == "not", first.ident == "only";
      var p := SkipWs(if negated || only then first.rest else t);
      match ReadIdent(p, 64) {
        case None =>
        case Some(r) =>
          ReadIdentWell(p, 64);
          if !Reserved(r.ident) { TailWell(SkipWs(r.rest), r.ident, negated, only, parse); }
      }
  }

  /** Whatever is parsed as a query is well made. */
  lemma QueryWell(s: string, parse: string -> Option<Test>)
    requires Sensible(parse)
    ensures WellQuery(ParseQuery(s, parse))
  {
    var t := Trim(s);
    if Condition(t, true, 0, parse).Some? { ConditionWell(t, true, 0, parse); }
    TypedWell(t, parse);
  }

  /** Two queries that are as true in every environment. */
  ghost predicate SameTruth(q: Query, r: Query) {
    forall env :: EvalQuery(q, env) == EvalQuery(r, env)
  }

  lemma ConditionLead(s: string, allowOr: bool, d: nat, parse: string -> Option<Test>)
    requires Condition(s, allowOr, d, parse).Some?
    ensures Condition(" " + s, allowOr, d, parse) == Condition(s, allowOr, d, parse)
  {
    SkipLead(s);
  }

  // ---- a query that is a condition ----

  /** What the top of a condition prints as: without its parentheses, if it has any. */
  function Top(n: Node): Node {
    if n.AndN? && |n.kids| == 1 then n.kids[0] else n
  }

  lemma TopWell(n: Node)
    requires WellCondition(n, 0) && Understood(n)
    ensures WellCondition(Top(n), 0) && Understood(Top(n))
  {
    if n.AndN? && |n.kids| == 1 { ConditionHigher(n.kids[0], 2, 0); }
  }

  lemma TopText(n: Node, show: Test -> string)
    requires WellCondition(n, 0) && Understood(n)
    ensures PrintNode(n, 0, show) == Text(Top(n), show)
  {
    match n
    case NotN(k) => PrintIsText(k, 1, 1, show);
    case AndN(ks) =>
      if |ks| == 1 {
        PrintIsText(ks[0], 2, 1, show);
        assert ks[1..] == [] && PrintMore([], " and ", 0, show) == "";
        assert PrintNode(n, 0, show) == PrintNode(ks[0], 1, show) + "";
      } else {
        PrintIsTexts(ks, " and ", 0, 0, show);
      }
    case OrN(ks) => PrintIsTexts(ks, " or ", 0, 0, show);
    case _ =>
  }

  lemma TopTruth(n: Node)
    requires WellCondition(n, 0) && WellCondition(Top(n), 0)
    ensures SameTruth(Conditional(Top(n)), Conditional(n))
  {
    forall env ensures EvalQuery(Conditional(Top(n)), env) == EvalQuery(Conditional(n), env) {
      EvalIsMeaning(n, 0, 0, env);
      EvalIsMeaning(Top(n), 0, 0, env);
      if n.AndN? && |n.kids| == 1 { AllOfOne(n.kids, 0, env); }
    }
  }

  lemma RoundConditional(n: Node, parse: string -> Option<Test>, show: Test -> string)
    requires WellCondition(n, 0) && Understood(n) && Faithful(parse, show)
    ensures var text := PrintQuery(Conditional(n), show);
      Sealed(text) && Solid(text) && ParseQuery(text, parse) == Conditional(Kept(Top(n), show))
    ensures SameTruth(Conditional(Kept(Top(n), show)), Conditional(Kept(n, show)))
  {
    TopWell(n);
    TopText(n, show);
    TopKept(n, show);
    RoundCondition(Top(n), 0, true, parse, show);
    ParsesAsCondition(Text(Top(n), show), Kept(Top(n), show), parse);
  }

  lemma TopKept(n: Node, show: Test -> string)
    requires WellCondition(n, 0) && WellCondition(Top(n), 0)
    ensures SameTruth(Conditional(Kept(Top(n), show)), Conditional(Kept(n, show)))
  {
    KeptCondition(n, 0, show);
    KeptCondition(Top(n), 0, show);
    assert Top(Kept(n, show)) == Kept(Top(n), show);
    TopTruth(Kept(n, show));
  }

  lemma ParsesAsCondition(text: string, n: Node, parse: string -> Option<Test>)
    requires Solid(text) && Condition(text, true, 0, parse) == Some(Parsed(n, ""))
    ensures ParseQuery(text, parse) == Conditional(n)
  {
    TrimSolid(text);
    assert SkipWs("") == "";
  }

  // ---- a query with a media type ----

  /** What may follow a media type in print. */
  predicate TailText(t: string) { t == "" || t[0] == ' ' }

  lemma NameIsNoTerm(name: string, tail: string, d: nat, parse: string -> Option<Test>)
    requires IdentText(name) && TailText(tail)
    ensures InParens(name + tail, d, parse) == None
  {
    var s := name + tail;
    IdentIsText(name);
    assert s[0] == name[0] && IdentChar(name[0]) && SkipWs(s) == s;
    IdentLengthIs(s, |name|);
    assert s[|name|..] == tail;
  }

  lemma NameIsNoKeyword(name: string, tail: string, kw: string)
    requires IdentText(name) && TailText(tail) && IdentText(kw) && name != kw
    ensures !KwAt(name + tail, kw)
  {
    var s := name + tail;
    var k := |kw|;
    assert |s| >= k && |name| < k ==> Lower(s[..k])[|name|] == LowerChar(s[|name|]) == ' ';
    assert |name| < k ==> IdentChar(kw[|name|]);
    assert |name| == k ==> s[..k] == name;
    assert |name| > k ==> s[k] == name[k] && IdentChar(name[k]);
  }

  lemma ReservedWords()
    ensures IdentText("not") && IdentText("only") && IdentText("and")
  {
    assert Lower("not") == "not" && Lower("only") == "only" && Lower("and") == "and";
  }

  /** A media type is no condition, with a keyword before it or without. */
  lemma TypedIsNoCondition(name: string, tail: string, parse: string -> Option<Test>)
    requires IdentText(name) && TailText(tail) && !Reserved(name)
    ensures Condition(name + tail, true, 0, parse) == None
    ensures Condition("not " + (name + tail), true, 0, parse) == None
    ensures Condition("only " + (name + tail), true, 0, parse) == None
  {
    var s := name + tail;
    ReservedWords();
    NameIsNoTerm(name, tail, 1, parse);
    NameIsNoKeyword(name, tail, "not");
    assert s[0] == name[0] && IdentChar(name[0]) && SkipWs(s) == s;
    NotAt(s);
    SkipLead(s);
    OnlyIsNoCondition(s, parse);
  }

  lemma OnlyIsNoCondition(s: string, parse: string -> Option<Test>)
    ensures Condition("only " + s, true, 0, parse) == None
  {
    ReservedWords();
    assert "only " + s == "only" + (" " + s);
    NameIsNoTerm("only", " " + s, 1, parse);
    NameIsNoKeyword("only", " " + s, "not");
  }

  lemma ReadType(name: string, tail: string)
    requires IdentText(name) && TailText(tail) && |name| < 64
    ensures SkipWs(name + tail) == name + tail && SkipWs(" " + (name + tail)) == name + tail
    ensures ReadIdent(name + tail, 64) == Some(Read(name, tail))
  {
    SkipLead(name + tail);
    assert (name + tail)[0] == name[0] && IdentChar(name[0]);
    ReadIdentBefore(name, tail, 64);
  }

  lemma TypedAfter(t: string, word: string, rest: string, name: string, tail: string, parse: string -> Option<Test>)
    requires ReadIdent(t, 64) == Some(Read(word, rest)) && (word == "not" || word == "only")
    requires ReadIdent(SkipWs(rest), 64) == Some(Read(name, tail)) && !Reserved(name)
    ensures ParseTyped(t, parse) == ParseTail(SkipWs(tail), name, word == "not", word == "only", parse)
  {
  }

  lemma ParseNegated(name: string, tail: string, parse: string -> Option<Test>)
    requires IdentText(name) && TailText(tail) && |name| < 64 && !Reserved(name)
    ensures ParseTyped("not " + (name + tail), parse) == ParseTail(SkipWs(tail), name, true, false, parse)
  {
    ReadType(name, tail);
    ReservedWords();
    assert "not " + (name + tail) == "not" + (" " + (name + tail));
    ReadIdentBefore("not", " " + (name + tail), 64);
    TypedAfter("not " + (name + tail), "not", " " + (name + tail), name, tail, parse);
  }

  lemma ParseOnly(name: string, tail: string, parse: string -> Option<Test>)
    requires IdentText(name) && TailText(tail) && |name| < 64 && !Reserved(name)
    ensures ParseTyped("only " + (name + tail), parse) == ParseTail(SkipWs(tail), name, false, true, parse)
  {
    ReadType(name, tail);
    ReservedWords();
    assert "only " + (name + tail) == "only" + (" " + (name + tail));
    ReadIdentBefore("only", " " + (name + tail), 64);
    TypedAfter("only " + (name + tail), "only", " " + (name + tail), name, tail, parse);
  }

  lemma ParseSimple(name: string, tail: string, parse: string -> Option<Test>)
    requires IdentText(name) && TailText(tail) && |name| < 64 && !Reserved(name)
    ensures ParseTyped(name + tail, parse) == ParseTail(SkipWs(tail), name, false, false, parse)
  {
    ReadType(name, tail);
  }

  function Prefix(negated: bool, only: bool): string { if negated then "not " else if only then "only " else "" }

  lemma ParsePrefixed(name: string, tail: string, negated: bool, only: bool, parse: string -> Option<Test>)
    requires IdentText(name) && TailText(tail) && |name| < 64 && !Reserved(name) && !(negated && only)
    ensures ParseTyped(Prefix(negated, only) + (name + tail), parse) ==
        ParseTail(SkipWs(tail), name, negated, only, parse)
    ensures Condition(Prefix(negated, only) + (name + tail), true, 0, parse) == None
  {
    TypedIsNoCondition(name, tail, parse);
    if negated {
      ParseNegated(name, tail, parse);
    } else if only {
      ParseOnly(name, tail, parse);
    } else {
      ParseSimple(name, tail, parse);
      assert "" + (name + tail) == name + tail;
    }
  }

  function PrintTail(tail: Option<Node>, show: Test -> string): string {
    if tail.Some? then " and " + PrintNode(tail.value, 1, show) else ""
  }

  lemma RoundTail(n: Node, name: string, negated: bool, only: bool, parse: string -> Option<Test>, show: Test -> string)
    requires WellCondition(n, 0) && !n.OrN? && Understood(n) && Faithful(parse, show)
    ensures var t := " and " + PrintNode(n, 1, show);
      && TailText(t) && Sealed(t) && !IsWs(t[|t| - 1])
      && ParseTail(SkipWs(t), name, negated, only, parse) == Typed(name, negated, only, Some(Kept(n, show)))
  {
    PrintIsText(n, 0, 1, show);
    var x := Text(n, show);
    RoundCondition(n, 0, false, parse, show);
    TailParses(x, Kept(n, show), name, negated, only, parse);
    TailSealed(x);
  }

  lemma TailSealed(x: string)
    requires Sealed(x) && Solid(x)
    ensures var t := " and " + x; TailText(t) && Sealed(t) && !IsWs(t[|t| - 1])
  {
    FlatSealed(" and ");
    SealedConcat(" and ", x);
  }

  lemma TailParses(x: string, n: Node, name: string, negated: bool, only: bool, parse: string -> Option<Test>)
    requires Condition(x, false, 0, parse) == Some(Parsed(n, "")) && Solid(x)
    ensures ParseTail(SkipWs(" and " + x), name, negated, only, parse) == Typed(name, negated, only, Some(n))
  {
    KeywordAt("and", x);
    SepText();
    ConditionLead(x, false, 0, parse);
    assert SkipWs("") == "";
  }

  lemma RoundTyped(q: Query, parse: string -> Option<Test>, show: Test -> string)
    requires q.Typed? && WellQuery(q) && UnderstoodQuery(q) && Faithful(parse, show)
    ensures var text := PrintQuery(q, show);
      Sealed(text) && Solid(text) && ParseQuery(text, parse) == KeptQuery(q, show)
  {
    var t := PrintTail(q.tail, show);
    if q.tail.Some? {
      RoundTail(q.tail.value, q.name, q.negated, q.only, parse, show);
    } else {
      EmptySealed();
      assert SkipWs("") == "";
    }
    ParsePrefixed(q.name, t, q.negated, q.only, parse);
    TypedText(q.name, t, q.negated, q.only);
    TrimSolid(Prefix(q.negated, q.only) + (q.name + t));
  }

  lemma TypedText(name: string, t: string, negated: bool, only: bool)
    requires IdentText(name) && TailText(t) && Sealed(t) && (t == "" || !IsWs(t[|t| - 1]))
    ensures var text := Prefix(negated, only) + (name + t); Sealed(text) && Solid(text)
  {
    var p := Prefix(negated, only);
    IdentFlat(name);
    IdentIsText(name);
    FlatSealed(name);
    SealedConcat(name, t);
    FlatSealed(p);
    SealedConcat(p, name + t);
    SolidTail(name, t);
    SolidPrefix(p, name + t);
  }

  lemma SolidTail(a: string, t: string)
    requires Solid(a) && (t == "" || !IsWs(t[|t| - 1]))
    ensures Solid(a + t)
  {
    assert t == "" ==> a + t == a;
  }

  lemma SolidPrefix(p: string, a: string)
    requires Solid(a) && (p == "" || !IsWs(p[0]))
    ensures Solid(p + a)
  {
    assert p == "" ==> p + a == a;
  }

  /** A printed query is parsed back to one that is everywhere as true as what is left of it. */
  lemma RoundQuery(q: Query, parse: string -> Option<Test>, show: Test -> string)
    requires WellQuery(q) && UnderstoodQuery(q) && Faithful(parse, show)
    ensures Sealed(PrintQuery(q, show)) && Solid(PrintQuery(q, show))
    ensures SameTruth(ParseQuery(PrintQuery(q, show), parse), KeptQuery(q, show))
  {
    match q
    case Conditional(c) => RoundConditional(c, parse, show);
    case Typed(_, _, _, _) => RoundTyped(q, parse, show);
    case Invalid =>
      var all := Typed("all", true, false, None);
      assert Lower("all") == "all" && IdentText("all");
      RoundTyped(all, parse, show);
      NotAll(show);
  }

  /** What an invalid query is printed as matches nothing. */
  lemma NotAll(show: Test -> string)
    ensures PrintQuery(Typed("all", true, false, None), show) == "not all"
    ensures SameTruth(Typed("all", true, false, None), Invalid)
  {
    assert Lower("all") == "all" && "not " + ("all" + "") == "not all";
  }

  // ---- lists ----

  lemma QueriesWell(p: string, parse: string -> Option<Test>)
    requires Sensible(parse)
    ensures forall i :: 0 <= i < |Queries(p, parse)| ==> WellQuery(Queries(p, parse)[i])
    decreases |p|
  {
    if p != "" {
      var k := SplitAt(p, 0, 0);
      QueryWell(p[..k], parse);
      QueriesWell(After(p, k), parse);
    }
  }

  /** Lists of queries that are as true one by one. */
  ghost predicate SameTruths(qs: seq<Query>, rs: seq<Query>) {
    |qs| == |rs| && forall i :: 0 <= i < |qs| ==> SameTruth(qs[i], rs[i])
  }

  /** A printed list is cut into its queries again. */
  lemma {:induction false} RoundQueries(qs: seq<Query>, lead: string, parse: string -> Option<Test>,
                                        show: Test -> string)
    requires (forall i :: 0 <= i < |qs| ==> WellQuery(qs[i]) && UnderstoodQuery(qs[i])) && Faithful(parse, show)
    requires qs != [] && (lead == "" || lead == " ")
    ensures SameTruths(Queries(lead + PrintQueries(qs, show), parse), KeptQueries(qs, show))
    decreases qs
  {
    var text, further := PrintQuery(qs[0], show), PrintFurther(qs[1..], show);
    RoundQuery(qs[0], parse, show);
    FurtherText(qs, show);
    FirstQuery(lead, text, further, parse);
    KeptRest(qs, show);
    if |qs| > 1 {
      RoundQueries(qs[1..], " ", parse, show);
      SameTruthMore(ParseQuery(text, parse), Queries(" " + PrintQueries(qs[1..], show), parse), KeptQueries(qs, show));
    } else {
      SameTruthMore(ParseQuery(text, parse), [], KeptQueries(qs, show));
    }
  }

  lemma KeptRest(qs: seq<Query>, show: Test -> string)
    requires qs != []
    ensures KeptQueries(qs, show)[0] == KeptQuery(qs[0], show)
    ensures KeptQueries(qs, show)[1..] == KeptQueries(qs[1..], show)
  {
  }

  lemma FurtherText(qs: seq<Query>, show: Test -> string)
    requires qs != []
    ensures var further := PrintFurther(qs[1..], show);
      if |qs| == 1 then further == ""
          else further != "" && further[0] == ',' && further[1..] == " " + PrintQueries(qs[1..], show)
  {
    if |qs| > 1 {
      var more := PrintQueries(qs[1..], show);
      assert PrintFurther(qs[1..], show) == ", " + more;
      assert (", " + more)[0] == ',' && (", " + more)[1..] == " " + more;
    }
  }

  lemma SameTruthMore(q: Query, rest: seq<Query>, qs: seq<Query>)
    requires qs != [] && SameTruth(q, qs[0]) && SameTruths(rest, qs[1..])
    ensures SameTruths([q] + rest, qs)
  {
    var all := [q] + rest;
    forall i | 0 <= i < |all| ensures SameTruth(all[i], qs[i]) {
      if i > 0 { assert SameTruth(rest[i - 1], qs[1..][i - 1]); }
    }
  }

  lemma QueriesStep(p: string, first: string, rest: string, parse: string -> Option<Test>)
    requires p != "" && p[..SplitAt(p, 0, 0)] == first && After(p, SplitAt(p, 0, 0)) == rest
    ensures Queries(p, parse) == [ParseQuery(first, parse)] + Queries(rest, parse)
  {
  }

  lemma SplitPrinted(lead: string, text: string, further: string)
    requires Sealed(text) && (lead == "" || lead == " ") && (further == "" || further[0] == ',')
    ensures SplitAt(lead + (text + further), 0, 0) == |lead| + |text|
  {
    FlatSealed(lead);
    assert SplitAt(lead + (text + further), 0, 0) == |lead| + SplitAt(text + further, 0, 0);
    assert SplitAt(text + further, 0, 0) == |text| + SplitAt(further, 0, 0);
  }

  lemma CutPrinted(lead: string, text: string, further: string)
    ensures var p := lead + (text + further);
      && p[..|lead| + |text|] == lead + text
      && After(p, |lead| + |text|) == if further == "" then "" else further[1..]
  {
  }

  lemma LeadTrimmed(lead: string, text: string, parse: string -> Option<Test>)
    requires Solid(text) && (lead == "" || lead == " ")
    ensures ParseQuery(lead + text, parse) == ParseQuery(text, parse)
  {
    TrimSolid(text);
    assert "" + text == text;
  }

  lemma FirstQuery(lead: string, text: string, further: string, parse: string -> Option<Test>)
    requires Sealed(text) && Solid(text) && (lead == "" || lead == " ") && (further == "" || further[0] == ',')
    ensures Queries(lead + (text + further), parse) ==
      [ParseQuery(text, parse)] + Queries(if further == "" then "" else further[1..], parse)
  {
    SplitPrinted(lead, text, further);
    CutPrinted(lead, text, further);
    LeadTrimmed(lead, text, parse);
    QueriesStep(lead + (text + further), lead + text, if further == "" then "" else further[1..], parse);
  }

  // ---- the round trip ----

  /** Some query of the list is true. */
  predicate AnyTrue(qs: seq<Query>, env: Env) { exists q <- qs :: EvalQuery(q, env) == Yes }

  lemma AnyTrueSame(qs: seq<Query>, rs: seq<Query>, env: Env)
    requires SameTruths(qs, rs)
    ensures AnyTrue(qs, env) <==> AnyTrue(rs, env)
  {
    if q :| q in qs && EvalQuery(q, env) == Yes {
      var i :| 0 <= i < |qs| && qs[i] == q;
      assert SameTruth(qs[i], rs[i]) && rs[i] in rs;
    }
    if r :| r in rs && EvalQuery(r, env) == Yes {
      var i :| 0 <= i < |rs| && rs[i] == r;
      assert SameTruth(qs[i], rs[i]) && qs[i] in qs;
    }
  }

  lemma PrintedSolid(qs: seq<Query>, parse: string -> Option<Test>, show: Test -> string)
    requires qs != [] && WellQuery(qs[0]) && UnderstoodQuery(qs[0]) && Faithful(parse, show)
    ensures PrintQueries(qs, show) != "" && SkipWs(PrintQueries(qs, show)) == PrintQueries(qs, show)
  {
    RoundQuery(qs[0], parse, show);
    assert PrintQueries(qs, show)[0] == PrintQuery(qs[0], show)[0];
  }

  /** A list parsed in one environment, printed, and parsed again in any other matches there exactly when
      what is left of the list is true there: parentheses may go, negative resolutions are not understood
      any more, and nothing else changes. */
  lemma RoundTripAnywhere(text: string, env: Env, g: real -> string, there: Env)
    requires PrintsDecimals(g) && ReadsDecimals(env.number) && ReadsDecimals(there.number)
    requires forall q <- Queries(SkipWs(text), Features(env)) :: UnderstoodQuery(q)
    ensures Matches(Serialize(text, env, g), there) <==>
      SkipWs(text) == "" || AnyTrue(KeptQueries(Queries(SkipWs(text), Features(env)), Shown(g)), there)
  {
    var qs := Queries(SkipWs(text), Features(env));
    var printed := Serialize(text, env, g);
    FeaturesFaithful(env, g);
    FeaturesFaithful(there, g);
    QueriesWell(SkipWs(text), Features(env));
    if qs == [] {
      assert SkipWs(text) == "" && printed == "" && SkipWs("") == "";
    } else {
      PrintedMatches(qs, Shown(g), there);
    }
  }

  lemma PrintedMatches(qs: seq<Query>, show: Test -> string, there: Env)
    requires qs != [] && (forall i :: 0 <= i < |qs| ==> WellQuery(qs[i]) && UnderstoodQuery(qs[i]))
    requires Faithful(Features(there), show)
    ensures Matches(PrintQueries(qs, show), there) <==> AnyTrue(KeptQueries(qs, show), there)
  {
    var printed := PrintQueries(qs, show);
    PrintedSolid(qs, Features(there), show);
    RoundQueries(qs, "", Features(there), show);
    assert "" + printed == printed;
    AnyTrueSame(Queries(printed, Features(there)), KeptQueries(qs, show), there);
  }

  /** Printing a media query list and parsing it again gives the same match result, unless a negative
      resolution is in it. */
  lemma RoundTrip(text: string, env: Env, g: real -> string)
    requires PrintsDecimals(g) && ReadsDecimals(env.number)
    requires forall q <- Queries(SkipWs(text), Features(env)) :: PrintableQuery(q)
    ensures Matches(Serialize(text, env, g), env) <==> Matches(text, env)
  {
    var qs := Queries(SkipWs(text), Features(env));
    forall q <- qs ensures UnderstoodQuery(q) && KeptQuery(q, Shown(g)) == q {
      PrintableQueryKept(q, Shown(g));
    }
    assert KeptQueries(qs, Shown(g)) == qs;
    RoundTripAnywhere(text, env, g, env);
  }

  // ---- what a negative resolution loses ----

  lemma {:induction false} NoOps(s: string, depth: nat)
    requires forall i :: 0 <= i < |s| ==> s[i] !in ":<>="
    ensures FindOp(s, depth) == None && FindColon(s, depth) == None
    decreases |s|
  {
    if s != "" {
      NoOps(s[1..], if s[0] == '(' then depth + 1 else if s[0] == ')' && depth > 0 then depth - 1 else depth);
    }
  }

  /** A calc() expression with balanced parentheses and neither colons, comparisons, commas nor brackets. */
  ghost predicate CalcText(c: string) {
    Solid(c) && IsCalc(c) && Sealed(c) && forall i :: 0 <= i < |c| ==> c[i] !in ":<>="
  }

  function CompareText(name: string, op: Op, c: string): string { (name + " ") + (OpText(op) + (" " + c)) }

  predicate ResolutionFeature(f: Feature) {
    Lookup(f.name) == Some(f) && IdentText(f.name) && |f.name| < 40 && f.kind == Resolution && f.name != "grid" &&
    f.name[0] != 'n'
  }

  /** A resolution compared with a calc() expression. */
  lemma CalcParses(f: Feature, op: Op, c: string, v: real, env: Env)
    requires ResolutionFeature(f) && CalcText(c) && env.calcValue(Resolution, c) == Some(v)
    ensures ParseTest(CompareText(f.name, op, c), env) == Some(Test(f, Compared(op, Num(v, 1.0))))
  {
    assert (" " + c)[0] == ' ';
    NoOps(" " + c, 0);
    NameText(f);
    CutAfter(f.name + " ", op, " " + c);
    ComparedSolid(f.name, op, c);
    TestWithoutColon(CompareText(f.name, op, c), env);
    ComparedReads(f, op, " " + c, env);
    CalcValue(f, c, v, env);
  }

  lemma CalcValue(f: Feature, c: string, v: real, env: Env)
    requires f.kind == Resolution && Solid(c) && IsCalc(c) && env.calcValue(Resolution, c) == Some(v)
    ensures ParseValue(" " + c, f, env) == Some(Num(v, 1.0))
  {
    TrimSolid(c);
  }

  lemma CompareSealed(name: string, op: Op, c: string)
    requires IdentText(name) && Sealed(c)
    ensures Sealed(CompareText(name, op, c))
  {
    IdentFlat(name);
    FlatConcat(name, " ");
    FlatSealed(name + " ");
    OpFlat(op);
    FlatSealed(OpText(op));
    FlatSealed(" ");
    SealedConcat(" ", c);
    SealedConcat(OpText(op), " " + c);
    SealedConcat(name + " ", OpText(op) + (" " + c));
  }

  lemma CompareIsNoCondition(name: string, op: Op, c: string, d: nat, parse: string -> Option<Test>)
    requires IdentText(name) && name[0] != 'n'
    ensures Condition(CompareText(name, op, c), true, d, parse) == None
  {
    var s, tail := CompareText(name, op, c), " " + (OpText(op) + (" " + c));
    assert s == name + tail;
    ReservedWords();
    IdentIsText(name);
    assert s[0] == name[0] && SkipWs(s) == s;
    NameIsNoTerm(name, tail, d + 1, parse);
    NameIsNoKeyword(name, tail, "not");
  }

  /** A list of one feature in parentheses. */
  lemma OneFeature(body: string, t: Test, parse: string -> Option<Test>)
    requires Sealed(body) && Condition(body, true, 2, parse) == None && parse(body) == Some(t)
    ensures var s := "(" + (body + ")");
      SkipWs(s) == s && Queries(s, parse) == [Conditional(Feat(t))]
  {
    FeatureCondition("(" + (body + ")"), body, t, 0, parse);
    ParsesAsCondition("(" + (body + ")"), Feat(t), parse);
    OneQueryList(body, parse);
  }

  lemma FeatureCondition(s: string, body: string, t: Test, d: nat, parse: string -> Option<Test>)
    requires Sealed(body) && Condition(body, true, d + 2, parse) == None && parse(body) == Some(t) && d < MAX_DEPTH
    requires s == "(" + (body + ")")
    ensures Condition(s, true, d, parse) == Some(Parsed(Feat(t), "")) && Solid(s)
  {
    ParensEnds(body);
    FeatureTerm(body, t, d + 1, parse);
    RoundOne(s, Feat(t), d, true, parse);
  }

  lemma ParensEnds(body: string)
    ensures IsTermText("(" + (body + ")"))
  {
    var s := "(" + (body + ")");
    assert s[|s| - 1] == ')';
  }

  lemma FeatureTerm(body: string, t: Test, d: nat, parse: string -> Option<Test>)
    requires Sealed(body) && Condition(body, true, d + 1, parse) == None && parse(body) == Some(t) && d <= MAX_DEPTH
    ensures InParens(("(" + (body + ")")) + "", d, parse) == Some(Parsed(Feat(t), ""))
  {
    OpenParen(body, "", d, parse);
    InsideFeature(body, t, d, parse);
  }

  lemma InsideFeature(body: string, t: Test, d: nat, parse: string -> Option<Test>)
    requires d <= MAX_DEPTH && Condition(body, true, d + 1, parse) == None && parse(body) == Some(t)
    ensures Inside(body, "", d, parse) == Some(Parsed(Feat(t), ""))
  {
  }

  /** A list of one query in parentheses. */
  lemma OneQueryList(body: string, parse: string -> Option<Test>)
    requires Sealed(body)
    ensures var s := "(" + (body + ")");
      SkipWs(s) == s && Queries(s, parse) == [ParseQuery(s, parse)]
  {
    var s := "(" + (body + ")");
    SealedParens(body);
    assert s + "" == s && SplitAt(s + "", 0, 0) == |s| + SplitAt("", 0, 0);
    assert s[..|s|] == s;
    QueriesStep(s, s, "", parse);
  }

  /** The feature is true of one dot per pixel, which is every resolution there is. */
  predicate TrueOfOne(t: Test) {
    match t.said
    case Bare => true
    case Plain(minmax, v) => Compare(1.0, 1.0, PlainOp(minmax), v) == Yes
    case Compared(op, v) => Compare(1.0, 1.0, op, v) == Yes
    case Between(op1, low, op2, high) =>
      Compare(1.0, 1.0, Flipped(op1), low) == Yes && Compare(1.0, 1.0, op2, high) == Yes
  }

  /** What does not print so that it can be read back is a resolution. */
  lemma UnprintableTruth(t: Test, env: Env)
    requires WellTest(t) && ShortTest(t) && !PrintableTest(t)
    ensures EvalTest(t, env) == Yes <==> TrueOfOne(t)
  {
    assert t.feature.kind == Resolution && t.feature.name == "resolution";
  }

  /** What is left of a list of one feature. */
  lemma OneKept(t: Test, show: Test -> string, env: Env)
    ensures AnyTrue(KeptQueries([Conditional(Feat(t))], show), env)
       <==> PrintableTest(t) && EvalTest(t, env) == Yes
  {
    var q := KeptQuery(Conditional(Feat(t)), show);
    assert KeptQueries([Conditional(Feat(t))], show) == [q];
    assert q in [q];
  }

  /** Printing a list of one feature keeps its truth in every environment if and only if the feature has no
      negative resolution, or has one but is not true all the same. */
  lemma SingleFeatureExactly(text: string, t: Test, env: Env, g: real -> string)
    requires Queries(SkipWs(text), Features(env)) == [Conditional(Feat(t))] && ShortTest(t)
    requires PrintsDecimals(g) && ReadsDecimals(env.number)
    ensures (forall there: Env {:trigger EvalTest(t, there)} :: ReadsDecimals(there.number) ==>
              (Matches(Serialize(text, env, g), there) <==> EvalTest(t, there) == Yes))
       <==> PrintableTest(t) || !TrueOfOne(t)
  {
    FeaturesFaithful(env, g);
    QueriesWell(SkipWs(text), Features(env));
    assert WellQuery(Queries(SkipWs(text), Features(env))[0]);
    FeatureWell(t);
    assert SkipWs(text) != "";
    forall there: Env | ReadsDecimals(there.number)
      ensures Matches(Serialize(text, env, g), there) <==> PrintableTest(t) && EvalTest(t, there) == Yes
    {
      RoundTripAnywhere(text, env, g, there);
      OneKept(t, Shown(g), there);
    }
    if !PrintableTest(t) {
      forall there: Env ensures EvalTest(t, there) == Yes <==> TrueOfOne(t) { UnprintableTruth(t, there); }
      assert EvalTest(t, env) == Yes <==> TrueOfOne(t);
    }
  }

  lemma FeatureWell(t: Test)
    requires WellQuery(Conditional(Feat(t)))
    ensures WellTest(t)
  {
    assert WellTerm(Feat(t), 1);
  }

  lemma CalcQuery(f: Feature, op: Op, c: string, v: real, env: Env)
    requires ResolutionFeature(f) && CalcText(c) && env.calcValue(Resolution, c) == Some(v)
    ensures var text := "(" + (CompareText(f.name, op, c) + ")");
      SkipWs(text) == text && Queries(text, Features(env)) == [Conditional(Feat(Test(f, Compared(op, Num(v, 1.0)))))]
  {
    CalcParses(f, op, c, v, env);
    CompareSealed(f.name, op, c);
    CompareIsNoCondition(f.name, op, c, 2, Features(env));
    OneFeature(CompareText(f.name, op, c), Test(f, Compared(op, Num(v, 1.0))), Features(env));
  }

  /** A resolution compared with a negative calc() value prints as something that is never true, so its
      truth is lost exactly if the comparison asks for more. */
  lemma NegativeResolutionLosesTruth(f: Feature, op: Op, c: string, v: real, env: Env, g: real -> string)
    requires ResolutionFeature(f) && CalcText(c) && env.calcValue(Resolution, c) == Some(v) && Short(v) && v < 0.0
    requires PrintsDecimals(g) && ReadsDecimals(env.number)
    ensures var text := "(" + (CompareText(f.name, op, c) + ")");
      && !Matches(Serialize(text, env, g), env)
      && (Matches(text, env) <==> op == Gt || op == Ge)
  {
    var t, text := Test(f, Compared(op, Num(v, 1.0))), "(" + (CompareText(f.name, op, c) + ")");
    CalcQuery(f, op, c, v, env);
    LostTest(t);
    LostFeature(text, t, env, g);
    OneMatches(text, t, env);
    ResolutionTruth(f, op, v, env);
  }

  lemma ResolutionTruth(f: Feature, op: Op, v: real, env: Env)
    requires ResolutionFeature(f) && v < 0.0
    ensures EvalTest(Test(f, Compared(op, Num(v, 1.0))), env) == Yes <==> op == Gt || op == Ge
  {
    assert f.name == "resolution";
  }

  lemma LostTest(t: Test)
    requires t.feature.kind == Resolution && t.said.Compared? && t.said.value.Num?
    requires Short(t.said.value.num) && t.said.value.num < 0.0 && t.said.value.denom == 1.0
    ensures ShortTest(t) && !PrintableTest(t)
  {
    assert SmallInt(Scaled(1.0, 0));
  }

  lemma LostFeature(text: string, t: Test, env: Env, g: real -> string)
    requires SkipWs(text) == text && Queries(text, Features(env)) == [Conditional(Feat(t))]
    requires ShortTest(t) && !PrintableTest(t) && PrintsDecimals(g) && ReadsDecimals(env.number)
    ensures !Matches(Serialize(text, env, g), env)
  {
    RoundTripAnywhere(text, env, g, env);
    OneKept(t, Shown(g), env);
  }

  lemma OneMatches(text: string, t: Test, env: Env)
    requires SkipWs(text) == text != "" && Queries(text, Features(env)) == [Conditional(Feat(t))]
    ensures Matches(text, env) <==> EvalTest(t, env) == Yes
  {
    assert Conditional(Feat(t)) in [Conditional(Feat(t))];
  }

  /** So `(resolution > calc(-1dppx))` matches, and its serialization does not. */
  lemma NegativeResolutionExample(env: Env, g: real -> string)
    requires env.calcValue(Resolution, "calc(-1dppx)") == Some(-1.0)
    requires PrintsDecimals(g) && ReadsDecimals(env.number)
    ensures var text := "(" + (CompareText("resolution", Gt, "calc(-1dppx)") + ")");
      Matches(text, env) && !Matches(Serialize(text, env, g), env)
  {
    var f := Feature("resolution", Resolution, []);
    CalcExample();
    ResolutionKnown(f);
    MinusOneShort();
    NegativeResolutionLosesTruth(f, Gt, "calc(-1dppx)", -1.0, env, g);
  }

  lemma ResolutionKnown(f: Feature)
    requires f == Feature("resolution", Resolution, [])
    ensures ResolutionFeature(f)
  {
    assert Lower("resolution") == "resolution";
  }

  lemma MinusOneShort()
    ensures Short(-1.0)
  {
    assert SmallInt(Scaled(-1.0, 0));
  }

  lemma CalcExample()
    ensures CalcText("calc(-1dppx)")
  {
    FlatSealed("calc");
    FlatSealed("-1dppx");
    SealedParens("-1dppx");
    SealedConcat("calc", "(" + ("-1dppx" + ")"));
    assert "calc(-1dppx)" == "calc" + ("(" + ("-1dppx" + ")"));
    assert "calc(-1dppx)"[..5] == "calc(" && Lower("calc(") == "calc(";
  }
}
