/** Printing a parsed media query list and parsing what was printed gives the same truth. */
module MediaRound {
  import opened Ascii
  import opened Wrappers
  import opened MediaText
  import opened MediaFeature
  import opened MediaFeatureRound
  import opened MediaQuery

  // ---- what parsing gives ----

  /** Whatever is parsed as a feature is well made. */
  ghost predicate Sensible(parse: string -> Option<Test>) {
    forall s :: parse(s).Some? ==> WellTest(parse(s).value)
  }

  /** A term, as parsed at some depth of nesting. */
  predicate WellTerm(n: Node, d: nat)
    decreases n, 0
  {
    d <= MAX_DEPTH &&
    match n
    case Feat(t) => WellTest(t)
    case AndN(ks) => |ks| == 1 && WellCondition(ks[0], d + 1)
    case Enclosed(_) => true
    case _ => false
  }

  /** A condition, as parsed at some depth of nesting. */
  predicate WellCondition(n: Node, d: nat)
    decreases n, 1
  {
    d <= MAX_DEPTH &&
    match n
    case NotN(k) => WellTerm(k, d + 1)
    case AndN(ks) => if |ks| == 1 then WellTerm(n, d + 1) else |ks| >= 2 && AllTerms(ks, d + 1)
    case OrN(ks) => |ks| >= 2 && AllTerms(ks, d + 1)
    case _ => WellTerm(n, d + 1)
  }

  predicate AllTerms(ks: seq<Node>, d: nat)
    decreases ks
  {
    forall i :: 0 <= i < |ks| ==> WellTerm(ks[i], d)
  }

  lemma InsideWell(body: string, after: string, d: nat, parse: string -> Option<Test>)
    requires Sensible(parse) && d <= MAX_DEPTH && Inside(body, after, d, parse).Some?
    ensures WellTerm(Inside(body, after, d, parse).value.node, d)
    decreases Room(d), 2, 0
  {
    var cond := Condition(body, true, d + 1, parse);
    if cond.Some? && SkipWs(cond.value.rest) == "" {
      ConditionWell(body, true, d + 1, parse);
      WrappedWell(cond.value.node, d);
    } else if parse(body).Some? {
    }
  }

  lemma WrappedWell(n: Node, d: nat)
    requires d <= MAX_DEPTH && WellCondition(n, d + 1)
    ensures WellTerm(AndN([n]), d)
  {
  }

  lemma InParensWell(s: string, d: nat, parse: string -> Option<Test>)
    requires Sensible(parse) && InParens(s, d, parse).Some?
    ensures WellTerm(InParens(s, d, parse).value.node, d)
    decreases Room(d), 3, 0
  {
    var p := SkipWs(s);
    if p != "" && p[0] == '(' {
      var inner := p[1..];
      var k := CloseParen(inner, 1);
      InsideWell(inner[..k], After(inner, k), d, parse);
    }
  }

  lemma TermIsCondition(n: Node, d: nat)
    requires WellTerm(n, d + 1)
    ensures WellCondition(n, d) && !n.OrN?
  {
  }

  lemma ManyWell(first: Node, more: seq<Node>, d: nat)
    requires d <= MAX_DEPTH && WellTerm(first, d + 1) && more != []
    requires AllTerms(more, d + 1)
    ensures WellCondition(AndN([first] + more), d) && WellCondition(OrN([first] + more), d)
  {
  }

  lemma ConditionWell(s: string, allowOr: bool, d: nat, parse: string -> Option<Test>)
    requires Sensible(parse) && Condition(s, allowOr, d, parse).Some?
    ensures WellCondition(Condition(s, allowOr, d, parse).value.node, d)
    ensures Condition(s, allowOr, d, parse).value.node.OrN? ==> allowOr
    decreases Room(d), 1, 0
  {
    var p := SkipWs(s);
    if KwAt(p, "not") {
      InParensWell(p[3..], d + 1, parse);
    } else {
      InParensWell(p, d + 1, parse);
      FirstWell(InParens(p, d + 1, parse).value, allowOr, d, parse);
    }
  }

  lemma FirstWell(first: Parsed, allowOr: bool, d: nat, parse: string -> Option<Test>)
    requires Sensible(parse) && d <= MAX_DEPTH && WellTerm(first.node, d + 1) && Joined(first, allowOr, d, parse).Some?
    ensures WellCondition(Joined(first, allowOr, d, parse).value.node, d)
    ensures Joined(first, allowOr, d, parse).value.node.OrN? ==> allowOr
    decreases Room(d), 0, |first.rest| + 1
  {
    var q := SkipWs(first.rest);
    if KwAt(q, "and") {
      var more := Chain(first.rest, "and", d, parse).value;
      ChainWell(first.rest, "and", d, parse, more);
      ManyWell(first.node, more.0, d);
    } else if allowOr && KwAt(q, "or") {
      var more := Chain(first.rest, "or", d, parse).value;
      ChainWell(first.rest, "or", d, parse, more);
      ManyWell(first.node, more.0, d);
    } else {
      TermIsCondition(first.node, d);
    }
  }

  lemma ChainWell(s: string, kw: string, d: nat, parse: string -> Option<Test>, r: (seq<Node>, string))
    requires Sensible(parse) && kw != "" && d <= MAX_DEPTH && Chain(s, kw, d, parse) == Some(r)
    ensures AllTerms(r.0, d + 1) && (KwAt(SkipWs(s), kw) ==> r.0 != [])
    decreases Room(d), 0, |s|
  {
    var q := SkipWs(s);
    if KwAt(q, kw) {
      match InParens(q[|kw|..], d + 1, parse) {
        case Some(next) =>
          InParensWell(q[|kw|..], d + 1, parse);
          match Chain(next.rest, kw, d, parse) {
            case Some(more) =>
              ChainWell(next.rest, kw, d, parse, more);
              OneMoreWell(next.node, more.0, d + 1);
          }
      }
    }
  }

  lemma OneMoreWell(n: Node, ks: seq<Node>, d: nat)
    requires WellTerm(n, d) && AllTerms(ks, d)
    ensures AllTerms([n] + ks, d)
  {
  }

  /** What is well made deep in a text is well made higher up. */
  lemma {:induction false} TermHigher(n: Node, d: nat, e: nat)
    requires e <= d && WellTerm(n, d)
    ensures WellTerm(n, e)
    decreases n, 0
  {
    if n.AndN? { ConditionHigher(n.kids[0], d + 1, e + 1); }
  }

  lemma {:induction false} ConditionHigher(n: Node, d: nat, e: nat)
    requires e <= d && WellCondition(n, d)
    ensures WellCondition(n, e)
    decreases n, 1
  {
    match n
    case NotN(k) => TermHigher(k, d + 1, e + 1);
    case OrN(ks) =>
      forall i | 0 <= i < |ks| ensures WellTerm(ks[i], e + 1) { TermHigher(ks[i], d + 1, e + 1); }
    case AndN(ks) =>
      if |ks| == 1 {
        TermHigher(n, d + 1, e + 1);
      } else {
        forall i | 0 <= i < |ks| ensures WellTerm(ks[i], e + 1) { TermHigher(ks[i], d + 1, e + 1); }
      }
    case _ => TermHigher(n, d + 1, e + 1);
  }

  // ---- what prints so that it can be read back ----

  /** Nothing that was not understood, and only integers of few digits. */
  predicate Understood(n: Node) {
    match n
    case Feat(t) => ShortTest(t)
    case NotN(k) => Understood(k)
    case AndN(ks) => forall i :: 0 <= i < |ks| ==> Understood(ks[i])
    case OrN(ks) => forall i :: 0 <= i < |ks| ==> Understood(ks[i])
    case Enclosed(_) => false
  }

  /** What is left of a node when it is printed and read again: a feature that does not print so that it
      can be read back becomes text that is not understood. */
  function Kept(n: Node, show: Test -> string): (r: Node)
    ensures n.AndN? == r.AndN? && n.OrN? == r.OrN? && n.NotN? == r.NotN?
    ensures n.AndN? ==> r.kids == KeptAll(n.kids, show)
    decreases n
  {
    match n
    case Feat(t) => if PrintableTest(t) then n else Enclosed(show(t))
    case NotN(k) => NotN(Kept(k, show))
    case AndN(ks) => AndN(KeptAll(ks, show))
    case OrN(ks) => OrN(KeptAll(ks, show))
    case Enclosed(_) => n
  }

  function KeptAll(ks: seq<Node>, show: Test -> string): (rs: seq<Node>)
    ensures |rs| == |ks| && forall i :: 0 <= i < |ks| ==> rs[i] == Kept(ks[i], show)
    decreases ks
  {
    if ks == [] then [] else [Kept(ks[0], show)] + KeptAll(ks[1..], show)
  }

  /** What is left of a condition is one, as deep. */
  lemma {:induction false} KeptTerm(n: Node, d: nat, show: Test -> string)
    requires WellTerm(n, d)
    ensures WellTerm(Kept(n, show), d)
    decreases n, 0
  {
    match n
    case AndN(ks) => KeptCondition(ks[0], d + 1, show);
    case _ =>
  }

  lemma {:induction false} KeptCondition(n: Node, d: nat, show: Test -> string)
    requires WellCondition(n, d)
    ensures WellCondition(Kept(n, show), d)
    decreases n, 1
  {
    match n
    case NotN(k) => KeptTerm(k, d + 1, show);
    case OrN(ks) =>
      forall i | 0 <= i < |ks| ensures WellTerm(Kept(ks[i], show), d + 1) { KeptTerm(ks[i], d + 1, show); }
    case AndN(ks) =>
      if |ks| == 1 {
        KeptTerm(n, d + 1, show);
      } else {
        forall i | 0 <= i < |ks| ensures WellTerm(Kept(ks[i], show), d + 1) { KeptTerm(ks[i], d + 1, show); }
      }
    case _ => KeptTerm(n, d + 1, show);
  }

  /** Every feature in it prints so that it can be read back. */
  predicate Printable(n: Node) {
    match n
    case Feat(t) => PrintableTest(t)
    case NotN(k) => Printable(k)
    case AndN(ks) => forall i :: 0 <= i < |ks| ==> Printable(ks[i])
    case OrN(ks) => forall i :: 0 <= i < |ks| ==> Printable(ks[i])
    case Enclosed(_) => false
  }

  lemma {:induction false} PrintableKept(n: Node, show: Test -> string)
    requires Printable(n)
    ensures Kept(n, show) == n && Understood(n)
    decreases n
  {
    match n
    case NotN(k) => PrintableKept(k, show);
    case AndN(ks) =>
      forall i | 0 <= i < |ks| ensures Kept(ks[i], show) == ks[i] && Understood(ks[i]) { PrintableKept(ks[i], show); }
      assert KeptAll(ks, show) == ks;
    case OrN(ks) =>
      forall i | 0 <= i < |ks| ensures Kept(ks[i], show) == ks[i] && Understood(ks[i]) { PrintableKept(ks[i], show); }
      assert KeptAll(ks, show) == ks;
    case _ =>
  }

  // ---- the text of a node below the top ----

  function Text(n: Node, show: Test -> string): string {
    match n
    case Feat(t) => "(" + (show(t) + ")")
    case NotN(k) => "not " + Text(k, show)
    case AndN(ks) => if |ks| == 1 then "(" + (Text(ks[0], show) + ")") else Texts(ks, " and ", show)
    case OrN(ks) => if |ks| == 1 then "(" + (Text(ks[0], show) + ")") else Texts(ks, " or ", show)
    case Enclosed(_) => ""
  }

  function Texts(ks: seq<Node>, sep: string, show: Test -> string): string {
    if ks == [] then "" else Text(ks[0], show) + MoreTexts(ks[1..], sep, show)
  }

  function MoreTexts(ks: seq<Node>, sep: string, show: Test -> string): string {
    if ks == [] then "" else sep + (Text(ks[0], show) + MoreTexts(ks[1..], sep, show))
  }

  /** The depth guard of the printer never fires on what was parsed, although the printer may be one level
      ahead: conditions stand at even depths and terms at odd ones. */
  lemma {:induction false} PrintIsText(n: Node, d: nat, e: nat, show: Test -> string)
    requires 1 <= e <= d + 1 && Understood(n)
    requires (WellTerm(n, d) && d % 2 == 1) || (WellCondition(n, d) && d % 2 == 0)
    ensures PrintNode(n, e, show) == Text(n, show)
    decreases n
  {
    match n
    case NotN(k) =>
      PrintIsText(k, d + 1, e + 1, show);
      PrintNot(k, d, e, show);
    case AndN(ks) =>
      if |ks| == 1 {
        PrintIsText(ks[0], if d % 2 == 1 then d + 1 else d + 2, e + 1, show);
        PrintWrapped(n, d, e, show);
      } else {
        PrintIsTerms(ks, " and ", d, e, show);
        PrintJoined(ks, e, show);
      }
    case OrN(ks) =>
      PrintIsTerms(ks, " or ", d, e, show);
      PrintJoined(ks, e, show);
    case Feat(_) => PrintFeature(n, d, e, show);
    case Enclosed(_) =>
  }

  lemma PrintJoined(ks: seq<Node>, e: nat, show: Test -> string)
    requires |ks| >= 2 && e <= MAX_DEPTH
    ensures PrintKids(ks, " and ", e, show) == Texts(ks, " and ", show) ==>
      PrintNode(AndN(ks), e, show) == Text(AndN(ks), show)
    ensures PrintKids(ks, " or ", e, show) == Texts(ks, " or ", show) ==>
      PrintNode(OrN(ks), e, show) == Text(OrN(ks), show)
  {
  }

  lemma PrintFeature(n: Node, d: nat, e: nat, show: Test -> string)
    requires n.Feat? && e <= d + 1
    requires (WellTerm(n, d) && d % 2 == 1) || (WellCondition(n, d) && d % 2 == 0)
    ensures PrintNode(n, e, show) == Text(n, show)
  {
    FeatureWithin(n, d);
    PrintLeaf(n.test, e, show);
  }

  lemma FeatureWithin(n: Node, d: nat)
    requires n.Feat? && ((WellTerm(n, d) && d % 2 == 1) || (WellCondition(n, d) && d % 2 == 0))
    ensures d < MAX_DEPTH
  {
    if d % 2 == 0 {
      assert WellTerm(n, d + 1);
    } else {
      assert WellTerm(n, d) && MAX_DEPTH % 2 == 0;
    }
  }

  lemma PrintLeaf(t: Test, e: nat, show: Test -> string)
    requires e <= MAX_DEPTH
    ensures PrintNode(Feat(t), e, show) == Text(Feat(t), show)
  {
  }

  lemma PrintNot(k: Node, d: nat, e: nat, show: Test -> string)
    requires e <= d + 1 && WellTerm(k, d + 1) && PrintNode(k, e + 1, show) == Text(k, show)
    ensures PrintNode(NotN(k), e, show) == Text(NotN(k), show)
  {
  }

  lemma PrintWrapped(n: Node, d: nat, e: nat, show: Test -> string)
    requires n.AndN? && |n.kids| == 1 && 1 <= e <= d + 1 && PrintNode(n.kids[0], e + 1, show) == Text(n.kids[0], show)
    requires (WellTerm(n, d) && d % 2 == 1) || (WellCondition(n, d) && d % 2 == 0)
    ensures PrintNode(n, e, show) == Text(n, show)
  {
    assert MAX_DEPTH % 2 == 0;
  }

  lemma {:induction false} PrintIsTerms(ks: seq<Node>, sep: string, d: nat, e: nat, show: Test -> string)
    requires e <= d + 1 && d % 2 == 0 && |ks| > 0 && AllTerms(ks, d + 1) && forall i :: 0 <= i < |ks| ==>
        Understood(ks[i])
    ensures e <= MAX_DEPTH && PrintKids(ks, sep, e, show) == Texts(ks, sep, show)
    decreases ks, 2
  {
    ManyShallow(ks, d);
    PrintIsTexts(ks, sep, d, e, show);
  }

  /** Terms of a condition stand within the limit, so the condition does with room to spare. */
  lemma ManyShallow(ks: seq<Node>, d: nat)
    requires |ks| > 0 && AllTerms(ks, d + 1)
    ensures d < MAX_DEPTH
  {
    assert WellTerm(ks[0], d + 1);
  }

  lemma {:induction false} PrintIsTexts(ks: seq<Node>, sep: string, d: nat, e: nat, show: Test -> string)
    requires e <= d + 1 && d % 2 == 0 && AllTerms(ks, d + 1) && forall i :: 0 <= i < |ks| ==> Understood(ks[i])
    ensures PrintKids(ks, sep, e, show) == Texts(ks, sep, show)
    decreases ks, 1
  {
    if ks != [] {
      PrintIsText(ks[0], d + 1, e + 1, show);
      PrintIsMore(ks[1..], sep, d, e, show);
    }
  }

  lemma {:induction false} PrintIsMore(ks: seq<Node>, sep: string, d: nat, e: nat, show: Test -> string)
    requires e <= d + 1 && d % 2 == 0 && AllTerms(ks, d + 1) && forall i :: 0 <= i < |ks| ==> Understood(ks[i])
    ensures PrintMore(ks, sep, e, show) == MoreTexts(ks, sep, show)
    decreases ks, 0
  {
    if ks != [] {
      PrintIsText(ks[0], d + 1, e + 1, show);
      PrintIsMore(ks[1..], sep, d, e, show);
    }
  }

  // ---- the meaning of a node ----

  function Meaning(n: Node, env: Env): Tri
    decreases n
  {
    match n
    case Enclosed(_) => Dunno
    case Feat(t) => EvalTest(t, env)
    case NotN(k) => Not(Meaning(k, env))
    case AndN(ks) => MeansAll(ks, env)
    case OrN(ks) => MeansAny(ks, env)
  }

  function MeansAll(ks: seq<Node>, env: Env): Tri
    decreases ks
  {
    if ks == [] then Yes else And(MeansAll(ks[..|ks| - 1], env), Meaning(ks[|ks| - 1], env))
  }

  function MeansAny(ks: seq<Node>, env: Env): Tri
    decreases ks
  {
    if ks == [] then No else Or(MeansAny(ks[..|ks| - 1], env), Meaning(ks[|ks| - 1], env))
  }

  /** The depth guard of the evaluator never fires on what was parsed. */
  lemma {:induction false} EvalIsMeaning(n: Node, d: nat, e: nat, env: Env)
    requires e <= d && (WellTerm(n, d) || WellCondition(n, d))
    ensures EvalNode(n, e, env) == Meaning(n, env)
    decreases n
  {
    match n
    case NotN(k) => EvalIsMeaning(k, d + 1, e + 1, env);
    case AndN(ks) =>
      if |ks| == 1 {
        EvalIsMeaning(ks[0], if WellTerm(n, d) then d + 1 else d + 2, e + 1, env);
        AllOfOne(ks, e, env);
      } else {
        EvalIsMeansAll(ks, d, e, env);
      }
    case OrN(ks) => EvalIsMeansAny(ks, d, e, env);
    case _ =>
  }

  lemma AllOfOne(ks: seq<Node>, e: nat, env: Env)
    requires |ks| == 1
    ensures EvalAll(ks, e, env) == EvalNode(ks[0], e + 1, env) && MeansAll(ks, env) == Meaning(ks[0], env)
  {
    assert ks[..0] == [];
  }

  lemma {:induction false} EvalIsMeansAll(ks: seq<Node>, d: nat, e: nat, env: Env)
    requires e <= d && forall i :: 0 <= i < |ks| ==> WellTerm(ks[i], d + 1)
    ensures EvalAll(ks, e, env) == MeansAll(ks, env)
    decreases ks
  {
    if ks != [] {
      EvalIsMeansAll(ks[..|ks| - 1], d, e, env);
      EvalIsMeaning(ks[|ks| - 1], d + 1, e + 1, env);
    }
  }

  lemma {:induction false} EvalIsMeansAny(ks: seq<Node>, d: nat, e: nat, env: Env)
    requires e <= d && forall i :: 0 <= i < |ks| ==> WellTerm(ks[i], d + 1)
    ensures EvalAny(ks, e, env) == MeansAny(ks, env)
    decreases ks
  {
    if ks != [] {
      EvalIsMeansAny(ks[..|ks| - 1], d, e, env);
      EvalIsMeaning(ks[|ks| - 1], d + 1, e + 1, env);
    }
  }

  // ---- sealed text: parentheses match and there is no comma or bracket ----

  ghost predicate Sealed(s: string) {
    && (forall rest: string, depth: nat :: depth > 0 ==> CloseParen(s + rest, depth) == |s| + CloseParen(rest, depth))
    && (forall rest: string, paren: nat, bracket: nat ::
          SplitAt(s + rest, paren, bracket) == |s| + SplitAt(rest, paren, bracket))
  }

  predicate Flat(s: string) { forall i :: 0 <= i < |s| ==> s[i] !in "()[],;!{}" }

  lemma {:induction false} FlatSealed(s: string)
    requires Flat(s)
    ensures Sealed(s)
  {
    if s == "" {
      EmptySealed();
    } else {
      FlatSealed(s[1..]);
      OneSealed(s[0]);
      SealedConcat([s[0]], s[1..]);
      assert [s[0]] + s[1..] == s;
    }
  }

  lemma {:induction false} FlatAnyValue(s: string, paren: nat, bracket: nat, brace: nat)
    requires Flat(s)
    ensures AnyValueOk(s, paren, bracket, brace)
  {
    if s != "" { FlatAnyValue(s[1..], paren, bracket, brace); }
  }

  lemma EmptySealed()
    ensures Sealed("")
  {
    assert forall rest: string :: "" + rest == rest;
  }

  lemma OneSealed(c: char)
    requires c !in "()[],"
    ensures Sealed([c])
  {
    assert forall rest: string :: ([c] + rest)[0] == c && ([c] + rest)[1..] == rest;
  }

  lemma SealedConcat(a: string, b: string)
    requires Sealed(a) && Sealed(b)
    ensures Sealed(a + b)
  {
    assert forall rest: string :: (a + b) + rest == a + (b + rest);
  }

  lemma SealedParens(a: string)
    requires Sealed(a)
    ensures Sealed("(" + (a + ")"))
  {
    var s := "(" + (a + ")");
    forall rest: string, depth: nat | depth > 0 ensures CloseParen(s + rest, depth) == |s| + CloseParen(rest, depth) {
      ParensClose(a, rest, depth);
    }
    forall rest: string, paren: nat, bracket: nat
      ensures SplitAt(s + rest, paren, bracket) == |s| + SplitAt(rest, paren, bracket)
    {
      ParensSplit(a, rest, paren, bracket);
    }
  }

  lemma ParensClose(a: string, rest: string, depth: nat)
    requires Sealed(a) && depth > 0
    ensures CloseParen(("(" + (a + ")")) + rest, depth) == |a| + 2 + CloseParen(rest, depth)
  {
    ParensSteps(a, rest);
    assert CloseParen(a + (")" + rest), depth + 1) == |a| + CloseParen(")" + rest, depth + 1);
  }

  lemma ParensSplit(a: string, rest: string, paren: nat, bracket: nat)
    requires Sealed(a)
    ensures SplitAt(("(" + (a + ")")) + rest, paren, bracket) == |a| + 2 + SplitAt(rest, paren, bracket)
  {
    ParensSteps(a, rest);
    assert SplitAt(a + (")" + rest), paren + 1, bracket) == |a| + SplitAt(")" + rest, paren + 1, bracket);
  }

  lemma ParensSteps(a: string, rest: string)
    ensures ("(" + (a + ")")) + rest == "(" + (a + (")" + rest))
    ensures ("(" + (a + (")" + rest)))[1..] == a + (")" + rest) && (")" + rest)[1..] == rest
  {
  }

  /** Flat text that does not begin with the letter n is no condition. */
  lemma FlatIsNoCondition(s: string, allowOr: bool, d: nat, parse: string -> Option<Test>)
    requires Flat(s) && Solid(s) && LowerChar(s[0]) != 'n'
    ensures Condition(s, allowOr, d, parse) == None
  {
    assert SkipWs(s) == s && s[0] != '(';
    if |s| >= 3 { assert Lower(s[..3])[0] == LowerChar(s[0]); }
    assert !KwAt(s, "not");
    FlatIsNoTerm(s, d + 1, parse);
  }

  lemma FlatIsNoTerm(s: string, d: nat, parse: string -> Option<Test>)
    requires Flat(s)
    ensures InParens(s, d, parse) == None
  {
    SkipKeepsFlat(s);
    var p := SkipWs(s);
    var n := IdentLength(p);
    assert n < |p| ==> p[n..][0] == p[n];
  }

  lemma {:induction false} SkipKeepsFlat(s: string)
    requires Flat(s)
    ensures Flat(SkipWs(s))
  {
    if s != "" && IsWs(s[0]) { SkipKeepsFlat(s[1..]); }
  }

  // ---- reading printed conditions ----

  /** A printed feature is flat and solid text that is not taken for a negation, and is parsed back if it
      prints so that it can be. */
  ghost predicate Faithful(parse: string -> Option<Test>, show: Test -> string) {
    forall t :: WellTest(t) && ShortTest(t) ==>
      && parse(show(t)) == (if PrintableTest(t) then Some(t) else None)
      && Flat(show(t)) && Solid(show(t)) && LowerChar(show(t)[0]) != 'n'
  }

  lemma InParensLead(s: string, d: nat, parse: string -> Option<Test>)
    ensures InParens(s, d, parse).Some? ==> InParens(" " + s, d, parse) == InParens(s, d, parse)
  {
    SkipLead(s);
  }

  lemma SkipLead(s: string)
    ensures SkipWs(" " + s) == SkipWs(s)
  {
    assert (" " + s)[1..] == s;
  }

  /** A parenthesis, sealed text and its closing parenthesis. */
  lemma OpenParen(body: string, rest: string, d: nat, parse: string -> Option<Test>)
    requires Sealed(body) && d <= MAX_DEPTH
    ensures InParens(("(" + (body + ")")) + rest, d, parse) == Inside(body, rest, d, parse)
  {
    var s := ("(" + (body + ")")) + rest;
    var close := ")" + rest;
    ParensSteps(body, rest);
    var inner := s[1..];
    assert inner == body + close && CloseParen(body + close, 1) == |body| + CloseParen(close, 1);
    assert CloseParen(close, 1) == 0;
    assert inner[..|body|] == body && inner[|body| + 1..] == rest && SkipWs(s) == s;
  }

  /** A printed feature in parentheses is read back, or is left as text. */
  lemma RoundFeature(t: Test, rest: string, d: nat, parse: string -> Option<Test>, show: Test -> string)
    requires WellTest(t) && ShortTest(t) && Faithful(parse, show) && d <= MAX_DEPTH
    ensures InParens(("(" + (show(t) + ")")) + rest, d, parse) == Some(Parsed(Kept(Feat(t), show), rest))
    ensures Sealed("(" + (show(t) + ")"))
  {
    var body := show(t);
    FlatSealed(body);
    SealedParens(body);
    OpenParen(body, rest, d, parse);
    FlatIsNoCondition(body, true, d + 1, parse);
    FlatAnyValue(body, 0, 0, 0);
    TrimSolid(body);
  }

  /** What is left of a printed term is read back, whatever follows it. */
  lemma {:induction false} RoundTerm(n: Node, d: nat, rest: string, parse: string -> Option<Test>, show: Test -> string)
    requires WellTerm(n, d) && Understood(n) && Faithful(parse, show)
    ensures InParens(Text(n, show) + rest, d, parse) == Some(Parsed(Kept(n, show), rest))
    ensures Sealed(Text(n, show)) && Text(n, show) != "" && Text(n, show)[0] == '(' &&
        Text(n, show)[|Text(n, show)| - 1] == ')'
    decreases n, 0
  {
    match n
    case Feat(t) => RoundFeature(t, rest, d, parse, show);
    case AndN(ks) =>
      var body := Text(ks[0], show);
      RoundCondition(ks[0], d + 1, true, parse, show);
      SealedParens(body);
      OpenParen(body, rest, d, parse);
      assert SkipWs("") == "" && [Kept(ks[0], show)] == KeptAll(ks, show);
  }

  /** What is left of a printed condition is read back. */
  lemma {:induction false} RoundCondition(n: Node, d: nat, allowOr: bool, parse: string -> Option<Test>,
                                          show: Test -> string)
    requires WellCondition(n, d) && Understood(n) && Faithful(parse, show) && (n.OrN? ==> allowOr)
    ensures Condition(Text(n, show), allowOr, d, parse) == Some(Parsed(Kept(n, show), ""))
    ensures Sealed(Text(n, show)) && Solid(Text(n, show))
    decreases n, 2
  {
    match n
    case NotN(k) =>
      RoundTerm(k, d + 1, "", parse, show);
      RoundNot(Text(k, show), Kept(k, show), d, allowOr, parse);
    case AndN(ks) =>
      if |ks| == 1 {
        RoundTerm(n, d + 1, "", parse, show);
        RoundOne(Text(n, show), Kept(n, show), d, allowOr, parse);
      } else {
        SepText();
        RoundTerms(ks, "and", d, allowOr, parse, show);
      }
    case OrN(ks) =>
      SepText();
      RoundTerms(ks, "or", d, allowOr, parse, show);
    case Enclosed(_) =>
    case Feat(_) =>
      RoundTerm(n, d + 1, "", parse, show);
      RoundOne(Text(n, show), Kept(n, show), d, allowOr, parse);
  }

  lemma {:induction false} RoundTerms(ks: seq<Node>, kw: string, d: nat, allowOr: bool, parse: string -> Option<Test>,
                                      show: Test -> string)
    requires |ks| >= 2 && (kw == "and" || kw == "or") && (kw == "or" ==> allowOr) && d <= MAX_DEPTH &&
        Faithful(parse, show)
    requires forall i :: 0 <= i < |ks| ==> WellTerm(ks[i], d + 1) && Understood(ks[i])
    ensures Condition(Texts(ks, Sep(kw), show), allowOr, d, parse) ==
        Some(Parsed(if kw == "and" then AndN(KeptAll(ks, show)) else OrN(KeptAll(ks, show)), ""))
    ensures Sealed(Texts(ks, Sep(kw), show)) && Solid(Texts(ks, Sep(kw), show))
    decreases ks
  {
    RoundTerm(ks[0], d + 1, MoreTexts(ks[1..], Sep(kw), show), parse, show);
    RoundChain(ks[1..], kw, d, parse, show);
    RoundMany(ks, KeptAll(ks, show), kw, allowOr, d, parse, show);
    TermsSealed(Text(ks[0], show), MoreTexts(ks[1..], Sep(kw), show));
  }

  function Sep(kw: string): string { " " + (kw + " ") }

  lemma SepText()
    ensures Sep("and") == " and " && Sep("or") == " or "
  {
  }

  /** Printed terms, each after the keyword, are read back. */
  lemma {:induction false} RoundChain(ks: seq<Node>, kw: string, d: nat, parse: string -> Option<Test>,
                                      show: Test -> string)
    requires (kw == "and" || kw == "or") && d <= MAX_DEPTH && Faithful(parse, show)
    requires forall i :: 0 <= i < |ks| ==> WellTerm(ks[i], d + 1) && Understood(ks[i])
    ensures Chain(MoreTexts(ks, Sep(kw), show), kw, d, parse) == Some((KeptAll(ks, show), ""))
    ensures Sealed(MoreTexts(ks, Sep(kw), show)) && (ks != [] ==> EndsTerm(MoreTexts(ks, Sep(kw), show)))
    decreases ks
  {
    if ks == [] {
      EmptySealed();
    } else {
      var more := MoreTexts(ks[1..], Sep(kw), show);
      RoundTerm(ks[0], d + 1, more, parse, show);
      RoundChain(ks[1..], kw, d, parse, show);
      ChainStep(KeptAll(ks, show), kw, Text(ks[0], show), more, d, parse);
      MoreSealed(Text(ks[0], show), more, kw);
    }
  }

  predicate EndsTerm(t: string) { t != "" && t[|t| - 1] == ')' }

  predicate IsTermText(t: string) { t != "" && t[0] == '(' && t[|t| - 1] == ')' }

  lemma NotAt(t: string)
    ensures KwAt("not " + t, "not") && ("not " + t)[3..] == " " + t && SkipWs("not " + t) == "not " + t
  {
    var s := "not " + t;
    assert s[..3] == "not" && s[3] == ' ';
    assert Lower("not") == "not";
  }

  lemma ConditionNot(s: string, k: Parsed, allowOr: bool, d: nat, parse: string -> Option<Test>)
    requires d <= MAX_DEPTH && KwAt(SkipWs(s), "not") && InParens(SkipWs(s)[3..], d + 1, parse) == Some(k)
    ensures Condition(s, allowOr, d, parse) == Some(Parsed(NotN(k.node), k.rest))
  {
  }

  lemma NotSealed(t: string)
    requires Sealed(t) && IsTermText(t)
    ensures Sealed("not " + t) && Solid("not " + t)
  {
    FlatSealed("not ");
    SealedConcat("not ", t);
  }

  lemma RoundNot(t: string, k: Node, d: nat, allowOr: bool, parse: string -> Option<Test>)
    requires d <= MAX_DEPTH && InParens(t + "", d + 1, parse) == Some(Parsed(k, "")) && Sealed(t) && IsTermText(t)
    ensures Condition("not " + t, allowOr, d, parse) == Some(Parsed(NotN(k), ""))
    ensures Sealed("not " + t) && Solid("not " + t)
  {
    assert t + "" == t;
    NotAt(t);
    InParensLead(t, d + 1, parse);
    ConditionNot("not " + t, Parsed(k, ""), allowOr, d, parse);
    NotSealed(t);
  }

  lemma ParenIsNoKeyword(t: string, kw: string)
    requires t != "" && t[0] == '(' && kw != "" && kw[0] != '('
    ensures !KwAt(t, kw) && SkipWs(t) == t
  {
    if |t| >= |kw| { assert Lower(t[..|kw|])[0] == '('; }
  }

  lemma RoundOne(t: string, n: Node, d: nat, allowOr: bool, parse: string -> Option<Test>)
    requires d <= MAX_DEPTH && InParens(t + "", d + 1, parse) == Some(Parsed(n, "")) && IsTermText(t)
    ensures Condition(t, allowOr, d, parse) == Some(Parsed(n, "")) && Solid(t)
  {
    assert t + "" == t && SkipWs("") == "";
    ParenIsNoKeyword(t, "not");
  }

  lemma KeywordAt(kw: string, t: string)
    requires kw == "and" || kw == "or"
    ensures var s := Sep(kw) + t;
      && SkipWs(s) == kw + (" " + t) && KwAt(SkipWs(s), kw) && SkipWs(s)[|kw|..] == " " + t
      && (kw == "or" ==> !KwAt(SkipWs(s), "and"))
  {
    var s, q := Sep(kw) + t, kw + (" " + t);
    assert s == " " + q && s[1..] == q;
    assert q[..|kw|] == kw && Lower(kw) == kw && q[|kw|] == ' ';
    if kw == "or" { assert q[..3][0] == 'o' && Lower(q[..3])[0] == 'o'; }
  }

  lemma ChainOne(s: string, kw: string, k: Parsed, ks: seq<Node>, d: nat, parse: string -> Option<Test>)
    requires kw != "" && d <= MAX_DEPTH && KwAt(SkipWs(s), kw) && InParens(SkipWs(s)[|kw|..], d + 1, parse) == Some(k)
    requires Chain(k.rest, kw, d, parse) == Some((ks, ""))
    ensures Chain(s, kw, d, parse) == Some(([k.node] + ks, ""))
  {
  }

  lemma ChainStep(ks: seq<Node>, kw: string, first: string, more: string, d: nat, parse: string -> Option<Test>)
    requires ks != [] && (kw == "and" || kw == "or") && d <= MAX_DEPTH
    requires InParens(first + more, d + 1, parse) == Some(Parsed(ks[0], more))
    requires Chain(more, kw, d, parse) == Some((ks[1..], ""))
    ensures Chain(Sep(kw) + (first + more), kw, d, parse) == Some((ks, ""))
  {
    KeywordAt(kw, first + more);
    InParensLead(first + more, d + 1, parse);
    ChainOne(Sep(kw) + (first + more), kw, Parsed(ks[0], more), ks[1..], d, parse);
    FirstAndRest(ks);
  }

  lemma FirstAndRest(ks: seq<Node>)
    requires ks != []
    ensures [ks[0]] + ks[1..] == ks
  {
  }

  lemma MoreSealed(first: string, more: string, kw: string)
    requires kw == "and" || kw == "or"
    requires Sealed(first) && Sealed(more) && EndsTerm(first) && (more == "" || EndsTerm(more))
    ensures Sealed(Sep(kw) + (first + more)) && EndsTerm(Sep(kw) + (first + more))
  {
    assert Flat(Sep(kw));
    FlatSealed(Sep(kw));
    SealedConcat(first, more);
    SealedConcat(Sep(kw), first + more);
    EndsConcat(first, more);
    EndsConcat(Sep(kw), first + more);
  }

  lemma EndsConcat(a: string, b: string)
    requires (b == "" && EndsTerm(a)) || EndsTerm(b)
    ensures EndsTerm(a + b)
  {
    assert b == "" ==> a + b == a;
  }

  /** A first term that parses, and what its joining gives. */
  lemma ConditionJoined(t: string, first: Parsed, allowOr: bool, d: nat, parse: string -> Option<Test>)
    requires d <= MAX_DEPTH && t != "" && t[0] == '(' && InParens(t, d + 1, parse) == Some(first)
    ensures Condition(t, allowOr, d, parse) == Joined(first, allowOr, d, parse)
  {
    ParenIsNoKeyword(t, "not");
  }

  lemma JoinedMany(first: Parsed, kw: string, more: seq<Node>, allowOr: bool, d: nat, parse: string -> Option<Test>)
    requires (kw == "and" || kw == "or") && (kw == "or" ==> allowOr && !KwAt(SkipWs(first.rest), "and"))
    requires KwAt(SkipWs(first.rest), kw) && Chain(first.rest, kw, d, parse) == Some((more, ""))
    ensures Joined(first, allowOr, d, parse) ==
      Some(Parsed(if kw == "and" then AndN([first.node] + more) else OrN([first.node] + more), ""))
  {
  }

  lemma RoundMany(ks: seq<Node>, rs: seq<Node>, kw: string, allowOr: bool, d: nat, parse: string -> Option<Test>,
                  show: Test -> string)
    requires |ks| >= 2 && rs != [] && (kw == "and" || kw == "or") && (kw == "or" ==> allowOr) && d <= MAX_DEPTH
    requires var more := MoreTexts(ks[1..], Sep(kw), show);
      && InParens(Text(ks[0], show) + more, d + 1, parse) == Some(Parsed(rs[0], more))
      && Chain(more, kw, d, parse) == Some((rs[1..], "")) && Sealed(more) && EndsTerm(more)
    requires Sealed(Text(ks[0], show)) && IsTermText(Text(ks[0], show))
    ensures Condition(Texts(ks, Sep(kw), show), allowOr, d, parse) ==
      Some(Parsed(if kw == "and" then AndN(rs) else OrN(rs), ""))
  {
    var more := MoreTexts(ks[1..], Sep(kw), show);
    KeywordAt(kw, Text(ks[1], show) + MoreTexts(ks[1..][1..], Sep(kw), show));
    RoundJoined(Text(ks[0], show) + more, rs, more, kw, allowOr, d, parse);
  }

  lemma RoundJoined(t: string, ks: seq<Node>, more: string, kw: string, allowOr: bool, d: nat,
                    parse: string -> Option<Test>)
    requires ks != [] && (kw == "and" || kw == "or") && d <= MAX_DEPTH && t != "" && t[0] == '('
    requires InParens(t, d + 1, parse) == Some(Parsed(ks[0], more)) && Chain(more, kw, d, parse) == Some((ks[1..], ""))
    requires KwAt(SkipWs(more), kw) && (kw == "or" ==> allowOr && !KwAt(SkipWs(more), "and"))
    ensures Condition(t, allowOr, d, parse) == Some(Parsed(if kw == "and" then AndN(ks) else OrN(ks), ""))
  {
    ConditionJoined(t, Parsed(ks[0], more), allowOr, d, parse);
    JoinedMany(Parsed(ks[0], more), kw, ks[1..], allowOr, d, parse);
    FirstAndRest(ks);
  }

  lemma TermsSealed(first: string, more: string)
    requires Sealed(first) && Sealed(more) && IsTermText(first) && EndsTerm(more)
    ensures Sealed(first + more) && Solid(first + more)
  {
    SealedConcat(first, more);
    EndsConcat(first, more);
    assert (first + more)[0] == first[0];
  }
}
