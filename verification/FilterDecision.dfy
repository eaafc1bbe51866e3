/** Whether a request is blocked: the rules of every extension, the host index, and their priorities. */
module FilterDecision {
  import opened Wrappers
  import opened Ascii
  import opened FilterUrl

  datatype Request = Request(url: string, initiator: Option<string>)

  datatype Action = Block | Allow

  /** `other` stands for the conditions on parties, domains, types and regular expressions. */
  datatype Rule = Rule(
    action: Action, priority: int, filter: Option<string>, caseSensitive: bool, other: Request -> bool)

  ghost predicate Matches(r: Rule, q: Request) {
    r.other(q) && (r.filter.Some? ==> FilterMatches(r.filter.value, q.url, r.caseSensitive))
  }

  method RuleMatches(r: Rule, q: Request) returns (ok: bool)
    ensures ok <==> Matches(r, q)
  {
    if !r.other(q) { return false; }
    if r.filter.Some? {
      var selected := UrlFilterMatch(r.filter.value, q.url, r.caseSensitive);
      if !selected { return false; }
    }
    return true;
  }

  // ---- The decision, said by priorities ----

  /** The rule is one of some extension's. */
  ghost predicate Given(exts: seq<seq<Rule>>, r: Rule) {
    exists i :: 0 <= i < |exts| && r in exts[i]
  }

  predicate IsWeb(url: string) {
    (|url| >= 7 && url[..7] == "http://") || (|url| >= 8 && url[..8] == "https://")
  }

  /** A matching rule of that action and priority; a host in the index blocks with priority 1. */
  ghost predicate Votes(exts: seq<seq<Rule>>, blocked: set<string>, q: Request, action: Action, priority: int) {
    (action == Block && priority == 1 && Indexed(blocked, Lower(Authority(q.url)))) ||
    exists r :: Given(exts, r) && Matches(r, q) && r.action == action && r.priority == priority
  }

  /** The highest priority, not negative, at which anything votes has a block and no allow. */
  ghost predicate Blocks(exts: seq<seq<Rule>>, blocked: set<string>, q: Request) {
    exts != [] && IsWeb(q.url) &&
    exists p: nat ::
      Votes(exts, blocked, q, Block, p) && !Votes(exts, blocked, q, Allow, p) &&
      forall a, p' | p' > p :: !Votes(exts, blocked, q, a, p')
  }

  // ---- The loop over the rules ----

  /** What has been found among the rules gone through: the highest priority, -1 for none, and
      whether something allows or blocks at it. */
  datatype Best = Best(priority: int, allow: bool, block: bool)

  ghost predicate Tallies(b: Best, indexed: bool, seen: seq<Rule>, q: Request) {
    && b.priority >= -1
    && (forall r <- seen :: Matches(r, q) ==> r.priority <= b.priority || r.priority < 0)
    && (indexed ==> b.priority >= 1)
    && (b.priority >= 0 ==>
          && b.allow == (exists r <- seen :: Matches(r, q) && r.priority == b.priority && r.action == Allow)
          && b.block == ((indexed && b.priority == 1) ||
                         exists r <- seen :: Matches(r, q) && r.priority == b.priority && r.action == Block)
          && (b.allow || b.block))
  }

  function Counted(b: Best, r: Rule): Best {
    if r.priority > b.priority then Best(r.priority, r.action == Allow, r.action == Block)
    else if r.priority == b.priority then
      if r.action == Allow then b.(allow := true) else b.(block := true)
    else b
  }

  lemma CountedTallies(b: Best, indexed: bool, seen: seq<Rule>, q: Request, r: Rule)
    requires Tallies(b, indexed, seen, q)
    ensures Matches(r, q) ==> Tallies(Counted(b, r), indexed, seen + [r], q)
    ensures !Matches(r, q) ==> Tallies(b, indexed, seen + [r], q)
  {
  }

  function AllRules(exts: seq<seq<Rule>>): seq<Rule> {
    if exts == [] then [] else AllRules(exts[..|exts| - 1]) + exts[|exts| - 1]
  }

  /** The inner loop: the rules of one extension. */
  method TallyRules(before: Best, rules: seq<Rule>, q: Request, ghost indexed: bool, ghost seen: seq<Rule>)
    returns (best: Best)
    requires Tallies(before, indexed, seen, q)
    ensures Tallies(best, indexed, seen + rules[..|rules|], q)
  {
    best := before;
    var j := 0;
    assert seen + rules[..0] == seen;
    while j < |rules|
      invariant 0 <= j <= |rules|
      invariant Tallies(best, indexed, seen + rules[..j], q)
    {
      var r := rules[j];
      var matches := RuleMatches(r, q);
      CountedTallies(best, indexed, seen + rules[..j], q, r);
      assert seen + rules[..j + 1] == (seen + rules[..j]) + [r];
      if matches {
        if r.priority > best.priority {
          best := Best(r.priority, r.action == Allow, r.action == Block);
        } else if r.priority == best.priority {
          if r.action == Allow { best := best.(allow := true); } else { best := best.(block := true); }
        }
      }
      j := j + 1;
    }
  }

  lemma AllRulesNext(exts: seq<seq<Rule>>, i: nat)
    requires i < |exts|
    ensures AllRules(exts[..i]) + exts[i][..|exts[i]|] == AllRules(exts[..i + 1])
  {
    assert exts[i][..|exts[i]|] == exts[i] && exts[..i + 1][..i] == exts[..i];
  }

  method ShouldBlock(exts: seq<seq<Rule>>, blocked: set<string>, q: Request) returns (block: bool)
    ensures block <==> Blocks(exts, blocked, q)
  {
    if exts == [] || !IsWeb(q.url) { return false; }
    var best := Best(-1, false, false);
    var indexed := HostIndexed(blocked, Lower(Authority(q.url)));
    if indexed { best := Best(1, false, true); }
    var i := 0;
    while i < |exts|
      invariant 0 <= i <= |exts|
      invariant Tallies(best, indexed, AllRules(exts[..i]), q)
    {
      best := TallyRules(best, exts[i], q, indexed, AllRules(exts[..i]));
      AllRulesNext(exts, i);
      i := i + 1;
    }
    assert exts[..i] == exts;
    TalliesDecide(best, exts, blocked, q);
    return best.priority >= 0 && best.block && !best.allow;
  }

  lemma {:induction false} AllRulesGiven(exts: seq<seq<Rule>>, r: Rule)
    ensures Given(exts, r) <==> r in AllRules(exts)
  {
    if exts != [] {
      AllRulesGiven(exts[..|exts| - 1], r);
      if Given(exts, r) {
        var i :| 0 <= i < |exts| && r in exts[i];
        assert i < |exts| - 1 ==> r in exts[..|exts| - 1][i];
      }
      if Given(exts[..|exts| - 1], r) {
        var i :| 0 <= i < |exts| - 1 && r in exts[..|exts| - 1][i];
        assert r in exts[i];
      }
    }
  }

  /** The votes are those of the index and of the rules gone through. */
  lemma VotesOfAll(exts: seq<seq<Rule>>, blocked: set<string>, q: Request, a: Action, p: int)
    ensures Votes(exts, blocked, q, a, p) <==>
      (a == Block && p == 1 && Indexed(blocked, Lower(Authority(q.url)))) ||
      exists r <- AllRules(exts) :: Matches(r, q) && r.priority == p && r.action == a
  {
    forall r ensures Given(exts, r) <==> r in AllRules(exts) { AllRulesGiven(exts, r); }
    if r :| r in AllRules(exts) && Matches(r, q) && r.priority == p && r.action == a {
      assert Given(exts, r);
    }
  }

  /** When all rules have been gone through, the tally decides. */
  lemma TalliesDecide(b: Best, exts: seq<seq<Rule>>, blocked: set<string>, q: Request)
    requires exts != [] && IsWeb(q.url)
    requires Tallies(b, Indexed(blocked, Lower(Authority(q.url))), AllRules(exts), q)
    ensures Blocks(exts, blocked, q) <==> b.priority >= 0 && b.block && !b.allow
  {
    forall a, p: nat | p > b.priority ensures !Votes(exts, blocked, q, a, p) {
      VotesOfAll(exts, blocked, q, a, p);
    }
    VotesOfAll(exts, blocked, q, Block, b.priority);
    VotesOfAll(exts, blocked, q, Allow, b.priority);
    if p: nat :| Votes(exts, blocked, q, Block, p) && !Votes(exts, blocked, q, Allow, p) &&
                 forall a, p' | p' > p :: !Votes(exts, blocked, q, a, p') {
      assert p == b.priority;
    }
  }

  // ---- What decides ----

  lemma HighestBlock(seen: seq<Rule>, q: Request, low: int) returns (p: int)
    ensures p >= low && (p == low || exists r <- seen :: Matches(r, q) && r.action == Block && r.priority == p)
    ensures forall r <- seen :: Matches(r, q) && r.action == Block ==> r.priority <= p
  {
    p := low;
    for i := 0 to |seen|
      invariant p >= low && (p == low || exists r <- seen :: Matches(r, q) && r.action == Block && r.priority == p)
      invariant forall j :: 0 <= j < i && Matches(seen[j], q) && seen[j].action == Block ==> seen[j].priority <= p
    {
      if Matches(seen[i], q) && seen[i].action == Block && seen[i].priority > p { p := seen[i].priority; }
    }
  }

  /** A request is blocked exactly when something blocks it, with a priority not negative, that nothing
      allowing it reaches. */
  lemma BlocksExactly(exts: seq<seq<Rule>>, blocked: set<string>, q: Request)
    requires exts != [] && IsWeb(q.url)
    ensures Blocks(exts, blocked, q) <==>
      exists p: nat :: Votes(exts, blocked, q, Block, p) && forall p' | p' >= p :: !Votes(exts, blocked, q, Allow, p')
  {
    if low: nat :| Votes(exts, blocked, q, Block, low) && forall p' | p' >= low :: !Votes(exts, blocked, q, Allow, p') {
      var least := if Indexed(blocked, Lower(Authority(q.url))) && low < 1 then 1 else low;
      var top := HighestBlock(AllRules(exts), q, least);
      forall p | p >= top ensures Votes(exts, blocked, q, Block, p) <==> p == top {
        VotesOfAll(exts, blocked, q, Block, p);
        VotesOfAll(exts, blocked, q, Block, low);
      }
      assert Votes(exts, blocked, q, Block, top);
    }
  }

  // ---- What the decision does not depend on ----

  /** The order of rules and extensions does not matter, nor which extension gives a rule. */
  lemma OrderFree(exts: seq<seq<Rule>>, exts': seq<seq<Rule>>, blocked: set<string>, q: Request)
    requires exts != [] && exts' != [] && forall r :: Given(exts, r) <==> Given(exts', r)
    ensures Blocks(exts, blocked, q) <==> Blocks(exts', blocked, q)
  {
    forall a, p ensures Votes(exts, blocked, q, a, p) <==> Votes(exts', blocked, q, a, p) {
    }
  }

  /** The rule that a filter naming a host would be, were it not put in the index. */
  function HostRule(pat: string): Rule {
    Rule(Block, 1, Some(pat), false, _ => true)
  }

  /** The hosts that a set of such filters puts in the index. */
  ghost function HostsOf(pats: set<string>): set<string>
    requires forall pat <- pats :: SimpleHost(pat)
  {
    set pat <- pats :: HostOfPattern(pat)
  }

  lemma IndexedHosts(pats: set<string>, host: string)
    requires forall pat <- pats :: SimpleHost(pat)
    ensures Indexed(HostsOf(pats), host) <==> exists pat <- pats :: Indexed({HostOfPattern(pat)}, host)
  {
    var name := StripPort(host);
    if Indexed(HostsOf(pats), host) {
      var pos: nat :| NameLabel(name, pos) && name[pos..] in HostsOf(pats);
      var pat :| pat in pats && HostOfPattern(pat) == name[pos..];
      assert Indexed({HostOfPattern(pat)}, host);
    }
    if pat :| pat in pats && Indexed({HostOfPattern(pat)}, host) {
      var pos: nat :| NameLabel(name, pos) && name[pos..] in {HostOfPattern(pat)};
      assert name[pos..] in HostsOf(pats);
    }
  }

  /** Keeping any set of hosts in the index gives the same decisions as keeping their filters among
      the rules, wherever these stand there. */
  lemma IndexOrRules(exts: seq<seq<Rule>>, exts': seq<seq<Rule>>, blocked: set<string>, pats: set<string>, q: Request)
    requires exts != [] && exts' != [] && RunsAreSuffixes(Lower(q.url)) && forall pat <- pats :: SimpleHost(pat)
    requires forall r :: Given(exts', r) <==> Given(exts, r) || exists pat <- pats :: r == HostRule(pat)
    ensures Blocks(exts, blocked + HostsOf(pats), q) <==> Blocks(exts', blocked, q)
  {
    var host := Lower(Authority(q.url));
    forall pat <- pats ensures Matches(HostRule(pat), q) <==> Indexed({HostOfPattern(pat)}, host) {
      IndexIsFilter(pat, q.url);
    }
    IndexedHosts(pats, host);
    IndexedUnion(blocked, HostsOf(pats), host);
    forall a, p ensures Votes(exts, blocked + HostsOf(pats), q, a, p) <==> Votes(exts', blocked, q, a, p) {
      assert forall pat <- pats :: Given(exts', HostRule(pat));
    }
  }

  lemma OneRuleBlocks(r: Rule, q: Request)
    requires IsWeb(q.url) && Matches(r, q) && r.action == Block && r.priority == 1
    ensures Blocks([[r]], {}, q)
  {
    forall r' ensures Given([[r]], r') <==> r' == r {
      assert r in [[r]][0];
    }
    assert !Indexed({}, Lower(Authority(q.url)));
    assert Votes([[r]], {}, q, Block, 1);
  }

  lemma NoVoteNoBlock(blocked: set<string>, q: Request)
    requires !Indexed(blocked, Lower(Authority(q.url)))
    ensures !Blocks([[]], blocked, q)
  {
    forall p ensures !Votes([[]], blocked, q, Block, p) {
      assert forall r :: !Given([[]], r);
    }
  }

  /** On any other URL some single host makes the difference. */
  lemma IndexNotRule(q: Request) returns (pat: string)
    requires IsWeb(q.url) && !RunsAreSuffixes(Lower(q.url))
    ensures SimpleHost(pat) && Blocks([[HostRule(pat)]], {}, q) && !Blocks([[]], {HostOfPattern(pat)}, q)
  {
    var u := Lower(q.url);
    var pos: nat :| pos <= |u| && RunAt(u, pos) && !LabelSuffix(StripPort(Authority(u)), u[pos..HostRunEnd(u, pos)]);
    pat := RunMissed(q.url, pos);
    OneRuleBlocks(HostRule(pat), q);
    NoVoteNoBlock({HostOfPattern(pat)}, q);
  }

  lemma IndexedUnion(a: set<string>, b: set<string>, host: string)
    ensures Indexed(a + b, host) <==> Indexed(a, host) || Indexed(b, host)
  {
    var name := StripPort(host);
    if Indexed(a + b, host) {
      var pos: nat :| NameLabel(name, pos) && name[pos..] in a + b;
      assert name[pos..] in a || name[pos..] in b;
    }
    if Indexed(a, host) {
      var pos: nat :| NameLabel(name, pos) && name[pos..] in a;
      assert name[pos..] in a + b;
    }
    if Indexed(b, host) {
      var pos: nat :| NameLabel(name, pos) && name[pos..] in b;
      assert name[pos..] in a + b;
    }
  }
}
