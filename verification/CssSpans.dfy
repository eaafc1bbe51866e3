/** How component values lie in the input: in order, apart, nested, with only comments between. */
module CssSpans {
  import opened Ascii
  import opened CssTokens
  import opened CssParser
  import opened CssScan

  /** Bounds of a list: from `lo`, within the input, and up to `hi`. */
  ghost predicate Ordered(lo: nat, hi: nat, cs: seq<Component>)
  {
    && (forall i :: 0 <= i < |cs| ==> lo <= cs[i].start < cs[i].end <= hi)
    && (forall i, j :: 0 <= i < j < |cs| ==> cs[i].end <= cs[j].start)
  }

  /** Whatever lies between neighbours, and before the first, is comments. */
  ghost predicate CommentsBetween(s: string, lo: nat, cs: seq<Component>)
  {
    forall i :: 0 <= i < |cs| ==> Gap(s, if i == 0 then lo else cs[i - 1].end, cs[i].start)
  }

  lemma {:induction false} GapForward(s: string, i: nat, j: nat)
    requires Gap(s, i, j)
    ensures i <= j <= |s|
    decreases |s| - i
  {
    if i != j {
      GapForward(s, CommentEnd(s, i), j);
    }
  }

  lemma LeafForward(s: string, i: nat)
    requires i < |s| && TokenAt(s, i).Whole?
    ensures i < TokenAt(s, i).c.end <= |s|
  {
    if !IsWs(s[i]) && StartsNumber(s, i) {
      NumberAdvances(s, i);
    } else if StartsIdent(s, i) {
      IdentAdvances(s, i);
    }
  }

  lemma OpensForward(s: string, i: nat)
    requires i < |s| && TokenAt(s, i).Opens?
    ensures i < TokenAt(s, i).body <= |s|
  {
  }

  lemma {:induction false} ComponentSpan(s: string, c: Component)
    requires IsComponent(s, c)
    ensures c.start < c.end <= |s|
    ensures Ordered(c.start + 1, c.end, c.children)
    ensures forall k :: 0 <= k < |c.children| ==> c.children[k].end < c.end || c.end == |s|
    decreases c, 1
  {
    match TokenAt(s, c.start)
    case Whole(leaf) => LeafForward(s, c.start);
    case Opens(kind, value, body, closer) =>
      OpensForward(s, c.start);
      ListSpans(s, body, c.end, c.children, closer);
    case Broken =>
  }

  /** Siblings are ordered and disjoint with only comments between; a list with a closing bracket
      ends strictly after its last member unless the input ends first. */
  lemma {:induction false} ListSpans(s: string, lo: nat, hi: nat, cs: seq<Component>, closing: char)
    requires IsList(s, lo, hi, cs, closing) && lo <= |s|
    ensures lo <= hi <= |s| && Ordered(lo, hi, cs) && CommentsBetween(s, lo, cs)
    ensures hi == |s| || (lo < hi && forall k :: 0 <= k < |cs| ==> cs[k].end < hi)
    decreases cs, 0
  {
    if cs == [] {
      var j: nat :| Gap(s, lo, j) && EndsAt(s, j, hi, closing);
      GapForward(s, lo, j);
    } else {
      GapForward(s, lo, cs[0].start);
      ComponentSpan(s, cs[0]);
      ListSpans(s, cs[0].end, hi, cs[1..], closing);
      assert forall k :: 0 < k < |cs| ==> cs[k] == cs[1..][k - 1];
    }
  }

  ghost function Text(s: string, cs: seq<Component>): string
    requires Ordered(0, |s|, cs)
  {
    if cs == [] then "" else s[cs[0].start..cs[0].end] + Text(s, cs[1..])
  }

  lemma {:induction false} TiledFrom(s: string, lo: nat, cs: seq<Component>)
    requires IsList(s, lo, |s|, cs, NONE) && lo <= |s| && Ordered(0, |s|, cs)
    requires forall i :: 0 <= i < |s| ==> !CommentAt(s, i)
    ensures Text(s, cs) == s[lo..]
    decreases |cs|
  {
    if cs == [] {
      var j: nat :| Gap(s, lo, j) && EndsAt(s, j, |s|, NONE);
    } else {
      assert cs[0].start == lo;
      assert forall k :: 0 <= k < |cs[1..]| ==> cs[1..][k] == cs[k + 1];
      TiledFrom(s, cs[0].end, cs[1..]);
      assert s[lo..] == s[lo..cs[0].end] + s[cs[0].end..];
    }
  }

  /** A valid input without comments is tiled exactly by its top-level component values. */
  lemma Tiled(s: string, cs: seq<Component>)
    requires IsValue(s, cs) && forall i :: 0 <= i < |s| ==> !CommentAt(s, i)
    ensures Ordered(0, |s|, cs) && Text(s, cs) == s
  {
    ListSpans(s, 0, |s|, cs, NONE);
    TiledFrom(s, 0, cs);
    assert s[0..] == s;
  }

  // ---- past the scanner's stack ----

  /** `n` opening brackets, one closing bracket fewer, a separator, and the last closing bracket. */
  ghost function Tower(n: nat, c: char): string
  {
    seq(n, i => '(') + seq(if n > 0 then n - 1 else 0, i => ')') + [c, ')']
  }

  lemma {:induction false} TowerOpens(s: string, n: nat, p: nat, st: string, t: string)
    requires p <= n <= |s| && forall i :: p <= i < n ==> s[i] == '('
    requires |st| <= MAX_STACK && (forall i :: 0 <= i < |st| ==> st[i] == ')')
    requires Separators(t)
    ensures exists u: string :: |u| == (if |st| + n - p < MAX_STACK then |st| + n - p else MAX_STACK)
              && (forall i :: 0 <= i < |u| ==> u[i] == ')')
              && ScanFrom(s, p, NONE, st, t) == ScanFrom(s, n, NONE, u, t)
    decreases n - p
  {
    if p < n {
      TowerOpens(s, n, p + 1, NextStack(st, '('), t);
    } else {
      assert |st| == if |st| + n - p < MAX_STACK then |st| + n - p else MAX_STACK;
    }
  }

  lemma {:induction false} TowerCloses(s: string, p: nat, q: nat, st: string, t: string)
    requires p <= q <= |s| && (forall i :: p <= i < q ==> s[i] == ')') && |st| <= q - p
    requires forall i :: 0 <= i < |st| ==> st[i] == ')'
    requires Separators(t)
    ensures ScanFrom(s, p, NONE, st, t) == ScanFrom(s, q, NONE, "", t)
    decreases q - p
  {
    if p < q {
      TowerCloses(s, p + 1, q, NextStack(st, ')'), t);
    }
  }

  /** Brackets nested deeper than the scanner's stack make it lose count: here it stops at a
      separator that is inside the outermost bracket. */
  lemma ScannerLosesCount(n: nat, c: char, t: string)
    requires n > MAX_STACK && Separators(t) && c in t
    ensures ScanFrom(Tower(n, c), 0, NONE, "", t) == 2 * n - 1
  {
    var s := Tower(n, c);
    TowerOpens(s, n, 0, "", t);
    var u: string :| |u| == MAX_STACK && (forall i :: 0 <= i < |u| ==> u[i] == ')')
      && ScanFrom(s, 0, NONE, "", t) == ScanFrom(s, n, NONE, u, t);
    TowerCloses(s, n, 2 * n - 1, u, t);
    assert s[2 * n - 1] == c;
  }

  /** The separator inside the tower. */
  function Top(n: nat, c: char): Component
    requires n > 0
  {
    Leaf(if c == ';' then Semicolon else if c == ',' then Comma else Colon, 2 * n - 1, 2 * n, "", "", c)
  }

  /** The bracket number `i` of the tower, with everything inside it. */
  ghost function Storey(n: nat, c: char, i: nat): Component
    requires i < n
    decreases n - i
  {
    var above := if i + 1 < n then [Storey(n, c, i + 1)] else [];
    if i == 0 then Component(Block, 0, 2 * n + 1, "", "", ')', above + [Top(n, c)])
    else Component(Block, i, 2 * n - i, "", "", ')', above)
  }

  lemma {:induction false} StoreyIsComponent(n: nat, c: char, i: nat)
    requires 0 < i < n
    ensures IsComponent(Tower(n, c), Storey(n, c, i)) && Depth(Storey(n, c, i)) == n - i
    decreases n - i
  {
    var s, storey := Tower(n, c), Storey(n, c, i);
    var last := 2 * n - i - 1;
    assert s[i] == '(' && s[last] == ')';
    assert !StartsNumber(s, i) && TokenAt(s, i) == Opens(Block, "", i + 1, ')');
    assert Gap(s, last, last) && EndsAt(s, last, storey.end, ')');
    assert IsList(s, last, storey.end, [], ')');
    if i + 1 < n {
      StoreyIsComponent(n, c, i + 1);
      assert storey.children[1..] == [];
      DepthOne(Storey(n, c, i + 1));
    }
  }

  lemma DepthOne(c: Component)
    ensures DepthAll([c]) == Depth(c)
  {
    assert [c][1..] == [];
  }

  lemma DepthTwo(c: Component, d: Component)
    ensures DepthAll([c, d]) == if Depth(c) > Depth(d) then Depth(c) else Depth(d)
  {
    assert [c, d][1..] == [d];
    DepthOne(d);
  }

  lemma TopList(n: nat, c: char)
    requires n > 1 && IsTerminator(c)
    ensures IsList(Tower(n, c), 2 * n - 1, 2 * n + 1, [Top(n, c)], ')')
  {
    var s, top := Tower(n, c), Top(n, c);
    assert s[2 * n - 1] == c && s[2 * n] == ')';
    assert TokenAt(s, 2 * n - 1) == Whole(top);
    assert IsComponent(s, top);
    assert Gap(s, 2 * n, 2 * n) && EndsAt(s, 2 * n, 2 * n + 1, ')');
    assert IsList(s, 2 * n, 2 * n + 1, [], ')');
    assert [top][1..] == [];
  }

  /** What the outermost bracket of the tower holds. */
  lemma TowerInside(n: nat, c: char)
    requires n > 1 && IsTerminator(c)
    ensures IsList(Tower(n, c), 1, 2 * n + 1, Storey(n, c, 0).children, ')')
    ensures DepthAll(Storey(n, c, 0).children) == n - 1
  {
    var first, top := Storey(n, c, 1), Top(n, c);
    StoreyIsComponent(n, c, 1);
    TopList(n, c);
    assert [first, top][1..] == [top];
    assert Storey(n, c, 0).children == [first, top];
    DepthTwo(first, top);
  }

  /** The tower is a single valid component value, nested `n` deep, with no separator outside it:
      the scanner should have run to the end. */
  lemma TowerIsValue(n: nat, c: char, t: string)
    requires n > 1 && IsTerminator(c)
    ensures IsValue(Tower(n, c), [Storey(n, c, 0)]) && DepthAll([Storey(n, c, 0)]) == n
    ensures FirstStop(Tower(n, c), [Storey(n, c, 0)], t) == |Tower(n, c)| == 2 * n + 1
    ensures NulFree(Tower(n, c))
  {
    var s, b := Tower(n, c), Storey(n, c, 0);
    TowerInside(n, c);
    assert s[0] == '(';
    assert TokenAt(s, 0) == Opens(Block, "", 1, ')');
    assert IsComponent(s, b);
    assert Gap(s, b.end, b.end) && EndsAt(s, b.end, |s|, NONE);
    assert IsList(s, b.end, |s|, [], NONE);
    assert [b][1..] == [];
    DepthOne(b);
  }

  // ---- how deep the scanner can be trusted ----

  /** On every valid input nested at most `n` deep the scanner stops where the parser's first
      top-level terminator starts. */
  ghost predicate AgreesTo(n: nat, t: string)
  {
    forall s, cs {:trigger IsValue(s, cs)} ::
      IsValue(s, cs) && NulFree(s) && DepthAll(cs) <= n ==> ScanFrom(s, 0, NONE, "", t) == FirstStop(s, cs, t)
  }

  /** Without terminators the scan runs to the end, whatever its stack. */
  lemma {:induction false} NothingStops(s: string, p: nat, quote: char, st: string)
    requires p <= |s| && NulFree(s)
    ensures ScanFrom(s, p, quote, st, "") == |s|
    decreases |s| - p
  {
    if p < |s| {
      if quote != NONE {
        if s[p] == '\\' && p + 1 < |s| {
          NothingStops(s, p + 2, quote, st);
        } else {
          NothingStops(s, p + 1, if s[p] == quote then NONE else quote, st);
        }
      } else if CommentAt(s, p) {
        NothingStops(s, CommentEnd(s, p), quote, st);
      } else if s[p] == '\\' && p + 1 < |s| {
        NothingStops(s, p + 2, quote, st);
      } else if s[p] == '"' || s[p] == '\'' {
        NothingStops(s, p + 1, s[p], st);
      } else {
        NothingStops(s, p + 1, quote, NextStack(st, s[p]));
      }
    }
  }

  lemma {:induction false} NoStop(s: string, cs: seq<Component>)
    ensures FirstStop(s, cs, "") == |s|
  {
    if cs != [] {
      NoStop(s, cs[1..]);
    }
  }

  /** The depth of the scanner's stack is exactly the depth to which it agrees with the parser,
      unless there is nothing to stop at. */
  lemma TrustedDepth(n: nat, t: string)
    requires Separators(t)
    ensures AgreesTo(n, t) <==> t == "" || n <= MAX_STACK
  {
    if t == "" {
      forall s, cs | IsValue(s, cs) && NulFree(s) ensures ScanFrom(s, 0, NONE, "", t) == FirstStop(s, cs, t) {
        NothingStops(s, 0, NONE, "");
        NoStop(s, cs);
      }
    } else if n <= MAX_STACK {
      forall s, cs | IsValue(s, cs) && NulFree(s) && DepthAll(cs) <= n
        ensures ScanFrom(s, 0, NONE, "", t) == FirstStop(s, cs, t)
      {
        ScannerAgrees(s, cs, t);
      }
    } else {
      assert t[0] in t;
      TowerIsValue(n, t[0], t);
      ScannerLosesCount(n, t[0], t);
    }
  }
}
