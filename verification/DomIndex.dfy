/** The class and tag indexes of a document: for every key, the visible elements that carry
    it, kept in document order through insertions, removals and class changes. */
module DomIndex {
  import opened Ascii
  import opened DomTree
  import opened DomEdit
  import opened DomOrder
  import opened DomLists

  datatype Axis = Class | Tag

  type Pairs = set<(Node, string)>

  // ---- the keys of an element ----

  /** `s[i..j]` is a token: a run without white space that cannot be extended. */
  ghost predicate IsToken(s: string, i: int, j: int)
  {
    && 0 <= i < j <= |s|
    && (forall k :: i <= k < j ==> !IsWs(s[k]))
    && (i > 0 ==> IsWs(s[i - 1]))
    && (j < |s| ==> IsWs(s[j]))
  }

  /** The tokens of `s` that end at or before `p`. */
  ghost function TokensTo(s: string, p: int): set<string>
  {
    set i, j | 0 <= i < |s| && 0 <= j <= |s| && IsToken(s, i, j) && j <= p :: s[i..j]
  }

  ghost function Tokens(s: string): set<string>
  {
    TokensTo(s, |s|)
  }

  predicate IsAsciiLower(s: string)
  {
    forall i :: 0 <= i < |s| ==> !('A' <= s[i] <= 'Z')
  }

  ghost function Keys(c: Cell, axis: Axis): set<string>
  {
    if c.kind != Element then {}
    else match axis
      case Class => Tokens(c.classAttr)
      case Tag => if c.name == "" then {} else {Lower(c.name)}
  }

  // ---- which nodes are indexed ----

  predicate BoundaryCell(c: Cell)
  {
    (c.kind == Document && c.parent != null) || (c.kind == Element && c.shadowRoot)
  }

  predicate TemplateCell(c: Cell)
  {
    c.kind == Element && c.name == "template"
  }

  /** The visible nodes of a subtree in tree order: not at or below a scope boundary, and not
      below a template element. */
  ghost function Vis(doc: Node, m: Cells, t: Tree): seq<Node>
  {
    if t.node !in m || (t.node != doc && BoundaryCell(m[t.node])) then []
    else [t.node] + if TemplateCell(m[t.node]) then [] else VisAll(doc, m, t.kids)
  }

  ghost function VisAll(doc: Node, m: Cells, ts: seq<Tree>): seq<Node>
  {
    if ts == [] then [] else Vis(doc, m, ts[0]) + VisAll(doc, m, ts[1..])
  }

  /** The (node, key) pairs of some nodes. */
  ghost function Carried(m: Cells, axis: Axis, ns: seq<Node>): Pairs
  {
    set n, k | n in ns && n in m && k in Keys(m[n], axis) :: (n, k)
  }

  ghost function With(r: Pairs, key: string): set<Node>
  {
    set e | e in r && e.1 == key :: e.0
  }

  ghost function Get(lists: map<string, seq<Node>>, key: string): seq<Node>
  {
    if key in lists then lists[key] else []
  }

  /** The table holds exactly the pairs `r`, each list in the order of `s`. */
  ghost predicate Lists(lists: map<string, seq<Node>>, s: seq<Node>, r: Pairs)
  {
    forall key :: Get(lists, key) == Select(s, With(r, key))
  }

  lemma WithPlus(r: Pairs, n: Node, k: string, key: string)
    ensures With(r + {(n, k)}, key) == if key == k then With(r, key) + {n} else With(r, key)
  {
    if key == k {
      assert (n, k) in r + {(n, k)};
      assert n in With(r + {(n, k)}, key);
    }
    forall x ensures x in With(r + {(n, k)}, key) <==> (x in With(r, key) || (key == k && x == n)) {
      assert x in With(r + {(n, k)}, key) <==> (x, key) in r + {(n, k)};
      assert x in With(r, key) <==> (x, key) in r;
    }
  }

  lemma WithMinus(r: Pairs, n: Node, k: string, key: string)
    ensures With(r - {(n, k)}, key) == if key == k then With(r, key) - {n} else With(r, key)
  {
    forall x ensures x in With(r - {(n, k)}, key) <==> (x in With(r, key) && !(key == k && x == n)) {
      assert x in With(r - {(n, k)}, key) <==> (x, key) in r - {(n, k)};
      assert x in With(r, key) <==> (x, key) in r;
    }
  }

  /** Every listed node is before `n` in tree order. */
  ghost predicate Earlier(s: seq<Node>, r: Pairs, n: Node)
  {
    n in s && forall e :: e in r && e.0 in s && e.0 != n ==> Idx(s, e.0) < Idx(s, n)
  }

  lemma CutInOrder(s: seq<Node>, a: seq<Node>, k: nat)
    requires InOrder(s, a) && k < |a|
    ensures InOrder(s, a[..k] + a[k + 1..])
  {
    var b := a[..k] + a[k + 1..];
    var f := Positions(s, a);
    var g := f[..k] + f[k + 1..];
    forall i | 0 <= i < |b|
      ensures b[i] in s && g[i] == Idx(s, b[i])
    {
      if i >= k {
        assert b[i] == a[i + 1] && g[i] == f[i + 1];
      }
    }
    assert forall i, j :: 0 <= i < j < |g| ==> g[i] < g[j];
  }

  lemma CutMembers(s: seq<Node>, a: seq<Node>, k: nat, x: Node)
    requires InOrder(s, a) && k < |a|
    ensures x in a[..k] + a[k + 1..] <==> x in a && x != a[k]
  {
    assert a == a[..k] + [a[k]] + a[k + 1..];
    assert forall i :: 0 <= i < k ==> Idx(s, a[i]) < Idx(s, a[k]);
    assert forall i :: k < i < |a| ==> Idx(s, a[k]) < Idx(s, a[i]);
  }

  /** Taking one node out of a list. */
  lemma SelectMinus(s: seq<Node>, sel: set<Node>, k: nat)
    requires Distinct(s) && k < |Select(s, sel)|
    ensures var a := Select(s, sel); a[..k] + a[k + 1..] == Select(s, sel - {a[k]})
  {
    var a := Select(s, sel);
    SelectInOrder(s, sel);
    CutInOrder(s, a, k);
    forall x | x in s
      ensures x in a[..k] + a[k + 1..] <==> x in sel - {a[k]}
    {
      SelectMembers(s, sel, x);
      CutMembers(s, a, k, x);
    }
    InOrderIsSelect(s, a[..k] + a[k + 1..], sel - {a[k]});
  }

  /** One of the two tables of a document node. */
  class Index {
    const doc: Node
    const axis: Axis
    var built: bool
    var lists: map<string, seq<Node>>

    constructor (doc: Node, axis: Axis)
      ensures this.doc == doc && this.axis == axis && !built && lists == map[]
    {
      this.doc, this.axis, built, lists := doc, axis, false, map[];
    }

    method AddKey(key: string, node: Node, building: bool, ghost t: Tree, ghost m: Cells, ghost r: Pairs)
      requires Settled(t, m) && node in Pre(t) && Lists(lists, Pre(t), r)
      requires building ==> Earlier(Pre(t), r, node)
      modifies this`lists
      ensures Lists(lists, Pre(t), r + {(node, key)})
    {
      ghost var s := Pre(t);
      ghost var sel := With(r, key);
      assert Get(lists, key) == Select(s, sel);
      forall n | n in sel ensures (n, key) in r {}
      var out := [node];
      if key in lists {
        out := OrderedInsert(lists[key], node, building, t, m, sel);
      } else {
        AppendInOrder(s, sel, node);
      }
      ghost var was := lists;
      lists := lists[key := out];
      forall k ensures Get(lists, k) == Select(s, With(r + {(node, key)}, k)) {
        WithPlus(r, node, key, k);
        assert k != key ==> Get(lists, k) == Get(was, k);
      }
    }

    method RemoveKey(key: string, node: Node, ghost s: seq<Node>, ghost r: Pairs)
      requires Distinct(s) && Lists(lists, s, r)
      modifies this`lists
      ensures Lists(lists, s, r - {(node, key)})
    {
      ghost var sel := With(r, key);
      ghost var was := lists;
      assert Get(lists, key) == Select(s, sel);
      if key in lists {
        var arr := lists[key];
        var k := 0;
        while k < |arr| && arr[k] != node
          invariant k <= |arr| && forall i :: 0 <= i < k ==> arr[i] != node
        {
          k := k + 1;
        }
        if k < |arr| {
          SelectMinus(s, sel, k);
          lists := lists[key := arr[..k] + arr[k + 1..]];
        } else {
          NotListed(s, sel, node);
        }
      } else {
        NotListed(s, sel, node);
      }
      forall k ensures Get(lists, k) == Select(s, With(r - {(node, key)}, k)) {
        WithMinus(r, node, key, k);
        assert k != key ==> Get(lists, k) == Get(was, k);
      }
    }

    /** Splits a class attribute at white space and adds each token. */
    method RegisterTokens(cls: string, node: Node, building: bool, ghost t: Tree, ghost m: Cells, ghost r: Pairs)
      requires Settled(t, m) && node in Pre(t) && Lists(lists, Pre(t), r)
      requires building ==> Earlier(Pre(t), r, node)
      modifies this`lists
      ensures Lists(lists, Pre(t), r + PairsOf(node, Tokens(cls)))
    {
      var p := 0;
      assert r + PairsOf(node, TokensTo(cls, 0)) == r;
      while p < |cls|
        invariant p <= |cls| && (p == 0 || p == |cls| || IsWs(cls[p]))
        invariant Lists(lists, Pre(t), r + PairsOf(node, TokensTo(cls, p)))
      {
        ghost var start := p;
        while p < |cls| && IsWs(cls[p])
          invariant start <= p <= |cls| && forall k :: start <= k < p ==> IsWs(cls[k])
        {
          p := p + 1;
        }
        SkippedTokens(cls, start, p);
        if p == |cls| {
          break;
        }
        var tok := p;
        while p < |cls| && !IsWs(cls[p])
          invariant tok <= p <= |cls| && forall k :: tok <= k < p ==> !IsWs(cls[k])
        {
          p := p + 1;
        }
        NextToken(cls, tok, p);
        ghost var done := r + PairsOf(node, TokensTo(cls, tok));
        AddKey(cls[tok..p], node, building, t, m, done);
        assert done + {(node, cls[tok..p])} == r + PairsOf(node, TokensTo(cls, p));
      }
    }

    method UnregisterTokens(cls: string, node: Node, ghost s: seq<Node>, ghost r: Pairs)
      requires Distinct(s) && Lists(lists, s, r)
      modifies this`lists
      ensures Lists(lists, s, r - PairsOf(node, Tokens(cls)))
    {
      var p := 0;
      assert r - PairsOf(node, TokensTo(cls, 0)) == r;
      while p < |cls|
        invariant p <= |cls| && (p == 0 || p == |cls| || IsWs(cls[p]))
        invariant Lists(lists, s, r - PairsOf(node, TokensTo(cls, p)))
      {
        ghost var start := p;
        while p < |cls| && IsWs(cls[p])
          invariant start <= p <= |cls| && forall k :: start <= k < p ==> IsWs(cls[k])
        {
          p := p + 1;
        }
        SkippedTokens(cls, start, p);
        if p == |cls| {
          break;
        }
        var tok := p;
        while p < |cls| && !IsWs(cls[p])
          invariant tok <= p <= |cls| && forall k :: tok <= k < p ==> !IsWs(cls[k])
        {
          p := p + 1;
        }
        NextToken(cls, tok, p);
        ghost var done := r - PairsOf(node, TokensTo(cls, tok));
        RemoveKey(cls[tok..p], node, s, done);
        assert done - {(node, cls[tok..p])} == r - PairsOf(node, TokensTo(cls, p));
      }
    }

    /** Adds an element under its keys; other nodes have none. */
    method Register(node: Node, building: bool, ghost t: Tree, ghost m: Cells, ghost r: Pairs)
      requires Settled(t, m) && node in Pre(t) && Lists(lists, Pre(t), r)
      requires building ==> Earlier(Pre(t), r, node)
      modifies this`lists
      ensures Lists(lists, Pre(t), r + PairsOf(node, Keys(CellOf(node), axis)))
    {
      assert r + PairsOf(node, {}) == r;
      if node.kind == Element {
        match axis
        case Class =>
          NoTokens();
          if node.classAttr != "" {
            RegisterTokens(node.classAttr, node, building, t, m, r);
          }
        case Tag =>
          if node.name != "" {
            var key := if IsAsciiLower(node.name) then node.name else Lower(node.name);
            LowerFixed(node.name);
            AddKey(key, node, building, t, m, r);
            assert PairsOf(node, {key}) == {(node, key)};
          }
      }
    }

    method Unregister(node: Node, ghost s: seq<Node>, ghost r: Pairs)
      requires Distinct(s) && Lists(lists, s, r)
      modifies this`lists
      ensures Lists(lists, s, r - PairsOf(node, Keys(CellOf(node), axis)))
    {
      assert r - PairsOf(node, {}) == r;
      if node.kind == Element {
        match axis
        case Class =>
          NoTokens();
          if node.classAttr != "" {
            UnregisterTokens(node.classAttr, node, s, r);
          }
        case Tag =>
          if node.name != "" {
            var key := if IsAsciiLower(node.name) then node.name else Lower(node.name);
            LowerFixed(node.name);
            RemoveKey(key, node, s, r);
            assert PairsOf(node, {key}) == {(node, key)};
          }
      }
    }

    /** Walks a subtree and registers its visible nodes. */
    method AddSubtree(n: Node, depth: nat, building: bool, ghost t: Tree, ghost m: Cells, ghost p: Path, ghost r: Pairs)
      requires Settled(t, m) && ValidPath(t, p) && n == At(t, p).node && Lists(lists, Pre(t), r)
      requires depth + Height(At(t, p)) <= MAX_DEPTH
      requires building ==> Earlier(Pre(t), r, n)
      modifies this`lists
      ensures Lists(lists, Pre(t), r + Carried(m, axis, Vis(doc, m, At(t, p))))
      decreases At(t, p), 1
    {
      AtIn(t, p);
      assert CellOf(n) == m[n];
      NothingCarried(m, axis, r);
      if depth >= MAX_DEPTH {
        return;
      }
      if n != doc && ((n.kind == Document && n.parent != null) || (n.kind == Element && n.shadowRoot)) {
        return;
      }
      Register(n, building, t, m, r);
      CarriedOne(m, axis, n);
      if n.kind == Element && n.name == "template" {
        assert Vis(doc, m, At(t, p)) == [n];
        return;
      }
      AddKids(n, depth, building, t, m, p, r);
    }

    /** The loop over the children of a node that is already registered. */
    method AddKids(n: Node, depth: nat, building: bool, ghost t: Tree, ghost m: Cells, ghost p: Path, ghost r: Pairs)
      requires Settled(t, m) && ValidPath(t, p) && n == At(t, p).node
      requires Lists(lists, Pre(t), r + Carried(m, axis, [n]))
      requires depth + Height(At(t, p)) <= MAX_DEPTH
      requires building ==> Earlier(Pre(t), r, n)
      modifies this`lists
      ensures Lists(lists, Pre(t), r + Carried(m, axis, [n] + VisAll(doc, m, At(t, p).kids)))
      decreases At(t, p), 0
    {
      ghost var sub := At(t, p);
      ghost var i := 0;
      SubFields(t, m, p);
      EndLinks(sub, m);
      var c := n.firstChild;
      assert [n] + VisAll(doc, m, sub.kids[..0]) == [n];
      while c != null
        invariant i <= |sub.kids| && c == NodeAt(sub.kids, i)
        invariant Lists(lists, Pre(t), r + Carried(m, axis, [n] + VisAll(doc, m, sub.kids[..i])))
        decreases |sub.kids| - i
      {
        KidAt(t, p, i);
        HeightOfKid(sub.kids, i);
        if building {
          EarlierKid(t, m, doc, axis, p, i, r);
        }
        AddSubtree(c, depth + 1, building, t, m, p + [i], r + Carried(m, axis, [n] + VisAll(doc, m, sub.kids[..i])));
        MoreCarried(doc, m, axis, n, sub.kids, i, r);
        KidLink(sub, m, i);
        c := c.nextSibling;
        i := i + 1;
      }
      assert sub.kids[..i] == sub.kids;
    }

    /** Walks a detached subtree and takes its visible nodes out of the table. */
    method RemoveSubtree(n: Node, depth: nat, ghost sub: Tree, ghost m: Cells, ghost s: seq<Node>, ghost r: Pairs)
      requires Standing(sub, m) && n == sub.node && depth + Height(sub) <= MAX_DEPTH
      requires Distinct(s) && Lists(lists, s, r)
      modifies this`lists
      ensures Lists(lists, s, r - Carried(m, axis, Vis(doc, m, sub)))
      decreases sub, 1
    {
      assert n in Nodes(sub) && CellOf(n) == m[n];
      NothingCarried(m, axis, r);
      if depth >= MAX_DEPTH {
        return;
      }
      if n != doc && ((n.kind == Document && n.parent != null) || (n.kind == Element && n.shadowRoot)) {
        return;
      }
      Unregister(n, s, r);
      CarriedOne(m, axis, n);
      if n.kind == Element && n.name == "template" {
        assert Vis(doc, m, sub) == [n];
        return;
      }
      RemoveKids(n, depth, sub, m, s, r);
    }

    method RemoveKids(n: Node, depth: nat, ghost sub: Tree, ghost m: Cells, ghost s: seq<Node>, ghost r: Pairs)
      requires Standing(sub, m) && n == sub.node && depth + Height(sub) <= MAX_DEPTH
      requires Distinct(s) && Lists(lists, s, r - Carried(m, axis, [n]))
      modifies this`lists
      ensures Lists(lists, s, r - Carried(m, axis, [n] + VisAll(doc, m, sub.kids)))
      decreases sub, 0
    {
      ghost var i := 0;
      EndLinks(sub, m);
      var c := n.firstChild;
      assert [n] + VisAll(doc, m, sub.kids[..0]) == [n];
      while c != null
        invariant i <= |sub.kids| && c == NodeAt(sub.kids, i)
        invariant Lists(lists, s, r - Carried(m, axis, [n] + VisAll(doc, m, sub.kids[..i])))
        decreases |sub.kids| - i
      {
        HeightOfKid(sub.kids, i);
        KidFields(sub, m, i);
        RemoveSubtree(c, depth + 1, sub.kids[i], m, s, r - Carried(m, axis, [n] + VisAll(doc, m, sub.kids[..i])));
        MoreCarried(doc, m, axis, n, sub.kids, i, r);
        KidLink(sub, m, i);
        c := c.nextSibling;
        i := i + 1;
      }
      assert sub.kids[..i] == sub.kids;
    }

    /** Builds the table afresh by a walk of the whole tree. */
    method Build(ghost t: Tree, ghost m: Cells)
      requires Settled(t, m) && t.node == doc
      modifies this`lists, this`built
      ensures built && Lists(lists, Pre(t), Carried(m, axis, Vis(doc, m, t)))
    {
      lists := map[];
      forall key ensures Get(lists, key) == Select(Pre(t), With({}, key)) {
        SelectNone(Pre(t), With({}, key));
      }
      AddSubtree(doc, 0, true, t, m, [], {});
      assert {} + Carried(m, axis, Vis(doc, m, t)) == Carried(m, axis, Vis(doc, m, t));
      built := true;
    }

    /** A subtree is now in the tree, at `p`. */
    method SubtreeAdded(root: Node, ghost t: Tree, ghost m: Cells, ghost p: Path, ghost r: Pairs)
      requires Settled(t, m) && ValidPath(t, p) && root == At(t, p).node
      requires built ==> Lists(lists, Pre(t), r)
      modifies this`lists
      ensures built ==> Lists(lists, Pre(t), r + Carried(m, axis, Vis(doc, m, At(t, p))))
      ensures !built ==> lists == old(lists)
    {
      if !built {
        return;
      }
      HeightBoundsPath(t, p);
      AddSubtree(root, 0, false, t, m, p, r);
    }

    /** A subtree has left the tree whose preorder is `s`. */
    method SubtreeRemoved(root: Node, ghost sub: Tree, ghost m: Cells, ghost s: seq<Node>, ghost r: Pairs)
      requires Standing(sub, m) && root == sub.node && Height(sub) <= MAX_DEPTH && Distinct(s)
      requires built ==> Lists(lists, s, r)
      modifies this`lists
      ensures built ==> Lists(lists, s, r - Carried(m, axis, Vis(doc, m, sub)))
      ensures !built ==> lists == old(lists)
    {
      if !built {
        return;
      }
      RemoveSubtree(root, 0, sub, m, s, r);
    }
  }

  /** The fields of a subtree's nodes are as the cells say. */
  ghost predicate Standing(t: Tree, m: Cells)
    reads Nodes(t)
  {
    LinkedSelf(t, m) && Nodes(t) <= m.Keys && forall x :: x in Nodes(t) ==> CellOf(x) == m[x]
  }

  lemma NothingCarried(m: Cells, axis: Axis, r: Pairs)
    ensures r + Carried(m, axis, []) == r && r - Carried(m, axis, []) == r
  {
    assert Carried(m, axis, []) == {};
  }

  lemma MoreCarried(doc: Node, m: Cells, axis: Axis, n: Node, ts: seq<Tree>, i: nat, r: Pairs)
    requires i < |ts|
    ensures var done, next := [n] + VisAll(doc, m, ts[..i]), [n] + VisAll(doc, m, ts[..i + 1]);
            var kid := Carried(m, axis, Vis(doc, m, ts[i]));
            && r + Carried(m, axis, done) + kid == r + Carried(m, axis, next)
            && r - Carried(m, axis, done) - kid == r - Carried(m, axis, next)
  {
    var done := [n] + VisAll(doc, m, ts[..i]);
    VisStep(doc, m, ts, i);
    CarriedConcat(m, axis, done, Vis(doc, m, ts[i]));
    assert done + Vis(doc, m, ts[i]) == [n] + VisAll(doc, m, ts[..i + 1]);
  }

  ghost function PairsOf(n: Node, ks: set<string>): Pairs
  {
    set k | k in ks :: (n, k)
  }

  lemma NoTokens()
    ensures Tokens("") == {}
  {
  }

  lemma LowerFixed(s: string)
    ensures IsAsciiLower(s) ==> Lower(s) == s
  {
  }

  lemma SkippedTokens(s: string, p: int, q: int)
    requires 0 <= p <= q <= |s| && forall k :: p <= k < q ==> IsWs(s[k])
    ensures TokensTo(s, q) == TokensTo(s, p)
  {
    forall i, j | IsToken(s, i, j) && j <= q
      ensures j <= p
    {
      assert !IsWs(s[j - 1]);
    }
  }

  lemma NextToken(s: string, p: int, q: int)
    requires IsToken(s, p, q)
    ensures TokensTo(s, q) == TokensTo(s, p) + {s[p..q]}
  {
    forall i, j | IsToken(s, i, j) && p < j <= q
      ensures i == p && j == q
    {
      assert !IsWs(s[j - 1]);
      assert p > 0 ==> IsWs(s[p - 1]);
      assert i > 0 ==> IsWs(s[i - 1]);
    }
    assert s[p..q] in TokensTo(s, q);
  }

  lemma CarriedOne(m: Cells, axis: Axis, n: Node)
    requires n in m
    ensures Carried(m, axis, [n]) == PairsOf(n, Keys(m[n], axis))
  {
  }

  lemma CarriedConcat(m: Cells, axis: Axis, a: seq<Node>, b: seq<Node>)
    ensures Carried(m, axis, a + b) == Carried(m, axis, a) + Carried(m, axis, b)
  {
  }

  lemma {:induction false} VisAllConcat(doc: Node, m: Cells, a: seq<Tree>, b: seq<Tree>)
    ensures VisAll(doc, m, a + b) == VisAll(doc, m, a) + VisAll(doc, m, b)
  {
    if a == [] {
      assert a + b == b;
    } else {
      assert (a + b)[1..] == a[1..] + b;
      VisAllConcat(doc, m, a[1..], b);
    }
  }

  lemma VisStep(doc: Node, m: Cells, ts: seq<Tree>, i: nat)
    requires i < |ts|
    ensures VisAll(doc, m, ts[..i + 1]) == VisAll(doc, m, ts[..i]) + Vis(doc, m, ts[i])
  {
    assert ts[..i + 1] == ts[..i] + [ts[i]];
    VisAllConcat(doc, m, ts[..i], [ts[i]]);
    assert VisAll(doc, m, [ts[i]]) == Vis(doc, m, ts[i]);
  }

  lemma KidAt(t: Tree, p: Path, i: nat)
    requires ValidPath(t, p) && i < |At(t, p).kids|
    ensures ValidPath(t, p + [i]) && At(t, p + [i]) == At(t, p).kids[i]
  {
    assert [i][1..] == [];
    assert ValidPath(At(t, p), [i]) && At(At(t, p), [i]) == At(t, p).kids[i];
    PathConcat(t, p, [i]);
  }

  lemma SubFields(t: Tree, m: Cells, p: Path)
    requires Settled(t, m) && ValidPath(t, p)
    ensures Standing(At(t, p), m)
  {
    LinkedDown(t, m, p);
    forall x | x in Nodes(At(t, p)) ensures x in Nodes(t) { SubPre(t, p, x); }
  }

  lemma KidFields(t: Tree, m: Cells, i: nat)
    requires Standing(t, m) && i < |t.kids|
    ensures Standing(t.kids[i], m)
  {
    KidCell(t, m, i);
    forall x | x in Nodes(t.kids[i]) ensures x in Nodes(t) { KidIn(t, i, x); }
  }

  lemma {:induction false} VisIn(doc: Node, m: Cells, t: Tree, n: Node)
    requires n in Vis(doc, m, t)
    ensures n in Pre(t) && n in m
    decreases t, 0
  {
    if n != t.node {
      VisAllIn(doc, m, t.kids, n);
    }
  }

  lemma {:induction false} VisAllIn(doc: Node, m: Cells, ts: seq<Tree>, n: Node)
    requires n in VisAll(doc, m, ts)
    ensures n in PreAll(ts) && n in m
    decreases ts, 0
  {
    if n in Vis(doc, m, ts[0]) {
      VisIn(doc, m, ts[0], n);
    } else {
      VisAllIn(doc, m, ts[1..], n);
    }
  }

  lemma {:induction false} PreAllIn(ts: seq<Tree>, n: Node) returns (i: nat)
    requires n in PreAll(ts)
    ensures i < |ts| && n in Pre(ts[i])
  {
    if n in Pre(ts[0]) {
      i := 0;
    } else {
      i := PreAllIn(ts[1..], n);
      i := i + 1;
    }
  }

  /** While a walk in tree order is at child `i`, everything registered comes earlier. */
  lemma EarlierKid(t: Tree, m: Cells, doc: Node, axis: Axis, p: Path, i: nat, r: Pairs)
    requires Whole(t, m) && ValidPath(t, p) && i < |At(t, p).kids| && Earlier(Pre(t), r, At(t, p).node)
    ensures var sub := At(t, p);
            Earlier(Pre(t), r + Carried(m, axis, [sub.node] + VisAll(doc, m, sub.kids[..i])), sub.kids[i].node)
  {
    var sub := At(t, p);
    var done := [sub.node] + VisAll(doc, m, sub.kids[..i]);
    var n := sub.kids[i].node;
    KidAt(t, p, i);
    AtIn(t, p);
    AtIn(t, p + [i]);
    PrefixIsLess(p, p + [i]);
    OrderOf(t, m, p, p + [i]);
    forall e | e in r + Carried(m, axis, done) && e.0 in Pre(t) && e.0 != n
      ensures Idx(Pre(t), e.0) < Idx(Pre(t), n)
    {
      if e !in r && e.0 != sub.node {
        assert e.0 in VisAll(doc, m, sub.kids[..i]);
        VisAllIn(doc, m, sub.kids[..i], e.0);
        var j := PreAllIn(sub.kids[..i], e.0);
        KidBefore(t, m, p, j, i, e.0);
      }
    }
  }

  lemma KidBefore(t: Tree, m: Cells, p: Path, j: nat, i: nat, x: Node)
    requires Whole(t, m) && ValidPath(t, p) && j < i < |At(t, p).kids| && x in Pre(At(t, p).kids[j])
    ensures x in Pre(t) && At(t, p).kids[i].node in Pre(t)
    ensures Idx(Pre(t), x) < Idx(Pre(t), At(t, p).kids[i].node)
  {
    KidAt(t, p, i);
    KidAt(t, p, j);
    var q := PathTo(At(t, p).kids[j], x);
    PathConcat(t, p + [j], q);
    ForkIsLess(p + [j] + q, p + [i], |p|);
    OrderOf(t, m, p + [j] + q, p + [i]);
  }

  lemma NotListed(s: seq<Node>, sel: set<Node>, n: Node)
    requires n !in Select(s, sel)
    ensures Select(s, sel - {n}) == Select(s, sel)
  {
    SelectMembers(s, sel, n);
    SelectCong(s, sel, sel - {n});
  }
}
