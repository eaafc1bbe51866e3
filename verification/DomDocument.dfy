/** A document: one linked tree and its two indexes. Every operation keeps the tree linked, and
    keeps each index equal to what a fresh walk of the tree would build, exactly when stated. */
module DomDocument {
  import opened Ascii
  import opened Numbers
  import opened DomTree
  import opened DomEdit
  import opened DomOrder
  import opened DomLists
  import opened DomIndex

  /** The visible nodes of a tree that carry `key`, in tree order. */
  ghost function Carrying(doc: Node, m: Cells, axis: Axis, t: Tree, key: string): seq<Node>
  {
    Select(Vis(doc, m, t), set n | n in Vis(doc, m, t) && n in m && key in Keys(m[n], axis))
  }

  /** The table is what a walk of the whole tree builds, up to empty lists. */
  ghost predicate Rebuilt(lists: map<string, seq<Node>>, doc: Node, m: Cells, axis: Axis, t: Tree)
  {
    forall key :: Get(lists, key) == Carrying(doc, m, axis, t, key)
  }

  // ---- visible nodes and tree order ----

  lemma {:induction false} SelectVis(doc: Node, m: Cells, t: Tree, sel: set<Node>)
    requires Distinct(Pre(t))
    requires forall n :: n in sel && n in Pre(t) ==> n in Vis(doc, m, t)
    ensures Select(Pre(t), sel) == Select(Vis(doc, m, t), sel)
    decreases t
  {
    if Vis(doc, m, t) == [] {
      SelectNone(Pre(t), sel);
    } else {
      forall n | n in PreAll(t.kids) ensures n != t.node { RootApart(t, n); }
      if TemplateCell(m[t.node]) {
        SelectNone(PreAll(t.kids), sel);
        SelectConcat([t.node], PreAll(t.kids), sel);
      } else {
        SelectVisAll(doc, m, t, t.kids, 0, sel);
        assert t.kids[0..] == t.kids;
        SelectConcat([t.node], PreAll(t.kids), sel);
        SelectConcat([t.node], VisAll(doc, m, t.kids), sel);
      }
    }
  }

  lemma {:induction false} SelectVisAll(doc: Node, m: Cells, t: Tree, ts: seq<Tree>, i: nat, sel: set<Node>)
    requires Distinct(Pre(t)) && i <= |t.kids| && ts == t.kids[i..]
    requires forall n :: n in sel && n in PreAll(t.kids) ==> n in VisAll(doc, m, t.kids)
    ensures Select(PreAll(ts), sel) == Select(VisAll(doc, m, ts), sel)
    decreases t, |ts|
  {
    if i < |t.kids| {
      var k := t.kids[i];
      DistinctKid(t, i);
      forall n | n in sel && n in Pre(k)
        ensures n in Vis(doc, m, k)
      {
        PreSplit(t.kids, i);
        var j := VisAllFrom(doc, m, t.kids, n);
        VisIn(doc, m, t.kids[j], n);
        if j != i {
          KidDisjoint(t, i, j, n);
        }
      }
      SelectVis(doc, m, k, sel);
      SelectVisAll(doc, m, t, t.kids[i + 1..], i + 1, sel);
      assert ts[1..] == t.kids[i + 1..];
      SelectConcat(Pre(k), PreAll(ts[1..]), sel);
      SelectConcat(Vis(doc, m, k), VisAll(doc, m, ts[1..]), sel);
    }
  }

  lemma {:induction false} VisAllFrom(doc: Node, m: Cells, ts: seq<Tree>, n: Node) returns (i: nat)
    requires n in VisAll(doc, m, ts)
    ensures i < |ts| && n in Vis(doc, m, ts[i])
  {
    if n in Vis(doc, m, ts[0]) {
      i := 0;
    } else {
      i := VisAllFrom(doc, m, ts[1..], n);
      i := i + 1;
    }
  }

  /** The incremental bookkeeping and the rebuilt table say the same. */
  lemma ListsIsRebuilt(lists: map<string, seq<Node>>, doc: Node, m: Cells, axis: Axis, t: Tree)
    requires Distinct(Pre(t))
    ensures Lists(lists, Pre(t), Carried(m, axis, Vis(doc, m, t))) <==> Rebuilt(lists, doc, m, axis, t)
  {
    var vis := Vis(doc, m, t);
    var r := Carried(m, axis, vis);
    forall key ensures Select(Pre(t), With(r, key)) == Carrying(doc, m, axis, t, key) {
      forall n ensures n in With(r, key) <==> n in vis && n in m && key in Keys(m[n], axis) {
        assert n in With(r, key) <==> (n, key) in r;
      }
      SelectVis(doc, m, t, With(r, key));
      SelectCong(vis, With(r, key), set n | n in vis && n in m && key in Keys(m[n], axis));
    }
  }

  // ---- visibility through edits ----

  /** The cell of a node may change its links, but not what makes it visible. */
  ghost predicate SameShape(c: Cell, d: Cell)
  {
    && c.kind == d.kind && c.name == d.name && c.shadowRoot == d.shadowRoot
    && (c.parent == null <==> d.parent == null)
  }

  /** Nor what it is indexed under. */
  ghost predicate SameLook(c: Cell, d: Cell)
  {
    SameShape(c, d) && c.classAttr == d.classAttr
  }

  ghost predicate ShapesKept(m: Cells, m': Cells, s: seq<Node>)
  {
    forall n :: n in s ==> n in m && n in m' && SameShape(m[n], m'[n])
  }

  ghost predicate LooksKept(m: Cells, m': Cells, s: seq<Node>)
  {
    forall n :: n in s ==> n in m && n in m' && SameLook(m[n], m'[n])
  }

  lemma {:induction false} VisSame(doc: Node, m: Cells, m': Cells, t: Tree)
    requires ShapesKept(m, m', Pre(t))
    ensures Vis(doc, m', t) == Vis(doc, m, t)
    decreases t, 1
  {
    assert t.node in Pre(t);
    VisAllSame(doc, m, m', t.kids);
  }

  lemma {:induction false} VisAllSame(doc: Node, m: Cells, m': Cells, ts: seq<Tree>)
    requires ShapesKept(m, m', PreAll(ts))
    ensures VisAll(doc, m', ts) == VisAll(doc, m, ts)
    decreases ts, 0
  {
    if ts != [] {
      VisSame(doc, m, m', ts[0]);
      VisAllSame(doc, m, m', ts[1..]);
    }
  }

  ghost predicate OpenNode(doc: Node, m: Cells, n: Node)
  {
    n in m && (n == doc || !BoundaryCell(m[n])) && !TemplateCell(m[n])
  }

  /** Children of the node at `p` are reached by the walk. */
  ghost predicate OpenAt(doc: Node, m: Cells, t: Tree, p: Path)
    requires ValidPath(t, p)
    decreases |p|
  {
    OpenNode(doc, m, t.node) && (p == [] || OpenAt(doc, m, t.kids[p[0]], p[1..]))
  }

  lemma VisSplit(doc: Node, m: Cells, ts: seq<Tree>, i: nat)
    requires i < |ts|
    ensures VisAll(doc, m, ts) == VisAll(doc, m, ts[..i]) + Vis(doc, m, ts[i]) + VisAll(doc, m, ts[i + 1..])
  {
    assert ts == ts[..i] + ts[i..];
    VisAllConcat(doc, m, ts[..i], ts[i..]);
    assert ts[i..][1..] == ts[i + 1..];
  }

  /** In a tree without repetitions: the walk reaches below a node iff the node itself is
      visible and is not a template. */
  lemma {:induction false} OpenMeans(doc: Node, m: Cells, t: Tree, p: Path)
    requires Distinct(Pre(t)) && ValidPath(t, p) && At(t, p).node in m
    ensures OpenAt(doc, m, t, p) <==> At(t, p).node in Vis(doc, m, t) && !TemplateCell(m[At(t, p).node])
    decreases |p|
  {
    if p != [] {
      var i, n := p[0], At(t, p).node;
      DistinctKid(t, i);
      OpenMeans(doc, m, t.kids[i], p[1..]);
      VisSplit(doc, m, t.kids, i);
      AtIn(t.kids[i], p[1..]);
      if OpenNode(doc, m, t.node) && n in Vis(doc, m, t) {
        var j := VisAllFrom(doc, m, t.kids, n);
        VisIn(doc, m, t.kids[j], n);
        if j != i {
          KidDisjoint(t, i, j, n);
        }
      }
    }
  }

  /** Visible after an insertion: what was, and the new subtree's nodes if the place is open. */
  lemma {:induction false} VisInsert(doc: Node, m: Cells, m': Cells, t: Tree, p: Path, at: nat, sub: Tree, n: Node)
    requires ValidPlace(t, p, at) && LooksKept(m, m', Pre(t))
    ensures n in Vis(doc, m', InsertAt(t, p, at, sub))
       <==> n in Vis(doc, m, t) || (OpenAt(doc, m, t, p) && n in Vis(doc, m', sub))
    decreases |p|
  {
    assert t.node in Pre(t);
    if p == [] {
      var a, b := t.kids[..at], t.kids[at..];
      assert t.kids == a + b;
      VisAllSame(doc, m, m', t.kids);
      VisAllConcat(doc, m', a, b);
      VisAllConcat(doc, m', a, [sub]);
      VisAllConcat(doc, m', a + [sub], b);
      assert VisAll(doc, m', [sub]) == Vis(doc, m', sub);
    } else {
      var i := p[0];
      KidReplaced(t, i, t.kids[i]);
      VisInsert(doc, m, m', t.kids[i], p[1..], at, sub, n);
      VisReplaceKid(doc, m, m', t, i, InsertAt(t.kids[i], p[1..], at, sub), n);
    }
  }

  /** Replacing one child: the change in what is visible is the change within that child. */
  lemma VisReplaceKid(doc: Node, m: Cells, m': Cells, t: Tree, i: nat, u: Tree, n: Node)
    requires i < |t.kids| && t.node in m && t.node in m' && SameLook(m[t.node], m'[t.node])
    requires LooksKept(m, m', PreAll(t.kids[..i])) && LooksKept(m, m', PreAll(t.kids[i + 1..]))
    ensures var rest := n in VisAll(doc, m, t.kids[..i]) || n in VisAll(doc, m, t.kids[i + 1..]);
            var self := n == t.node && (t.node == doc || !BoundaryCell(m[t.node]));
            && (n in Vis(doc, m, t) <==> self || (OpenNode(doc, m, t.node) && (rest || n in Vis(doc, m, t.kids[i]))))
            && (n in Vis(doc, m', Tree(t.node, t.kids[i := u])) <==>
                  self || (OpenNode(doc, m, t.node) && (rest || n in Vis(doc, m', u))))
  {
    var ks := t.kids[i := u];
    assert ks[..i] == t.kids[..i] && ks[i + 1..] == t.kids[i + 1..];
    VisAllSame(doc, m, m', t.kids[..i]);
    VisAllSame(doc, m, m', t.kids[i + 1..]);
    VisSplit(doc, m, t.kids, i);
    VisSplit(doc, m', ks, i);
  }

  lemma VisRemoveKid(doc: Node, m: Cells, m': Cells, t: Tree, i: nat, n: Node)
    requires i < |t.kids| && LooksKept(m, m', Pre(Tree(t.node, t.kids[..i] + t.kids[i + 1..])))
    ensures n in Vis(doc, m, t)
       <==> n in Vis(doc, m', Tree(t.node, t.kids[..i] + t.kids[i + 1..]))
            || (OpenNode(doc, m, t.node) && n in Vis(doc, m, t.kids[i]))
  {
    var u := Tree(t.node, t.kids[..i] + t.kids[i + 1..]);
    assert t.node in Pre(u);
    VisSplit(doc, m, t.kids, i);
    VisAllSame(doc, m, m', u.kids);
    VisAllConcat(doc, m, t.kids[..i], t.kids[i + 1..]);
  }

  /** Visible before a removal: what still is, and the subtree's nodes if the place was open. */
  lemma {:induction false} VisRemove(doc: Node, m: Cells, m': Cells, t: Tree, p: Path, n: Node)
    requires ValidPath(t, p) && p != [] && ValidPath(t, p[..|p| - 1])
    requires LooksKept(m, m', Pre(RemoveAt(t, p)))
    ensures n in Vis(doc, m, t)
       <==> n in Vis(doc, m', RemoveAt(t, p)) || (OpenAt(doc, m, t, p[..|p| - 1]) && n in Vis(doc, m, At(t, p)))
    decreases |p|
  {
    var i := p[0];
    if |p| == 1 {
      assert p[1..] == [] && p[..0] == [];
      VisRemoveKid(doc, m, m', t, i, n);
    } else {
      var q, front := p[1..], p[..|p| - 1];
      var u := RemoveAt(t.kids[i], q);
      KidReplaced(t, i, u);
      assert front[1..] == q[..|q| - 1] && front[0] == i;
      VisRemove(doc, m, m', t.kids[i], q, n);
      VisReplaceKid(doc, m, m', t, i, u, n);
    }
  }

  // ---- tables through edits ----

  lemma {:induction false} PairsListed(lists: map<string, seq<Node>>, s: seq<Node>, p: Pairs, q: Pairs)
    requires Lists(lists, s, p) && Lists(lists, s, q) && forall e :: e in p ==> e.0 in s
    ensures p <= q
  {
    forall e | e in p
      ensures e in q
    {
      assert e.0 in With(p, e.1);
      SelectMembers(s, With(p, e.1), e.0);
      assert Get(lists, e.1) == Select(s, With(q, e.1));
      SelectMembers(s, With(q, e.1), e.0);
      assert (e.0, e.1) in q;
    }
  }

  /** A table determines the pairs it holds. */
  lemma ListsUnique(lists: map<string, seq<Node>>, s: seq<Node>, p: Pairs, q: Pairs)
    requires Lists(lists, s, p)
    requires forall e :: e in p || e in q ==> e.0 in s
    ensures Lists(lists, s, q) <==> p == q
  {
    if Lists(lists, s, q) {
      PairsListed(lists, s, p, q);
      PairsListed(lists, s, q, p);
    }
  }

  /** The pairs of a tree's visible nodes. */
  ghost function TreePairs(doc: Node, m: Cells, axis: Axis, t: Tree): (r: Pairs)
    ensures forall e :: e in r ==> e.0 in Pre(t)
  {
    assert forall n :: n in Vis(doc, m, t) ==> n in Pre(t) by {
      forall n | n in Vis(doc, m, t) ensures n in Pre(t) { VisIn(doc, m, t, n); }
    }
    Carried(m, axis, Vis(doc, m, t))
  }

  lemma InsertNodes(t: Tree, p: Path, at: nat, sub: Tree)
    requires ValidPlace(t, p, at) && Apart(t, sub)
    ensures Distinct(Pre(InsertAt(t, p, at, sub)))
    ensures Nodes(InsertAt(t, p, at, sub)) == Nodes(t) + Nodes(sub)
    ensures forall sel :: (forall n :: n in sel ==> n !in Pre(sub)) ==>
        Select(Pre(InsertAt(t, p, at, sub)), sel) == Select(Pre(t), sel)
  {
    var k := InsertPre(t, p, at, sub);
    var a, x, b := Pre(t)[..k], Pre(sub), Pre(t)[k..];
    assert Pre(t) == a + b;
    SpliceDistinct(a, x, b);
    forall sel | forall n :: n in sel ==> n !in Pre(sub)
      ensures Select(Pre(InsertAt(t, p, at, sub)), sel) == Select(Pre(t), sel)
    {
      SelectAround(a, x, b, sel);
    }
  }

  lemma DistinctParts(a: seq<Node>, b: seq<Node>)
    requires Distinct(a + b)
    ensures Distinct(a) && Distinct(b) && forall n :: n in a ==> n !in b
  {
    forall i, j | 0 <= i < |a| && 0 <= j < |b|
      ensures a[i] != b[j]
    {
      assert (a + b)[i] != (a + b)[|a| + j];
    }
    forall i, j | 0 <= i < j < |b|
      ensures b[i] != b[j]
    {
      assert (a + b)[|a| + i] != (a + b)[|a| + j];
    }
    forall i, j | 0 <= i < j < |a|
      ensures a[i] != a[j]
    {
      assert (a + b)[i] != (a + b)[j];
    }
  }

  lemma DistinctConcat(a: seq<Node>, b: seq<Node>)
    requires Distinct(a) && Distinct(b) && forall n :: n in a ==> n !in b
    ensures Distinct(a + b)
  {
    forall i, j | 0 <= i < j < |a + b|
      ensures (a + b)[i] != (a + b)[j]
    {
      if i < |a| <= j {
        assert a[i] in a && b[j - |a|] in b;
      }
    }
  }

  lemma SpliceDistinct(a: seq<Node>, x: seq<Node>, b: seq<Node>)
    requires Distinct(a + b) && Distinct(x) && forall n :: n in x ==> n !in a + b
    ensures Distinct(a + x + b)
  {
    DistinctParts(a, b);
    DistinctConcat(a, x);
    DistinctConcat(a + x, b);
  }

  lemma SelectAround(a: seq<Node>, x: seq<Node>, b: seq<Node>, sel: set<Node>)
    requires forall n :: n in sel ==> n !in x
    ensures Select(a + x + b, sel) == Select(a + b, sel)
  {
    SelectNone(x, sel);
    SelectConcat(a + x, b, sel);
    SelectConcat(a, x, sel);
    SelectConcat(a, b, sel);
  }

  /** A table over the tree is a table over any tree whose preorder selects alike. */
  lemma ListsMove(lists: map<string, seq<Node>>, s: seq<Node>, s': seq<Node>, r: Pairs, sub: Tree)
    requires Lists(lists, s, r) && forall e :: e in r ==> e.0 !in Pre(sub)
    requires forall sel :: (forall n :: n in sel ==> n !in Pre(sub)) ==> Select(s', sel) == Select(s, sel)
    ensures Lists(lists, s', r)
  {
    forall key ensures Get(lists, key) == Select(s', With(r, key)) {
      forall n | n in With(r, key) ensures n !in Pre(sub) { assert (n, key) in r; }
    }
  }

  /** The pairs after an insertion: the subtree's join if the place is open to the walk. */
  lemma InsertPairs(doc: Node, axis: Axis, m: Cells, m': Cells, t: Tree, p: Path, at: nat, sub: Tree)
    requires ValidPlace(t, p, at) && LooksKept(m, m', Pre(t))
    ensures TreePairs(doc, m', axis, InsertAt(t, p, at, sub))
         == TreePairs(doc, m, axis, t) + if OpenAt(doc, m, t, p) then TreePairs(doc, m', axis, sub) else {}
  {
    forall e: (Node, string)
      ensures e in TreePairs(doc, m', axis, InsertAt(t, p, at, sub))
         <==> e in TreePairs(doc, m, axis, t) || (OpenAt(doc, m, t, p) && e in TreePairs(doc, m', axis, sub))
    {
      VisInsert(doc, m, m', t, p, at, sub, e.0);
      if e.0 in Vis(doc, m, t) { VisIn(doc, m, t, e.0); }
    }
  }

  /** A table that gained the pairs of `sub` is as rebuilt iff the tree gained them. */
  lemma GainedRebuilt(lists: map<string, seq<Node>>, doc: Node, axis: Axis, m: Cells, t: Tree, r: Pairs, x: Pairs,
                      open: bool)
    requires Distinct(Pre(t)) && Lists(lists, Pre(t), r + x) && r !! x
    requires forall e :: e in r + x ==> e.0 in Pre(t)
    requires TreePairs(doc, m, axis, t) == r + if open then x else {}
    ensures Rebuilt(lists, doc, m, axis, t) <==> open || x == {}
  {
    ListsIsRebuilt(lists, doc, m, axis, t);
    ListsUnique(lists, Pre(t), r + x, TreePairs(doc, m, axis, t));
    assert r + {} == r;
    if r + x == r {
      assert x <= r;
      assert x * r == {};
    }
  }

  lemma PairsApart(doc: Node, axis: Axis, m: Cells, m': Cells, t: Tree, sub: Tree)
    requires Apart(t, sub)
    ensures TreePairs(doc, m, axis, t) !! TreePairs(doc, m', axis, sub)
  {
  }

  /** After an insertion and the walk of the new subtree, the table is as rebuilt iff the place is
      open to the walk or the subtree has nothing to index. */
  lemma InsertRebuilt(lists: map<string, seq<Node>>, doc: Node, axis: Axis, m: Cells, m': Cells,
                      t: Tree, p: Path, at: nat, sub: Tree)
    requires ValidPlace(t, p, at) && Apart(t, sub) && LooksKept(m, m', Pre(t)) && At(t, p).node in m
    requires Lists(lists, Pre(InsertAt(t, p, at, sub)), TreePairs(doc, m, axis, t) + TreePairs(doc, m', axis, sub))
    ensures Rebuilt(lists, doc, m', axis, InsertAt(t, p, at, sub))
       <==> OpenAt(doc, m, t, p) || TreePairs(doc, m', axis, sub) == {}
  {
    InsertNodes(t, p, at, sub);
    InsertPairs(doc, axis, m, m', t, p, at, sub);
    PairsApart(doc, axis, m, m', t, sub);
    forall n ensures n in Pre(InsertAt(t, p, at, sub)) <==> n in Pre(t) || n in Pre(sub) {
      assert n in Nodes(InsertAt(t, p, at, sub)) <==> n in Nodes(t) + Nodes(sub);
    }
    GainedRebuilt(lists, doc, axis, m', InsertAt(t, p, at, sub), TreePairs(doc, m, axis, t),
        TreePairs(doc, m', axis, sub),
                  OpenAt(doc, m, t, p));
  }

  // ---- removal ----

  lemma {:induction false} RemoveNodes(t: Tree, p: Path)
    requires ValidPath(t, p) && p != [] && Distinct(Pre(t))
    ensures Apart(RemoveAt(t, p), At(t, p))
    ensures Nodes(t) == Nodes(RemoveAt(t, p)) + Nodes(At(t, p))
    ensures forall sel :: (forall n :: n in sel ==> n !in Pre(At(t, p))) ==>
              Select(Pre(RemoveAt(t, p)), sel) == Select(Pre(t), sel)
  {
    RemovePre(t, p);
    PosBlock(t, p);
    var k, l := Pos(t, p), |Pre(At(t, p))|;
    var a, x, b := Pre(t)[..k], Pre(At(t, p)), Pre(t)[k + l..];
    assert Pre(t) == a + x + b;
    DistinctParts(a + x, b);
    DistinctParts(a, x);
    DistinctConcat(a, b);
    forall sel | forall n :: n in sel ==> n !in x
      ensures Select(a + b, sel) == Select(a + x + b, sel)
    {
      SelectAround(a, x, b, sel);
    }
    assert forall n :: n in Pre(t) <==> n in a || n in x || n in b;
  }

  lemma {:induction false} RemoveHeight(t: Tree, p: Path)
    requires ValidPath(t, p) && p != []
    ensures Height(RemoveAt(t, p)) <= Height(t) && Height(At(t, p)) <= Height(t)
    decreases |p|
  {
    var i := p[0];
    HeightBoundsPath(t, p);
    HeightSplit(t.kids, i);
    if |p| == 1 {
      HeightConcat(t.kids[..i], t.kids[i + 1..]);
    } else {
      RemoveHeight(t.kids[i], p[1..]);
      var ks := t.kids[i := RemoveAt(t.kids[i], p[1..])];
      HeightSplit(ks, i);
      assert ks[..i] == t.kids[..i] && ks[i + 1..] == t.kids[i + 1..];
    }
  }

  lemma {:induction false} HeightConcat(a: seq<Tree>, b: seq<Tree>)
    ensures HeightAll(a + b) == Max(HeightAll(a), HeightAll(b))
  {
    if a == [] {
      assert a + b == b;
    } else {
      assert (a + b)[1..] == a[1..] + b;
      HeightConcat(a[1..], b);
    }
  }

  lemma HeightSplit(ts: seq<Tree>, i: nat)
    requires i < |ts|
    ensures HeightAll(ts) == Max(HeightAll(ts[..i]), Max(Height(ts[i]), HeightAll(ts[i + 1..])))
  {
    assert ts == ts[..i] + ts[i..];
    HeightConcat(ts[..i], ts[i..]);
    assert ts[i..][1..] == ts[i + 1..];
  }

  /** The pairs after a removal: exactly those of the subtree's nodes go, whether or not the
      subtree's own walk, now that its root is parentless, reaches more than it did before. */
  lemma RemovePairs(doc: Node, axis: Axis, m: Cells, m': Cells, t: Tree, p: Path)
    requires ValidPath(t, p) && p != [] && Distinct(Pre(t)) && ValidPath(t, p[..|p| - 1])
    requires LooksKept(m, m', Pre(RemoveAt(t, p))) && LooksKept(m, m', PreAll(At(t, p).kids))
    requires var x := At(t, p).node; x in m && x in m' && SameLook(m[x].(parent := null), m'[x])
    ensures TreePairs(doc, m, axis, t) - TreePairs(doc, m', axis, At(t, p)) == TreePairs(doc, m', axis, RemoveAt(t, p))
  {
    var sub, t' := At(t, p), RemoveAt(t, p);
    RemoveNodes(t, p);
    VisAllSame(doc, m, m', sub.kids);
    assert forall n :: n in Vis(doc, m, sub) ==> n in Vis(doc, m', sub);
    forall e: (Node, string)
      ensures e in TreePairs(doc, m, axis, t) && e !in TreePairs(doc, m', axis, sub) <==>
          e in TreePairs(doc, m', axis, t')
    {
      VisRemove(doc, m, m', t, p, e.0);
      if e.0 in Vis(doc, m', t') { VisIn(doc, m', t', e.0); }
      if e.0 in Vis(doc, m', sub) {
        VisIn(doc, m', sub, e.0);
        LookOfSub(m, m', sub, e.0);
      }
    }
  }

  lemma LookOfSub(m: Cells, m': Cells, sub: Tree, n: Node)
    requires n in Pre(sub) && LooksKept(m, m', PreAll(sub.kids))
    requires sub.node in m && sub.node in m' && SameLook(m[sub.node].(parent := null), m'[sub.node])
    ensures n in m && n in m' && forall axis :: Keys(m[n], axis) == Keys(m'[n], axis)
  {
    if n != sub.node {
      assert n in PreAll(sub.kids);
    }
  }

  // ---- the document ----

  class Document {
    const root: Node
    const classes: Index
    const tags: Index
    ghost var tree: Tree   // what the links stand for

    constructor (root: Node)
      requires root.parent == null && root.prevSibling == null && root.nextSibling == null
      requires root.firstChild == null && root.lastChild == null
      ensures this.root == root && tree == Tree(root, []) && Valid()
      ensures fresh(classes) && fresh(tags) && !classes.built && !tags.built
    {
      this.root := root;
      classes := new Index(root, Class);
      tags := new Index(root, Tag);
      tree := Tree(root, []);
      new;
      LeafSettled(root);
    }

    /** The links spell out `tree`, whole and not too deep. */
    ghost predicate Valid()
      reads this, Nodes(tree)
    {
      && Settled(tree, Snap(Nodes(tree))) && tree.node == root
      && classes != tags && classes.doc == root && tags.doc == root
      && classes.axis == Class && tags.axis == Tag
    }

    /** A table that was built agrees with a rebuild. */
    ghost predicate Agrees(idx: Index)
      reads this, Nodes(tree), idx
    {
      idx.built ==> Rebuilt(idx.lists, root, Snap(Nodes(tree)), idx.axis, tree)
    }

    method BuildIndexes()
      requires Valid()
      modifies classes, tags
      ensures Valid() && tree == old(tree) && classes.built && tags.built
      ensures Agrees(classes) && Agrees(tags)
    {
      ghost var m := Snap(Nodes(tree));
      BuildIndex(classes, tree, m);
      BuildIndex(tags, tree, m);
    }

    /** The place at `p` is reached by the index walk. */
    ghost predicate Open(p: Path)
      requires ValidPath(tree, p)
      reads this, Nodes(tree)
    {
      OpenAt(root, Snap(Nodes(tree)), tree, p)
    }

    /** Nothing in `sub` would be indexed under this document. */
    ghost predicate Bare(idx: Index, sub: Tree)
      reads this, Nodes(sub)
    {
      TreePairs(root, Snap(Nodes(sub)), idx.axis, sub) == {}
    }

    /** The insertion as it changes the links alone: before `ref`, or last. */
    method Link(parent: Node, child: Node, ref: Node?, ghost p: Path, ghost at: nat, ghost sub: Tree)
        returns (ghost m': Cells)
      requires Settled(tree, Snap(Nodes(tree)))
      requires ValidPlace(tree, p, at) && parent == At(tree, p).node && ref == NodeAt(At(tree, p).kids, at)
      requires child == sub.node && Whole(sub, Snap(Nodes(sub))) && Apart(tree, sub)
      requires Height(InsertAt(tree, p, at, sub)) <= MAX_DEPTH
      modifies this`tree, Nodes(tree)`parent, Nodes(tree)`firstChild, Nodes(tree)`lastChild, Nodes(tree)`prevSibling,
          Nodes(tree)`nextSibling
      modifies Nodes(sub)`parent, Nodes(sub)`firstChild, Nodes(sub)`lastChild, Nodes(sub)`prevSibling,
          Nodes(sub)`nextSibling
      ensures tree == InsertAt(old(tree), p, at, sub)
      ensures Settled(tree, m') && LooksKept(old(Snap(Nodes(tree))), m', Pre(old(tree)))
    {
      m' := Join(tree, parent, child, ref, p, at, sub);
      tree := InsertAt(tree, p, at, sub);
    }

    /** Inserts a detached subtree under the node at `p`, before `ref` or last, and walks it into both
        tables. A table that agreed still does, unless the place is hidden from the walk and the
        subtree has something to index. */
    method Insert(parent: Node, child: Node, ref: Node?, ghost p: Path, ghost at: nat, ghost sub: Tree)
      requires Valid() && Agrees(classes) && Agrees(tags)
      requires ValidPlace(tree, p, at) && parent == At(tree, p).node && ref == NodeAt(At(tree, p).kids, at)
      requires child == sub.node && Whole(sub, Snap(Nodes(sub))) && Apart(tree, sub)
      requires Height(InsertAt(tree, p, at, sub)) <= MAX_DEPTH
      modifies this`tree, classes`lists, tags`lists
      modifies Nodes(tree)`parent, Nodes(tree)`firstChild, Nodes(tree)`lastChild, Nodes(tree)`prevSibling,
          Nodes(tree)`nextSibling
      modifies Nodes(sub)`parent, Nodes(sub)`firstChild, Nodes(sub)`lastChild, Nodes(sub)`prevSibling,
          Nodes(sub)`nextSibling
      ensures Valid() && tree == InsertAt(old(tree), p, at, sub)
      ensures classes.built ==> (Agrees(classes) <==> old(Open(p)) || Bare(classes, sub))
      ensures tags.built ==> (Agrees(tags) <==> old(Open(p)) || Bare(tags, sub))
    {
      ghost var t, m := tree, Snap(Nodes(tree));
      ghost var m' := Link(parent, child, ref, p, at, sub);
      ExtendTables(classes, tags, child, m, m', t, p, at, sub);
      InsertNodes(t, p, at, sub);
      BareSame(root, Class, m', sub);
      BareSame(root, Tag, m', sub);
    }

    /** Inserts a detached subtree before a child. */
    method InsertBefore(parent: Node, child: Node, ref: Node, ghost p: Path, ghost at: nat, ghost sub: Tree)
      requires Valid() && Agrees(classes) && Agrees(tags)
      requires ValidPath(tree, p) && parent == At(tree, p).node && at < |At(tree, p).kids| &&
          ref == At(tree, p).kids[at].node
      requires child == sub.node && Whole(sub, Snap(Nodes(sub))) && Apart(tree, sub)
      requires Height(InsertAt(tree, p, at, sub)) <= MAX_DEPTH
      modifies this`tree, classes`lists, tags`lists
      modifies Nodes(tree)`parent, Nodes(tree)`firstChild, Nodes(tree)`lastChild, Nodes(tree)`prevSibling,
          Nodes(tree)`nextSibling
      modifies Nodes(sub)`parent, Nodes(sub)`firstChild, Nodes(sub)`lastChild, Nodes(sub)`prevSibling,
          Nodes(sub)`nextSibling
      ensures Valid() && tree == InsertAt(old(tree), p, at, sub)
      ensures classes.built ==> (Agrees(classes) <==> old(Open(p)) || Bare(classes, sub))
      ensures tags.built ==> (Agrees(tags) <==> old(Open(p)) || Bare(tags, sub))
    {
      Insert(parent, child, ref, p, at, sub);
    }

    /** Appends a detached subtree under the node at `p`. */
    method Append(parent: Node, child: Node, ghost p: Path, ghost sub: Tree)
      requires Valid() && Agrees(classes) && Agrees(tags)
      requires ValidPath(tree, p) && parent == At(tree, p).node
      requires child == sub.node && Whole(sub, Snap(Nodes(sub))) && Apart(tree, sub)
      requires Height(AppendAt(tree, p, sub)) <= MAX_DEPTH
      modifies this`tree, classes`lists, tags`lists
      modifies Nodes(tree)`parent, Nodes(tree)`firstChild, Nodes(tree)`lastChild, Nodes(tree)`prevSibling,
          Nodes(tree)`nextSibling
      modifies Nodes(sub)`parent, Nodes(sub)`firstChild, Nodes(sub)`lastChild, Nodes(sub)`prevSibling,
          Nodes(sub)`nextSibling
      ensures Valid() && tree == AppendAt(old(tree), p, sub)
      ensures classes.built ==> (Agrees(classes) <==> old(Open(p)) || Bare(classes, sub))
      ensures tags.built ==> (Agrees(tags) <==> old(Open(p)) || Bare(tags, sub))
    {
      Insert(parent, child, null, p, |At(tree, p).kids|, sub);
    }

    /** The removal as it changes the links alone. */
    method Unlink(child: Node, ghost p: Path) returns (ghost m': Cells)
      requires Settled(tree, Snap(Nodes(tree))) && ValidPath(tree, p) && p != [] && child == At(tree, p).node
      modifies this`tree, Nodes(tree)`parent, Nodes(tree)`firstChild, Nodes(tree)`lastChild, Nodes(tree)`prevSibling,
          Nodes(tree)`nextSibling
      ensures tree == RemoveAt(old(tree), p)
      ensures Detached(old(tree), old(Snap(Nodes(tree))), m', p)
      ensures Settled(tree, Snap(Nodes(tree))) && Snap(Nodes(old(tree))) == m'
    {
      m' := Sever(tree, child, p);
      tree := RemoveAt(tree, p);
    }

    /** Takes the node at `p` and everything below it out of the tree and out of both tables:
        tables that agreed still do, wherever the node was. */
    method Remove(child: Node, ghost p: Path)
      requires Valid() && Agrees(classes) && Agrees(tags)
      requires ValidPath(tree, p) && p != [] && child == At(tree, p).node
      modifies this`tree, classes`lists, tags`lists
      modifies Nodes(tree)`parent, Nodes(tree)`firstChild, Nodes(tree)`lastChild, Nodes(tree)`prevSibling,
          Nodes(tree)`nextSibling
      ensures Valid() && tree == RemoveAt(old(tree), p)
      ensures Agrees(classes) && Agrees(tags)
      ensures Whole(At(old(tree), p), Snap(Nodes(At(old(tree), p))))
    {
      ghost var t, m := tree, Snap(Nodes(tree));
      ghost var m' := Unlink(child, p);
      ShrinkTables(classes, tags, child, m, m', t, p);
      SubWhole(t, m, m', p);
    }

    /** Changes a class attribute and moves the element between the lists of its old and its new
        tokens. The class table still agrees unless a hidden element gained a token. */
    method SetClass(n: Node, cls: string)
      requires Valid() && Agrees(classes) && Agrees(tags)
      requires n in Pre(tree) && n.kind == Element
      modifies n`classAttr, classes`lists
      ensures Valid() && n.classAttr == cls && Agrees(tags)
      ensures classes.built ==> (Agrees(classes) <==> n in Vis(root, Snap(Nodes(tree)), tree) || Tokens(cls) == {})
    {
      ghost var m := Snap(Nodes(tree));
      ghost var r := TreePairs(root, m, Class, tree);
      var was := n.classAttr;
      n.classAttr := cls;
      ghost var m' := Snap(Nodes(tree));
      ClassCells(tree, m, m', n);
      ListsIsRebuilt(classes.lists, root, m, Class, tree);
      if classes.built {
        MoveTokens(classes, n, was, cls, tree, m', r);
      }
      ClassPairs(root, tree, m, m', n);
      if classes.built {
        ClassRebuilt(classes.lists, root, tree, m, m', n);
      }
      ListsIsRebuilt(tags.lists, root, m, Tag, tree);
      ListsIsRebuilt(tags.lists, root, m', Tag, tree);
    }
  }

  /** Joins two whole trees at a place of the first. */
  method Join(ghost t: Tree, parent: Node, child: Node, ref: Node?, ghost p: Path, ghost at: nat, ghost sub: Tree)
    returns (ghost m': Cells)
    requires Settled(t, Snap(Nodes(t)))
    requires ValidPlace(t, p, at) && parent == At(t, p).node && ref == NodeAt(At(t, p).kids, at)
    requires child == sub.node && Whole(sub, Snap(Nodes(sub))) && Apart(t, sub)
    requires Height(InsertAt(t, p, at, sub)) <= MAX_DEPTH
    modifies Nodes(t)`parent, Nodes(t)`firstChild, Nodes(t)`lastChild, Nodes(t)`prevSibling, Nodes(t)`nextSibling
    modifies Nodes(sub)`parent, Nodes(sub)`firstChild, Nodes(sub)`lastChild, Nodes(sub)`prevSibling,
        Nodes(sub)`nextSibling
    ensures Settled(InsertAt(t, p, at, sub), m') && LooksKept(old(Snap(Nodes(t))), m', Pre(t))
  {
    JoinedWhole(t, sub, p, at);
    ReadyToJoin(t, sub, p, at);
    m' := JoinedCells(t, sub, p, at);
    PlaceChild(parent, child, ref, Nodes(t) + Nodes(sub));
    assert Nodes(InsertAt(t, p, at, sub)) == Nodes(t) + Nodes(sub);
  }

  /** Takes the subtree at `p` out of a whole tree. */
  method Sever(ghost t: Tree, child: Node, ghost p: Path) returns (ghost m': Cells)
    requires Settled(t, Snap(Nodes(t))) && ValidPath(t, p) && p != [] && child == At(t, p).node
    modifies Nodes(t)`parent, Nodes(t)`firstChild, Nodes(t)`lastChild, Nodes(t)`prevSibling, Nodes(t)`nextSibling
    ensures Detached(t, old(Snap(Nodes(t))), m', p)
    ensures Settled(RemoveAt(t, p), Snap(Nodes(RemoveAt(t, p)))) && Snap(Nodes(t)) == m'
  {
    ghost var m := Snap(Nodes(t));
    AtIn(t, p);
    m' := DetachCells(m, child);
    DetachedWhole(t, m, p);
    Detach(child, Nodes(t));
    RemovedSettled(t, m', p);
  }

  /** Moves a node from the lists of its old tokens to those of its new ones. */
  method MoveTokens(idx: Index, n: Node, was: string, cls: string, ghost t: Tree, ghost m: Cells, ghost r: Pairs)
    requires Settled(t, m) && n in Pre(t) && Lists(idx.lists, Pre(t), r)
    modifies idx`lists
    ensures Settled(t, m) && Lists(idx.lists, Pre(t), r - PairsOf(n, Tokens(was)) + PairsOf(n, Tokens(cls)))
  {
    NoTokens();
    assert r - PairsOf(n, {}) == r;
    if was != "" {
      idx.UnregisterTokens(was, n, Pre(t), r);
    }
    ghost var rest := r - PairsOf(n, Tokens(was));
    assert rest + PairsOf(n, {}) == rest;
    if cls != "" {
      idx.RegisterTokens(cls, n, false, t, m, rest);
    }
  }

  /** The walk of an inserted subtree, for one table that agreed before the append. */
  method ExtendTable(idx: Index, child: Node, ghost m: Cells, ghost m': Cells,
                     ghost t: Tree, ghost p: Path, ghost at: nat, ghost sub: Tree)
    requires ValidPlace(t, p, at) && Apart(t, sub) && child == sub.node
    requires Settled(InsertAt(t, p, at, sub), m') && LooksKept(m, m', Pre(t))
    requires idx.built ==> Rebuilt(idx.lists, idx.doc, m, idx.axis, t)
    modifies idx`lists
    ensures Settled(InsertAt(t, p, at, sub), m')
    ensures idx.built ==> (Rebuilt(idx.lists, idx.doc, m', idx.axis, InsertAt(t, p, at, sub))
                           <==> OpenAt(idx.doc, m, t, p) || TreePairs(idx.doc, m', idx.axis, sub) == {})
  {
    ghost var q := InsertedPath(t, p, at, sub);
    InsertNodes(t, p, at, sub);
    InsertTables(idx.lists, idx.doc, idx.axis, m, t, p, at, sub);
    idx.SubtreeAdded(child, InsertAt(t, p, at, sub), m', q, TreePairs(idx.doc, m, idx.axis, t));
    if idx.built {
      AtIn(t, p);
      InsertRebuilt(idx.lists, idx.doc, idx.axis, m, m', t, p, at, sub);
    }
  }

  method ExtendTables(a: Index, b: Index, child: Node, ghost m: Cells, ghost m': Cells,
                     ghost t: Tree, ghost p: Path, ghost at: nat, ghost sub: Tree)
    requires ValidPlace(t, p, at) && Apart(t, sub) && child == sub.node && a != b
    requires Settled(InsertAt(t, p, at, sub), m') && LooksKept(m, m', Pre(t))
    requires a.built ==> Rebuilt(a.lists, a.doc, m, a.axis, t)
    requires b.built ==> Rebuilt(b.lists, b.doc, m, b.axis, t)
    modifies a`lists, b`lists
    ensures Settled(InsertAt(t, p, at, sub), m')
    ensures a.built ==> (Rebuilt(a.lists, a.doc, m', a.axis, InsertAt(t, p, at, sub))
                         <==> OpenAt(a.doc, m, t, p) || TreePairs(a.doc, m', a.axis, sub) == {})
    ensures b.built ==> (Rebuilt(b.lists, b.doc, m', b.axis, InsertAt(t, p, at, sub))
                         <==> OpenAt(b.doc, m, t, p) || TreePairs(b.doc, m', b.axis, sub) == {})
  {
    ExtendTable(a, child, m, m', t, p, at, sub);
    ExtendTable(b, child, m, m', t, p, at, sub);
  }

  lemma LeafSettled(n: Node)
    requires n.parent == null && n.prevSibling == null && n.nextSibling == null
    requires n.firstChild == null && n.lastChild == null
    ensures Settled(Tree(n, []), Snap(Nodes(Tree(n, []))))
  {
    var t := Tree(n, []);
    assert Pre(t) == [n];
    assert n in Nodes(t);
    assert Linked(t, Snap(Nodes(t)), null, null, null);
  }

  /** The cells of a tree and of a detached tree, after the one is inserted into the other. */
  ghost function JoinedCells(t: Tree, sub: Tree, p: Path, at: nat): Cells
    requires ValidPlace(t, p, at) && At(t, p).node in Nodes(t)
    requires var r := NodeAt(At(t, p).kids, at); r != null ==> r in Nodes(t)
    reads Nodes(t), Nodes(sub)
  {
    AttachCells(Snap(Nodes(t) + Nodes(sub)), At(t, p).node, sub.node, NodeAt(At(t, p).kids, at))
  }

  /** Two linked trees, read together. */
  lemma BothLinked(t: Tree, sub: Tree)
    requires Whole(t, Snap(Nodes(t))) && Whole(sub, Snap(Nodes(sub)))
    ensures Linked(t, Snap(Nodes(t) + Nodes(sub)), null, null, null)
    ensures Linked(sub, Snap(Nodes(t) + Nodes(sub)), null, null, null)
  {
    var m := Snap(Nodes(t) + Nodes(sub));
    LinkedFrame(t, Snap(Nodes(t)), m, null, null, null);
    LinkedFrame(sub, Snap(Nodes(sub)), m, null, null, null);
  }

  /** The nodes at a place are nodes of the tree. */
  lemma PlaceIn(t: Tree, p: Path, at: nat)
    requires ValidPlace(t, p, at)
    ensures At(t, p).node in Nodes(t)
    ensures var r := NodeAt(At(t, p).kids, at); r != null ==> r in Nodes(t)
    ensures var l := NodeAt(At(t, p).kids, at as int - 1); l != null ==> l in Nodes(t)
  {
    var q := At(t, p);
    AtIn(t, p);
    if at < |q.kids| {
      KidIn(q, at, q.kids[at].node);
      SubPre(t, p, q.kids[at].node);
    }
    if at > 0 {
      KidIn(q, at - 1, q.kids[at - 1].node);
      SubPre(t, p, q.kids[at - 1].node);
    }
  }

  /** A tree and a detached tree are ready for an insertion of the one into the other. */
  lemma ReadyToJoin(t: Tree, sub: Tree, p: Path, at: nat)
    requires Whole(t, Snap(Nodes(t))) && Whole(sub, Snap(Nodes(sub))) && Apart(t, sub) && ValidPlace(t, p, at)
    ensures var s, x, q, r := Nodes(t) + Nodes(sub), sub.node, At(t, p).node, NodeAt(At(t, p).kids, at);
            && Neighbours(Snap(s), x) && q in s && q != x && (r != null ==> r in s && r != x)
            && (var l := BeforeOf(Snap(s), q, r); l != null ==> l in s && l != x)
            && DetachCells(Snap(s), x) == Snap(s)
  {
    var x, q := sub.node, At(t, p);
    var m := Snap(Nodes(t) + Nodes(sub));
    assert x in Pre(sub);
    BothLinked(t, sub);
    PlaceIn(t, p, at);
    LinkedDown(t, m, p);
    PlaceCells(q, m, at);
    assert m[x].parent == null;
    DetachNothing(m, x);
  }

  lemma JoinedWhole(t: Tree, sub: Tree, p: Path, at: nat)
    requires Whole(t, Snap(Nodes(t))) && Whole(sub, Snap(Nodes(sub))) && Apart(t, sub) && ValidPlace(t, p, at)
    ensures At(t, p).node in Nodes(t)
    ensures var r := NodeAt(At(t, p).kids, at); r != null ==> r in Nodes(t)
    ensures var m' := JoinedCells(t, sub, p, at);
            && Whole(InsertAt(t, p, at, sub), m') && Nodes(InsertAt(t, p, at, sub)) == Nodes(t) + Nodes(sub)
            && LooksKept(Snap(Nodes(t)), m', Pre(t))
  {
    PlaceIn(t, p, at);
    BothLinked(t, sub);
    var m, m' := Snap(Nodes(t) + Nodes(sub)), JoinedCells(t, sub, p, at);
    AttachLinked(t, m, null, null, null, p, at, sub);
    InsertNodes(t, p, at, sub);
    forall n | n in Pre(t)
      ensures n in m' && SameLook(Snap(Nodes(t))[n], m'[n])
    {
      assert sub.node in Pre(sub);
      assert m'[n] == AttachCell(m, At(t, p).node, sub.node, NodeAt(At(t, p).kids, at), n);
    }
  }

  lemma {:induction false} InsertedAt(t: Tree, p: Path, at: nat, sub: Tree)
    requires ValidPlace(t, p, at)
    ensures ValidPath(InsertAt(t, p, at, sub), p)
    ensures At(InsertAt(t, p, at, sub), p) == InsertAt(At(t, p), [], at, sub)
    decreases |p|
  {
    if p != [] {
      InsertedAt(t.kids[p[0]], p[1..], at, sub);
    }
  }

  lemma InsertedPath(t: Tree, p: Path, at: nat, sub: Tree) returns (q: Path)
    requires ValidPlace(t, p, at)
    ensures ValidPath(InsertAt(t, p, at, sub), q) && At(InsertAt(t, p, at, sub), q) == sub
  {
    InsertedAt(t, p, at, sub);
    KidAt(InsertAt(t, p, at, sub), p, at);
    q := p + [at];
  }

  /** A table that agrees on the tree lists the same pairs over the tree with `sub` inserted. */
  lemma InsertTables(lists: map<string, seq<Node>>, doc: Node, axis: Axis, m: Cells, t: Tree, p: Path, at: nat,
                     sub: Tree)
    requires ValidPlace(t, p, at) && Apart(t, sub)
    ensures Rebuilt(lists, doc, m, axis, t) ==> Lists(lists, Pre(InsertAt(t, p, at, sub)), TreePairs(doc, m, axis, t))
  {
    if Rebuilt(lists, doc, m, axis, t) {
      ListsIsRebuilt(lists, doc, m, axis, t);
      InsertNodes(t, p, at, sub);
      ListsMove(lists, Pre(t), Pre(InsertAt(t, p, at, sub)), TreePairs(doc, m, axis, t), sub);
    }
  }

  /** Visible pairs of a subtree need only its own cells. */
  lemma BareSame(doc: Node, axis: Axis, m: Cells, sub: Tree)
    requires forall n :: n in Nodes(sub) ==> n in m && m[n] == CellOf(n)
    ensures TreePairs(doc, Snap(Nodes(sub)), axis, sub) == TreePairs(doc, m, axis, sub)
  {
    VisSame(doc, Snap(Nodes(sub)), m, sub);
    forall n | n in Vis(doc, m, sub) ensures n in Pre(sub) { VisIn(doc, m, sub, n); }
  }

  /** What detaching the node at `p` establishes about links and visibility. */
  ghost predicate Detached(t: Tree, m: Cells, m': Cells, p: Path)
  {
    && ValidPath(t, p) && p != [] && ValidPath(t, p[..|p| - 1]) && m.Keys == m'.Keys == Nodes(t)
    && Whole(RemoveAt(t, p), m') && Linked(At(t, p), m', null, null, null)
    && LooksKept(m, m', Pre(RemoveAt(t, p))) && LooksKept(m, m', PreAll(At(t, p).kids))
    && At(t, p).node in m && SameLook(m[At(t, p).node].(parent := null), m'[At(t, p).node])
  }

  /** Detaching changes no look, but for the parent of the detached node. */
  lemma DetachLooks(m: Cells, x: Node)
    requires x in m
    ensures var m' := DetachCells(m, x);
            m'.Keys == m.Keys && (forall n :: n in m && n != x ==> SameLook(m[n], m'[n])) &&
            SameLook(m[x].(parent := null), m'[x])
  {
    var m' := DetachCells(m, x);
    forall n | n in m ensures n != x ==> SameLook(m[n], m'[n]) { assert m'[n] == DetachCell(m, x, n); }
    assert m'[x] == DetachCell(m, x, x);
  }

  lemma DetachedWhole(t: Tree, m: Cells, p: Path)
    requires Whole(t, m) && m.Keys == Nodes(t) && ValidPath(t, p) && p != []
    ensures At(t, p).node in m && Neighbours(m, At(t, p).node)
    ensures Detached(t, m, DetachCells(m, At(t, p).node), p)
  {
    var x := At(t, p).node;
    DetachNeighbours(t, m, p);
    DetachLinked(t, m, null, null, null, p);
    DetachedLinked(t, m, p);
    DetachLooks(m, x);
    DetachMembers(t, m, p);
    RemoveNodes(t, p);
  }

  lemma DetachNeighbours(t: Tree, m: Cells, p: Path)
    requires Whole(t, m) && m.Keys == Nodes(t) && ValidPath(t, p) && p != []
    ensures At(t, p).node in m && Neighbours(m, At(t, p).node)
    ensures ValidPath(t, p[..|p| - 1])
  {
    AtIn(t, p);
    NotItsSibling(t, m, p);
    TouchedIn(t, m, p);
    assert forall n: Node :: Touched(m, At(t, p).node, n) ==> n in m;
    var c := m[At(t, p).node];
    assert c.parent != null ==> Touched(m, At(t, p).node, c.parent);
    assert c.prev != null ==> Touched(m, At(t, p).node, c.prev);
    assert c.next != null ==> Touched(m, At(t, p).node, c.next);
  }

  lemma NotItsSibling(t: Tree, m: Cells, p: Path)
    requires Whole(t, m) && m.Keys == Nodes(t) && ValidPath(t, p) && p != [] && At(t, p).node in m
    ensures ValidPath(t, p[..|p| - 1])
    ensures m[At(t, p).node].prev != At(t, p).node && m[At(t, p).node].next != At(t, p).node
  {
    LinkedAt(t, m, p);
    var q, i: int := At(t, p[..|p| - 1]), p[|p| - 1];
    KidCell(q, m, i);
    DistinctSub(t, p[..|p| - 1]);
    KidsDiffer(q, i, i - 1);
    KidsDiffer(q, i, i + 1);
  }

  lemma TouchedIn(t: Tree, m: Cells, p: Path)
    requires Whole(t, m) && m.Keys == Nodes(t) && ValidPath(t, p) && p != [] && At(t, p).node in m
    ensures forall n: Node :: Touched(m, At(t, p).node, n) ==> n in m
  {
    forall n: Node | Touched(m, At(t, p).node, n) ensures n in m { TouchedInside(t, m, p, n); }
  }

  /** The detached node is neither in what stays nor below itself. */
  lemma DetachMembers(t: Tree, m: Cells, p: Path)
    requires Whole(t, m) && m.Keys == Nodes(t) && ValidPath(t, p) && p != []
    ensures forall n :: n in Pre(RemoveAt(t, p)) ==> n in m && n != At(t, p).node
    ensures forall n :: n in PreAll(At(t, p).kids) ==> n in m && n != At(t, p).node
  {
    var x, sub := At(t, p).node, At(t, p);
    AtIn(t, p);
    DistinctSub(t, p);
    RemoveNodes(t, p);
    forall n | n in Pre(RemoveAt(t, p)) ensures n in m && n != x { assert n in Nodes(RemoveAt(t, p)) && x in Pre(sub); }
    forall n | n in PreAll(sub.kids) ensures n in m && n != x { RootApart(sub, n); assert n in Nodes(sub); }
  }

  lemma RemovedSettled(t: Tree, m': Cells, p: Path)
    requires ValidPath(t, p) && p != [] && Distinct(Pre(t)) && Height(t) <= MAX_DEPTH
    requires m' == Snap(Nodes(t)) && Whole(RemoveAt(t, p), m')
    ensures Settled(RemoveAt(t, p), Snap(Nodes(RemoveAt(t, p))))
  {
    RemoveNodes(t, p);
    RemoveHeight(t, p);
    LinkedFrame(RemoveAt(t, p), m', Snap(Nodes(RemoveAt(t, p))), null, null, null);
  }

  lemma SubWhole(t: Tree, m: Cells, m': Cells, p: Path)
    requires Detached(t, m, m', p) && Distinct(Pre(t)) && m' == Snap(Nodes(t))
    ensures Whole(At(t, p), Snap(Nodes(At(t, p))))
  {
    RemoveNodes(t, p);
    LinkedFrame(At(t, p), m', Snap(Nodes(At(t, p))), null, null, null);
  }

  method BuildIndex(idx: Index, ghost t: Tree, ghost m: Cells)
    requires Settled(t, m) && t.node == idx.doc
    modifies idx`lists, idx`built
    ensures idx.built && Rebuilt(idx.lists, idx.doc, m, idx.axis, t)
  {
    idx.Build(t, m);
    ListsIsRebuilt(idx.lists, idx.doc, m, idx.axis, t);
  }

  lemma SubStands(t: Tree, m: Cells, m': Cells, p: Path)
    requires Distinct(Pre(t)) && Detached(t, m, m', p) && Snap(Nodes(t)) == m'
    ensures Standing(At(t, p), m')
  {
    RemoveNodes(t, p);
    forall n | n in Nodes(At(t, p)) ensures n in Nodes(t) && CellOf(n) == m'[n] {}
  }

  /** The walk of a removed subtree, for one table that agreed before the removal. */
  method ShrinkTable(idx: Index, child: Node, ghost m: Cells, ghost m': Cells, ghost t: Tree, ghost p: Path)
    requires Distinct(Pre(t)) && Height(t) <= MAX_DEPTH && Detached(t, m, m', p) && child == At(t, p).node
    requires Snap(Nodes(t)) == m'
    requires idx.built ==> Rebuilt(idx.lists, idx.doc, m, idx.axis, t)
    modifies idx`lists
    ensures idx.built ==> Rebuilt(idx.lists, idx.doc, m', idx.axis, RemoveAt(t, p))
    ensures Snap(Nodes(t)) == m'
  {
    ghost var sub, r := At(t, p), TreePairs(idx.doc, m, idx.axis, t);
    RemoveNodes(t, p);
    RemoveHeight(t, p);
    ListsIsRebuilt(idx.lists, idx.doc, m, idx.axis, t);
    SubStands(t, m, m', p);
    idx.SubtreeRemoved(child, sub, m', Pre(t), r);
    if idx.built {
      RemovePairs(idx.doc, idx.axis, m, m', t, p);
      RemovedLists(idx.lists, idx.doc, idx.axis, m', t, p);
    }
  }

  lemma RemovedLists(lists: map<string, seq<Node>>, doc: Node, axis: Axis, m': Cells, t: Tree, p: Path)
    requires ValidPath(t, p) && p != [] && Distinct(Pre(t))
    requires Lists(lists, Pre(t), TreePairs(doc, m', axis, RemoveAt(t, p)))
    ensures Rebuilt(lists, doc, m', axis, RemoveAt(t, p))
  {
    RemoveNodes(t, p);
    ListsMove(lists, Pre(t), Pre(RemoveAt(t, p)), TreePairs(doc, m', axis, RemoveAt(t, p)), At(t, p));
    ListsIsRebuilt(lists, doc, m', axis, RemoveAt(t, p));
  }

  method ShrinkTables(a: Index, b: Index, child: Node, ghost m: Cells, ghost m': Cells, ghost t: Tree, ghost p: Path)
    requires Distinct(Pre(t)) && Height(t) <= MAX_DEPTH && Detached(t, m, m', p) && child == At(t, p).node
    requires Snap(Nodes(t)) == m' && a != b
    requires a.built ==> Rebuilt(a.lists, a.doc, m, a.axis, t)
    requires b.built ==> Rebuilt(b.lists, b.doc, m, b.axis, t)
    modifies a`lists, b`lists
    ensures a.built ==> Rebuilt(a.lists, a.doc, Snap(Nodes(RemoveAt(t, p))), a.axis, RemoveAt(t, p))
    ensures b.built ==> Rebuilt(b.lists, b.doc, Snap(Nodes(RemoveAt(t, p))), b.axis, RemoveAt(t, p))
    ensures Snap(Nodes(t)) == m'
  {
    ShrinkTable(a, child, m, m', t, p);
    ShrinkTable(b, child, m, m', t, p);
    RemoveNodes(t, p);
    RebuiltSame(a.lists, a.doc, a.axis, m', RemoveAt(t, p));
    RebuiltSame(b.lists, b.doc, b.axis, m', RemoveAt(t, p));
  }

  /** What a table should hold depends on the cells of the tree's own nodes alone. */
  lemma RebuiltSame(lists: map<string, seq<Node>>, doc: Node, axis: Axis, m: Cells, t: Tree)
    requires Distinct(Pre(t)) && forall n :: n in Nodes(t) ==> n in m && m[n] == CellOf(n)
    ensures Rebuilt(lists, doc, m, axis, t) <==> Rebuilt(lists, doc, Snap(Nodes(t)), axis, t)
  {
    BareSame(doc, axis, m, t);
    ListsIsRebuilt(lists, doc, m, axis, t);
    ListsIsRebuilt(lists, doc, Snap(Nodes(t)), axis, t);
  }

  /** Linkedness looks at the link fields alone. */
  lemma {:induction false} LinkedFields(t: Tree, m: Cells, m': Cells, parent: Node?, prev: Node?, next: Node?)
    requires Linked(t, m, parent, prev, next)
    requires forall n :: n in m ==> n in m' && m'[n] == m[n].(classAttr := m'[n].classAttr)
    ensures Linked(t, m', parent, prev, next)
    decreases t
  {
    forall i | 0 <= i < |t.kids|
      ensures LinkedKid(t, i, m')
    {
      assert LinkedKid(t, i, m);
      LinkedFields(t.kids[i], m, m', t.node, NodeAt(t.kids, i - 1), NodeAt(t.kids, i + 1));
    }
  }

  /** Only the class attribute of `n` differs. */
  ghost predicate Reclassed(t: Tree, m: Cells, m': Cells, n: Node)
  {
    && n in Pre(t) && m.Keys == m'.Keys == Nodes(t) && m[n].kind == Element
    && m' == m[n := m[n].(classAttr := m'[n].classAttr)]
  }

  lemma ClassCells(t: Tree, m: Cells, m': Cells, n: Node)
    requires Whole(t, m) && Height(t) <= MAX_DEPTH && n in Pre(t) && m.Keys == Nodes(t) && m[n].kind == Element
    requires m' == Snap(Nodes(t)) && forall x :: x in m && x != n ==> m'[x] == m[x]
    requires m'[n] == m[n].(classAttr := m'[n].classAttr)
    ensures Settled(t, m') && Reclassed(t, m, m', n)
  {
    LinkedFields(t, m, m', null, null, null);
  }

  /** The pairs after a class change: the element's old pairs go; the new ones come if it is visible. */
  lemma ClassPairs(doc: Node, t: Tree, m: Cells, m': Cells, n: Node)
    requires Reclassed(t, m, m', n)
    ensures Vis(doc, m', t) == Vis(doc, m, t)
    ensures TreePairs(doc, m', Class, t)
         == TreePairs(doc, m, Class, t) - PairsOf(n, Tokens(m[n].classAttr))
            + if n in Vis(doc, m, t) then PairsOf(n, Tokens(m'[n].classAttr)) else {}
    ensures TreePairs(doc, m', Tag, t) == TreePairs(doc, m, Tag, t)
    ensures forall e :: e in TreePairs(doc, m, Class, t) && e.0 == n ==> e in PairsOf(n, Tokens(m[n].classAttr))
  {
    VisSame(doc, m, m', t);
    forall e: (Node, string)
      ensures e in TreePairs(doc, m', Class, t)
         <==> (e in TreePairs(doc, m, Class, t) && e !in PairsOf(n, Tokens(m[n].classAttr)))
              || (n in Vis(doc, m, t) && e in PairsOf(n, Tokens(m'[n].classAttr)))
      ensures e in TreePairs(doc, m', Tag, t) <==> e in TreePairs(doc, m, Tag, t)
      ensures e in TreePairs(doc, m, Class, t) && e.0 == n ==> e in PairsOf(n, Tokens(m[n].classAttr))
    {
      ClassPair(doc, t, m, m', n, e);
    }
  }

  lemma ClassPair(doc: Node, t: Tree, m: Cells, m': Cells, n: Node, e: (Node, string))
    requires Reclassed(t, m, m', n) && Vis(doc, m', t) == Vis(doc, m, t)
    ensures e in TreePairs(doc, m', Class, t)
       <==> (e in TreePairs(doc, m, Class, t) && e !in PairsOf(n, Tokens(m[n].classAttr)))
            || (n in Vis(doc, m, t) && e in PairsOf(n, Tokens(m'[n].classAttr)))
    ensures e in TreePairs(doc, m', Tag, t) <==> e in TreePairs(doc, m, Tag, t)
    ensures e in TreePairs(doc, m, Class, t) && e.0 == n ==> e in PairsOf(n, Tokens(m[n].classAttr))
  {
    PairIn(doc, m, Class, t, e);
    PairIn(doc, m', Class, t, e);
    PairIn(doc, m, Tag, t, e);
    PairIn(doc, m', Tag, t, e);
    assert e == (e.0, e.1);
    assert e.0 in m && e.0 != n ==> m'[e.0] == m[e.0];
  }

  lemma PairIn(doc: Node, m: Cells, axis: Axis, t: Tree, e: (Node, string))
    ensures e in TreePairs(doc, m, axis, t) <==> e.0 in Vis(doc, m, t) && e.0 in m && e.1 in Keys(m[e.0], axis)
  {
    assert e == (e.0, e.1);
  }

  lemma ClassRebuilt(lists: map<string, seq<Node>>, doc: Node, t: Tree, m: Cells, m': Cells, n: Node)
    requires Reclassed(t, m, m', n) && Distinct(Pre(t))
    requires Lists(lists, Pre(t),
        TreePairs(doc, m, Class, t) - PairsOf(n, Tokens(m[n].classAttr)) + PairsOf(n, Tokens(m'[n].classAttr)))
    ensures Rebuilt(lists, doc, m', Class, t) <==> n in Vis(doc, m', t) || Tokens(m'[n].classAttr) == {}
  {
    var r := TreePairs(doc, m, Class, t) - PairsOf(n, Tokens(m[n].classAttr));
    var x := PairsOf(n, Tokens(m'[n].classAttr));
    ClassPairs(doc, t, m, m', n);
    assert forall k :: k in Tokens(m'[n].classAttr) ==> (n, k) in x;
    assert forall e :: e in r ==> e.0 != n;
    assert r !! x;
    GainedRebuilt(lists, doc, Class, m', t, r, x, n in Vis(doc, m, t));
  }

  // ---- where the index goes wrong ----

  lemma LeafIndexed(doc: Node, m: Cells, x: Node)
    requires x in m && !BoundaryCell(m[x]) && m[x].kind == Element && m[x].name == "p"
    ensures TreePairs(doc, m, Tag, Tree(x, [])) != {}
  {
    assert Vis(doc, m, Tree(x, [])) == [x] && x in [x];
    assert Lower("p") in Keys(m[x], Tag);
    assert (x, Lower("p")) in TreePairs(doc, m, Tag, Tree(x, []));
  }

  lemma LeafApart(t: Tree, x: Node)
    requires Distinct(Pre(t)) && x !in Pre(t)
    ensures Apart(t, Tree(x, [])) && Nodes(Tree(x, [])) == {x}
  {
    assert Pre(Tree(x, [])) == [x];
  }

  lemma SmallTrees(root: Node, box: Node, x: Node)
    ensures var t := Tree(root, [Tree(box, [])]);
      && AppendAt(Tree(root, []), [], Tree(box, [])) == t
      && AppendAt(t, [0], Tree(x, [])) == Tree(root, [Tree(box, [Tree(x, [])])])
      && Height(t) <= MAX_DEPTH && Height(Tree(root, [Tree(box, [Tree(x, [])])])) <= MAX_DEPTH
      && Nodes(t) == {root, box}
  {
    LeafGrows(root, Tree(box, []));
    LeafGrows(box, Tree(x, []));
    LeafGrows(root, Tree(box, [Tree(x, [])]));
    var t := Tree(root, [Tree(box, [])]);
    assert [0][1..] == [] && At(t, [0]) == Tree(box, []);
    assert t.kids[0 := Tree(box, [Tree(x, [])])] == [Tree(box, [Tree(x, [])])];
    assert Pre(t) == [root, box];
  }

  lemma LeafGrows(n: Node, u: Tree)
    ensures AppendAt(Tree(n, []), [], u) == Tree(n, [u]) && PreAll([u]) == Pre(u) && HeightAll([u]) == Height(u)
  {
    var none: seq<Tree> := [];
    assert none[..0] + [u] + none[0..] == [u];
    assert [u][1..] == [];
  }

  ghost predicate Loose(x: Node)
    reads x
  {
    x.parent == null && x.prevSibling == null && x.nextSibling == null && x.firstChild == null && x.lastChild == null
  }

  method EmptyDocument() returns (d: Document)
    ensures fresh(d) && fresh(d.root) && fresh(d.classes) && fresh(d.tags)
    ensures d.Valid() && d.tags.built && d.Agrees(d.classes) && d.Agrees(d.tags)
    ensures d.tree == Tree(d.root, []) && Nodes(d.tree) == {d.root} && d.Open([])
  {
    var root := new Node(Document, "#document");
    d := new Document(root);
    d.BuildIndexes();
    assert Pre(d.tree) == [root];
  }

  /** A document whose only element is a template, with its indexes. */
  method WithTemplate(box: Node) returns (d: Document)
    requires Loose(box) && box.kind == Element && box.name == "template"
    modifies box`parent, box`prevSibling, box`nextSibling, box`firstChild, box`lastChild
    ensures fresh(d) && fresh(d.root) && fresh(d.classes) && fresh(d.tags)
    ensures d.Valid() && d.tags.built && d.Agrees(d.classes) && d.Agrees(d.tags)
    ensures d.tree == Tree(d.root, [Tree(box, [])]) && d.root != box
  {
    d := EmptyDocument();
    LeafSettled(box);
    assert box !in Nodes(d.tree);
    LeafApart(d.tree, box);
    SmallTrees(d.root, box, box);
    d.Append(d.root, box, [], Tree(box, []));
  }

  lemma TemplateClosed(doc: Node, m: Cells, box: Node)
    requires box in m && TemplateCell(m[box])
    ensures !OpenAt(doc, m, Tree(doc, [Tree(box, [])]), [0])
  {
  }

  /** The new element is apart from the document's tree and may go under its template. */
  lemma UnderTemplate(t: Tree, root: Node, box: Node, x: Node)
    requires t == Tree(root, [Tree(box, [])]) && Distinct(Pre(t)) && x != root && x != box
    ensures ValidPath(t, [0]) && At(t, [0]).node == box && Apart(t, Tree(x, []))
    ensures Height(AppendAt(t, [0], Tree(x, []))) <= MAX_DEPTH
    ensures Nodes(t) == {root, box} && Nodes(Tree(x, [])) == {x}
  {
    SmallTrees(root, box, x);
    assert x !in Nodes(t);
    LeafApart(t, x);
    assert [0][1..] == [];
  }

  /** An element put under a template is found by the index, but not by a fresh walk. */
  method AppendHidden(d: Document, box: Node, x: Node)
    requires d.Valid() && d.tags.built && d.Agrees(d.classes) && d.Agrees(d.tags)
    requires d.tree == Tree(d.root, [Tree(box, [])]) && box.kind == Element && box.name == "template"
    requires x != d.root && x != box && x.kind == Element && x.name == "p" && !x.shadowRoot && Loose(x)
    modifies d`tree, d.classes`lists, d.tags`lists
    modifies {d.root, box, x}`parent, {d.root, box, x}`firstChild, {d.root, box, x}`lastChild
    modifies {d.root, box, x}`prevSibling, {d.root, box, x}`nextSibling
    ensures d.Valid() && d.tags.built && !d.Agrees(d.tags)
  {
    LeafSettled(x);
    ghost var t, sub := d.tree, Tree(x, []);
    UnderTemplate(t, d.root, box, x);
    TemplateClosed(d.root, Snap(Nodes(t)), box);
    d.Append(box, x, [0], sub);
    LeafIndexed(d.root, Snap(Nodes(sub)), x);
  }

  /** So there is a run after which an index that was built no longer agrees. */
  method AppendUnderTemplate() returns (d: Document)
    ensures d.Valid() && d.tags.built && !d.Agrees(d.tags)
  {
    var box := new Node(Element, "template");
    var x := new Node(Element, "p");
    d := WithTemplate(box);
    AppendHidden(d, box, x);
  }
}
