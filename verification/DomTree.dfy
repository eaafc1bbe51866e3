/** The node links of the DOM and the ordered tree they stand for.
    The five link fields of every node are read into one `Cell`; a map of cells is
    `Linked` to a tree when following the links walks exactly that tree. */
module DomTree {

  datatype Kind = Document | Doctype | Element | Text | Comment

  class Node {
    const kind: Kind
    var name: string        // "" when the node has no name
    var classAttr: string   // "" when there is no class attribute
    var shadowRoot: bool    // carries the shadow-root marker attribute
    var parent: Node?
    var firstChild: Node?
    var lastChild: Node?
    var prevSibling: Node?
    var nextSibling: Node?

    constructor (kind: Kind, name: string)
      ensures this.kind == kind && this.name == name && classAttr == "" && !shadowRoot
      ensures parent == firstChild == lastChild == prevSibling == nextSibling == null
    {
      this.kind, this.name, classAttr, shadowRoot := kind, name, "", false;
      parent, firstChild, lastChild, prevSibling, nextSibling := null, null, null, null, null;
    }
  }

  datatype Cell = Cell(kind: Kind, name: string, classAttr: string, shadowRoot: bool,
                       parent: Node?, first: Node?, last: Node?, prev: Node?, next: Node?)

  type Cells = map<Node, Cell>

  ghost function CellOf(n: Node): Cell
    reads n
  {
    Cell(n.kind, n.name, n.classAttr, n.shadowRoot,
         n.parent, n.firstChild, n.lastChild, n.prevSibling, n.nextSibling)
  }

  ghost function Snap(s: set<Node>): Cells
    reads s
  {
    map n | n in s :: CellOf(n)
  }

  /** An ordered tree of nodes, and positions in it as paths of child indexes. */
  datatype Tree = Tree(node: Node, kids: seq<Tree>)

  type Path = seq<nat>

  /** Tree order: a node, then its children's subtrees from first to last. */
  ghost function Pre(t: Tree): (s: seq<Node>)
    ensures |s| > 0 && s[0] == t.node
  {
    [t.node] + PreAll(t.kids)
  }

  ghost function PreAll(ts: seq<Tree>): seq<Node>
  {
    if ts == [] then [] else Pre(ts[0]) + PreAll(ts[1..])
  }

  ghost function Nodes(t: Tree): set<Node>
  {
    set n | n in Pre(t)
  }

  ghost function Height(t: Tree): nat
  {
    1 + HeightAll(t.kids)
  }

  ghost function HeightAll(ts: seq<Tree>): nat
  {
    if ts == [] then 0
    else if Height(ts[0]) > HeightAll(ts[1..]) then Height(ts[0]) else HeightAll(ts[1..])
  }

  ghost predicate Distinct(s: seq<Node>)
  {
    forall i, j :: 0 <= i < j < |s| ==> s[i] != s[j]
  }

  ghost predicate ValidPath(t: Tree, p: Path)
    decreases |p|
  {
    p == [] || (p[0] < |t.kids| && ValidPath(t.kids[p[0]], p[1..]))
  }

  ghost function At(t: Tree, p: Path): Tree
    requires ValidPath(t, p)
    decreases |p|
  {
    if p == [] then t else At(t.kids[p[0]], p[1..])
  }

  /** The node of the child numbered `i`, or null when there is none. */
  ghost function NodeAt(ts: seq<Tree>, i: int): Node?
  {
    if 0 <= i < |ts| then ts[i].node else null
  }

  /** The cells spell out the tree: every link of every node is as the tree says. */
  ghost predicate Linked(t: Tree, m: Cells, parent: Node?, prev: Node?, next: Node?)
    decreases t, 1
  {
    && t.node in m
    && m[t.node].parent == parent && m[t.node].prev == prev && m[t.node].next == next
    && m[t.node].first == NodeAt(t.kids, 0)
    && m[t.node].last == NodeAt(t.kids, |t.kids| - 1)
    && forall i :: 0 <= i < |t.kids| ==> LinkedKid(t, i, m)
  }

  /** Child number `i` is linked between its siblings and under `t`. */
  ghost predicate LinkedKid(t: Tree, i: int, m: Cells)
    decreases t, 0
  {
    0 <= i < |t.kids| && Linked(t.kids[i], m, t.node, NodeAt(t.kids, i - 1), NodeAt(t.kids, i + 1))
  }

  /** A whole tree, linked, without sharing. */
  ghost predicate Whole(t: Tree, m: Cells)
  {
    Linked(t, m, null, null, null) && Distinct(Pre(t)) && Nodes(t) <= m.Keys
  }

  // ---- preorder ----

  lemma {:induction false} PreAllConcat(a: seq<Tree>, b: seq<Tree>)
    ensures PreAll(a + b) == PreAll(a) + PreAll(b)
  {
    if a == [] {
      assert a + b == b;
    } else {
      assert (a + b)[1..] == a[1..] + b;
      PreAllConcat(a[1..], b);
    }
  }

  lemma PreSplit(ts: seq<Tree>, i: nat)
    requires i < |ts|
    ensures PreAll(ts) == PreAll(ts[..i]) + Pre(ts[i]) + PreAll(ts[i + 1..])
  {
    assert ts == ts[..i] + ts[i..];
    PreAllConcat(ts[..i], ts[i..]);
    assert ts[i..][1..] == ts[i + 1..];
  }

  lemma PreStep(ts: seq<Tree>, i: nat)
    requires i < |ts|
    ensures PreAll(ts[..i + 1]) == PreAll(ts[..i]) + Pre(ts[i])
  {
    assert ts[..i + 1] == ts[..i] + [ts[i]];
    PreAllConcat(ts[..i], [ts[i]]);
  }

  /** The preorder position of the node at a path. */
  ghost function Pos(t: Tree, p: Path): nat
    requires ValidPath(t, p)
    decreases |p|
  {
    if p == [] then 0 else 1 + |PreAll(t.kids[..p[0]])| + Pos(t.kids[p[0]], p[1..])
  }

  /** The subtree at a path occupies a block of the preorder list, starting at `Pos`. */
  lemma {:induction false} PosBlock(t: Tree, p: Path)
    requires ValidPath(t, p)
    ensures Pos(t, p) + |Pre(At(t, p))| <= |Pre(t)|
    ensures Pre(t)[Pos(t, p)..Pos(t, p) + |Pre(At(t, p))|] == Pre(At(t, p))
    ensures Pre(t)[Pos(t, p)] == At(t, p).node
    decreases |p|
  {
    if p != [] {
      var i := p[0];
      PosBlock(t.kids[i], p[1..]);
      KidBlock(t, i);
      BlockInBlock(Pre(t), 1 + |PreAll(t.kids[..i])|, Pre(t.kids[i]), Pos(t.kids[i], p[1..]), Pre(At(t, p)));
    }
  }

  lemma KidBlock(t: Tree, i: nat)
    requires i < |t.kids|
    ensures var w := 1 + |PreAll(t.kids[..i])|;
            w + |Pre(t.kids[i])| <= |Pre(t)| && Pre(t)[w..w + |Pre(t.kids[i])|] == Pre(t.kids[i])
  {
    PreSplit(t.kids, i);
  }

  lemma BlockInBlock(s: seq<Node>, w: nat, inner: seq<Node>, k: nat, part: seq<Node>)
    requires w + |inner| <= |s| && s[w..w + |inner|] == inner
    requires k + |part| <= |inner| && inner[k..k + |part|] == part && part != []
    ensures s[w + k..w + k + |part|] == part && s[w + k] == part[0]
  {
    forall i | 0 <= i < |part| ensures s[w + k..w + k + |part|][i] == part[i] {
      assert inner[k..k + |part|][i] == inner[k + i] == s[w..w + |inner|][k + i];
    }
  }

  lemma {:induction false} PreAllAt(ts: seq<Tree>, k: nat) returns (i: nat, off: nat)
    requires k < |PreAll(ts)|
    ensures i < |ts| && off < |Pre(ts[i])| && k == |PreAll(ts[..i])| + off
    decreases |ts|
  {
    if k < |Pre(ts[0])| {
      i, off := 0, k;
    } else {
      i, off := PreAllAt(ts[1..], k - |Pre(ts[0])|);
      assert ts[..i + 1] == [ts[0]] + ts[1..][..i];
      PreAllConcat([ts[0]], ts[1..][..i]);
      i := i + 1;
    }
  }

  /** Every preorder position is the position of some path. */
  lemma {:induction false} PathAt(t: Tree, k: nat) returns (p: Path)
    requires k < |Pre(t)|
    ensures ValidPath(t, p) && Pos(t, p) == k && At(t, p).node == Pre(t)[k]
    decreases t
  {
    if k == 0 {
      p := [];
    } else {
      var i, off := PreAllAt(t.kids, k - 1);
      var q := PathAt(t.kids[i], off);
      p := [i] + q;
      assert p[1..] == q;
      PosBlock(t, p);
    }
  }

  lemma PathTo(t: Tree, n: Node) returns (p: Path)
    requires n in Pre(t)
    ensures ValidPath(t, p) && At(t, p).node == n
  {
    var k :| 0 <= k < |Pre(t)| && Pre(t)[k] == n;
    p := PathAt(t, k);
  }

  lemma {:induction false} PathConcat(t: Tree, p: Path, q: Path)
    requires ValidPath(t, p) && ValidPath(At(t, p), q)
    ensures ValidPath(t, p + q) && At(t, p + q) == At(At(t, p), q)
    decreases |p|
  {
    if p == [] {
      assert p + q == q;
    } else {
      assert (p + q)[1..] == p[1..] + q;
      PathConcat(t.kids[p[0]], p[1..], q);
    }
  }

  lemma {:induction false} PathPrefix(t: Tree, p: Path, k: nat)
    requires ValidPath(t, p) && k <= |p|
    ensures ValidPath(t, p[..k]) && ValidPath(At(t, p[..k]), p[k..]) && At(At(t, p[..k]), p[k..]) == At(t, p)
    decreases k
  {
    if k == 0 {
      assert p[0..] == p;
    } else {
      PathPrefix(t.kids[p[0]], p[1..], k - 1);
      assert p[..k][1..] == p[1..][..k - 1];
      assert p[1..][k - 1..] == p[k..];
    }
  }

  /** Document order on positions: an ancestor first, else by the first differing child index. */
  ghost predicate PathLess(p: Path, q: Path)
    decreases |p|
  {
    if p == [] then q != []
    else q != [] && (p[0] < q[0] || (p[0] == q[0] && PathLess(p[1..], q[1..])))
  }

  lemma PreAllPrefixGrows(ts: seq<Tree>, i: nat, j: nat)
    requires i < j <= |ts|
    ensures |PreAll(ts[..i])| + |Pre(ts[i])| <= |PreAll(ts[..j])|
  {
    PreStep(ts, i);
    assert ts[..j] == ts[..i + 1] + ts[i + 1..j];
    PreAllConcat(ts[..i + 1], ts[i + 1..j]);
  }

  lemma {:induction false} PathLessIsPosLess(t: Tree, p: Path, q: Path)
    requires ValidPath(t, p) && ValidPath(t, q) && PathLess(p, q)
    ensures Pos(t, p) < Pos(t, q)
    decreases |p|
  {
    if p != [] {
      if p[0] < q[0] {
        PosBlock(t.kids[p[0]], p[1..]);
        PreAllPrefixGrows(t.kids, p[0], q[0]);
      } else {
        PathLessIsPosLess(t.kids[p[0]], p[1..], q[1..]);
      }
    }
  }

  lemma {:induction false} PathTrichotomy(p: Path, q: Path)
    ensures p == q || PathLess(p, q) || PathLess(q, p)
    decreases |p|
  {
    if p != [] && q != [] && p[0] == q[0] {
      PathTrichotomy(p[1..], q[1..]);
      if p[1..] == q[1..] {
        assert p == [p[0]] + p[1..] == q;
      }
    }
  }

  /** With no node occurring twice, a node has one path. */
  lemma PathUnique(t: Tree, p: Path, q: Path)
    requires Distinct(Pre(t)) && ValidPath(t, p) && ValidPath(t, q)
    requires At(t, p).node == At(t, q).node
    ensures p == q
  {
    PosBlock(t, p);
    PosBlock(t, q);
    PathTrichotomy(p, q);
    if PathLess(p, q) {
      PathLessIsPosLess(t, p, q);
    } else if PathLess(q, p) {
      PathLessIsPosLess(t, q, p);
    }
  }

  lemma {:induction false} HeightBoundsPath(t: Tree, p: Path)
    requires ValidPath(t, p)
    ensures |p| + Height(At(t, p)) <= Height(t)
    decreases |p|
  {
    if p != [] {
      HeightBoundsPath(t.kids[p[0]], p[1..]);
      HeightOfKid(t.kids, p[0]);
    }
  }

  lemma {:induction false} HeightOfKid(ts: seq<Tree>, i: nat)
    requires i < |ts|
    ensures Height(ts[i]) <= HeightAll(ts)
    decreases i
  {
    if i > 0 {
      HeightOfKid(ts[1..], i - 1);
    }
  }

  // ---- links ----

  /** Linked under whatever outward links the root's own cell names. */
  ghost predicate LinkedSelf(t: Tree, m: Cells)
  {
    t.node in m && Linked(t, m, m[t.node].parent, m[t.node].prev, m[t.node].next)
  }

  lemma {:induction false} LinkedDown(t: Tree, m: Cells, p: Path)
    requires LinkedSelf(t, m) && ValidPath(t, p)
    ensures LinkedSelf(At(t, p), m)
    decreases |p|
  {
    if p != [] {
      var i: int := p[0];
      assert LinkedKid(t, i, m);
      assert Linked(t.kids[i], m, t.node, NodeAt(t.kids, i - 1), NodeAt(t.kids, i + 1));
      LinkedDown(t.kids[i], m, p[1..]);
    }
  }

  /** The links around the node at a non-empty path. */
  lemma LinkedAt(t: Tree, m: Cells, p: Path)
    requires LinkedSelf(t, m) && ValidPath(t, p) && p != []
    ensures ValidPath(t, p[..|p| - 1])
    ensures LinkedSelf(At(t, p[..|p| - 1]), m)
    ensures LinkedKid(At(t, p[..|p| - 1]), p[|p| - 1], m)
    ensures At(t, p) == At(t, p[..|p| - 1]).kids[p[|p| - 1]]
  {
    PathPrefix(t, p, |p| - 1);
    LinkedDown(t, m, p[..|p| - 1]);
    var q, l := At(t, p[..|p| - 1]), p[|p| - 1..];
    assert l == [p[|p| - 1]] && l[1..] == [];
    assert At(q, l) == At(q.kids[l[0]], []) == q.kids[l[0]];
    assert LinkedKid(q, l[0], m);
  }

  /** Linkedness only looks at the cells of the tree's own nodes. */
  lemma {:induction false} LinkedFrame(t: Tree, m: Cells, m': Cells, parent: Node?, prev: Node?, next: Node?)
    requires Linked(t, m, parent, prev, next)
    requires forall n :: n in Pre(t) && n in m ==> n in m' && m'[n] == m[n]
    ensures Linked(t, m', parent, prev, next)
    decreases t
  {
    assert t.node in Pre(t);
    forall i | 0 <= i < |t.kids|
      ensures LinkedKid(t, i, m')
    {
      assert LinkedKid(t, i, m);
      PreSplit(t.kids, i);
      LinkedFrame(t.kids[i], m, m', t.node, NodeAt(t.kids, i - 1), NodeAt(t.kids, i + 1));
    }
  }

  /** Re-hanging a subtree changes the three outward links of its root and nothing else. */
  lemma LinkedReroot(t: Tree, m: Cells, m': Cells, parent: Node?, prev: Node?, next: Node?,
                     parent': Node?, prev': Node?, next': Node?)
    requires Linked(t, m, parent, prev, next) && Distinct(Pre(t))
    requires forall n :: n in PreAll(t.kids) && n in m ==> n in m' && m'[n] == m[n]
    requires t.node in m' && m'[t.node] == m[t.node].(parent := parent', prev := prev', next := next')
    ensures Linked(t, m', parent', prev', next')
  {
    forall i | 0 <= i < |t.kids|
      ensures LinkedKid(t, i, m')
    {
      assert LinkedKid(t, i, m);
      PreSplit(t.kids, i);
      LinkedFrame(t.kids[i], m, m', t.node, NodeAt(t.kids, i - 1), NodeAt(t.kids, i + 1));
    }
  }
}
