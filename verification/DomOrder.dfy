/** Comparing two nodes by document order, by climbing parent links and scanning siblings. */
module DomOrder {
  import opened DomTree
  import opened DomEdit

  const MAX_DEPTH := 512

  /** Where a node stands in a list. */
  ghost function Idx(s: seq<Node>, n: Node): (k: nat)
    requires n in s
    ensures k < |s| && s[k] == n
  {
    if s[0] == n then 0 else 1 + Idx(s[1..], n)
  }

  ghost function Sign(k: int): int
  {
    if k < 0 then -1 else if k > 0 then 1 else 0
  }

  /** The cells of `t` as they now stand, linked as one whole tree of bounded height. */
  ghost predicate Settled(t: Tree, m: Cells)
    reads Nodes(t)
  {
    m == Snap(Nodes(t)) && Whole(t, m) && Height(t) <= MAX_DEPTH
  }

  lemma AtIn(t: Tree, p: Path)
    requires ValidPath(t, p)
    ensures At(t, p).node in Pre(t) && Idx(Pre(t), At(t, p).node) <= Pos(t, p)
    ensures Distinct(Pre(t)) ==> Idx(Pre(t), At(t, p).node) == Pos(t, p)
  {
    PosBlock(t, p);
    if Idx(Pre(t), At(t, p).node) > Pos(t, p) {
      FirstIdx(Pre(t), Pos(t, p));
    }
  }

  lemma {:induction false} FirstIdx(s: seq<Node>, k: nat)
    requires k < |s|
    ensures Idx(s, s[k]) <= k
  {
    if s[0] != s[k] {
      FirstIdx(s[1..], k - 1);
    }
  }

  /** The parent link follows the path up. */
  lemma ParentLink(t: Tree, m: Cells, p: Path)
    requires Whole(t, m) && ValidPath(t, p)
    ensures At(t, p).node in m
    ensures p == [] ==> m[At(t, p).node].parent == null
    ensures p != [] ==> ValidPath(t, p[..|p| - 1]) && m[At(t, p).node].parent == At(t, p[..|p| - 1]).node
  {
    AtIn(t, p);
    if p != [] {
      LinkedAt(t, m, p);
      KidCell(At(t, p[..|p| - 1]), m, p[|p| - 1]);
    }
  }

  lemma ClimbPath(t: Tree, p: Path, k: nat)
    requires ValidPath(t, p) && k < |p|
    ensures ValidPath(t, p[..k]) && ValidPath(t, p[..k + 1]) && p[..k + 1][..k] == p[..k]
  {
    PathPrefix(t, p, k);
    PathPrefix(t, p, k + 1);
  }

  /** The number of nodes from `n` up to the root. */
  method DepthOf(n: Node, ghost t: Tree, ghost m: Cells, ghost p: Path) returns (d: nat)
    requires Settled(t, m) && ValidPath(t, p) && At(t, p).node == n
    ensures d == |p| + 1
  {
    HeightBoundsPath(t, p);
    var q: Node? := n;
    d := 0;
    assert p[..|p|] == p;
    while q != null && d < MAX_DEPTH
      invariant d <= |p| + 1
      invariant q == null ==> d == |p| + 1
      invariant q != null ==> d <= |p| && ValidPath(t, p[..|p| - d]) && q == At(t, p[..|p| - d]).node
      decreases |p| + 1 - d
    {
      ParentLink(t, m, p[..|p| - d]);
      if d < |p| {
        ClimbPath(t, p, |p| - d - 1);
      }
      q := q.parent;
      d := d + 1;
    }
  }

  /** The ancestor of `n` that is `k` levels down from the root. */
  method ClimbTo(n: Node, d: nat, k: nat, ghost t: Tree, ghost m: Cells, ghost p: Path) returns (c: Node)
    requires Settled(t, m) && ValidPath(t, p) && At(t, p).node == n
    requires d == |p| + 1 && k >= 1
    ensures var j := if k < d then k - 1 else |p|;
            ValidPath(t, p[..j]) && c == At(t, p[..j]).node
  {
    var x := d;
    c := n;
    assert p[..|p|] == p;
    while x > k
      invariant x <= d && (x >= k || x == d)
      invariant x >= 1 && ValidPath(t, p[..x - 1]) && c == At(t, p[..x - 1]).node
    {
      ParentLink(t, m, p[..x - 1]);
      ClimbPath(t, p, x - 2);
      c := c.parent;
      x := x - 1;
    }
  }

  lemma {:induction false} PrefixIsLess(p: Path, q: Path)
    requires |p| < |q| && q[..|p|] == p
    ensures PathLess(p, q)
    decreases |p|
  {
    if p != [] {
      assert q[1..][..|p| - 1] == q[..|p|][1..];
      PrefixIsLess(p[1..], q[1..]);
    }
  }

  lemma {:induction false} ForkIsLess(p: Path, q: Path, k: nat)
    requires k < |p| && k < |q| && p[..k] == q[..k] && p[k] < q[k]
    ensures PathLess(p, q)
    decreases k
  {
    if k > 0 {
      assert p[0] == p[..k][0] == q[..k][0] == q[0];
      assert p[1..][..k - 1] == p[..k][1..] == q[..k][1..] == q[1..][..k - 1];
      ForkIsLess(p[1..], q[1..], k - 1);
    }
  }

  /** Nodes on one line of descent: the shorter path comes first. */
  lemma Ancestor(t: Tree, m: Cells, p: Path, q: Path, k: nat)
    requires Whole(t, m) && ValidPath(t, p) && ValidPath(t, q) && p != q
    requires k <= |p| && k <= |q| && (k == |p| || k == |q|)
    requires ValidPath(t, p[..k]) && ValidPath(t, q[..k]) && At(t, p[..k]).node == At(t, q[..k]).node
    ensures At(t, p).node in Pre(t) && At(t, q).node in Pre(t)
    ensures Sign(Idx(Pre(t), At(t, p).node) - Idx(Pre(t), At(t, q).node)) == if |p| < |q| then -1 else 1
  {
    PathUnique(t, p[..k], q[..k]);
    assert (k == |p| ==> p[..k] == p) && (k == |q| ==> q[..k] == q);
    if |p| < |q| {
      PrefixIsLess(p, q);
      OrderOf(t, m, p, q);
    } else if |q| < |p| {
      PrefixIsLess(q, p);
      OrderOf(t, m, q, p);
    }
  }

  /** What the order of paths says of the order of nodes. */
  lemma OrderOf(t: Tree, m: Cells, p: Path, q: Path)
    requires Whole(t, m) && ValidPath(t, p) && ValidPath(t, q) && PathLess(p, q)
    ensures At(t, p).node in Pre(t) && At(t, q).node in Pre(t)
    ensures Idx(Pre(t), At(t, p).node) < Idx(Pre(t), At(t, q).node)
  {
    PathLessIsPosLess(t, p, q);
    AtIn(t, p);
    AtIn(t, q);
  }

  /** The links of child number `k`, read off the fields. */
  lemma KidLink(q: Tree, m: Cells, k: int)
    requires LinkedSelf(q, m) && Nodes(q) <= m.Keys && 0 <= k < |q.kids|
    requires forall n :: n in Nodes(q) ==> CellOf(n) == m[n]
    ensures var n := q.kids[k].node;
            n.parent == q.node && n.prevSibling == NodeAt(q.kids, k - 1) && n.nextSibling == NodeAt(q.kids, k + 1)
  {
    KidCell(q, m, k);
    KidIn(q, k, q.kids[k].node);
    assert CellOf(q.kids[k].node) == m[q.kids[k].node];
  }

  lemma EndLinks(q: Tree, m: Cells)
    requires LinkedSelf(q, m) && Nodes(q) <= m.Keys
    requires forall n :: n in Nodes(q) ==> CellOf(n) == m[n]
    ensures q.node.firstChild == NodeAt(q.kids, 0) && q.node.lastChild == NodeAt(q.kids, |q.kids| - 1)
  {
    assert q.node in Nodes(q) && CellOf(q.node) == m[q.node];
  }

  lemma KidsDiffer(q: Tree, k: int, l: int)
    requires Distinct(Pre(q)) && 0 <= k < |q.kids|
    ensures q.kids[k].node == NodeAt(q.kids, l) <==> k == l
  {
    if 0 <= l < |q.kids| && k != l {
      KidDisjoint(q, k, l, q.kids[k].node);
    }
  }

  /** Sibling `ca` comes before (-1) or after (1) its sibling `cb`; scans both ways at once. */
  method SiblingOrder(ca: Node, cb: Node, ghost q: Tree, ghost m: Cells, ghost i: nat, ghost j: nat) returns (r: int)
    requires LinkedSelf(q, m) && Distinct(Pre(q)) && Nodes(q) <= m.Keys
    requires forall n :: n in Nodes(q) ==> CellOf(n) == m[n]
    requires i < |q.kids| && j < |q.kids| && i != j
    requires ca == q.kids[i].node && cb == q.kids[j].node
    ensures r == Sign(i - j)
  {
    ghost var n := |q.kids|;
    KidLink(q, m, i);
    EndLinks(q, m);
    KidsDiffer(q, i, 0);
    KidsDiffer(q, j, 0);
    KidsDiffer(q, i, n - 1);
    KidsDiffer(q, j, n - 1);
    var par := ca.parent;
    if par != null {
      if ca == par.firstChild || cb == par.lastChild {
        return -1;
      }
      if cb == par.firstChild || ca == par.lastChild {
        return 1;
      }
    }
    var fwd, back := ca.nextSibling, ca.prevSibling;
    ghost var s := 1;
    while fwd != null || back != null
      invariant s >= 1 && !(i - s < j < i + s)
      invariant fwd == NodeAt(q.kids, i + s) && back == NodeAt(q.kids, i - s)
      decreases n - s
    {
      KidsDiffer(q, j, i + s);
      KidsDiffer(q, j, i - s);
      if fwd == cb {
        return -1;
      }
      if back == cb {
        return 1;
      }
      if fwd != null {
        KidLink(q, m, i + s);
        fwd := fwd.nextSibling;
      }
      if back != null {
        KidLink(q, m, i - s);
        back := back.prevSibling;
      }
      s := s + 1;
    }
    r := 0;
  }

  lemma ParentOf(t: Tree, m: Cells, p: Path, k: nat)
    requires Settled(t, m) && ValidPath(t, p) && 1 <= k <= |p| && ValidPath(t, p[..k])
    ensures ValidPath(t, p[..k - 1]) && At(t, p[..k]).node.parent == At(t, p[..k - 1]).node
  {
    ParentLink(t, m, p[..k]);
    ClimbPath(t, p, k - 1);
    AtIn(t, p[..k]);
    assert CellOf(At(t, p[..k]).node) == m[At(t, p[..k]).node];
  }

  /** One step up both paths. */
  lemma ParentsOf(t: Tree, m: Cells, p: Path, q: Path, k: nat)
    requires Settled(t, m) && ValidPath(t, p) && ValidPath(t, q) && 1 <= k <= |p| && k <= |q|
    requires ValidPath(t, p[..k]) && ValidPath(t, q[..k])
    ensures ValidPath(t, p[..k - 1]) && At(t, p[..k]).node.parent == At(t, p[..k - 1]).node
    ensures ValidPath(t, q[..k - 1]) && At(t, q[..k]).node.parent == At(t, q[..k - 1]).node
  {
    ParentOf(t, m, p, k);
    ParentOf(t, m, q, k);
  }

  lemma PathsPart(p: Path, q: Path, k: nat)
    requires k < |p| && k < |q| && p[..k] == q[..k]
    ensures p[..k + 1] == p[..k] + [p[k]] && q[..k + 1] == p[..k] + [q[k]]
    ensures p[..k + 1][..k] == p[..k] && q[..k + 1][..k] == p[..k]
    ensures p[..k + 1] != q[..k + 1] <==> p[k] != q[k]
  {
    assert p[..k + 1][k] == p[k] && q[..k + 1][k] == q[k];
  }

  /** The subtree where two paths part. */
  lemma ForkTree(t: Tree, m: Cells, p: Path, q: Path, k: nat)
    requires Settled(t, m) && ValidPath(t, p) && ValidPath(t, q) && k < |p| && k < |q|
    requires p[..k] == q[..k] && ValidPath(t, p[..k]) && ValidPath(t, p[..k + 1]) && ValidPath(t, q[..k + 1])
    ensures var u := At(t, p[..k]);
            LinkedSelf(u, m) && Distinct(Pre(u)) && Nodes(u) <= Nodes(t) &&
            p[k] < |u.kids| && q[k] < |u.kids| &&
            At(t, p[..k + 1]) == u.kids[p[k]] && At(t, q[..k + 1]) == u.kids[q[k]]
  {
    PathsPart(p, q, k);
    LinkedAt(t, m, p[..k + 1]);
    LinkedAt(t, m, q[..k + 1]);
    DistinctSub(t, p[..k]);
    forall n | n in Pre(At(t, p[..k])) ensures n in Pre(t) { SubPre(t, p[..k], n); }
  }

  /** Two paths that part at level `k`: the child indexes there decide. */
  lemma Fork(t: Tree, m: Cells, p: Path, q: Path, k: nat)
    requires Settled(t, m) && ValidPath(t, p) && ValidPath(t, q) && k < |p| && k < |q|
    requires p[..k] == q[..k] && ValidPath(t, p[..k]) && ValidPath(t, p[..k + 1]) && ValidPath(t, q[..k + 1])
    requires At(t, p[..k + 1]).node != At(t, q[..k + 1]).node
    ensures At(t, p).node in Pre(t) && At(t, q).node in Pre(t)
    ensures p[k] != q[k]
    ensures Sign(Idx(Pre(t), At(t, p).node) - Idx(Pre(t), At(t, q).node)) == Sign(p[k] as int - q[k])
    ensures var u := At(t, p[..k]);
            LinkedSelf(u, m) && Distinct(Pre(u)) && Nodes(u) <= Nodes(t) &&
            p[k] < |u.kids| && q[k] < |u.kids| &&
            At(t, p[..k + 1]) == u.kids[p[k]] && At(t, q[..k + 1]) == u.kids[q[k]]
  {
    PathsPart(p, q, k);
    ForkTree(t, m, p, q, k);
    if p[k] < q[k] {
      ForkIsLess(p, q, k);
      OrderOf(t, m, p, q);
    } else {
      ForkIsLess(q, p, k);
      OrderOf(t, m, q, p);
    }
  }

  /** Climbs from two nodes of equal depth until their parents agree. */
  method ClimbToFork(a: Node, b: Node, ghost t: Tree, ghost m: Cells, ghost p: Path, ghost q: Path, ghost depth: nat)
    returns (ca: Node, cb: Node, ghost k: nat)
    requires Settled(t, m) && ValidPath(t, p) && ValidPath(t, q) && depth <= |p| && depth <= |q|
    requires ValidPath(t, p[..depth]) && ValidPath(t, q[..depth]) && a != b
    requires a == At(t, p[..depth]).node && b == At(t, q[..depth]).node
    ensures k < |p| && k < |q| && p[..k] == q[..k] && ca != cb
    ensures ValidPath(t, p[..k]) && ValidPath(t, p[..k + 1]) && ValidPath(t, q[..k + 1])
    ensures ca == At(t, p[..k + 1]).node && cb == At(t, q[..k + 1]).node
  {
    HeightBoundsPath(t, p);
    assert p[..0] == q[..0] == [];
    ca, cb := a, b;
    var guard := 0;
    k := depth;
    while ca.parent != cb.parent && guard < MAX_DEPTH
      invariant 1 <= k <= |p| && k <= |q| && ValidPath(t, p[..k]) && ValidPath(t, q[..k])
      invariant ca == At(t, p[..k]).node && cb == At(t, q[..k]).node && ca != cb
      invariant guard + k <= |p|
      decreases k
    {
      ParentsOf(t, m, p, q, k);
      ca := ca.parent;
      cb := cb.parent;
      k := k - 1;
      guard := guard + 1;
    }
    ParentsOf(t, m, p, q, k);
    PathUnique(t, p[..k - 1], q[..k - 1]);
    k := k - 1;
  }

  /** The order of two nodes of one tree is the order of their places in the preorder list. */
  method DocumentOrderCmp(a: Node, b: Node, ghost t: Tree, ghost m: Cells) returns (r: int)
    requires Settled(t, m) && a in Pre(t) && b in Pre(t)
    ensures r == Sign(Idx(Pre(t), a) - Idx(Pre(t), b))
  {
    if a == b {
      return 0;
    }
    ghost var pa := PathTo(t, a);
    ghost var pb := PathTo(t, b);
    var da := DepthOf(a, t, m, pa);
    var db := DepthOf(b, t, m, pb);
    var ca := ClimbTo(a, da, db, t, m, pa);
    var cb := ClimbTo(b, db, da, t, m, pb);
    ghost var k: nat := if da < db then |pa| else |pb|;
    if ca == cb {
      Ancestor(t, m, pa, pb, k);
      return if da < db then -1 else 1;
    }
    r := OrderAtFork(ca, cb, t, m, pa, pb, k);
  }

  /** The order of two nodes neither of which is above the other, from their ancestors of equal depth. */
  method OrderAtFork(a: Node, b: Node, ghost t: Tree, ghost m: Cells, ghost p: Path, ghost q: Path, ghost depth: nat)
    returns (r: int)
    requires Settled(t, m) && ValidPath(t, p) && ValidPath(t, q) && depth <= |p| && depth <= |q|
    requires ValidPath(t, p[..depth]) && ValidPath(t, q[..depth]) && a != b
    requires a == At(t, p[..depth]).node && b == At(t, q[..depth]).node
    ensures At(t, p).node in Pre(t) && At(t, q).node in Pre(t)
    ensures r == Sign(Idx(Pre(t), At(t, p).node) - Idx(Pre(t), At(t, q).node))
  {
    var ca, cb;
    ghost var k: nat;
    ca, cb, k := ClimbToFork(a, b, t, m, p, q, depth);
    Fork(t, m, p, q, k);
    r := SiblingOrder(ca, cb, At(t, p[..k]), m, p[k], q[k]);
  }
}
