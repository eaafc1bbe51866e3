/** Moving a node that already hangs in the tree: well linked exactly when the new parent is
    not inside the moved subtree. */
module DomMove {
  import opened DomTree
  import opened DomEdit
  import opened DomOrder
  import opened DomDocument

  /** The cells after moving the node `x` of a tree under `parent`, before `r` or last. */
  ghost function MovedCells(m: Cells, parent: Node, x: Node, r: Node?): Cells
    requires parent in m && x in m && (r != null ==> r in m)
  {
    AttachCells(DetachCells(m, x), parent, x, r)
  }

  /** Where the new parent stands once the subtree is out. */
  lemma ParentStays(t: Tree, p: Path, parent: Node) returns (q: Path)
    requires ValidPath(t, p) && p != [] && Distinct(Pre(t)) && parent in Pre(t) && parent !in Pre(At(t, p))
    ensures ValidPath(RemoveAt(t, p), q) && At(RemoveAt(t, p), q).node == parent
  {
    RemoveNodes(t, p);
    assert parent in Nodes(RemoveAt(t, p));
    q := PathTo(RemoveAt(t, p), parent);
  }

  /** A move to any place outside the subtree leaves one whole tree. */
  lemma MoveKeepsLinks(t: Tree, m: Cells, p: Path, q: Path, at: nat)
    requires Whole(t, m) && m.Keys == Nodes(t) && ValidPath(t, p) && p != []
    requires ValidPlace(RemoveAt(t, p), q, at)
    ensures var parent, r := At(RemoveAt(t, p), q).node, NodeAt(At(RemoveAt(t, p), q).kids, at);
      && At(t, p).node in m && parent in m && (r != null ==> r in m)
      && Whole(InsertAt(RemoveAt(t, p), q, at, At(t, p)), MovedCells(m, parent, At(t, p).node, r))
      && Nodes(InsertAt(RemoveAt(t, p), q, at, At(t, p))) == Nodes(t)
  {
    var sub, t' := At(t, p), RemoveAt(t, p);
    DetachedWhole(t, m, p);
    RemoveNodes(t, p);
    PlaceIn(t', q, at);
    AttachLinked(t', DetachCells(m, sub.node), null, null, null, q, at, sub);
    InsertNodes(t', q, at, sub);
  }

  ghost function Climb(m: Cells, n: Node?, k: nat): Node?
  {
    if k == 0 || n == null || n !in m then n else Climb(m, m[n].parent, k - 1)
  }

  /** In a whole tree the parent links climb the path, and no further than the root. */
  lemma {:induction false} ClimbInTree(t: Tree, m: Cells, p: Path, k: nat)
    requires Whole(t, m) && ValidPath(t, p) && k > 0
    ensures k > |p| ==> Climb(m, At(t, p).node, k) == null
    ensures k <= |p| ==> ValidPath(t, p[..|p| - k]) && Climb(m, At(t, p).node, k) == At(t, p[..|p| - k]).node
    decreases k
  {
    ParentLink(t, m, p);
    if p != [] && k > 1 {
      var q := p[..|p| - 1];
      ClimbInTree(t, m, q, k - 1);
      assert k <= |p| ==> q[..|q| - (k - 1)] == p[..|p| - k];
    }
  }

  /** A node of a whole tree is never its own proper ancestor. */
  lemma NoLoop(t: Tree, m: Cells, n: Node, k: nat)
    requires Whole(t, m) && n in Pre(t) && k > 0
    ensures Climb(m, n, k) != n
  {
    var p := PathTo(t, n);
    ClimbInTree(t, m, p, k);
    if k <= |p| && Climb(m, n, k) == n {
      PathUnique(t, p, p[..|p| - k]);
    }
  }

  /** Moving within the subtree: the climb from the new parent still reaches the moved node. */
  lemma {:induction false} ClimbToMoved(t: Tree, m: Cells, p: Path, r: Path, m': Cells)
    requires Whole(t, m) && ValidPath(t, p + r) && ValidPath(t, p)
    requires forall n :: n in m && n != At(t, p).node ==> n in m' && m'[n].parent == m[n].parent
    ensures Climb(m', At(t, p + r).node, |r|) == At(t, p).node
    decreases |r|
  {
    if r == [] {
      assert p + r == p;
    } else {
      var s := p + r;
      ParentLink(t, m, s);
      assert s[..|s| - 1] == p + r[..|r| - 1];
      ClimbToMoved(t, m, p, r[..|r| - 1], m');
      if At(t, s).node == At(t, p).node {
        PathUnique(t, s, p);
      }
    }
  }

  /** A move to a place inside the moved subtree ties the links into a loop: no whole tree
      contains the moved node afterwards. */
  lemma MoveIntoSelfLoops(t: Tree, m: Cells, p: Path, parent: Node, r: Node?, t': Tree)
    requires Whole(t, m) && m.Keys == Nodes(t) && ValidPath(t, p) && parent in Pre(At(t, p)) && (r != null ==> r in m)
    ensures At(t, p).node in m && parent in m
    ensures Whole(t', MovedCells(m, parent, At(t, p).node, r)) ==> At(t, p).node !in Pre(t')
  {
    var x := At(t, p).node;
    AtIn(t, p);
    SubPre(t, p, parent);
    var m' := MovedCells(m, parent, x, r);
    var down := PathTo(At(t, p), parent);
    PathConcat(t, p, down);
    forall n | n in m
      ensures n in m' && (if n == x then m'[n].parent == parent else m'[n].parent == m[n].parent)
    {
      var d := DetachCells(m, x);
      assert d[n] == DetachCell(m, x, n) && m'[n] == AttachCell(d, parent, x, r, n);
    }
    ClimbToMoved(t, m, p, down, m');
    assert Climb(m', x, |down| + 1) == Climb(m', parent, |down|) == x;
    if Whole(t', m') && x in Pre(t') {
      NoLoop(t', m', x, |down| + 1);
    }
  }

  /** Appending a node that hangs in the tree leaves it in some whole tree exactly when the new parent
      is not inside the moved subtree. */
  lemma MoveExactly(t: Tree, m: Cells, p: Path, parent: Node)
    requires Whole(t, m) && m.Keys == Nodes(t) && ValidPath(t, p) && p != [] && parent in Pre(t)
    ensures At(t, p).node in m && parent in m
    ensures (exists t' :: Whole(t', MovedCells(m, parent, At(t, p).node, null)) && At(t, p).node in Pre(t'))
       <==> parent !in Pre(At(t, p))
  {
    AtIn(t, p);
    if parent in Pre(At(t, p)) {
      forall t' ensures Whole(t', MovedCells(m, parent, At(t, p).node, null)) ==> At(t, p).node !in Pre(t') {
        MoveIntoSelfLoops(t, m, p, parent, null, t');
      }
    } else {
      var q := ParentStays(t, p, parent);
      var at := |At(RemoveAt(t, p), q).kids|;
      MoveKeepsLinks(t, m, p, q, at);
      assert At(t, p).node in Nodes(InsertAt(RemoveAt(t, p), q, at, At(t, p)));
    }
  }
}
