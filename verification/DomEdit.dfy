/** Moving nodes about: what detaching and appending do to the links, and to the tree. */
module DomEdit {
  import opened DomTree

  /** The tree without the subtree at a non-empty path. */
  ghost function RemoveAt(t: Tree, p: Path): Tree
    requires ValidPath(t, p) && p != []
    decreases |p|
  {
    if |p| == 1 then Tree(t.node, t.kids[..p[0]] + t.kids[p[0] + 1..])
    else Tree(t.node, t.kids[p[0] := RemoveAt(t.kids[p[0]], p[1..])])
  }

  /** A place for a new child: the number it will have under the node at a path. */
  ghost predicate ValidPlace(t: Tree, p: Path, at: nat)
  {
    ValidPath(t, p) && at <= |At(t, p).kids|
  }

  /** The tree with `sub` as a new child at a place. */
  ghost function InsertAt(t: Tree, p: Path, at: nat, sub: Tree): Tree
    requires ValidPlace(t, p, at)
    decreases |p|
  {
    if p == [] then Tree(t.node, t.kids[..at] + [sub] + t.kids[at..])
    else Tree(t.node, t.kids[p[0] := InsertAt(t.kids[p[0]], p[1..], at, sub)])
  }

  /** The tree with `sub` as a new last child of the node at a path. */
  ghost function AppendAt(t: Tree, p: Path, sub: Tree): Tree
    requires ValidPath(t, p)
  {
    InsertAt(t, p, |At(t, p).kids|, sub)
  }

  // ---- the link assignments ----

  ghost function Present(n: Node?): set<Node>
  {
    if n == null then {} else {n}
  }

  ghost predicate Neighbours(m: Cells, n: Node)
  {
    && n in m
    && (m[n].parent != null ==> m[n].parent in m)
    && (m[n].prev != null ==> m[n].prev in m && m[n].prev != n)
    && (m[n].next != null ==> m[n].next in m && m[n].next != n)
  }

  /** What detaching `x` leaves in the cell of a node. */
  ghost function DetachCell(m: Cells, x: Node, n: Node): Cell
    requires x in m && n in m
  {
    var c, d := m[n], m[x];
    if d.parent == null then c
    else c.(parent := if n == x then null else c.parent,
            prev := if n == x then null else if n == d.next then d.prev else c.prev,
            next := if n == x then null else if n == d.prev then d.next else c.next,
            first := if n == d.parent && d.prev == null then d.next else c.first,
            last := if n == d.parent && d.next == null then d.prev else c.last)
  }

  ghost function DetachCells(m: Cells, x: Node): Cells
    requires x in m
  {
    map n | n in m :: DetachCell(m, x, n)
  }

  /** The child after which a new one comes, put before `r` or last. */
  ghost function BeforeOf(m: Cells, p: Node, r: Node?): Node?
    requires p in m && (r != null ==> r in m)
  {
    if r == null then m[p].last else m[r].prev
  }

  /** What putting the parentless `x` under `p`, before its child `r` or last, leaves in the cell of a node. */
  ghost function AttachCell(m: Cells, p: Node, x: Node, r: Node?, n: Node): Cell
    requires p in m && n in m && (r != null ==> r in m)
  {
    var c, l := m[n], BeforeOf(m, p, r);
    c.(parent := if n == x then p else c.parent,
       prev := if n == x then l else if n == r then x else c.prev,
       next := if n == x && r != null then r else if n == l then x else c.next,
       first := if n == p && l == null then x else c.first,
       last := if n == p && r == null then x else c.last)
  }

  ghost function AttachCells(m: Cells, p: Node, x: Node, r: Node?): Cells
    requires p in m && (r != null ==> r in m)
  {
    map n | n in m :: AttachCell(m, p, x, r, n)
  }

  /** A node without a parent is left as it is. */
  lemma DetachNothing(m: Cells, x: Node)
    requires x in m && m[x].parent == null
    ensures DetachCells(m, x) == m
  {
    forall n | n in m ensures DetachCells(m, x)[n] == m[n] { assert DetachCell(m, x, n) == m[n]; }
  }

  lemma SnapDetached(s: set<Node>, m: Cells, x: Node)
    requires m.Keys == s && x in m && forall n :: n in s ==> CellOf(n) == DetachCell(m, x, n)
    ensures Snap(s) == DetachCells(m, x)
  {
  }

  /** Unlinks a node from its parent and siblings; nothing to do for a parentless node. */
  method Detach(child: Node, ghost s: set<Node>)
    requires Neighbours(Snap(s), child)
    modifies child`parent, child`prevSibling, child`nextSibling, Present(child.parent)`firstChild,
        Present(child.parent)`lastChild
    modifies Present(child.prevSibling)`nextSibling, Present(child.nextSibling)`prevSibling
    ensures Snap(s) == DetachCells(old(Snap(s)), child)
  {
    ghost var m := Snap(s);
    var p := child.parent;
    if p == null {
      DetachNothing(m, child);
      return;
    }
    if child.prevSibling != null {
      child.prevSibling.nextSibling := child.nextSibling;
    } else {
      p.firstChild := child.nextSibling;
    }
    if child.nextSibling != null {
      child.nextSibling.prevSibling := child.prevSibling;
    } else {
      p.lastChild := child.prevSibling;
    }
    child.parent := null;
    child.prevSibling := null;
    child.nextSibling := null;
    forall n | n in s
      ensures CellOf(n) == DetachCell(m, child, n)
    {
      assert m[n] == old(CellOf(n));
      if n == child {
      } else if n == p {
      } else if n == m[child].prev {
      } else if n == m[child].next {
      } else {
        assert CellOf(n) == old(CellOf(n));
      }
    }
    SnapDetached(s, m, child);
  }

  lemma SnapAttached(s: set<Node>, m: Cells, p: Node, x: Node, r: Node?)
    requires m.Keys == s && p in m && (r != null ==> r in m)
    requires forall n :: n in s ==> CellOf(n) == AttachCell(m, p, x, r, n)
    ensures Snap(s) == AttachCells(m, p, x, r)
  {
  }

  /** The linking half of an append: the parentless child becomes the last child. */
  method Attach(parent: Node, child: Node, ghost s: set<Node>)
    requires child in s && parent in s && parent != child
    requires parent.lastChild != null ==> parent.lastChild in s && parent.lastChild != child
    modifies parent`firstChild, parent`lastChild, child`parent, child`prevSibling, Present(parent.lastChild)`nextSibling
    ensures Snap(s) == AttachCells(old(Snap(s)), parent, child, null)
  {
    ghost var m := Snap(s);
    child.parent := parent;
    child.prevSibling := parent.lastChild;
    if parent.lastChild != null {
      parent.lastChild.nextSibling := child;
    } else {
      parent.firstChild := child;
    }
    parent.lastChild := child;
    forall n | n in s
      ensures CellOf(n) == AttachCell(m, parent, child, null, n)
    {
      if n == child {
      } else if n == parent {
      } else if n == m[parent].last {
      } else {
        assert CellOf(n) == m[n];
      }
    }
    SnapAttached(s, m, parent, child, null);
  }

  /** The linking half of an insertion before a sibling. */
  method AttachBefore(parent: Node, child: Node, ref: Node, ghost s: set<Node>)
    requires child in s && parent in s && ref in s && parent != child && ref != child
    requires ref.prevSibling != null ==> ref.prevSibling in s && ref.prevSibling != child
    modifies parent`firstChild, child`parent, child`prevSibling, child`nextSibling, ref`prevSibling
    modifies Present(ref.prevSibling)`nextSibling
    ensures Snap(s) == AttachCells(old(Snap(s)), parent, child, ref)
  {
    ghost var m := Snap(s);
    child.parent := parent;
    child.nextSibling := ref;
    child.prevSibling := ref.prevSibling;
    if ref.prevSibling != null {
      ref.prevSibling.nextSibling := child;
    } else {
      parent.firstChild := child;
    }
    ref.prevSibling := child;
    forall n | n in s
      ensures CellOf(n) == AttachCell(m, parent, child, ref, n)
    {
      if n == child {
      } else if n == parent {
      } else if n == ref {
      } else if n == m[ref].prev {
      } else {
        assert CellOf(n) == m[n];
      }
    }
    SnapAttached(s, m, parent, child, ref);
  }

  /** Detaches the child and makes it the last child of `parent`. */
  method AppendChild(parent: Node, child: Node, ghost s: set<Node>)
    requires Neighbours(Snap(s), child) && parent in s && parent != child
    requires var l := DetachCell(Snap(s), child, parent).last; l != null ==> l in s && l != child
    modifies s`parent, s`firstChild, s`lastChild, s`prevSibling, s`nextSibling
    ensures Snap(s) == AttachCells(DetachCells(old(Snap(s)), child), parent, child, null)
  {
    ghost var m := DetachCells(Snap(s), child);
    Detach(child, s);
    assert CellOf(parent) == m[parent] == DetachCell(old(Snap(s)), child, parent);
    Attach(parent, child, s);
  }

  /** Detaches the child and puts it before a child of `parent`. */
  method InsertChild(parent: Node, child: Node, ref: Node, ghost s: set<Node>)
    requires Neighbours(Snap(s), child) && parent in s && parent != child && ref in s && ref != child
    requires var l := DetachCell(Snap(s), child, ref).prev; l != null ==> l in s && l != child
    modifies s`parent, s`firstChild, s`lastChild, s`prevSibling, s`nextSibling
    ensures Snap(s) == AttachCells(DetachCells(old(Snap(s)), child), parent, child, ref)
  {
    ghost var m := DetachCells(Snap(s), child);
    if child.parent != null {
      Detach(child, s);
    } else {
      DetachNothing(Snap(s), child);
    }
    assert CellOf(ref) == m[ref] == DetachCell(old(Snap(s)), child, ref);
    assert CellOf(child) == m[child] == DetachCell(old(Snap(s)), child, child);
    AttachBefore(parent, child, ref, s);
  }

  /** Either of the two. */
  method PlaceChild(parent: Node, child: Node, ref: Node?, ghost s: set<Node>)
    requires Neighbours(Snap(s), child) && DetachCells(Snap(s), child) == Snap(s)
    requires parent in s && parent != child && (ref != null ==> ref in s && ref != child)
    requires var l := BeforeOf(Snap(s), parent, ref); l != null ==> l in s && l != child
    modifies s`parent, s`firstChild, s`lastChild, s`prevSibling, s`nextSibling
    ensures Snap(s) == AttachCells(old(Snap(s)), parent, child, ref)
  {
    ghost var m := Snap(s);
    assert m[parent] == DetachCell(m, child, parent);
    if ref == null {
      AppendChild(parent, child, s);
    } else {
      assert m[ref] == DetachCell(m, child, ref);
      InsertChild(parent, child, ref, s);
    }
  }

  // ---- the order of nodes after an edit ----

  lemma Cut(h: Node, l: seq<Node>, a: seq<Node>, r: seq<Node>, j: nat)
    requires j <= |a|
    ensures var s, k := [h] + (l + a + r), 1 + |l| + j;
            s[..k] == [h] + (l + a[..j]) && s[k..] == a[j..] + r
  {
  }

  lemma Glue(h: Node, l: seq<Node>, x: seq<Node>, mid: seq<Node>, y: seq<Node>, r: seq<Node>)
    ensures [h] + (l + (x + mid + y) + r) == ([h] + (l + x)) + mid + (y + r)
    ensures ([h] + (l + x)) + [] == [h] + (l + x)
  {
  }

  /** Cutting `n` nodes out of the middle block. */
  lemma CutOut(h: Node, l: seq<Node>, a: seq<Node>, r: seq<Node>, j: nat, n: nat)
    requires j + n <= |a|
    ensures var s, k := [h] + (l + a + r), 1 + |l| + j;
            s[..k] + s[k + n..] == [h] + (l + (a[..j] + a[j + n..]) + r)
  {
    Cut(h, l, a, r, j);
    Cut(h, l, a, r, j + n);
    Glue(h, l, a[..j], [], a[j + n..], r);
    assert a[..j] + [] + a[j + n..] == a[..j] + a[j + n..];
  }

  lemma Opened(h: Node, a: seq<Node>, x: seq<Node>, b: seq<Node>)
    ensures var s, k := [h] + (a + b), 1 + |a|; [h] + (a + x + b) == s[..k] + x + s[k..]
  {
    var s, k := [h] + (a + b), 1 + |a|;
    assert s[..k] == [h] + a && s[k..] == b;
  }

  lemma InsertKidPre(t: Tree, at: nat, sub: Tree)
    requires at <= |t.kids|
    ensures var k := 1 + |PreAll(t.kids[..at])|;
            k <= |Pre(t)| && Pre(InsertAt(t, [], at, sub)) == Pre(t)[..k] + Pre(sub) + Pre(t)[k..]
  {
    var a, b := t.kids[..at], t.kids[at..];
    assert t.kids == a + b;
    PreAllConcat(a, b);
    PreAllConcat(a + [sub], b);
    PreAllConcat(a, [sub]);
    assert PreAll([sub]) == Pre(sub);
    Opened(t.node, PreAll(a), Pre(sub), PreAll(b));
  }

  /** Inserting puts the subtree's block of nodes into the preorder list. */
  lemma {:induction false} InsertPre(t: Tree, p: Path, at: nat, sub: Tree) returns (k: nat)
    requires ValidPlace(t, p, at)
    ensures k <= |Pre(t)| && Pre(InsertAt(t, p, at, sub)) == Pre(t)[..k] + Pre(sub) + Pre(t)[k..]
    decreases |p|
  {
    if p == [] {
      InsertKidPre(t, at, sub);
      k := 1 + |PreAll(t.kids[..at])|;
    } else {
      var i := p[0];
      var j := InsertPre(t.kids[i], p[1..], at, sub);
      KidReplaced(t, i, InsertAt(t.kids[i], p[1..], at, sub));
      var l, a, r := PreAll(t.kids[..i]), Pre(t.kids[i]), PreAll(t.kids[i + 1..]);
      Cut(t.node, l, a, r, j);
      k := 1 + |l| + j;
      Glue(t.node, l, a[..j], Pre(sub), a[j..], r);
    }
  }

  lemma KidReplaced(t: Tree, i: nat, u: Tree)
    requires i < |t.kids|
    ensures Pre(t) == [t.node] + (PreAll(t.kids[..i]) + Pre(t.kids[i]) + PreAll(t.kids[i + 1..]))
    ensures Pre(Tree(t.node, t.kids[i := u]))
         == [t.node] + (PreAll(t.kids[..i]) + Pre(u) + PreAll(t.kids[i + 1..]))
  {
    var ks := t.kids[i := u];
    PreSplit(t.kids, i);
    PreSplit(ks, i);
    assert ks[..i] == t.kids[..i] && ks[i + 1..] == t.kids[i + 1..];
  }

  lemma KidDropped(t: Tree, i: nat)
    requires i < |t.kids|
    ensures Pre(Tree(t.node, t.kids[..i] + t.kids[i + 1..]))
         == [t.node] + (PreAll(t.kids[..i]) + [] + PreAll(t.kids[i + 1..]))
  {
    PreAllConcat(t.kids[..i], t.kids[i + 1..]);
    assert PreAll(t.kids[..i]) + [] == PreAll(t.kids[..i]);
  }

  lemma DropKid(t: Tree, i: nat)
    requires i < |t.kids|
    ensures var k, n := 1 + |PreAll(t.kids[..i])|, |Pre(t.kids[i])|;
            k + n <= |Pre(t)| && Pre(Tree(t.node, t.kids[..i] + t.kids[i + 1..])) == Pre(t)[..k] + Pre(t)[k + n..]
  {
    var l, a, r := PreAll(t.kids[..i]), Pre(t.kids[i]), PreAll(t.kids[i + 1..]);
    KidReplaced(t, i, t);
    KidDropped(t, i);
    CutOut(t.node, l, a, r, 0, |a|);
    assert a[..0] + a[|a|..] == [];
  }

  lemma ShrinkKid(t: Tree, i: nat, u: Tree, j: nat, n: nat)
    requires i < |t.kids| && j + n <= |Pre(t.kids[i])|
    requires Pre(u) == Pre(t.kids[i])[..j] + Pre(t.kids[i])[j + n..]
    ensures var k := 1 + |PreAll(t.kids[..i])| + j;
            k + n <= |Pre(t)| && Pre(Tree(t.node, t.kids[i := u])) == Pre(t)[..k] + Pre(t)[k + n..]
  {
    KidReplaced(t, i, u);
    CutOut(t.node, PreAll(t.kids[..i]), Pre(t.kids[i]), PreAll(t.kids[i + 1..]), j, n);
  }

  /** Removing cuts the subtree's block of nodes out of the preorder list. */
  lemma {:induction false} RemovePre(t: Tree, p: Path)
    requires ValidPath(t, p) && p != []
    ensures Pos(t, p) + |Pre(At(t, p))| <= |Pre(t)|
    ensures Pre(RemoveAt(t, p)) == Pre(t)[..Pos(t, p)] + Pre(t)[Pos(t, p) + |Pre(At(t, p))|..]
    decreases |p|
  {
    var i, q := p[0], p[1..];
    if |p| == 1 {
      assert q == [] && Pos(t, p) == 1 + |PreAll(t.kids[..i])|;
      DropKid(t, i);
    } else {
      RemovePre(t.kids[i], q);
      ShrinkKid(t, i, RemoveAt(t.kids[i], q), Pos(t.kids[i], q), |Pre(At(t.kids[i], q))|);
    }
  }

  // ---- the links after an edit ----

  lemma KidPath(t: Tree, i: nat, n: Node) returns (p: Path)
    requires i < |t.kids| && n in Pre(t.kids[i])
    ensures p != [] && p[0] == i && ValidPath(t, p) && At(t, p).node == n
  {
    var q := PathTo(t.kids[i], n);
    p := [i] + q;
    assert p[1..] == q;
  }

  lemma KidDisjoint(t: Tree, i: nat, j: nat, n: Node)
    requires Distinct(Pre(t)) && i < |t.kids| && j < |t.kids| && i != j
    requires n in Pre(t.kids[i])
    ensures n !in Pre(t.kids[j])
  {
    if n in Pre(t.kids[j]) {
      var p := KidPath(t, i, n);
      var q := KidPath(t, j, n);
      PathUnique(t, p, q);
    }
  }

  lemma DistinctKid(t: Tree, i: nat)
    requires Distinct(Pre(t)) && i < |t.kids|
    ensures Distinct(Pre(t.kids[i])) && t.node !in Pre(t.kids[i])
  {
    PreSplit(t.kids, i);
    var l, x := PreAll(t.kids[..i]), Pre(t.kids[i]);
    assert Pre(t) == [t.node] + (l + x + PreAll(t.kids[i + 1..]));
    assert forall k :: 0 <= k < |x| ==> Pre(t)[1 + |l| + k] == x[k];
  }

  lemma {:induction false} DistinctSub(t: Tree, p: Path)
    requires Distinct(Pre(t)) && ValidPath(t, p)
    ensures Distinct(Pre(At(t, p)))
    decreases |p|
  {
    if p != [] {
      DistinctKid(t, p[0]);
      DistinctSub(t.kids[p[0]], p[1..]);
    }
  }

  lemma SubPre(t: Tree, p: Path, n: Node)
    requires ValidPath(t, p) && n in Pre(At(t, p))
    ensures n in Pre(t)
  {
    PosBlock(t, p);
    var k :| 0 <= k < |Pre(At(t, p))| && Pre(At(t, p))[k] == n;
    assert Pre(t)[Pos(t, p)..Pos(t, p) + |Pre(At(t, p))|][k] == n;
  }

  lemma KidIn(t: Tree, i: nat, n: Node)
    requires i < |t.kids| && n in Pre(t.kids[i])
    ensures n in Pre(t)
  {
    var p := [i];
    assert p[1..] == [] && At(t, p) == t.kids[i];
    SubPre(t, p, n);
  }

  /** The nodes whose cells detaching `x` can change. */
  ghost predicate Touched(m: Cells, x: Node, n: Node)
    requires x in m
  {
    n == x || n == m[x].parent || n == m[x].prev || n == m[x].next
  }

  lemma TouchedInside(t: Tree, m: Cells, p: Path, n: Node)
    requires LinkedSelf(t, m) && ValidPath(t, p) && p != []
    requires At(t, p).node in m && Touched(m, At(t, p).node, n)
    ensures n in Pre(t)
  {
    LinkedAt(t, m, p);
    var front, i: int := p[..|p| - 1], p[|p| - 1];
    var q := At(t, front);
    assert n == q.node || n == NodeAt(q.kids, i) || n == NodeAt(q.kids, i - 1) || n == NodeAt(q.kids, i + 1);
    if n != q.node {
      var j: nat :| j < |q.kids| && n == q.kids[j].node;
      KidIn(q, j, n);
    }
    SubPre(t, front, n);
  }

  /** The removed subtree comes off whole, and parentless. */
  lemma DetachedLinked(t: Tree, m: Cells, p: Path)
    requires LinkedSelf(t, m) && Distinct(Pre(t)) && ValidPath(t, p) && p != []
    requires At(t, p).node in m
    ensures Linked(At(t, p), DetachCells(m, At(t, p).node), null, null, null)
  {
    LinkedAt(t, m, p);
    var i: int := p[|p| - 1];
    var q := At(t, p[..|p| - 1]);
    var u := q.kids[i];
    var m' := DetachCells(m, u.node);
    DistinctSub(t, p[..|p| - 1]);
    DistinctKid(q, i);
    forall n | n in PreAll(u.kids) && n in m
      ensures n in m' && m'[n] == m[n]
    {
      assert n in Pre(u);
      OffTheEdge(q, i, n, m);
      RootApart(u, n);
      assert m'[n] == DetachCell(m, u.node, n);
    }
    LinkedReroot(u, m, m', q.node, NodeAt(q.kids, i - 1), NodeAt(q.kids, i + 1), null, null, null);
  }

  /** Nodes of a child's subtree differ from the parent and from the neighbouring children. */
  lemma OffTheEdge(q: Tree, i: nat, n: Node, m: Cells)
    requires Distinct(Pre(q)) && i < |q.kids| && n in Pre(q.kids[i])
    ensures n != q.node
    ensures forall j :: 0 <= j < |q.kids| && j != i ==> n != NodeAt(q.kids, j)
    ensures n != NodeAt(q.kids, i - 1) && n != NodeAt(q.kids, i + 1)
  {
    DistinctKid(q, i);
    forall j | 0 <= j < |q.kids| && j != i
      ensures n != NodeAt(q.kids, j)
    {
      KidDisjoint(q, i, j, n);
    }
  }

  /** What a child's cell says of its parent and neighbours. */
  lemma KidCell(t: Tree, m: Cells, i: int)
    requires LinkedSelf(t, m) && 0 <= i < |t.kids|
    ensures Linked(t.kids[i], m, t.node, NodeAt(t.kids, i - 1), NodeAt(t.kids, i + 1))
    ensures t.kids[i].node in m
    ensures var c := m[t.kids[i].node];
            c.parent == t.node && c.prev == NodeAt(t.kids, i - 1) && c.next == NodeAt(t.kids, i + 1)
  {
    assert LinkedKid(t, i, m);
    var u := t.kids[i];
    assert Linked(u, m, t.node, NodeAt(t.kids, i - 1), NodeAt(t.kids, i + 1));
  }

  lemma RootApart(u: Tree, n: Node)
    requires Distinct(Pre(u)) && n in PreAll(u.kids)
    ensures n != u.node
  {
    var k :| 0 <= k < |PreAll(u.kids)| && PreAll(u.kids)[k] == n;
    assert Pre(u)[0] == u.node && Pre(u)[k + 1] == n;
  }

  /** Detaching child `i` leaves another child's subtree in place, but for its sibling links. */
  lemma SiblingKept(t: Tree, m: Cells, i: nat, j: nat, prev: Node?, next: Node?)
    requires LinkedSelf(t, m) && Distinct(Pre(t)) && i < |t.kids| && j < |t.kids| && i != j
    requires t.kids[i].node in m
    requires prev == NodeAt(t.kids, if j == i + 1 then j - 2 else j - 1)
    requires next == NodeAt(t.kids, if j + 1 == i then j + 2 else j + 1)
    ensures Linked(t.kids[j], DetachCells(m, t.kids[i].node), t.node, prev, next)
  {
    var u, x := t.kids[j], t.kids[i].node;
    var m' := DetachCells(m, x);
    KidCell(t, m, i);
    KidCell(t, m, j);
    DistinctKid(t, j);
    forall n | n in PreAll(u.kids) && n in m
      ensures n in m' && m'[n] == m[n]
    {
      RootApart(u, n);
      OffTheEdge(t, j, n, m);
      KidRootApart(t, i, j, n);
      assert m'[n] == DetachCell(m, x, n);
    }
    OffTheEdge(t, j, u.node, m);
    assert m'[u.node] == DetachCell(m, x, u.node);
    assert x == NodeAt(t.kids, i);
    LinkedReroot(u, m, m', t.node, NodeAt(t.kids, j - 1), NodeAt(t.kids, j + 1), t.node, prev, next);
  }

  /** A node strictly inside child `j` is none of the nodes around child `i`. */
  lemma KidRootApart(t: Tree, i: nat, j: nat, n: Node)
    requires Distinct(Pre(t)) && i < |t.kids| && j < |t.kids|
    requires n in PreAll(t.kids[j].kids)
    ensures n != t.node && n != t.kids[i].node && n != NodeAt(t.kids, i - 1) && n != NodeAt(t.kids, i + 1)
  {
    DistinctKid(t, j);
    RootApart(t.kids[j], n);
    forall k | 0 <= k < |t.kids|
      ensures n != t.kids[k].node
    {
      if k != j {
        KidDisjoint(t, j, k, n);
      }
    }
  }

  /** Taking out a child leaves its siblings linked to each other. */
  lemma DetachSiblings(t: Tree, m: Cells, parent: Node?, prev: Node?, next: Node?, i: nat)
    requires Linked(t, m, parent, prev, next) && Distinct(Pre(t)) && i < |t.kids|
    requires t.kids[i].node in m
    ensures Linked(Tree(t.node, t.kids[..i] + t.kids[i + 1..]), DetachCells(m, t.kids[i].node), parent, prev, next)
  {
    var x := t.kids[i].node;
    var m' := DetachCells(m, x);
    var t' := Tree(t.node, t.kids[..i] + t.kids[i + 1..]);
    KidCell(t, m, i);
    forall k | 0 <= k < |t'.kids|
      ensures LinkedKid(t', k, m')
    {
      var j := if k < i then k else k + 1;
      assert t'.kids[k] == t.kids[j];
      SiblingKept(t, m, i, j, NodeAt(t'.kids, k - 1), NodeAt(t'.kids, k + 1));
    }
    DistinctKid(t, i);
    forall k | 0 <= k < |t.kids|
      ensures t.kids[k].node != t.node
    {
      DistinctKid(t, k);
    }
    var c, d := m'[t.node], m[x];
    assert c == DetachCell(m, x, t.node);
    assert t.node != x && t.node != d.next && t.node != d.prev;
    assert c.parent == parent && c.prev == prev && c.next == next;
    assert c.first == NodeAt(t'.kids, 0);
    assert c.last == NodeAt(t'.kids, |t'.kids| - 1);
    assert t'.node in m';
    assert forall k :: 0 <= k < |t'.kids| ==> LinkedKid(t', k, m');
    assert Linked(t', m', parent, prev, next);
  }

  /** Detaching the node at a path leaves the rest of the tree linked as the tree without it. */
  lemma {:induction false} DetachLinked(t: Tree, m: Cells, parent: Node?, prev: Node?, next: Node?, p: Path)
    requires Linked(t, m, parent, prev, next) && Distinct(Pre(t)) && ValidPath(t, p) && p != []
    requires At(t, p).node in m
    ensures Linked(RemoveAt(t, p), DetachCells(m, At(t, p).node), parent, prev, next)
    decreases |p|
  {
    var i := p[0];
    if |p| == 1 {
      assert p[1..] == [];
      DetachSiblings(t, m, parent, prev, next, i);
    } else {
      var k, x := t.kids[i], At(t, p).node;
      var m' := DetachCells(m, x);
      var t' := RemoveAt(t, p);
      KidCell(t, m, i);
      DistinctKid(t, i);
      DetachLinked(k, m, t.node, NodeAt(t.kids, i as int - 1), NodeAt(t.kids, i + 1), p[1..]);
      forall n | n in m && n !in Pre(k)
        ensures n in m' && m'[n] == m[n]
      {
        if Touched(m, x, n) {
          TouchedInside(k, m, p[1..], n);
        }
        assert m'[n] == DetachCell(m, x, n);
      }
      forall j, n | 0 <= j < |t.kids| && j != i && n in Pre(t.kids[j])
        ensures n !in Pre(k)
      {
        KidDisjoint(t, j, i, n);
      }
      KeepOthers(t, m, m', i, RemoveAt(k, p[1..]), parent, prev, next);
    }
  }

  /** Replacing one linked child by another with the same root, the rest unchanged. */
  lemma KeepOthers(t: Tree, m: Cells, m': Cells, i: nat, u: Tree, parent: Node?, prev: Node?, next: Node?)
    requires Linked(t, m, parent, prev, next) && Distinct(Pre(t)) && i < |t.kids|
    requires u.node == t.kids[i].node
    requires Linked(u, m', t.node, NodeAt(t.kids, i as int - 1), NodeAt(t.kids, i + 1))
    requires t.node in m' && m'[t.node] == m[t.node]
    requires forall j, n :: 0 <= j < |t.kids| && j != i && n in Pre(t.kids[j]) && n in m ==> n in m' && m'[n] == m[n]
    ensures Linked(Tree(t.node, t.kids[i := u]), m', parent, prev, next)
  {
    var t' := Tree(t.node, t.kids[i := u]);
    forall j | 0 <= j < |t'.kids|
      ensures LinkedKid(t', j, m')
    {
      assert NodeAt(t'.kids, j - 1) == NodeAt(t.kids, j - 1) && NodeAt(t'.kids, j + 1) == NodeAt(t.kids, j + 1);
      if j != i {
        KidCell(t, m, j);
        LinkedFrame(t.kids[j], m, m', t.node, NodeAt(t.kids, j - 1), NodeAt(t.kids, j + 1));
      }
    }
    assert NodeAt(t'.kids, 0) == NodeAt(t.kids, 0);
    assert NodeAt(t'.kids, |t.kids| - 1) == NodeAt(t.kids, |t.kids| - 1);
    assert Linked(t', m', parent, prev, next);
  }

  ghost predicate Apart(t: Tree, sub: Tree)
  {
    Distinct(Pre(t)) && Distinct(Pre(sub)) && forall n :: n in Pre(sub) ==> n !in Pre(t)
  }

  /** The children around a place, and what the cells say of them. */
  lemma PlaceCells(q: Tree, m: Cells, at: nat)
    requires LinkedSelf(q, m) && at <= |q.kids| && q.node in m
    ensures var l, r := NodeAt(q.kids, at as int - 1), NodeAt(q.kids, at);
            && (r != null ==> r in m && r in Pre(q)) && (l != null ==> l in m && l in Pre(q))
            && BeforeOf(m, q.node, r) == l
  {
    if at > 0 {
      KidCell(q, m, at - 1);
      KidIn(q, at - 1, q.kids[at - 1].node);
    }
    if at < |q.kids| {
      KidCell(q, m, at);
      KidIn(q, at, q.kids[at].node);
    }
  }

  /** A node strictly inside child `j` is neither the parent nor a child. */
  lemma InsideKid(t: Tree, j: nat, n: Node)
    requires Distinct(Pre(t)) && j < |t.kids| && n in PreAll(t.kids[j].kids)
    ensures n != t.node && forall i :: n != NodeAt(t.kids, i)
  {
    forall i | 0 <= i < |t.kids| ensures n != t.kids[i].node { KidRootApart(t, i, j, n); }
    KidRootApart(t, j, j, n);
  }

  /** Inserting at the root's place `at` leaves child `j` in place, but for its sibling links. */
  lemma KeptByInsert(t: Tree, m: Cells, at: nat, j: nat, sub: Tree)
    requires LinkedSelf(t, m) && Apart(t, sub) && sub.node in m && t.node in m && j < |t.kids| && at <= |t.kids|
    requires NodeAt(t.kids, at) != null ==> NodeAt(t.kids, at) in m
    ensures Linked(t.kids[j], AttachCells(m, t.node, sub.node, NodeAt(t.kids, at)), t.node,
                   if j == at then sub.node else NodeAt(t.kids, j as int - 1),
                   if j + 1 == at then sub.node else NodeAt(t.kids, j + 1))
  {
    var u, x, r := t.kids[j], sub.node, NodeAt(t.kids, at);
    var m' := AttachCells(m, t.node, x, r);
    PlaceCells(t, m, at);
    KidCell(t, m, j);
    DistinctKid(t, j);
    assert x in Pre(sub);
    forall n | n in PreAll(u.kids) && n in m
      ensures n in m' && m'[n] == m[n]
    {
      InsideKid(t, j, n);
      KidIn(t, j, n);
      assert m'[n] == AttachCell(m, t.node, x, r, n);
    }
    KidIn(t, j, u.node);
    OffTheEdge(t, j, u.node, m);
    assert u.node == r <==> j == at;
    assert u.node == NodeAt(t.kids, at as int - 1) <==> j + 1 == at;
    assert m'[u.node] == AttachCell(m, t.node, x, r, u.node);
    LinkedReroot(u, m, m', t.node, NodeAt(t.kids, j as int - 1), NodeAt(t.kids, j + 1), t.node,
                 if j == at then x else NodeAt(t.kids, j as int - 1), if j + 1 == at then x else NodeAt(t.kids, j + 1));
  }

  /** The inserted tree hangs at its place. */
  lemma InsertedLinked(t: Tree, m: Cells, at: nat, sub: Tree)
    requires LinkedSelf(t, m) && Linked(sub, m, null, null, null) && Apart(t, sub) && t.node in m && at <= |t.kids|
    requires NodeAt(t.kids, at) != null ==> NodeAt(t.kids, at) in m
    ensures Linked(sub, AttachCells(m, t.node, sub.node, NodeAt(t.kids, at)), t.node,
                   NodeAt(t.kids, at as int - 1), NodeAt(t.kids, at))
  {
    var x, r := sub.node, NodeAt(t.kids, at);
    var m' := AttachCells(m, t.node, x, r);
    PlaceCells(t, m, at);
    assert x in Pre(sub) && t.node in Pre(t);
    forall n | n in PreAll(sub.kids) && n in m
      ensures n in m' && m'[n] == m[n]
    {
      RootApart(sub, n);
      assert n in Pre(sub);
      assert m'[n] == AttachCell(m, t.node, x, r, n);
    }
    assert m'[x] == AttachCell(m, t.node, x, r, x);
    LinkedReroot(sub, m, m', null, null, null, t.node, NodeAt(t.kids, at as int - 1), r);
  }

  /** Inserting below the root itself. */
  lemma InsertKid(t: Tree, m: Cells, parent: Node?, prev: Node?, next: Node?, at: nat, sub: Tree)
    requires Linked(t, m, parent, prev, next) && Linked(sub, m, null, null, null) && Apart(t, sub) && at <= |t.kids|
    requires NodeAt(t.kids, at) != null ==> NodeAt(t.kids, at) in m
    ensures Linked(InsertAt(t, [], at, sub), AttachCells(m, t.node, sub.node, NodeAt(t.kids, at)), parent, prev, next)
  {
    var x, r := sub.node, NodeAt(t.kids, at);
    var m' := AttachCells(m, t.node, x, r);
    var t' := InsertAt(t, [], at, sub);
    assert x in Pre(sub) && t.node in Pre(t);
    forall j | 0 <= j < |t'.kids|
      ensures LinkedKid(t', j, m')
    {
      if j < at {
        KeptByInsert(t, m, at, j, sub);
      } else if j == at {
        InsertedLinked(t, m, at, sub);
      } else {
        KeptByInsert(t, m, at, j - 1, sub);
      }
    }
    InsertedRoot(t, m, at, sub);
    assert Linked(t', m', parent, prev, next);
  }

  /** The cell of the parent after an insertion. */
  lemma InsertedRoot(t: Tree, m: Cells, at: nat, sub: Tree)
    requires LinkedSelf(t, m) && t.node in m && Apart(t, sub) && sub.node in m && at <= |t.kids|
    requires NodeAt(t.kids, at) != null ==> NodeAt(t.kids, at) in m
    ensures var c, t' := AttachCells(m, t.node, sub.node, NodeAt(t.kids, at))[t.node], InsertAt(t, [], at, sub);
            c == m[t.node].(first := NodeAt(t'.kids, 0), last := NodeAt(t'.kids, |t'.kids| - 1))
  {
    PlaceCells(t, m, at);
    assert sub.node in Pre(sub) && t.node in Pre(t);
    forall j | 0 <= j < |t.kids| ensures t.node != t.kids[j].node { DistinctKid(t, j); }
    assert AttachCells(m, t.node, sub.node, NodeAt(t.kids, at))[t.node] ==
        AttachCell(m, t.node, sub.node, NodeAt(t.kids, at), t.node);
  }

  /** Inserting a detached tree at any place. */
  lemma {:induction false} AttachLinked(t: Tree, m: Cells, parent: Node?, prev: Node?, next: Node?, p: Path, at: nat,
                                        sub: Tree)
    requires Linked(t, m, parent, prev, next) && Linked(sub, m, null, null, null) && Apart(t, sub)
    requires ValidPlace(t, p, at) && At(t, p).node in m
    ensures var q := At(t, p);
            && (NodeAt(q.kids, at) != null ==> NodeAt(q.kids, at) in m)
            && Linked(InsertAt(t, p, at, sub), AttachCells(m, q.node, sub.node, NodeAt(q.kids, at)), parent, prev, next)
    decreases |p|
  {
    if p == [] {
      PlaceCells(t, m, at);
      InsertKid(t, m, parent, prev, next, at, sub);
    } else {
      var i := p[0];
      var k, q := t.kids[i], At(t, p);
      var r := NodeAt(q.kids, at);
      KidCell(t, m, i);
      DistinctKid(t, i);
      forall n | n in Pre(k) ensures n in Pre(t) { KidIn(t, i, n); }
      AttachLinked(k, m, t.node, NodeAt(t.kids, i as int - 1), NodeAt(t.kids, i + 1), p[1..], at, sub);
      var m' := AttachCells(m, q.node, sub.node, r);
      forall n | n in m && n !in Pre(k) && n !in Pre(sub)
        ensures n in m' && m'[n] == m[n]
      {
        InsertOutside(k, m, p[1..], at, sub, n);
      }
      forall j, n | 0 <= j < |t.kids| && j != i && n in Pre(t.kids[j])
        ensures n !in Pre(k) && n !in Pre(sub)
      {
        KidDisjoint(t, j, i, n);
        KidIn(t, j, n);
      }
      assert t.node in Pre(t);
      KeepOthers(t, m, m', i, InsertAt(k, p[1..], at, sub), parent, prev, next);
    }
  }

  /** An insertion somewhere in a tree changes no cell outside it. */
  lemma InsertOutside(k: Tree, m: Cells, p: Path, at: nat, sub: Tree, n: Node)
    requires LinkedSelf(k, m) && ValidPlace(k, p, at) && At(k, p).node in m && sub.node in m
    requires n in m && n !in Pre(k) && n !in Pre(sub)
    requires NodeAt(At(k, p).kids, at) != null ==> NodeAt(At(k, p).kids, at) in m
    ensures var q := At(k, p); AttachCells(m, q.node, sub.node, NodeAt(q.kids, at))[n] == m[n]
  {
    var q := At(k, p);
    var r := NodeAt(q.kids, at);
    LinkedDown(k, m, p);
    PlaceCells(q, m, at);
    SubPre(k, p, q.node);
    if r != null { SubPre(k, p, r); }
    if BeforeOf(m, q.node, r) != null { SubPre(k, p, BeforeOf(m, q.node, r)); }
    assert sub.node in Pre(sub);
    assert AttachCells(m, q.node, sub.node, r)[n] == AttachCell(m, q.node, sub.node, r, n);
  }
}
