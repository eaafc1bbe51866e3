/** Lists of nodes kept in tree order. */
module DomLists {
  import opened DomTree
  import opened DomEdit
  import opened DomOrder

  /** The members of `sel`, in the order of `s`. */
  ghost function Select(s: seq<Node>, sel: set<Node>): seq<Node>
  {
    if s == [] then [] else (if s[0] in sel then [s[0]] else []) + Select(s[1..], sel)
  }

  /** `a` lists members of `s` in the order of `s`, none twice. */
  ghost predicate InOrder(s: seq<Node>, a: seq<Node>)
  {
    && (forall i :: 0 <= i < |a| ==> a[i] in s)
    && (forall i, j :: 0 <= i < j < |a| ==> Idx(s, a[i]) < Idx(s, a[j]))
  }

  lemma {:induction false} SelectConcat(a: seq<Node>, b: seq<Node>, sel: set<Node>)
    ensures Select(a + b, sel) == Select(a, sel) + Select(b, sel)
  {
    if a == [] {
      assert a + b == b;
    } else {
      SelectConcat(a[1..], b, sel);
      ConcatFirst(a, b);
      SelectFirst(a + b, sel);
      SelectFirst(a, sel);
      Regrouped(if a[0] in sel then [a[0]] else [], Select(a[1..], sel), Select(b, sel));
    }
  }

  lemma ConcatFirst(a: seq<Node>, b: seq<Node>)
    requires a != []
    ensures (a + b)[0] == a[0] && (a + b)[1..] == a[1..] + b
  {
  }

  lemma SelectFirst(s: seq<Node>, sel: set<Node>)
    requires s != []
    ensures Select(s, sel) == (if s[0] in sel then [s[0]] else []) + Select(s[1..], sel)
  {
  }

  lemma Regrouped(a: seq<Node>, b: seq<Node>, c: seq<Node>)
    ensures a + (b + c) == (a + b) + c
  {
  }

  lemma {:induction false} SelectMembers(s: seq<Node>, sel: set<Node>, n: Node)
    ensures n in Select(s, sel) <==> n in s && n in sel
  {
    if s != [] {
      SelectMembers(s[1..], sel, n);
    }
  }

  lemma {:induction false} SelectCong(s: seq<Node>, p: set<Node>, q: set<Node>)
    requires forall n :: n in s ==> (n in p <==> n in q)
    ensures Select(s, p) == Select(s, q)
  {
    if s != [] {
      SelectCong(s[1..], p, q);
    }
  }

  lemma {:induction false} SelectNone(s: seq<Node>, sel: set<Node>)
    requires forall n :: n in s ==> n !in sel
    ensures Select(s, sel) == []
  {
    if s != [] {
      SelectNone(s[1..], sel);
    }
  }

  lemma {:induction false} SelectInOrder(s: seq<Node>, sel: set<Node>)
    requires Distinct(s)
    ensures InOrder(s, Select(s, sel))
  {
    if s != [] {
      var rest := Select(s[1..], sel);
      SelectInOrder(s[1..], sel);
      forall i | 0 <= i < |rest|
        ensures rest[i] in s[1..] && rest[i] != s[0] && Idx(s, rest[i]) == 1 + Idx(s[1..], rest[i])
      {
      }
      InOrderCons(s, rest);
    }
  }

  lemma InOrderCons(s: seq<Node>, rest: seq<Node>)
    requires s != [] && InOrder(s[1..], rest)
    requires forall i :: 0 <= i < |rest| ==> rest[i] != s[0]
    ensures InOrder(s, rest) && InOrder(s, [s[0]] + rest)
  {
    assert forall i :: 0 <= i < |rest| ==> Idx(s, rest[i]) == 1 + Idx(s[1..], rest[i]);
  }

  lemma LaterIsPositive(s: seq<Node>, a: seq<Node>, k: nat)
    requires InOrder(s, a) && k < |a|
    ensures k > 0 ==> Idx(s, a[k]) > 0
  {
    if k > 0 {
      assert Idx(s, a[0]) < Idx(s, a[k]);
    }
  }

  lemma HasMembers(s: seq<Node>, a: seq<Node>)
    requires InOrder(s, a)
    ensures a != [] ==> s != []
  {
    if a != [] {
      assert a[0] in s;
    }
  }

  /** The positions of the listed nodes. */
  lemma Positions(s: seq<Node>, a: seq<Node>) returns (f: seq<nat>)
    requires InOrder(s, a)
    ensures |f| == |a| && forall i :: 0 <= i < |a| ==> a[i] in s && f[i] == Idx(s, a[i])
    ensures forall i, j :: 0 <= i < j < |f| ==> f[i] < f[j]
  {
    f := seq(|a|, i requires 0 <= i < |a| => Idx(s, a[i]));
  }

  /** A list in order is determined by its members. */
  lemma {:induction false} InOrderIsSelect(s: seq<Node>, a: seq<Node>, sel: set<Node>)
    requires Distinct(s) && InOrder(s, a)
    requires forall n :: n in s ==> (n in a <==> n in sel)
    ensures a == Select(s, sel)
  {
    if s == [] {
      HasMembers(s, a);
    } else if s[0] in sel {
      FirstListed(s, a, sel);
      InOrderIsSelect(s[1..], a[1..], sel);
      assert a == [s[0]] + a[1..];
    } else {
      FirstNotListed(s, a, sel);
      InOrderIsSelect(s[1..], a, sel);
    }
  }

  /** When the first is listed, it comes first and the rest lists the rest. */
  lemma FirstListed(s: seq<Node>, a: seq<Node>, sel: set<Node>)
    requires s != [] && Distinct(s) && InOrder(s, a) && s[0] in sel
    requires forall n :: n in s ==> (n in a <==> n in sel)
    ensures a != [] && a[0] == s[0] && InOrder(s[1..], a[1..])
    ensures forall n :: n in s[1..] ==> (n in a[1..] <==> n in sel)
  {
    var h := s[0];
    var k :| 0 <= k < |a| && a[k] == h;
    LaterIsPositive(s, a, k);
    var rest := a[1..];
    forall i | 0 <= i < |rest|
      ensures rest[i] in s[1..] && Idx(s, rest[i]) == 1 + Idx(s[1..], rest[i])
    {
      assert Idx(s, a[0]) < Idx(s, a[i + 1]);
    }
    OrderTail(s, a, rest, 1);
    forall n | n in s[1..]
      ensures n in rest <==> n in sel
    {
      var j :| 0 <= j < |s[1..]| && s[1..][j] == n;
      assert s[j + 1] == n && n != h;
      assert n in a <==> n in rest;
    }
  }

  lemma FirstNotListed(s: seq<Node>, a: seq<Node>, sel: set<Node>)
    requires s != [] && Distinct(s) && InOrder(s, a) && s[0] !in sel
    requires forall n :: n in s ==> (n in a <==> n in sel)
    ensures InOrder(s[1..], a)
  {
    forall i | 0 <= i < |a|
      ensures a[i] in s[1..] && Idx(s, a[i]) == 1 + Idx(s[1..], a[i])
    {
      assert a[i] in a;
    }
    OrderTail(s, a, a, 0);
  }

  lemma OrderTail(s: seq<Node>, a: seq<Node>, rest: seq<Node>, k: nat)
    requires s != [] && InOrder(s, a) && k <= |a| && rest == a[k..]
    requires forall i :: 0 <= i < |rest| ==> rest[i] in s[1..] && Idx(s, rest[i]) == 1 + Idx(s[1..], rest[i])
    ensures InOrder(s[1..], rest)
  {
    forall i, j | 0 <= i < j < |rest|
      ensures Idx(s[1..], rest[i]) < Idx(s[1..], rest[j])
    {
      assert Idx(s, a[k + i]) < Idx(s, a[k + j]);
    }
  }

  /** A member put between its predecessors and its successors. */
  lemma InsertInOrder(s: seq<Node>, sel: set<Node>, lo: nat, n: Node)
    requires Distinct(s) && n in s && lo <= |Select(s, sel)|
    requires var a := Select(s, sel);
             && (forall i :: 0 <= i < lo ==> a[i] in s && Idx(s, a[i]) < Idx(s, n))
             && (forall i :: lo <= i < |a| ==> a[i] in s && Idx(s, n) < Idx(s, a[i]))
    ensures Select(s, sel)[..lo] + [n] + Select(s, sel)[lo..] == Select(s, sel + {n})
  {
    var a := Select(s, sel);
    var b := a[..lo] + [n] + a[lo..];
    SelectInOrder(s, sel);
    SplicedInOrder(s, a, lo, n);
    forall x | x in s
      ensures x in b <==> x in sel + {n}
    {
      SelectMembers(s, sel, x);
      SplicedMembers(a, lo, n, x);
    }
    InOrderIsSelect(s, b, sel + {n});
  }

  lemma SplicedMembers(a: seq<Node>, lo: nat, n: Node, x: Node)
    requires lo <= |a|
    ensures x in a[..lo] + [n] + a[lo..] <==> x == n || x in a
  {
    assert a == a[..lo] + a[lo..];
  }

  lemma SplicedInOrder(s: seq<Node>, a: seq<Node>, lo: nat, n: Node)
    requires InOrder(s, a) && n in s && lo <= |a|
    requires forall i :: 0 <= i < lo ==> Idx(s, a[i]) < Idx(s, n)
    requires forall i :: lo <= i < |a| ==> Idx(s, n) < Idx(s, a[i])
    ensures InOrder(s, a[..lo] + [n] + a[lo..])
  {
    var f := Positions(s, a);
    SplicedSorted(f, lo, Idx(s, n));
    SplicedPositions(s, a, f, lo, n);
    SortedInOrder(s, a[..lo] + [n] + a[lo..], f[..lo] + [Idx(s, n)] + f[lo..]);
  }

  lemma SplicedPositions(s: seq<Node>, a: seq<Node>, f: seq<nat>, lo: nat, n: Node)
    requires n in s && |f| == |a| && lo <= |a| && forall i :: 0 <= i < |a| ==> a[i] in s && f[i] == Idx(s, a[i])
    ensures var b, g := a[..lo] + [n] + a[lo..], f[..lo] + [Idx(s, n)] + f[lo..];
            forall i :: 0 <= i < |b| ==> b[i] in s && g[i] == Idx(s, b[i])
  {
    var b, g := a[..lo] + [n] + a[lo..], f[..lo] + [Idx(s, n)] + f[lo..];
    forall i | 0 <= i < |b|
      ensures b[i] in s && g[i] == Idx(s, b[i])
    {
      if i > lo {
        assert b[i] == a[i - 1] && g[i] == f[i - 1];
      }
    }
  }

  lemma SortedInOrder(s: seq<Node>, b: seq<Node>, g: seq<nat>)
    requires |g| == |b| && forall i :: 0 <= i < |b| ==> b[i] in s && g[i] == Idx(s, b[i])
    requires forall i, j :: 0 <= i < j < |g| ==> g[i] < g[j]
    ensures InOrder(s, b)
  {
  }

  lemma SplicedSorted(f: seq<nat>, lo: nat, k: nat)
    requires lo <= |f| && forall i, j :: 0 <= i < j < |f| ==> f[i] < f[j]
    requires (forall i :: 0 <= i < lo ==> f[i] < k) && (forall i :: lo <= i < |f| ==> k < f[i])
    ensures var g := f[..lo] + [k] + f[lo..];
            forall i, j :: 0 <= i < j < |g| ==> g[i] < g[j]
  {
  }

  lemma IdxInjective(s: seq<Node>, a: Node, b: Node)
    requires a in s && b in s && Idx(s, a) == Idx(s, b)
    ensures a == b
  {
    assert s[Idx(s, a)] == s[Idx(s, b)];
  }

  /** A member after all the listed ones goes to the end. */
  lemma AppendInOrder(s: seq<Node>, sel: set<Node>, n: Node)
    requires Distinct(s) && n in s
    requires var a := Select(s, sel);
             |a| == 0 || (a[|a| - 1] in s && Idx(s, a[|a| - 1]) < Idx(s, n))
    ensures Select(s, sel) + [n] == Select(s, sel + {n})
  {
    var a := Select(s, sel);
    SelectInOrder(s, sel);
    forall i | 0 <= i < |a|
      ensures a[i] in s && Idx(s, a[i]) < Idx(s, n)
    {
      assert i < |a| - 1 ==> Idx(s, a[i]) < Idx(s, a[|a| - 1]);
    }
    InsertInOrder(s, sel, |a|, n);
    assert a[..|a|] + [n] + a[|a|..] == a + [n];
  }

  /** A member already listed. */
  lemma AlreadyListed(s: seq<Node>, sel: set<Node>, k: nat)
    requires k < |Select(s, sel)|
    ensures Select(s, sel + {Select(s, sel)[k]}) == Select(s, sel)
    ensures Select(s, sel)[k] in s && Select(s, sel)[k] in sel
  {
    SelectMembers(s, sel, Select(s, sel)[k]);
    assert sel + {Select(s, sel)[k]} == sel;
  }

  /** Inserts a node where document order puts it; a node already listed is not added again.
      While an index is being built, nodes come in document order and go to the end. */
  method OrderedInsert(arr: seq<Node>, node: Node, building: bool, ghost t: Tree, ghost m: Cells, ghost sel: set<Node>)
    returns (out: seq<Node>)
    requires Settled(t, m) && node in Pre(t) && arr == Select(Pre(t), sel)
    requires building ==> forall n :: n in sel && n in Pre(t) && n != node ==> Idx(Pre(t), n) < Idx(Pre(t), node)
    ensures out == Select(Pre(t), sel + {node})
  {
    ghost var s := Pre(t);
    if |arr| > 0 {
      AlreadyListed(s, sel, |arr| - 1);
    }
    if building {
      if |arr| == 0 || arr[|arr| - 1] != node {
        AppendInOrder(s, sel, node);
        return arr + [node];
      }
      return arr;
    }
    if |arr| > 0 {
      var c := DocumentOrderCmp(node, arr[|arr| - 1], t, m);
      if c <= 0 {
        out := BinaryInsert(arr, node, t, m, sel);
        return;
      }
    }
    AppendInOrder(s, sel, node);
    out := arr + [node];
  }

  method BinaryInsert(arr: seq<Node>, node: Node, ghost t: Tree, ghost m: Cells, ghost sel: set<Node>)
    returns (out: seq<Node>)
    requires Settled(t, m) && node in Pre(t) && arr == Select(Pre(t), sel)
    ensures out == Select(Pre(t), sel + {node})
  {
    SelectInOrder(Pre(t), sel);
    ghost var f := Positions(Pre(t), arr);
    var lo, found := FindPlace(arr, node, t, m, f, Idx(Pre(t), node));
    if found {
      AlreadyListed(Pre(t), sel, lo);
      return arr;
    }
    InsertInOrder(Pre(t), sel, lo, node);
    out := arr[..lo] + [node] + arr[lo..];
  }

  /** The positions of the listed nodes, and of the node to be placed. */
  ghost predicate Placed(s: seq<Node>, arr: seq<Node>, node: Node, f: seq<nat>, k: nat)
  {
    && |f| == |arr| && node in s && k == Idx(s, node)
    && forall i :: 0 <= i < |arr| ==> arr[i] in s && f[i] == Idx(s, arr[i])
  }

  ghost predicate Rising(f: seq<nat>)
  {
    forall i, j :: 0 <= i < j < |f| ==> f[i] < f[j]
  }

  ghost predicate AllBelow(f: seq<nat>, lo: nat, k: nat)
  {
    lo <= |f| && forall i :: 0 <= i < lo ==> f[i] < k
  }

  ghost predicate AllAbove(f: seq<nat>, hi: nat, k: nat)
  {
    hi <= |f| && forall i :: hi <= i < |f| ==> k < f[i]
  }

  lemma OneSide(f: seq<nat>, mid: nat, k: nat, c: int)
    requires Rising(f) && mid < |f| && c == Sign(k - f[mid])
    ensures c == 0 ==> k == f[mid]
    ensures c < 0 ==> AllAbove(f, mid, k)
    ensures c > 0 ==> AllBelow(f, mid + 1, k)
  {
    assert forall i :: mid < i < |f| ==> f[mid] < f[i];
    assert forall i :: 0 <= i < mid ==> f[i] < f[mid];
  }

  lemma PlacedAt(s: seq<Node>, arr: seq<Node>, node: Node, f: seq<nat>, k: nat, mid: nat)
    requires Placed(s, arr, node, f, k) && mid < |f|
    ensures node in s && k == Idx(s, node) && arr[mid] in s && f[mid] == Idx(s, arr[mid])
  {
  }

  /** Compares with one listed node, which settles everything on one side of it. */
  method CompareWith(listed: Node, node: Node, ghost mid: nat, ghost t: Tree, ghost m: Cells, ghost f: seq<nat>,
                     ghost k: nat)
    returns (c: int)
    requires Settled(t, m) && mid < |f| && Rising(f) && node in Pre(t) && listed in Pre(t)
    requires k == Idx(Pre(t), node) && f[mid] == Idx(Pre(t), listed)
    ensures c == 0 ==> node == listed
    ensures (c < 0 ==> AllAbove(f, mid, k)) && (c > 0 ==> AllBelow(f, mid + 1, k))
  {
    c := DocumentOrderCmp(node, listed, t, m);
    OneSide(f, mid, k, c);
    if c == 0 {
      IdxInjective(Pre(t), node, listed);
    }
  }

  /** The binary search: where the node stands in the list, or where it would have to stand. */
  method FindPlace(arr: seq<Node>, node: Node, ghost t: Tree, ghost m: Cells, ghost f: seq<nat>, ghost k: nat)
    returns (lo: nat, found: bool)
    requires Settled(t, m) && Placed(Pre(t), arr, node, f, k) && |f| == |arr|
    requires Rising(f)
    ensures found ==> lo < |arr| && arr[lo] == node
    ensures !found ==> AllBelow(f, lo, k) && AllAbove(f, lo, k)
  {
    lo := 0;
    var hi := |arr|;
    while lo < hi
      invariant lo <= hi <= |arr| && AllBelow(f, lo, k) && AllAbove(f, hi, k)
    {
      var mid := (lo + hi) / 2;
      PlacedAt(Pre(t), arr, node, f, k, mid);
      var c := CompareWith(arr[mid], node, mid, t, m, f, k);
      if c == 0 {
        return mid, true;
      }
      if c < 0 {
        hi := mid;
      } else {
        lo := mid + 1;
      }
    }
    found := false;
  }
}
