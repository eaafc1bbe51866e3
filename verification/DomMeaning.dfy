/** What the two indexes answer, said of the tree and the attributes alone. */
module DomMeaning {
  import opened Ascii
  import opened DomTree
  import opened DomEdit
  import opened DomOrder
  import opened DomLists
  import opened DomIndex
  import opened DomDocument

  // ---- The tokens of a class attribute ----

  /** The characters between tokens. */
  predicate Blank(c: char) { c == ' ' || c == '\t' || c == '\n' || c == '\r' || c as int == 12 }

  /** A word by itself is one token. */
  lemma OneToken(s: string)
    requires s != "" && forall i :: 0 <= i < |s| ==> !Blank(s[i])
    ensures Tokens(s) == {s}
  {
    assert forall k :: 0 <= k < |s| ==> !IsWs(s[k]);
    assert IsToken(s, 0, |s|) && s[0..|s|] == s;
    forall t | t in Tokens(s) ensures t == s {
      var i, j :| 0 <= i < |s| && 0 <= j <= |s| && IsToken(s, i, j) && t == s[i..j];
    }
  }

  lemma NoTokens()
    ensures Tokens("") == {}
  {
  }

  /** A blank divides the tokens before it from those after it. */
  lemma DividedTokens(a: string, c: char, b: string)
    requires Blank(c)
    ensures Tokens(a + ([c] + b)) == Tokens(a) + Tokens(b)
  {
    var s := a + ([c] + b);
    forall t | t in Tokens(s) ensures t in Tokens(a) + Tokens(b) {
      var i, j :| 0 <= i < |s| && 0 <= j <= |s| && IsToken(s, i, j) && t == s[i..j];
      assert s[|a|] == c;
      if j <= |a| { TokenBefore(a, c, b, i, j); } else { TokenAfter(a, c, b, i - |a| - 1, j - |a| - 1); }
    }
    forall t | t in Tokens(a) ensures t in Tokens(s) {
      var i, j :| 0 <= i < |a| && 0 <= j <= |a| && IsToken(a, i, j) && t == a[i..j];
      TokenBefore(a, c, b, i, j);
    }
    forall t | t in Tokens(b) ensures t in Tokens(s) {
      var i, j :| 0 <= i < |b| && 0 <= j <= |b| && IsToken(b, i, j) && t == b[i..j];
      TokenAfter(a, c, b, i, j);
    }
  }

  lemma TokenBefore(a: string, c: char, b: string, i: int, j: int)
    requires Blank(c) && 0 <= i < j <= |a|
    ensures IsToken(a + ([c] + b), i, j) <==> IsToken(a, i, j)
    ensures (a + ([c] + b))[i..j] == a[i..j]
  {
    var s := a + ([c] + b);
    assert forall k :: 0 <= k < |a| ==> s[k] == a[k];
    assert s[|a|] == c;
  }

  lemma TokenAfter(a: string, c: char, b: string, i: int, j: int)
    requires Blank(c) && 0 <= i < j <= |b|
    ensures IsToken(a + ([c] + b), |a| + 1 + i, |a| + 1 + j) <==> IsToken(b, i, j)
    ensures (a + ([c] + b))[|a| + 1 + i..|a| + 1 + j] == b[i..j]
  {
    var s, n := a + ([c] + b), |a| + 1;
    assert s[|a|] == c && forall k :: 0 <= k < |b| ==> s[n + k] == b[k];
  }

  // ---- Which nodes are found ----

  /** The node at this place can be found: on the way to it, itself included, there is neither a
      document within the document nor the root of a shadow tree, and above it no template. */
  ghost predicate Reached(doc: Node, m: Cells, t: Tree, p: Path)
    requires ValidPath(t, p)
    decreases |p|
  {
    && t.node in m
    && (t.node == doc || !((m[t.node].kind == Element && m[t.node].shadowRoot)
                           || (m[t.node].kind == Document && m[t.node].parent != null)))
    && (p != [] ==> !(m[t.node].kind == Element && m[t.node].name == "template")
                    && Reached(doc, m, t.kids[p[0]], p[1..]))
  }

  lemma {:induction false} VisibleExactly(doc: Node, m: Cells, t: Tree, p: Path)
    requires Distinct(Pre(t)) && ValidPath(t, p)
    ensures At(t, p).node in Vis(doc, m, t) <==> Reached(doc, m, t, p)
    decreases |p|
  {
    if p != [] {
      var i, n := p[0], At(t, p).node;
      DistinctKid(t, i);
      VisibleExactly(doc, m, t.kids[i], p[1..]);
      AtIn(t.kids[i], p[1..]);
      VisSplit(doc, m, t.kids, i);
      PreSplit(t.kids, i);
      RootApart(t, n);
      if n in VisAll(doc, m, t.kids) {
        var j := VisAllFrom(doc, m, t.kids, n);
        VisIn(doc, m, t.kids[j], n);
        if j != i { KidDisjoint(t, i, j, n); }
      }
    }
  }

  /** The element is of this class, or has this name in small letters. */
  ghost predicate Answers(c: Cell, axis: Axis, key: string) {
    c.kind == Element &&
    match axis
    case Class => key in Tokens(c.classAttr)
    case Tag => c.name != "" && |key| == |c.name| && forall i :: 0 <= i < |key| ==>
        key[i] == if 'A' <= c.name[i] <= 'Z' then (c.name[i] as int + 32) as char else c.name[i]
  }

  lemma KeyAnswers(c: Cell, axis: Axis, key: string)
    ensures key in Keys(c, axis) <==> Answers(c, axis, key)
  {
    if c.kind == Element && axis.Tag? && |key| == |c.name| {
      assert Lower(c.name) == key <==> forall i :: 0 <= i < |key| ==> Lower(c.name)[i] == key[i];
    }
  }

  /** A table that agrees with the tree lists a node under a key exactly when the node can be found and
      answers to the key, and lists the nodes in document order. */
  lemma ListedExactly(lists: map<string, seq<Node>>, doc: Node, m: Cells, axis: Axis, t: Tree, p: Path, key: string)
    requires Rebuilt(lists, doc, m, axis, t) && Distinct(Pre(t)) && ValidPath(t, p) && At(t, p).node in m
    ensures At(t, p).node in Get(lists, key) <==> Reached(doc, m, t, p) && Answers(m[At(t, p).node], axis, key)
    ensures InOrder(Pre(t), Get(lists, key))
  {
    var n := At(t, p).node;
    var sel := set n | n in Vis(doc, m, t) && n in m && key in Keys(m[n], axis);
    SelectMembers(Vis(doc, m, t), sel, n);
    VisibleExactly(doc, m, t, p);
    KeyAnswers(m[n], axis, key);
    forall x | x in sel ensures x in Vis(doc, m, t) {}
    SelectVis(doc, m, t, sel);
    SelectInOrder(Pre(t), sel);
  }
}
