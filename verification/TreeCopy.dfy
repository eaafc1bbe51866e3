/** The conversion of a parsed document: an explicit stack of sibling lists that must build what a
    recursive copy builds. */
module TreeCopy {
  import opened Wrappers

  datatype SourceKind =
    | Document | Fragment | Element | Text | CData | Comment | Instruction | DocType
    | Attribute | EntityReference | Entity | Notation

  /** A node of the parser's tree; `template` marks a template element of the HTML namespace. */
  datatype Source = Source(
    kind: SourceKind, name: string, template: bool, kids: seq<Source>, content: seq<Source>)

  datatype LabelKind = DocumentNode | ElementNode | TextNode | CommentNode | DocTypeNode

  datatype Label = Label(kind: LabelKind, text: string)

  const FRAGMENT: Label := Label(DocumentNode, "")

  /** What a source node becomes, apart from its attributes; some kinds become nothing. */
  function Convert(s: Source): Option<Label> {
    match s.kind
    case Document => Some(Label(DocumentNode, ""))
    case Fragment => Some(Label(DocumentNode, ""))
    case Element => Some(Label(ElementNode, s.name))
    case Text => Some(Label(TextNode, s.name))
    case CData => Some(Label(TextNode, s.name))
    case Comment => Some(Label(CommentNode, s.name))
    case Instruction => Some(Label(CommentNode, s.name))
    case DocType => Some(Label(DocTypeNode, s.name))
    case _ => None
  }

  function TemplateKids(s: Source): seq<Source> {
    if s.kind.Element? && s.template then s.content else []
  }

  // ---- The recursive copy ----

  /** `fragment` tells whether there is a content fragment, `content` what is under it. */
  datatype Copy = Copy(tag: Label, kids: seq<Copy>, fragment: bool, content: seq<Copy>)

  /** A node that becomes nothing is dropped with everything below it; the contents of a template go
      under a fragment of their own. */
  function CopyAll(list: seq<Source>): seq<Copy> {
    if list == [] then []
    else
      var s := list[0];
      var rest := CopyAll(list[1..]);
      match Convert(s)
      case None => rest
      case Some(tag) =>
        var kids := CopyAll(s.kids);
        var content := if s.kind.Element? && s.template then CopyAll(s.content) else [];
        [Copy(tag, kids, s.kind.Element? && s.template && s.content != [], content)] + rest
  }

  function CopyOf(s: Source, tag: Label): Copy {
    Copy(tag, CopyAll(s.kids), TemplateKids(s) != [], CopyAll(TemplateKids(s)))
  }

  lemma CopyFirst(list: seq<Source>)
    requires list != []
    ensures CopyAll(list) == match Convert(list[0])
      case None => CopyAll(list[1..])
      case Some(tag) => [CopyOf(list[0], tag)] + CopyAll(list[1..])
  {
  }

  /** How many nodes are looked at: all of them but those below a node that becomes nothing. */
  function Visits(list: seq<Source>): nat {
    if list == [] then 0
    else
      var s := list[0];
      1 + Visits(list[1..]) +
      (if Convert(s).None? then 0
       else Visits(s.kids) + (if s.kind.Element? && s.template then Visits(s.content) else 0))
  }

  // ---- What is built ----

  class Node {
    const tag: Label
    var kids: seq<Node>
    var content: Node?

    constructor (l: Label)
      ensures tag == l && kids == [] && content == null
    {
      tag, kids, content := l, [], null;
    }
  }

  /** The built nodes below this one are the copy. */
  ghost predicate Shows(made: set<Node>, n: Node, c: Copy)
    reads made
    decreases c
  {
    && n in made && n.tag == c.tag
    && |n.kids| == |c.kids| && (forall i :: 0 <= i < |c.kids| ==> Shows(made, n.kids[i], c.kids[i]))
    && (n.content != null <==> c.fragment)
    && (n.content != null ==>
          && n.content in made && n.content.tag == FRAGMENT && n.content.content == null
          && |n.content.kids| == |c.content|
          && forall i :: 0 <= i < |c.content| ==> Shows(made, n.content.kids[i], c.content[i]))
  }

  ghost predicate ShowsAll(made: set<Node>, ns: seq<Node>, cs: seq<Copy>)
    reads made
  {
    |ns| == |cs| && forall i :: 0 <= i < |cs| ==> Shows(made, ns[i], cs[i])
  }

  /** The built nodes in order, along the copies: a node, what is below it, its fragment, what is below that. */
  ghost function Built(made: set<Node>, ns: seq<Node>, cs: seq<Copy>): seq<Node>
    requires ShowsAll(made, ns, cs)
    reads made
    decreases cs
  {
    if cs == [] then []
    else
      var n, c := ns[0], cs[0];
      [n] + Built(made, n.kids, c.kids)
      + (if c.fragment then [n.content] + Built(made, n.content.kids, c.content) else [])
      + Built(made, ns[1..], cs[1..])
  }

  /** No node is there twice. */
  ghost predicate Distinct(ns: seq<Node>) {
    forall i, j :: 0 <= i < j < |ns| ==> ns[i] != ns[j]
  }

  /** The nodes made are a tree that is the copy: each of them stands at one place in it. */
  ghost predicate IsTree(made: set<Node>, root: Node, c: Copy)
    reads made
  {
    && Shows(made, root, c)
    && Distinct(Built(made, [root], [c])) && (set n | n in Built(made, [root], [c])) == made
  }

  /** How many nodes the copies have, fragments included. */
  function Nodes(cs: seq<Copy>): nat {
    if cs == [] then 0
    else
      var c := cs[0];
      1 + Nodes(c.kids) + (if c.fragment then 1 + Nodes(c.content) else 0) + Nodes(cs[1..])
  }

  lemma {:induction false} BuiltLength(made: set<Node>, ns: seq<Node>, cs: seq<Copy>)
    requires ShowsAll(made, ns, cs)
    ensures |Built(made, ns, cs)| == Nodes(cs)
    ensures forall n <- ns :: n in Built(made, ns, cs)
    ensures forall n <- Built(made, ns, cs) :: n in made
    decreases cs
  {
    if cs != [] {
      var n, c := ns[0], cs[0];
      BuiltLength(made, n.kids, c.kids);
      if c.fragment { BuiltLength(made, n.content.kids, c.content); }
      BuiltLength(made, ns[1..], cs[1..]);
    }
  }

  /** What hangs under a listed node is listed. */
  lemma {:induction false} BuiltClosed(made: set<Node>, ns: seq<Node>, cs: seq<Copy>, x: Node)
    requires ShowsAll(made, ns, cs) && x in Built(made, ns, cs)
    ensures forall k <- x.kids :: k in Built(made, ns, cs)
    ensures x.content != null ==> x.content in Built(made, ns, cs)
    decreases cs
  {
    var n, c := ns[0], cs[0];
    if x == n {
      BuiltLength(made, n.kids, c.kids);
    } else if x in Built(made, n.kids, c.kids) {
      BuiltClosed(made, n.kids, c.kids, x);
    } else if x in Built(made, ns[1..], cs[1..]) {
      BuiltClosed(made, ns[1..], cs[1..], x);
    } else if x == n.content {
      BuiltLength(made, n.content.kids, c.content);
    } else {
      BuiltClosed(made, n.content.kids, c.content, x);
    }
  }

  /** A list no longer than the set of what it lists has nothing twice. */
  lemma {:induction false} Pigeons(ns: seq<Node>)
    ensures |set n | n in ns| <= |ns|
    ensures |set n | n in ns| == |ns| ==> Distinct(ns)
  {
    if ns != [] {
      var most, n := ns[..|ns| - 1], ns[|ns| - 1];
      Pigeons(most);
      assert (set m | m in ns) == (set m | m in most) + {n};
      assert n in most ==> (set m | m in most) + {n} == (set m | m in most);
    }
  }

  // ---- Where the nodes stand ----

  /** Each node of the list but the first hangs under one that comes before it. */
  ghost predicate Hanging(order: seq<Node>)
    reads order
  {
    forall i {:trigger HangsAt(order, i)} :: 0 < i < |order| ==> HangsAt(order, i)
  }

  ghost predicate HangsAt(order: seq<Node>, i: nat)
    requires i < |order|
    reads order
  {
    exists j :: 0 <= j < i && Holds(order[j], order[i])
  }

  ghost predicate Holds(p: Node, n: Node)
    reads p
  {
    n in p.kids || n == p.content
  }

  /** Then all of them are below the first. */
  lemma {:induction false} HangingBuilt(made: set<Node>, order: seq<Node>, c: Copy, i: nat)
    requires Hanging(order) && i < |order| && Shows(made, order[0], c)
    ensures order[i] in Built(made, [order[0]], [c])
  {
    BuiltLength(made, [order[0]], [c]);
    if i > 0 {
      assert HangsAt(order, i);
      var j :| 0 <= j < i && Holds(order[j], order[i]);
      HangingBuilt(made, order, c, j);
      BuiltClosed(made, [order[0]], [c], order[j]);
    }
  }

  /** As many nodes as the copy has, each under an earlier one, are its nodes. */
  lemma HangingTree(made: set<Node>, order: seq<Node>, c: Copy)
    requires Hanging(order) && order != [] && Shows(made, order[0], c)
    requires made == (set n | n in order) && |made| == Nodes([c])
    ensures IsTree(made, order[0], c)
  {
    var built := Built(made, [order[0]], [c]);
    BuiltLength(made, [order[0]], [c]);
    forall n <- order ensures n in built {
      var i :| 0 <= i < |order| && order[i] == n;
      HangingBuilt(made, order, c, i);
    }
    assert (set n | n in built) == made;
    Pigeons(built);
  }

  /** One more node under one of the list. */
  lemma HangingMore(order: seq<Node>, p: Node, n: Node)
    requires Hanging(order) && p in order && Holds(p, n)
    ensures Hanging(order + [n])
  {
    var more := order + [n];
    forall i {:trigger HangsAt(more, i)} | 0 < i < |more| ensures HangsAt(more, i) {
      if i < |order| {
        assert HangsAt(order, i);
        var j :| 0 <= j < i && Holds(order[j], order[i]);
        assert Holds(more[j], more[i]);
      } else {
        var j :| 0 <= j < |order| && order[j] == p;
        assert Holds(more[j], more[i]);
      }
    }
  }

  // ---- What is still to do ----

  /** Siblings still to be converted, and the node they go under. */
  datatype Frame = Frame(rest: seq<Source>, parent: Node)

  /** What is still to come under a node, in order: the top of the stack first. */
  function Pending(stack: seq<Frame>, n: Node): seq<Source> {
    if stack == [] then []
    else
      var top := stack[|stack| - 1];
      (if top.parent == n then top.rest else []) + Pending(stack[..|stack| - 1], n)
  }

  function Work(stack: seq<Frame>): nat {
    if stack == [] then 0 else Work(stack[..|stack| - 1]) + Visits(stack[|stack| - 1].rest)
  }

  /** How many nodes are still to be made. */
  function Ahead(stack: seq<Frame>): nat {
    if stack == [] then 0 else Ahead(stack[..|stack| - 1]) + Nodes(CopyAll(stack[|stack| - 1].rest))
  }

  /** The nodes planned for are those of the list, and they stand where they were put. */
  ghost predicate Placed(plan: map<Node, Copy>, order: seq<Node>)
    reads order
  {
    order != [] && plan.Keys == (set n | n in order) && Hanging(order)
  }

  function Plans(plan: map<Node, Copy>, ns: seq<Node>): (cs: seq<Copy>)
    requires forall n <- ns :: n in plan
    ensures |cs| == |ns| && forall i :: 0 <= i < |ns| ==> cs[i] == plan[ns[i]]
  {
    seq(|ns|, i requires 0 <= i < |ns| => plan[ns[i]])
  }

  /** What every node made so far is going to be.  Its children so far, followed by the copies of what
      is still to come under it, are the children it is going to have. */
  ghost predicate PlannedAt(plan: map<Node, Copy>, stack: seq<Frame>, n: Node)
    requires n in plan
    reads n
  {
    && n.tag == plan[n].tag
    && (forall k <- n.kids :: k in plan)
    && plan[n].kids == Plans(plan, n.kids) + CopyAll(Pending(stack, n))
    && plan[n].fragment == (n.content != null)
    && (n.content != null ==>
          n.content in plan && plan[n.content].tag == FRAGMENT && !plan[n.content].fragment &&
          plan[n].content == plan[n.content].kids)
  }

  ghost predicate Planned(plan: map<Node, Copy>, stack: seq<Frame>)
    reads plan.Keys
  {
    && (forall f <- stack :: f.parent in plan)
    && forall n {:trigger PlannedAt(plan, stack, n)} :: n in plan ==> PlannedAt(plan, stack, n)
  }

  /** With nothing left to do, everything made is as planned. */
  lemma {:induction false} PlannedShows(plan: map<Node, Copy>, n: Node)
    requires Planned(plan, []) && n in plan
    ensures Shows(plan.Keys, n, plan[n])
    decreases plan[n]
  {
    assert PlannedAt(plan, [], n);
    forall i | 0 <= i < |n.kids| ensures Shows(plan.Keys, n.kids[i], plan[n].kids[i]) {
      assert plan[n.kids[i]] == plan[n].kids[i];
      PlannedShows(plan, n.kids[i]);
    }
    if n.content != null {
      assert PlannedAt(plan, [], n.content);
      forall i | 0 <= i < |n.content.kids| ensures Shows(plan.Keys, n.content.kids[i], plan[n.content].kids[i]) {
        assert plan[n.content.kids[i]] == plan[n].content[i];
        PlannedShows(plan, n.content.kids[i]);
      }
    }
  }

  // ---- The walk ----

  /** Nothing is pushed for an empty list. */
  function Pushed(stack: seq<Frame>, rest: seq<Source>, parent: Node): seq<Frame> {
    if rest == [] then stack else stack + [Frame(rest, parent)]
  }

  lemma PendingPushed(stack: seq<Frame>, rest: seq<Source>, parent: Node, n: Node)
    ensures Pending(Pushed(stack, rest, parent), n) == (if parent == n then rest else []) + Pending(stack, n)
    ensures Work(Pushed(stack, rest, parent)) == Work(stack) + Visits(rest)
    ensures Ahead(Pushed(stack, rest, parent)) == Ahead(stack) + Nodes(CopyAll(rest))
  {
    if rest != [] { assert (stack + [Frame(rest, parent)])[..|stack|] == stack; }
  }

  method ContentOf(n: Node) returns (fragment: Node)
    modifies n`content
    ensures n.content == fragment
    ensures old(n.content) != null ==> fragment == old(n.content)
    ensures old(n.content) == null ==>
        fresh(fragment) && fragment.tag == FRAGMENT && fragment.kids == [] && fragment.content == null
  {
    if n.content == null {
      fragment := new Node(FRAGMENT);
      n.content := fragment;
    } else {
      fragment := n.content;
    }
  }

  lemma NoPending(stack: seq<Frame>, n: Node)
    requires forall f <- stack :: f.parent != n
    ensures Pending(stack, n) == []
  {
  }

  predicate Extends(plan: map<Node, Copy>, plan': map<Node, Copy>) {
    forall n <- plan :: n in plan' && plan'[n] == plan[n]
  }

  /** The plan of a node that is left alone stays right. */
  lemma PlannedSame(plan: map<Node, Copy>, stack: seq<Frame>, plan': map<Node, Copy>, stack': seq<Frame>, n: Node)
    requires n in plan && PlannedAt(plan, stack, n) && Extends(plan, plan')
    requires Pending(stack', n) == Pending(stack, n)
    ensures n in plan' && PlannedAt(plan', stack', n)
  {
    assert Plans(plan', n.kids) == Plans(plan, n.kids);
  }

  /** The plan of a node that gets its next child stays right. */
  lemma PlannedGrown(plan: map<Node, Copy>, plan': map<Node, Copy>, kids: seq<Node>, child: Node, s: Source,
                     tag: Label, rest: seq<Source>)
    requires (forall k <- kids :: k in plan) && Extends(plan, plan') && child in plan'
    requires Convert(s) == Some(tag) && plan'[child] == CopyOf(s, tag)
    ensures forall k <- kids + [child] :: k in plan'
    ensures Plans(plan', kids + [child]) + CopyAll(rest) == Plans(plan, kids) + CopyAll([s] + rest)
  {
    CopyFirst([s] + rest);
    assert ([s] + rest)[1..] == rest;
    PlansGrown(plan, plan', kids, child);
    Rejoin(Plans(plan, kids), plan'[child], CopyAll(rest));
  }

  lemma PlansGrown(plan: map<Node, Copy>, plan': map<Node, Copy>, kids: seq<Node>, child: Node)
    requires (forall k <- kids :: k in plan) && Extends(plan, plan') && child in plan'
    ensures forall k <- kids + [child] :: k in plan'
    ensures Plans(plan', kids + [child]) == Plans(plan, kids) + [plan'[child]]
  {
  }

  lemma Rejoin(a: seq<Copy>, c: Copy, b: seq<Copy>)
    ensures (a + [c]) + b == a + ([c] + b)
  {
  }

  /** What is left to do after one conversion. */
  function Left(stack: seq<Frame>, next: seq<Source>, parent: Node, s: Source, fragment: Node,
                converted: Node): seq<Frame> {
    Pushed(Pushed(Pushed(stack, next, parent), TemplateKids(s), fragment), s.kids, converted)
  }

  lemma LeftPending(stack: seq<Frame>, next: seq<Source>, parent: Node, s: Source, fragment: Node, converted: Node,
                    n: Node)
    ensures Pending(Left(stack, next, parent, s, fragment, converted), n) ==
      (if converted == n then s.kids else []) + ((if fragment == n then TemplateKids(s) else []) +
      ((if parent == n then next else []) + Pending(stack, n)))
    ensures Work(Left(stack, next, parent, s, fragment, converted)) ==
      Work(stack) + Visits(next) + Visits(TemplateKids(s)) + Visits(s.kids)
    ensures Ahead(Left(stack, next, parent, s, fragment, converted)) ==
      Ahead(stack) + Nodes(CopyAll(next)) + Nodes(CopyAll(TemplateKids(s))) + Nodes(CopyAll(s.kids))
  {
    var a := Pushed(stack, next, parent);
    PendingPushed(stack, next, parent, n);
    PendingPushed(a, TemplateKids(s), fragment, n);
    PendingPushed(Pushed(a, TemplateKids(s), fragment), s.kids, converted, n);
  }

  /** The plan of a node just made. */
  lemma PlannedFresh(plan: map<Node, Copy>, stack: seq<Frame>, n: Node, rest: seq<Source>)
    requires n in plan && n.kids == [] && Pending(stack, n) == rest && plan[n].kids == CopyAll(rest)
    requires n.tag == plan[n].tag && plan[n].fragment == (n.content != null)
    requires n.content != null ==>
      n.content in plan && plan[n.content].tag == FRAGMENT && !plan[n.content].fragment &&
      plan[n].content == plan[n.content].kids
    ensures PlannedAt(plan, stack, n)
  {
    assert Plans(plan, n.kids) == [];
  }

  /** The plans of the nodes made by one conversion. */
  lemma PlannedMade(plan: map<Node, Copy>, left: seq<Frame>, s: Source, tag: Label, fragment: Node, converted: Node)
    requires converted in plan && fragment in plan && plan[converted] == CopyOf(s, tag)
    requires converted.tag == tag && converted.kids == [] && Made(s, converted, fragment)
    requires fragment != converted ==> plan[fragment] == Copy(FRAGMENT, CopyAll(TemplateKids(s)), false, [])
    requires Pending(left, converted) == s.kids
    requires fragment != converted ==> Pending(left, fragment) == TemplateKids(s)
    ensures PlannedAt(plan, left, converted) && PlannedAt(plan, left, fragment)
  {
    PlannedFresh(plan, left, converted, s.kids);
    if fragment != converted { PlannedFresh(plan, left, fragment, TemplateKids(s)); }
  }

  /** The plan of the parent, which has got one more child. */
  lemma PlannedParent(plan: map<Node, Copy>, all: seq<Frame>, plan': map<Node, Copy>, left: seq<Frame>, parent: Node,
                      kids: seq<Node>, child: Node, s: Source, tag: Label, rest: seq<Source>)
    requires parent in plan && Extends(plan, plan') && child in plan' && plan'[child] == CopyOf(s, tag)
    requires Convert(s) == Some(tag) && parent.kids == kids + [child] && WasPlanned(plan, all, parent, kids)
    requires Pending(all, parent) == [s] + rest && Pending(left, parent) == rest
    ensures PlannedAt(plan', left, parent)
  {
    PlannedGrown(plan, plan', kids, child, s, tag, rest);
  }

  /** The plan of a node was right when it had the given children. */
  ghost predicate WasPlanned(plan: map<Node, Copy>, all: seq<Frame>, n: Node, kids: seq<Node>)
    requires n in plan
    reads n
  {
    && (forall k <- kids :: k in plan)
    && plan[n].kids == Plans(plan, kids) + CopyAll(Pending(all, n))
    && n.tag == plan[n].tag && plan[n].fragment == (n.content != null)
    && (n.content != null ==>
          n.content in plan && plan[n.content].tag == FRAGMENT && !plan[n.content].fragment &&
          plan[n].content == plan[n.content].kids)
  }

  /** All plans after one conversion. */
  lemma PlannedAfter(plan: map<Node, Copy>, all: seq<Frame>, plan': map<Node, Copy>, left: seq<Frame>,
                     parent: Node, fragment: Node, converted: Node)
    requires Extends(plan, plan') && plan'.Keys == plan.Keys + {converted, fragment}
    requires (forall f <- left :: f.parent in plan') && parent in plan
    requires forall n {:trigger PlannedAt(plan, all, n)} :: n in plan && n != parent ==> PlannedAt(plan, all, n)
    requires forall n {:trigger PendingSame(all, left, n)} :: n in plan && n != parent ==> PendingSame(all, left, n)
    requires PlannedAt(plan', left, converted) && PlannedAt(plan', left, fragment) && PlannedAt(plan', left, parent)
    ensures Planned(plan', left)
  {
    forall n {:trigger PlannedAt(plan', left, n)} | n in plan' ensures PlannedAt(plan', left, n) {
      if n in plan && n != parent {
        assert PlannedAt(plan, all, n) && PendingSame(all, left, n);
        PlannedSame(plan, all, plan', left, n);
      }
    }
  }

  /** What is left to do after one conversion, under the nodes it concerns and under the others. */
  lemma LeftFacts(stack: seq<Frame>, s: Source, next: seq<Source>, parent: Node, fragment: Node, converted: Node,
                  all: seq<Frame>, left: seq<Frame>)
    requires all == Pushed(stack, [s] + next, parent) && left == Left(stack, next, parent, s, fragment, converted)
    requires parent != fragment && parent != converted &&
        (forall f <- stack :: f.parent != converted && f.parent != fragment)
    requires fragment == converted ==> TemplateKids(s) == []
    ensures Pending(all, parent) == [s] + (next + Pending(stack, parent))
    ensures Pending(left, parent) == next + Pending(stack, parent)
    ensures Pending(left, converted) == s.kids
    ensures fragment != converted ==> Pending(left, fragment) == TemplateKids(s)
    ensures forall n {:trigger PendingSame(all, left, n)} ::
      n != parent && n != converted && n != fragment ==> PendingSame(all, left, n)
  {
    LeftPending(stack, next, parent, s, fragment, converted, parent);
    PendingPushed(stack, [s] + next, parent, parent);
    Joining(s, next, Pending(stack, parent));
    LeftPending(stack, next, parent, s, fragment, converted, converted);
    LeftPending(stack, next, parent, s, fragment, converted, fragment);
    NoPending(stack, converted);
    NoPending(stack, fragment);
    forall n | n != parent && n != converted && n != fragment ensures PendingSame(all, left, n) {
      OtherPending(stack, s, next, parent, fragment, converted, n);
    }
  }

  lemma OtherPending(stack: seq<Frame>, s: Source, next: seq<Source>, parent: Node, fragment: Node, converted: Node,
                     n: Node)
    requires n != converted && n != fragment && n != parent
    ensures Pending(Left(stack, next, parent, s, fragment, converted), n) ==
        Pending(Pushed(stack, [s] + next, parent), n)
  {
    LeftPending(stack, next, parent, s, fragment, converted, n);
    PendingPushed(stack, [s] + next, parent, n);
  }

  lemma Joining(s: Source, a: seq<Source>, b: seq<Source>)
    ensures ([s] + a) + b == [s] + (a + b)
    ensures [] + ([] + (a + b)) == a + b
  {
  }

  /** A node just converted: with a fragment of its own if it has template contents. */
  ghost predicate Made(s: Source, converted: Node, fragment: Node)
    reads converted, fragment
  {
    if TemplateKids(s) == [] then fragment == converted && converted.content == null
    else fragment != converted && converted.content == fragment &&
         fragment.kids == [] && fragment.content == null && fragment.tag == FRAGMENT
  }

  ghost function PlanWith(plan: map<Node, Copy>, s: Source, tag: Label, fragment: Node, converted: Node): map<Node,
                          Copy> {
    var made := plan[converted := CopyOf(s, tag)];
    if fragment == converted then made else made[fragment := Copy(FRAGMENT, CopyAll(TemplateKids(s)), false, [])]
  }

  lemma PlanWithFacts(plan: map<Node, Copy>, s: Source, tag: Label, fragment: Node, converted: Node)
    requires converted !in plan && fragment !in plan
    ensures var plan' := PlanWith(plan, s, tag, fragment, converted);
      && Extends(plan, plan') && plan'.Keys == plan.Keys + {converted, fragment}
      && plan'.Keys - plan.Keys == {converted, fragment}
      && plan'[converted] == CopyOf(s, tag)
      && (fragment != converted ==> plan'[fragment] == Copy(FRAGMENT, CopyAll(TemplateKids(s)), false, []))
  {
  }

  method MakeOne(s: Source, tag: Label, parent: Node) returns (converted: Node, fragment: Node)
    modifies parent`kids
    ensures fresh(converted) && fresh(fragment) && converted.tag == tag && converted.kids == []
    ensures Made(s, converted, fragment) && parent.kids == old(parent.kids) + [converted]
  {
    converted := new Node(tag);
    parent.kids := parent.kids + [converted];
    fragment := converted;
    if TemplateKids(s) != [] { fragment := ContentOf(converted); }
  }

  lemma PushedFrames(stack: seq<Frame>, rest: seq<Source>, parent: Node)
    ensures forall f <- Pushed(stack, rest, parent) :: f in stack || (f.parent == parent && f.rest != [])
  {
  }

  lemma LeftFrames(stack: seq<Frame>, next: seq<Source>, parent: Node, s: Source, fragment: Node, converted: Node)
    ensures forall f <- Pushed(Pushed(stack, next, parent), TemplateKids(s), fragment) :: f in stack || f.rest != []
    ensures forall f <- Left(stack, next, parent, s, fragment, converted) ::
      f in stack || f.parent == parent || f.parent == fragment || f.parent == converted
  {
    var a := Pushed(stack, next, parent);
    PushedFrames(stack, next, parent);
    PushedFrames(a, TemplateKids(s), fragment);
    PushedFrames(Pushed(a, TemplateKids(s), fragment), s.kids, converted);
  }

  /** The plan and what is left to do before and after one conversion. */
  ghost predicate Arranged(plan: map<Node, Copy>, all: seq<Frame>, plan': map<Node, Copy>, left: seq<Frame>, s: Source,
                           tag: Label, rest: seq<Source>, parent: Node, fragment: Node, converted: Node)
  {
    && Extends(plan, plan') && plan'.Keys == plan.Keys + {converted, fragment} && plan'[converted] == CopyOf(s, tag)
    && (fragment != converted ==>
          plan'[fragment] == Copy(FRAGMENT, CopyAll(TemplateKids(s)), false, []) &&
              Pending(left, fragment) == TemplateKids(s))
    && Pending(all, parent) == [s] + rest && Pending(left, parent) == rest && Pending(left, converted) == s.kids
    && (forall f <- left :: f.parent in plan')
    && forall n {:trigger PendingSame(all, left, n)} :: n in plan && n != parent ==> PendingSame(all, left, n)
  }

  predicate PendingSame(all: seq<Frame>, left: seq<Frame>, n: Node) { Pending(left, n) == Pending(all, n) }

  /** The heap after one conversion. */
  ghost predicate JustMade(plan: map<Node, Copy>, all: seq<Frame>, s: Source, tag: Label, parent: Node, kids: seq<Node>,
                           fragment: Node, converted: Node)
    reads plan.Keys, parent, fragment, converted
  {
    && parent in plan && converted !in plan && fragment !in plan
    && converted.tag == tag && converted.kids == [] && Made(s, converted, fragment)
    && parent.kids == kids + [converted] && WasPlanned(plan, all, parent, kids)
    && forall n {:trigger PlannedAt(plan, all, n)} :: n in plan && n != parent ==> PlannedAt(plan, all, n)
  }

  lemma Arrange(plan: map<Node, Copy>, stack: seq<Frame>, s: Source, tag: Label, next: seq<Source>, parent: Node,
                fragment: Node, converted: Node)
    requires parent in plan && converted !in plan && fragment !in plan && forall f <- stack :: f.parent in plan
    requires fragment == converted ==> TemplateKids(s) == []
    ensures Arranged(plan, Pushed(stack, [s] + next, parent), PlanWith(plan, s, tag, fragment, converted),
                     Left(stack, next, parent, s, fragment, converted), s, tag, next + Pending(stack, parent),
                     parent, fragment, converted)
  {
    var all, left := Pushed(stack, [s] + next, parent), Left(stack, next, parent, s, fragment, converted);
    var plan' := PlanWith(plan, s, tag, fragment, converted);
    PlanWithFacts(plan, s, tag, fragment, converted);
    LeftParents(plan'.Keys, stack, s, next, parent, fragment, converted);
    LeftFacts(stack, s, next, parent, fragment, converted, all, left);
  }

  lemma LeftParents(ns: set<Node>, stack: seq<Frame>, s: Source, next: seq<Source>, parent: Node, fragment: Node,
                    converted: Node)
    requires parent in ns && fragment in ns && converted in ns && forall f <- stack :: f.parent in ns
    ensures forall f <- Left(stack, next, parent, s, fragment, converted) :: f.parent in ns
  {
    LeftFrames(stack, next, parent, s, fragment, converted);
  }

  /** All plans after one conversion are right. */
  lemma PlannedStep(plan: map<Node, Copy>, all: seq<Frame>, plan': map<Node, Copy>, left: seq<Frame>, s: Source,
                    tag: Label,
                    rest: seq<Source>, parent: Node, kids: seq<Node>, fragment: Node, converted: Node)
    requires Convert(s) == Some(tag)
    requires Arranged(plan, all, plan', left, s, tag, rest, parent, fragment, converted)
    requires JustMade(plan, all, s, tag, parent, kids, fragment, converted)
    ensures Planned(plan', left)
  {
    PlannedMade(plan', left, s, tag, fragment, converted);
    PlannedParent(plan, all, plan', left, parent, kids, converted, s, tag, rest);
    PlannedAfter(plan, all, plan', left, parent, fragment, converted);
  }

  /** Converts the first of some siblings: what it becomes is appended, and its siblings, its template
      contents and its children are left to do. */
  method ConvertOne(s: Source, tag: Label, next: seq<Source>, parent: Node, stack: seq<Frame>,
                    ghost plan: map<Node, Copy>, ghost order: seq<Node>)
    returns (left: seq<Frame>, converted: Node, ghost plan': map<Node, Copy>, ghost order': seq<Node>)
    requires Convert(s) == Some(tag) && Planned(plan, Pushed(stack, [s] + next, parent))
    requires parent in plan && (forall f <- stack :: f.parent in plan) && Placed(plan, order)
    modifies parent`kids
    ensures Extends(plan, plan') && fresh(plan'.Keys - plan.Keys)
    ensures Placed(plan', order') && order <= order'
    ensures |plan'| + Ahead(Pushed(left, s.kids, converted)) == |plan| + Ahead(Pushed(stack, [s] + next, parent))
    ensures Planned(plan', Pushed(left, s.kids, converted)) && converted in plan'
    ensures Work(Pushed(left, s.kids, converted)) + 1 == Work(Pushed(stack, [s] + next, parent))
    ensures forall f <- left :: f in stack || f.rest != []
  {
    ghost var all, kids := Pushed(stack, [s] + next, parent), parent.kids;
    var fragment;
    converted, fragment := MakePlanned(s, tag, parent, plan, all, order);
    left := Pushed(Pushed(stack, next, parent), TemplateKids(s), fragment);
    plan', order' := PlanWith(plan, s, tag, fragment, converted), MoreOrder(order, fragment, converted);
    PlacedMore(plan, s, tag, parent, fragment, converted, order, order');
    ConvertDone(plan, plan', stack, s, tag, next, parent, kids, fragment, converted, all, left);
  }

  /** What one conversion leaves. */
  lemma ConvertDone(plan: map<Node, Copy>, plan': map<Node, Copy>, stack: seq<Frame>, s: Source, tag: Label,
                    next: seq<Source>,
                    parent: Node, kids: seq<Node>, fragment: Node, converted: Node, all: seq<Frame>, left: seq<Frame>)
    requires Convert(s) == Some(tag) && (fragment == converted ==> TemplateKids(s) == [])
    requires forall f <- stack :: f.parent in plan
    requires all == Pushed(stack, [s] + next, parent) && JustMade(plan, all, s, tag, parent, kids, fragment, converted)
    requires left == Pushed(Pushed(stack, next, parent), TemplateKids(s), fragment)
    requires plan' == PlanWith(plan, s, tag, fragment, converted)
    ensures Extends(plan, plan') && plan'.Keys - plan.Keys == {converted, fragment} && converted in plan'
    ensures Planned(plan', Pushed(left, s.kids, converted))
    ensures Work(Pushed(left, s.kids, converted)) + 1 == Work(all)
    ensures |plan'| + Ahead(Pushed(left, s.kids, converted)) == |plan| + Ahead(all)
    ensures forall f <- left :: f in stack || f.rest != []
  {
    Arrange(plan, stack, s, tag, next, parent, fragment, converted);
    PlannedStep(plan, all, plan', Pushed(left, s.kids, converted), s, tag, next + Pending(stack, parent), parent, kids,
        fragment, converted);
    LeftFrames(stack, next, parent, s, fragment, converted);
    StepWork(stack, s, next, parent, fragment, converted);
    PlanWithFacts(plan, s, tag, fragment, converted);
    StepAhead(plan, stack, s, tag, next, parent, fragment, converted);
  }

  ghost function MoreOrder(order: seq<Node>, fragment: Node, converted: Node): seq<Node> {
    order + [converted] + (if fragment == converted then [] else [fragment])
  }

  /** The nodes of one conversion are placed under what there was. */
  lemma PlacedMore(plan: map<Node, Copy>, s: Source, tag: Label, parent: Node, fragment: Node, converted: Node,
                   order: seq<Node>, order': seq<Node>)
    requires Placed(plan, order) && parent in plan && converted in parent.kids && Made(s, converted, fragment)
    requires order' == MoreOrder(order, fragment, converted)
    ensures order <= order' && Placed(PlanWith(plan, s, tag, fragment, converted), order')
  {
    HangingMore(order, parent, converted);
    if fragment == converted {
      assert order' == order + [converted];
    } else {
      HangingMore(order + [converted], converted, fragment);
    }
  }

  /** What one conversion makes was still to be made before. */
  lemma StepAhead(plan: map<Node, Copy>, stack: seq<Frame>, s: Source, tag: Label, next: seq<Source>, parent: Node,
                  fragment: Node, converted: Node)
    requires Convert(s) == Some(tag) && converted !in plan && fragment !in plan
    requires fragment == converted <==> TemplateKids(s) == []
    ensures |PlanWith(plan, s, tag, fragment, converted)| + Ahead(Left(stack, next, parent, s, fragment, converted)) ==
      |plan| + Ahead(Pushed(stack, [s] + next, parent))
  {
    LeftPending(stack, next, parent, s, fragment, converted, parent);
    PendingPushed(stack, [s] + next, parent, parent);
    CopyFirst([s] + next);
    assert ([s] + next)[1..] == next;
    NodesFirst(CopyOf(s, tag), CopyAll(next));
    PlanWithFacts(plan, s, tag, fragment, converted);
    assert PlanWith(plan, s, tag, fragment, converted).Keys == plan.Keys + {converted, fragment};
    assert |plan.Keys + {converted, fragment}| == |plan.Keys| + |{converted, fragment}|;
  }

  lemma NodesFirst(c: Copy, cs: seq<Copy>)
    ensures Nodes([c] + cs) == 1 + Nodes(c.kids) + (if c.fragment then 1 + Nodes(c.content) else 0) + Nodes(cs)
  {
    assert ([c] + cs)[1..] == cs;
  }

  /** One conversion does one visit's work. */
  lemma StepWork(stack: seq<Frame>, s: Source, next: seq<Source>, parent: Node, fragment: Node, converted: Node)
    requires Convert(s).Some?
    ensures Work(Left(stack, next, parent, s, fragment, converted)) + 1 == Work(Pushed(stack, [s] + next, parent))
  {
    LeftPending(stack, next, parent, s, fragment, converted, parent);
    PendingPushed(stack, [s] + next, parent, parent);
    VisitsFirst(s, next);
  }

  method MakePlanned(s: Source, tag: Label, parent: Node, ghost plan: map<Node, Copy>, ghost all: seq<Frame>,
                     ghost order: seq<Node>)
    returns (converted: Node, fragment: Node)
    requires Planned(plan, all) && parent in plan && Hanging(order)
    modifies parent`kids
    ensures fresh(converted) && fresh(fragment) && converted !in plan && fragment !in plan
    ensures fragment == converted ==> TemplateKids(s) == []
    ensures JustMade(plan, all, s, tag, parent, old(parent.kids), fragment, converted)
    ensures Hanging(order)
  {
    assert PlannedAt(plan, all, parent);
    converted, fragment := MakeOne(s, tag, parent);
    forall i {:trigger HangsAt(order, i)} | 0 < i < |order| ensures HangsAt(order, i) {
      assert old(HangsAt(order, i));
      var j :| 0 <= j < i && old(Holds(order[j], order[i]));
      assert Holds(order[j], order[i]);
    }
    assert forall n {:trigger PlannedAt(plan, all, n)} :: n in plan && n != parent ==> old(PlannedAt(plan, all, n)) ==>
        PlannedAt(plan, all, n);
  }

  lemma VisitsFirst(s: Source, next: seq<Source>)
    ensures Visits([s] + next) ==
      1 + Visits(next) + if Convert(s).None? then 0 else Visits(s.kids) + Visits(TemplateKids(s))
  {
    assert ([s] + next)[1..] == next;
  }

  /** The inner loop: siblings one after the other, and down into the children of what is converted. */
  method WalkDown(rest: seq<Source>, under: Node, before: seq<Frame>, ghost plan: map<Node, Copy>,
                  ghost order: seq<Node>)
    returns (stack: seq<Frame>, ghost plan': map<Node, Copy>, ghost order': seq<Node>, ghost visits: nat)
    requires rest != [] && Planned(plan, Pushed(before, rest, under)) && forall f <- before :: f.rest != []
    requires Placed(plan, order)
    modifies plan.Keys
    ensures Extends(plan, plan') && fresh(plan'.Keys - plan.Keys)
    ensures Placed(plan', order') && order <= order'
    ensures |plan'| + Ahead(stack) == |plan| + Ahead(Pushed(before, rest, under))
    ensures Planned(plan', stack) && forall f <- stack :: f.rest != []
    ensures visits > 0 && visits + Work(stack) == Work(Pushed(before, rest, under))
  {
    stack, plan', order', visits := before, plan, order, 0;
    var cur, parent := rest, under;
    while cur != []
      invariant Extends(plan, plan') && fresh(plan'.Keys - plan.Keys)
      invariant Planned(plan', Pushed(stack, cur, parent)) && forall f <- stack :: f.rest != []
      invariant Placed(plan', order') && order <= order'
      invariant |plan'| + Ahead(Pushed(stack, cur, parent)) == |plan| + Ahead(Pushed(before, rest, under))
      invariant visits + Work(Pushed(stack, cur, parent)) == Work(Pushed(before, rest, under))
      invariant visits > 0 || cur == rest
      decreases Work(Pushed(stack, cur, parent))
    {
      FirstAndRest(cur);
      ghost var was := plan';
      stack, cur, parent, plan', order' := WalkNext(cur[0], cur[1..], parent, stack, plan', order');
      visits := visits + 1;
      NewSince(plan.Keys, was.Keys, plan'.Keys);
    }
  }

  lemma FirstAndRest(list: seq<Source>)
    requires list != []
    ensures list == [list[0]] + list[1..]
  {
  }

  lemma NewSince(a: set<Node>, b: set<Node>, c: set<Node>)
    ensures c - a <= (c - b) + (b - a)
  {
  }

  /** One round of the inner loop: the node is converted and its children are next, or it is skipped. */
  method WalkNext(s: Source, next: seq<Source>, parent: Node, stack: seq<Frame>, ghost plan: map<Node, Copy>,
                  ghost order: seq<Node>)
    returns (left: seq<Frame>, cur: seq<Source>, under: Node, ghost plan': map<Node, Copy>, ghost order': seq<Node>)
    requires Planned(plan, Pushed(stack, [s] + next, parent)) && Placed(plan, order)
    requires forall f <- stack :: f.rest != []
    modifies plan.Keys
    ensures Extends(plan, plan') && fresh(plan'.Keys - plan.Keys)
    ensures Placed(plan', order') && order <= order'
    ensures |plan'| + Ahead(Pushed(left, cur, under)) == |plan| + Ahead(Pushed(stack, [s] + next, parent))
    ensures Planned(plan', Pushed(left, cur, under)) && forall f <- left :: f.rest != []
    ensures Work(Pushed(left, cur, under)) + 1 == Work(Pushed(stack, [s] + next, parent))
  {
    ghost var all := Pushed(stack, [s] + next, parent);
    assert all == stack + [Frame([s] + next, parent)] && all[|stack|].parent == parent;
    assert forall f <- stack :: f in all;
    match Convert(s)
    case Some(tag) =>
      left, under, plan', order' := ConvertOne(s, tag, next, parent, stack, plan, order);
      cur := s.kids;
    case None =>
      PlannedSkip(plan, stack, s, next, parent);
      left, cur, under, plan', order' := stack, next, parent, plan, order;
  }

  /** A node that becomes nothing is skipped. */
  lemma PlannedSkip(plan: map<Node, Copy>, stack: seq<Frame>, s: Source, next: seq<Source>, parent: Node)
    requires Convert(s).None? && Planned(plan, Pushed(stack, [s] + next, parent))
    requires forall f <- stack :: f.parent in plan
    requires parent in plan
    ensures Planned(plan, Pushed(stack, next, parent))
    ensures Work(Pushed(stack, next, parent)) + 1 == Work(Pushed(stack, [s] + next, parent))
    ensures Ahead(Pushed(stack, next, parent)) == Ahead(Pushed(stack, [s] + next, parent))
  {
    var all, left := Pushed(stack, [s] + next, parent), Pushed(stack, next, parent);
    PendingPushed(stack, next, parent, parent);
    PendingPushed(stack, [s] + next, parent, parent);
    VisitsFirst(s, next);
    CopySkip(s, next, []);
    assert ([s] + next) + [] == [s] + next && next + [] == next;
    PushedFrames(stack, next, parent);
    forall n {:trigger PlannedAt(plan, left, n)} | n in plan ensures PlannedAt(plan, left, n) {
      assert PlannedAt(plan, all, n);
      SkipPending(stack, s, next, parent, n);
    }
  }

  lemma SkipPending(stack: seq<Frame>, s: Source, next: seq<Source>, parent: Node, n: Node)
    requires Convert(s).None?
    ensures CopyAll(Pending(Pushed(stack, next, parent), n)) == CopyAll(Pending(Pushed(stack, [s] + next, parent), n))
  {
    PendingPushed(stack, next, parent, n);
    PendingPushed(stack, [s] + next, parent, n);
    if n == parent { CopySkip(s, next, Pending(stack, n)); }
  }

  lemma CopySkip(s: Source, next: seq<Source>, more: seq<Source>)
    requires Convert(s).None?
    ensures CopyAll(([s] + next) + more) == CopyAll(next + more)
  {
    var all := ([s] + next) + more;
    assert all[0] == s && all[1..] == next + more;
    CopyFirst(all);
  }

  /** The outer loop. */
  method WalkAll(start: seq<Frame>, ghost plan: map<Node, Copy>, ghost order: seq<Node>)
    returns (ghost plan': map<Node, Copy>, ghost order': seq<Node>, ghost visits: nat)
    requires Planned(plan, start) && (forall f <- start :: f.rest != []) && Placed(plan, order)
    modifies plan.Keys
    ensures Planned(plan', []) && Extends(plan, plan') && fresh(plan'.Keys - plan.Keys)
    ensures Placed(plan', order') && order <= order' && |plan'| == |plan| + Ahead(start)
    ensures visits == Work(start)
  {
    var stack := start;
    plan', order', visits := plan, order, 0;
    while |stack| > 0
      invariant Planned(plan', stack) && Extends(plan, plan') && fresh(plan'.Keys - plan.Keys)
      invariant forall f <- stack :: f.rest != []
      invariant visits + Work(stack) == Work(start)
      invariant Placed(plan', order') && order <= order' && |plan'| + Ahead(stack) == |plan| + Ahead(start)
      decreases Work(stack)
    {
      var top, rest := stack[|stack| - 1], stack[..|stack| - 1];
      assert top in stack && stack == Pushed(rest, top.rest, top.parent);
      ghost var seen;
      stack, plan', order', seen := WalkDown(top.rest, top.parent, rest, plan', order');
      visits := visits + seen;
    }
    assert stack == [];
  }

  lemma PlannedStart(src: Source, root: Node, plan: map<Node, Copy>, stack: seq<Frame>)
    requires root.kids == [] && root.content == null
    requires plan == map[root := Filled(src, root.tag)]
    requires stack == Pushed(Pushed([], src.kids, root), TemplateKids(src), root)
    ensures Planned(plan, stack) && forall f <- stack :: f.rest != []
    ensures Work(stack) == Visits(TemplateKids(src)) + Visits(src.kids)
    ensures Placed(plan, [root]) && |plan| + Ahead(stack) == Nodes([Filled(src, root.tag)])
  {
    PendingStart(src, root, stack);
    PlannedFresh(plan, stack, root, TemplateKids(src) + src.kids);
    PlannedOne(plan, stack, root);
  }

  lemma PendingStart(src: Source, root: Node, stack: seq<Frame>)
    requires stack == Pushed(Pushed([], src.kids, root), TemplateKids(src), root)
    ensures Pending(stack, root) == TemplateKids(src) + src.kids
    ensures Work(stack) == Visits(TemplateKids(src)) + Visits(src.kids)
    ensures Ahead(stack) == Nodes(CopyAll(TemplateKids(src) + src.kids))
    ensures forall f <- stack :: f.parent == root && f.rest != []
  {
    var first := Pushed([], src.kids, root);
    PendingPushed([], src.kids, root, root);
    assert src.kids + [] == src.kids;
    CopyJoined(TemplateKids(src), src.kids);
    NodesJoined(CopyAll(TemplateKids(src)), CopyAll(src.kids));
    PendingPushed(first, TemplateKids(src), root, root);
    PushedFrames([], src.kids, root);
    PushedFrames(first, TemplateKids(src), root);
  }

  lemma {:induction false} CopyJoined(a: seq<Source>, b: seq<Source>)
    ensures CopyAll(a + b) == CopyAll(a) + CopyAll(b)
  {
    if a == [] {
      assert a + b == b;
    } else {
      assert (a + b)[0] == a[0] && (a + b)[1..] == a[1..] + b;
      CopyFirst(a);
      CopyFirst(a + b);
      CopyJoined(a[1..], b);
    }
  }

  lemma {:induction false} NodesJoined(a: seq<Copy>, b: seq<Copy>)
    ensures Nodes(a + b) == Nodes(a) + Nodes(b)
  {
    if a == [] {
      assert a + b == b;
    } else {
      assert (a + b)[0] == a[0] && (a + b)[1..] == a[1..] + b;
      NodesJoined(a[1..], b);
    }
  }

  lemma PlannedOne(plan: map<Node, Copy>, stack: seq<Frame>, root: Node)
    requires plan.Keys == {root} && PlannedAt(plan, stack, root) && forall f <- stack :: f.parent == root
    ensures Planned(plan, stack)
  {
  }

  /** What a root is filled with: the contents of a template come before its children. */
  function Filled(src: Source, tag: Label): Copy {
    Copy(tag, CopyAll(TemplateKids(src) + src.kids), false, [])
  }

  /** Fills the root with the converted children of the source: what is made is a tree, every node at one
      place, and each source node that is reached is looked at once. */
  method WalkInto(src: Source, root: Node) returns (ghost made: set<Node>, ghost visits: nat)
    requires root.kids == [] && root.content == null
    modifies root
    ensures root in made && fresh(made - {root})
    ensures IsTree(made, root, Filled(src, root.tag))
    ensures visits == Visits(TemplateKids(src)) + Visits(src.kids)
  {
    ghost var plan: map<Node, Copy>, order := map[root := Filled(src, root.tag)], [root];
    var stack := Pushed(Pushed([], src.kids, root), TemplateKids(src), root);
    PlannedStart(src, root, plan, stack);
    plan, order, visits := WalkAll(stack, plan, order);
    PlannedShows(plan, root);
    made := plan.Keys;
    HangingTree(made, order, Filled(src, root.tag));
  }

  /** What is made of a whole document: nothing when its root becomes nothing, else a tree; it is the
      recursive copy exactly if the root is no template with contents. */
  method ConvertRoot(src: Source) returns (root: Node?, ghost made: set<Node>)
    ensures Convert(src).None? ==> root == null
    ensures Convert(src).Some? ==> root != null && fresh(made) && root in made
    ensures Convert(src).Some? ==> IsTree(made, root, Filled(src, Convert(src).value))
    ensures Convert(src).Some? ==> (IsTree(made, root, CopyOf(src, Convert(src).value)) <==> TemplateKids(src) == [])
  {
    match Convert(src)
    case None =>
      root, made := null, {};
    case Some(tag) =>
      var out := new Node(tag);
      ghost var visits;
      made, visits := WalkInto(src, out);
      assert TemplateKids(src) == [] ==> TemplateKids(src) + src.kids == src.kids && CopyAll([]) == [];
      root := out;
  }
}
