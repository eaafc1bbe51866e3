/** What a copy keeps of a parsed document: every text, element, comment and document type that is not
    under a dropped node, in document order and at its depth. */
module TreeContent {
  import opened Wrappers
  import opened TreeCopy

  /** A name or a text, and how deep it stands. */
  datatype Item = Item(depth: nat, text: string)

  /** The nodes that are dropped, with everything below them. */
  predicate Dropped(s: Source) {
    s.kind.Attribute? || s.kind.EntityReference? || s.kind.Entity? || s.kind.Notation?
  }

  /** The kinds of nodes a kind of label is made of; a label of a document has no text. */
  function KindsOf(k: LabelKind): set<SourceKind> {
    match k
    case ElementNode => {Element}
    case TextNode => {Text, CData}
    case CommentNode => {Comment, Instruction}
    case DocTypeNode => {DocType}
    case DocumentNode => {}
  }

  /** The nodes of some kinds in document order; the contents of a template stand under a node of
      their own, after its children. */
  function Written(list: seq<Source>, kinds: set<SourceKind>, depth: nat): seq<Item> {
    if list == [] then []
    else
      var s := list[0];
      var rest := Written(list[1..], kinds, depth);
      if Dropped(s) then rest
      else
        var own := if s.kind in kinds then [Item(depth, s.name)] else [];
        var content := if s.kind.Element? && s.template then Written(s.content, kinds, depth + 2) else [];
        own + Written(s.kids, kinds, depth + 1) + content + rest
  }

  /** The same of what is built. */
  function Kept(cs: seq<Copy>, k: LabelKind, depth: nat): seq<Item> {
    if cs == [] then []
    else
      var c := cs[0];
      (if c.tag.kind == k then [Item(depth, c.tag.text)] else []) + Kept(c.kids, k, depth + 1)
      + (if c.fragment then Kept(c.content, k, depth + 2) else []) + Kept(cs[1..], k, depth)
  }

  /** What a node becomes, by the kind it has. */
  lemma Becomes(s: Source, k: LabelKind)
    requires !k.DocumentNode?
    ensures Dropped(s) <==> Convert(s).None?
    ensures Convert(s).Some? ==> (Convert(s).value.kind == k <==> s.kind in KindsOf(k))
    ensures s.kind in KindsOf(k) ==> Convert(s).Some? && Convert(s).value.text == s.name
  {
  }

  /** Nothing of these kinds is lost, added, changed or moved. */
  lemma {:induction false} ContentKept(list: seq<Source>, k: LabelKind, depth: nat)
    requires !k.DocumentNode?
    ensures Kept(CopyAll(list), k, depth) == Written(list, KindsOf(k), depth)
    decreases list
  {
    if list != [] {
      var s := list[0];
      Becomes(s, k);
      ContentKept(list[1..], k, depth);
      CopyFirst(list);
      if Convert(s).Some? {
        var c := CopyOf(s, Convert(s).value);
        KeptFirst(c, CopyAll(list[1..]), k, depth);
        ContentKept(s.kids, k, depth + 1);
        if s.kind.Element? && s.template { ContentKept(s.content, k, depth + 2); }
      }
    }
  }

  lemma KeptFirst(c: Copy, cs: seq<Copy>, k: LabelKind, depth: nat)
    ensures Kept([c] + cs, k, depth) ==
      (if c.tag.kind == k then [Item(depth, c.tag.text)] else []) + Kept(c.kids, k, depth + 1)
      + (if c.fragment then Kept(c.content, k, depth + 2) else []) + Kept(cs, k, depth)
  {
    assert ([c] + cs)[0] == c && ([c] + cs)[1..] == cs;
  }
}
