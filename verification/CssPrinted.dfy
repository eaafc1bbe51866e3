/** Component values written down and parsed again.  A text is put together from pieces; the parser gives
    back exactly these pieces, each with its kind, value, number and place. */
module CssPrinted {
  import opened Ascii
  import opened Wrappers
  import opened CssTokens
  import opened CssParser
  import opened CssNumbers

  datatype Piece =
    | Num(n: Numeral) | Pct(n: Numeral) | Dim(n: Numeral, unit: string)
    | Word(name: string) | Keyword(name: string) | Id(name: string)
    | Quoted(quote: char, text: string) | Mark(c: char) | Note(text: string)
    | Call(name: string, inner: seq<Piece>) | Box(opener: char, inner: seq<Piece>)

  function Text(p: Piece): string
    decreases p
  {
    match p
    case Num(n) => NumeralText(n)
    case Pct(n) => NumeralText(n) + "%"
    case Dim(n, unit) => NumeralText(n) + unit
    case Word(name) => name
    case Keyword(name) => "@" + name
    case Id(name) => "#" + name
    case Quoted(quote, text) => [quote] + (text + [quote])
    case Mark(c) => [c]
    case Note(text) => "/*" + (text + "*/")
    case Call(name, inner) => name + ("(" + (Texts(inner) + ")"))
    case Box(opener, inner) => [opener] + (Texts(inner) + [CloserOf(opener)])
  }

  /** The pieces with a space between neighbours. */
  function Texts(ps: seq<Piece>): string
    decreases ps
  {
    if ps == [] then "" else Text(ps[0]) + Following(ps[1..])
  }

  function Following(ps: seq<Piece>): string
    decreases ps
  {
    if ps == [] then "" else " " + (Text(ps[0]) + Following(ps[1..]))
  }

  // ---- which pieces can be written ----

  predicate NameText(t: string) { t != "" && forall k :: 0 <= k < |t| ==> IsName(t[k]) }

  predicate IdentText(t: string) {
    NameText(t) &&
    (IsNameStart(t[0]) || (t[0] == '-' && |t| > 1 && (IsNameStart(t[1]) || t[1] == '-')))
  }

  /** A unit that begins like an exponent. */
  predicate Exponential(u: string) {
    |u| > 1 && (u[0] == 'e' || u[0] == 'E') && (IsDigit(u[1]) || (u[1] == '-' && |u| > 2 && IsDigit(u[2])))
  }

  predicate IsMark(c: char) {
    !IsWs(c) && !IsDigit(c) && !IsNameStart(c) && !IsOpener(c) && !IsCloser(c) && c !in "\"'\\"
  }

  predicate Writable(p: Piece)
    decreases p
  {
    match p
    case Num(n) => IsNumeral(n)
    case Pct(n) => IsNumeral(n)
    case Dim(n, unit) => IsNumeral(n) && IdentText(unit) && (n.exponent == "" ==> !Exponential(unit))
    case Word(name) => IdentText(name)
    case Keyword(name) => IdentText(name)
    case Id(name) => NameText(name)
    case Quoted(quote, text) =>
      (quote == '"' || quote == '\'') &&
      forall k :: 0 <= k < |text| ==> text[k] != quote && text[k] != '\\' && !IsNewline(text[k])
    case Mark(c) => IsMark(c)
    case Note(text) => forall k :: 0 <= k < |text| - 1 ==> !(text[k] == '*' && text[k + 1] == '/')
    case Call(name, inner) => IdentText(name) && forall k :: 0 <= k < |inner| ==> Writable(inner[k])
    case Box(opener, inner) => IsOpener(opener) && forall k :: 0 <= k < |inner| ==> Writable(inner[k])
  }

  // ---- what is to be read ----

  function MarkKind(c: char): Kind {
    match c
    case ':' => Colon
    case ';' => Semicolon
    case ',' => Comma
    case _ => Delim
  }

  /** The component of a piece that is written at a place. */
  function Placed(p: Piece, at: nat): Component
    requires !p.Note?
    decreases p, 0
  {
    var end := at + |Text(p)|;
    match p
    case Num(n) => Leaf(Number, at, end, "", NumeralText(n), NONE)
    case Pct(n) => Leaf(Percentage, at, end, "%", NumeralText(n), NONE)
    case Dim(n, unit) => Leaf(Dimension, at, end, unit, NumeralText(n), NONE)
    case Word(name) => Leaf(Ident, at, end, name, "", NONE)
    case Keyword(name) => Leaf(AtKeyword, at, end, name, "", NONE)
    case Id(name) => Leaf(Hash, at, end, name, "", NONE)
    case Quoted(quote, text) => Leaf(String, at, end, text, "", quote)
    case Mark(c) => Leaf(MarkKind(c), at, end, "", "", c)
    case Call(name, inner) => Component(Function, at, end, name, "", ')', PlacedAll(inner, at + |name| + 1))
    case Box(opener, inner) => Component(Block, at, end, "", "", CloserOf(opener), PlacedAll(inner, at + 1))
  }

  function Own(p: Piece, at: nat): seq<Component>
    decreases p, 1
  {
    if p.Note? then [] else [Placed(p, at)]
  }

  function PlacedAll(ps: seq<Piece>, at: nat): seq<Component>
    decreases ps, 0
  {
    if ps == [] then [] else Own(ps[0], at) + PlacedRest(ps[1..], at + |Text(ps[0])|)
  }

  /** The white space between two pieces is a component too. */
  function PlacedRest(ps: seq<Piece>, at: nat): seq<Component>
    decreases ps, 0
  {
    if ps == [] then []
    else
      [Leaf(Whitespace, at, at + 1, "", "", NONE)] +
      (Own(ps[0], at + 1) + PlacedRest(ps[1..], at + 1 + |Text(ps[0])|))
  }

  // ---- single pieces ----

  /** What follows a piece: nothing, a space, or a closing bracket. */
  predicate Ends(s: string, j: nat) {
    j == |s| || (j < |s| && (s[j] == ' ' || IsCloser(s[j])))
  }

  lemma {:induction false} NameStands(s: string, i: nat, t: string)
    requires At(s, i, t) && forall k :: 0 <= k < |t| ==> IsName(t[k])
    requires i + |t| == |s| || (!IsName(s[i + |t|]) && s[i + |t|] != '\\')
    ensures NameEnd(s, i) == i + |t|
    decreases |t|
  {
    if t != "" {
      AtChar(s, i, t, 0);
      assert t == [t[0]] + t[1..];
      AtParts(s, i, [t[0]], t[1..]);
      NameStands(s, i + 1, t[1..]);
    }
  }

  lemma IdentStands(s: string, i: nat, t: string)
    requires At(s, i, t) && IdentText(t)
    ensures StartsIdent(s, i) && s[i] == t[0]
    ensures !StartsNumber(s, i) && !IsWs(s[i]) && s[i] !in "\"'@#" && !CommentAt(s, i) && !IsCloser(s[i])
  {
    AtChar(s, i, t, 0);
    if |t| > 1 { AtChar(s, i, t, 1); }
  }

  lemma NumeralFirst(s: string, i: nat, n: Numeral)
    requires IsNumeral(n) && At(s, i, NumeralText(n))
    ensures i < |s| && StartsNumber(s, i)
    ensures !IsWs(s[i]) && s[i] !in "\"'" && !CommentAt(s, i) && !IsCloser(s[i])
  {
    NumeralStarts(s, i, n);
  }

  /** Nothing that ends a piece continues a numeral, and a percent sign does not. */
  lemma NumeralEnds(s: string, i: nat, j: nat, n: Numeral)
    requires IsNumeral(n) && At(s, i, NumeralText(n)) && j == i + |NumeralText(n)|
    requires Ends(s, j) || (j < |s| && s[j] == '%')
    ensures NumberEnd(s, i) == j
  {
    NothingContinues(s, j, n);
    NumeralRead(s, i, j, n);
  }

  lemma NothingContinues(s: string, j: nat, n: Numeral)
    requires Ends(s, j) || (j < |s| && s[j] == '%')
    ensures !Continues(s, j, n)
  {
  }

  lemma UnitEnds(s: string, i: nat, j: nat, n: Numeral, unit: string)
    requires IsNumeral(n) && IdentText(unit) && At(s, i, NumeralText(n)) && j == i + |NumeralText(n)|
    requires At(s, j, unit) && Ends(s, j + |unit|)
    ensures NumberEnd(s, i) == j <==> (n.exponent == "" ==> !Exponential(unit))
  {
    UnitContinues(s, j, unit);
    if n.exponent == "" && Exponential(unit) {
      LongerNumeral(s, i, n);
    } else {
      UnitStops(s, i, j, n);
    }
  }

  lemma UnitStops(s: string, i: nat, j: nat, n: Numeral)
    requires IsNumeral(n) && At(s, i, NumeralText(n)) && j == i + |NumeralText(n)|
    requires !DigitAt(s, j) && FractionEnd(s, j) == j && (n.exponent == "" ==> ExponentEnd(s, j) == j)
    ensures NumberEnd(s, i) == j
  {
    NumeralRead(s, i, j, n);
  }

  lemma UnitContinues(s: string, j: nat, unit: string)
    requires IdentText(unit) && At(s, j, unit) && Ends(s, j + |unit|)
    ensures !DigitAt(s, j) && FractionEnd(s, j) == j && (ExponentEnd(s, j) > j <==> Exponential(unit))
  {
    AtChar(s, j, unit, 0);
    if |unit| > 1 { AtChar(s, j, unit, 1); }
    if |unit| > 2 { AtChar(s, j, unit, 2); }
    if ExponentEnd(s, j) > j {
      assert |unit| > 1;
    }
    if Exponential(unit) {
      assert DigitAt(s, if IsDigit(unit[1]) then j + 1 else j + 2);
    }
  }

  /** A numeral that an exponent follows is not read alone. */
  lemma LongerNumeral(s: string, i: nat, n: Numeral)
    requires IsNumeral(n) && At(s, i, NumeralText(n)) && n.exponent == ""
    requires var j := i + |NumeralText(n)|; !DigitAt(s, j) && FractionEnd(s, j) == j && ExponentEnd(s, j) > j
    ensures NumberEnd(s, i) > i + |NumeralText(n)|
  {
    PartsStand(s, i, n);
    SignStands(s, i, n);
    WholeStands(s, i, n);
    if n.fraction != "" { PointStands(s, i, n); }
  }

  lemma {:induction false} QuotedStands(s: string, i: nat, t: string, quote: char)
    requires At(s, i, t) && i + |t| < |s| && s[i + |t|] == quote
    requires forall k :: 0 <= k < |t| ==> t[k] != quote && t[k] != '\\' && !IsNewline(t[k])
    ensures StringStop(s, i, quote) == Some(i + |t|)
    decreases |t|
  {
    if t != "" {
      AtChar(s, i, t, 0);
      assert t == [t[0]] + t[1..];
      AtParts(s, i, [t[0]], t[1..]);
      QuotedStands(s, i + 1, t[1..], quote);
    }
  }

  lemma {:induction false} NoteStands(s: string, i: nat, t: string)
    requires At(s, i, t + "*/") && forall k :: 0 <= k < |t| - 1 ==> !(t[k] == '*' && t[k + 1] == '/')
    ensures CommentClose(s, i) == i + |t| + 2
    decreases |t|
  {
    AtChar(s, i, t + "*/", 0);
    AtChar(s, i, t + "*/", 1);
    if t != "" {
      assert t + "*/" == [t[0]] + (t[1..] + "*/");
      AtParts(s, i, [t[0]], t[1..] + "*/");
      if |t| > 1 { assert (t + "*/")[1] == t[1]; }
      NoteStands(s, i + 1, t[1..]);
    }
  }

  // ---- pieces without children ----

  lemma LeafIs(s: string, c: Component)
    requires c.start < |s| && !CommentAt(s, c.start) && !IsCloser(s[c.start]) && TokenAt(s, c.start) == Whole(c)
    ensures IsComponent(s, c)
  {
  }

  /** A number starts here, and its numeral ends at `j`. */
  ghost predicate NumberTo(s: string, i: nat, j: nat) {
    && i < j <= |s| && StartsNumber(s, i) && NumberEnd(s, i) == j
    && !IsWs(s[i]) && s[i] != '"' && s[i] != '\'' && !CommentAt(s, i) && !IsCloser(s[i])
  }

  lemma NumericIs(s: string, i: nat, j: nat)
    requires NumberTo(s, i, j)
    ensures IsComponent(s, NumericToken(s, i))
  {
    LeafIs(s, NumericToken(s, i));
  }

  lemma NumberToEnd(s: string, i: nat, n: Numeral)
    requires IsNumeral(n) && At(s, i, NumeralText(n)) && NumberEnd(s, i) == i + |NumeralText(n)|
    ensures NumberTo(s, i, i + |NumeralText(n)|)
  {
    NumeralFirst(s, i, n);
    NumberAdvances(s, i);
  }

  lemma NumeralTo(s: string, i: nat, n: Numeral)
    requires IsNumeral(n) && At(s, i, NumeralText(n))
    requires var j := i + |NumeralText(n)|; Ends(s, j) || s[j] == '%'
    ensures NumberTo(s, i, i + |NumeralText(n)|)
  {
    NumeralEnds(s, i, i + |NumeralText(n)|, n);
    NumberToEnd(s, i, n);
  }

  lemma NumStands(s: string, i: nat, n: Numeral)
    requires IsNumeral(n) && At(s, i, NumeralText(n)) && Ends(s, i + |NumeralText(n)|)
    ensures IsComponent(s, Placed(Num(n), i))
  {
    var j := i + |NumeralText(n)|;
    NumeralTo(s, i, n);
    assert Placed(Num(n), i) == Leaf(Number, i, j, "", s[i..j], NONE) by { AtSlice(s, i, NumeralText(n)); }
    NumIs(s, i, j, Placed(Num(n), i));
  }

  lemma NumIs(s: string, i: nat, j: nat, c: Component)
    requires NumberTo(s, i, j) && Ends(s, j)
    requires c == Leaf(Number, i, j, "", s[i..j], NONE)
    ensures IsComponent(s, c)
  {
    NumericIs(s, i, j);
  }

  lemma PctStands(s: string, i: nat, n: Numeral)
    requires IsNumeral(n) && At(s, i, NumeralText(n) + "%")
    ensures IsComponent(s, Placed(Pct(n), i))
  {
    var j := i + |NumeralText(n)|;
    PercentAt(s, i, NumeralText(n));
    NumeralTo(s, i, n);
    assert Placed(Pct(n), i) == Leaf(Percentage, i, j + 1, "%", s[i..j], NONE) by { AtSlice(s, i, NumeralText(n)); }
    PctIs(s, i, j, Placed(Pct(n), i));
  }

  lemma PctIs(s: string, i: nat, j: nat, c: Component)
    requires NumberTo(s, i, j) && j < |s| && s[j] == '%'
    requires c == Leaf(Percentage, i, j + 1, "%", s[i..j], NONE)
    ensures IsComponent(s, c)
  {
    NumericIs(s, i, j);
  }

  lemma PercentAt(s: string, i: nat, t: string)
    requires At(s, i, t + "%")
    ensures At(s, i, t) && i + |t| < |s| && s[i + |t|] == '%'
  {
    AtParts(s, i, t, "%");
    AtChar(s, i, t + "%", |t|);
  }

  lemma DimStands(s: string, i: nat, j: nat, n: Numeral, unit: string)
    requires Writable(Dim(n, unit)) && At(s, i, NumeralText(n)) && j == i + |NumeralText(n)|
    requires At(s, j, unit) && Ends(s, j + |unit|)
    ensures IsComponent(s, Leaf(Dimension, i, j + |unit|, unit, NumeralText(n), NONE))
  {
    assert NumberTo(s, i, j) by {
      UnitEnds(s, i, j, n, unit);
      NumberToEnd(s, i, n);
    }
    assert UnitTo(s, j, j + |unit|) by { UnitStands(s, j, unit); }
    assert s[i..j] == NumeralText(n) by { AtSlice(s, i, NumeralText(n)); }
    assert s[j..j + |unit|] == unit by { AtSlice(s, j, unit); }
    DimIs(s, i, j, j + |unit|, Leaf(Dimension, i, j + |unit|, unit, NumeralText(n), NONE));
  }

  lemma DimIs(s: string, i: nat, j: nat, k: nat, c: Component)
    requires NumberTo(s, i, j) && j < k && UnitTo(s, j, k)
    requires c == Leaf(Dimension, i, k, s[j..k], s[i..j], NONE)
    ensures IsComponent(s, c)
  {
    NumericIs(s, i, j);
  }

  ghost predicate UnitTo(s: string, j: nat, k: nat) {
    j < |s| && s[j] != '%' && StartsIdent(s, j) && NameEnd(s, j) == k
  }

  lemma UnitStands(s: string, j: nat, unit: string)
    requires IdentText(unit) && At(s, j, unit) && Ends(s, j + |unit|)
    ensures UnitTo(s, j, j + |unit|)
  {
    IdentStands(s, j, unit);
    NameStands(s, j, unit);
  }

  /** A name stands here, up to `j`. */
  ghost predicate NameTo(s: string, i: nat, j: nat) {
    && i < j <= |s| && StartsIdent(s, i) && NameEnd(s, i) == j
    && !StartsNumber(s, i) && !IsWs(s[i]) && s[i] !in "\"'@#" && !CommentAt(s, i) && !IsCloser(s[i])
  }

  lemma NameToEnd(s: string, i: nat, t: string)
    requires IdentText(t) && At(s, i, t)
    requires i + |t| == |s| || (!IsName(s[i + |t|]) && s[i + |t|] != '\\')
    ensures NameTo(s, i, i + |t|)
  {
    IdentStands(s, i, t);
    NameStands(s, i, t);
  }

  lemma WordStands(s: string, i: nat, name: string)
    requires IdentText(name) && At(s, i, name) && Ends(s, i + |name|)
    ensures IsComponent(s, Placed(Word(name), i))
  {
    NameToEnd(s, i, name);
    AtSlice(s, i, name);
    LeafIs(s, Placed(Word(name), i));
  }

  lemma KeywordStands(s: string, i: nat, name: string)
    requires IdentText(name) && At(s, i, "@" + name) && Ends(s, i + 1 + |name|)
    ensures IsComponent(s, Placed(Keyword(name), i))
  {
    AtParts(s, i, "@", name);
    AtChar(s, i, "@" + name, 0);
    NameToEnd(s, i + 1, name);
    AtSlice(s, i + 1, name);
    KeywordIs(s, i, i + 1 + |name|, Placed(Keyword(name), i));
  }

  lemma KeywordIs(s: string, i: nat, j: nat, c: Component)
    requires i < |s| && s[i] == '@' && NameTo(s, i + 1, j)
    requires c == Leaf(AtKeyword, i, j, s[i + 1..j], "", NONE)
    ensures IsComponent(s, c)
  {
    LeafIs(s, c);
  }

  lemma IdStands(s: string, i: nat, name: string)
    requires NameText(name) && At(s, i, "#" + name) && Ends(s, i + 1 + |name|)
    ensures IsComponent(s, Placed(Id(name), i))
  {
    AtParts(s, i, "#", name);
    AtChar(s, i, "#" + name, 0);
    AtChar(s, i + 1, name, 0);
    NameStands(s, i + 1, name);
    AtSlice(s, i + 1, name);
    IdIs(s, i, i + 1 + |name|, Placed(Id(name), i));
  }

  lemma IdIs(s: string, i: nat, j: nat, c: Component)
    requires i + 1 < |s| && s[i] == '#' && IsName(s[i + 1]) && NameEnd(s, i + 1) == j
    requires c == Leaf(Hash, i, j, s[i + 1..j], "", NONE)
    ensures IsComponent(s, c)
  {
    LeafIs(s, c);
  }

  lemma QuotedPiece(s: string, i: nat, quote: char, text: string)
    requires Writable(Quoted(quote, text)) && At(s, i, [quote] + (text + [quote]))
    ensures IsComponent(s, Placed(Quoted(quote, text), i))
  {
    QuotesAt(s, i, quote, text);
    QuotedStands(s, i + 1, text, quote);
    AtSlice(s, i + 1, text);
    QuotedIs(s, i, i + 1 + |text|, Placed(Quoted(quote, text), i));
  }

  lemma QuotesAt(s: string, i: nat, quote: char, text: string)
    requires At(s, i, [quote] + (text + [quote]))
    ensures At(s, i + 1, text) && i + 1 + |text| < |s| && s[i] == quote == s[i + 1 + |text|]
  {
    AtParts(s, i, [quote], text + [quote]);
    AtParts(s, i + 1, text, [quote]);
    AtChar(s, i, [quote], 0);
    AtChar(s, i + 1 + |text|, [quote], 0);
  }

  lemma QuotedIs(s: string, i: nat, j: nat, c: Component)
    requires i < j < |s| && (s[i] == '"' || s[i] == '\'') && StringStop(s, i + 1, s[i]) == Some(j)
    requires c == Leaf(String, i, j + 1, s[i + 1..j], "", s[i])
    ensures IsComponent(s, c)
  {
    LeafIs(s, c);
  }

  lemma MarkPiece(s: string, i: nat, c: char)
    requires IsMark(c) && At(s, i, [c]) && Ends(s, i + 1)
    ensures IsComponent(s, Placed(Mark(c), i))
  {
    AtChar(s, i, [c], 0);
    MarkIsChar(s, i);
    LeafIs(s, Placed(Mark(c), i));
  }

  lemma MarkIsChar(s: string, i: nat)
    requires i < |s| && IsMark(s[i]) && Ends(s, i + 1)
    ensures !CommentAt(s, i) && TokenAt(s, i) == CharToken(s, i)
  {
  }

  lemma NoteEnds(s: string, i: nat, text: string)
    requires Writable(Note(text)) && At(s, i, Text(Note(text)))
    ensures CommentAt(s, i) && CommentEnd(s, i) == i + |Text(Note(text))|
  {
    AtParts(s, i, "/*", text + "*/");
    AtChar(s, i, "/*", 0);
    AtChar(s, i, "/*", 1);
    NoteStands(s, i + 2, text);
  }

  /** The first character of a piece begins no white space. */
  lemma FirstOf(s: string, i: nat, p: Piece)
    requires Writable(p) && At(s, i, Text(p))
    ensures |Text(p)| > 0 && i < |s| && !IsWs(s[i])
  {
    match p
    case Num(n) => NumeralFirst(s, i, n);
    case Pct(n) =>
      AtParts(s, i, NumeralText(n), "%");
      NumeralFirst(s, i, n);
    case Dim(n, unit) =>
      AtParts(s, i, NumeralText(n), unit);
      NumeralFirst(s, i, n);
    case _ => AtChar(s, i, Text(p), 0);
  }

  // ---- lists ----

  lemma LeafStands(s: string, i: nat, p: Piece)
    requires !p.Note? && !p.Call? && !p.Box? && Writable(p) && At(s, i, Text(p)) && Ends(s, i + |Text(p)|)
    ensures IsComponent(s, Placed(p, i))
  {
    match p
    case Num(n) => NumStands(s, i, n);
    case Pct(n) => PctStands(s, i, n);
    case Dim(n, unit) =>
      AtParts(s, i, NumeralText(n), unit);
      DimStands(s, i, i + |NumeralText(n)|, n, unit);
    case Word(name) => WordStands(s, i, name);
    case Keyword(name) => KeywordStands(s, i, name);
    case Id(name) => IdStands(s, i, name);
    case Quoted(quote, text) => QuotedPiece(s, i, quote, text);
    case Mark(c) => MarkPiece(s, i, c);
  }

  lemma {:induction false} PieceStands(s: string, i: nat, p: Piece)
    requires !p.Note? && Writable(p) && At(s, i, Text(p)) && Ends(s, i + |Text(p)|)
    ensures IsComponent(s, Placed(p, i))
    decreases p, 1
  {
    match p
    case Call(name, inner) =>
      CallAt(s, i, name, Texts(inner));
      CallStands(s, i, i + |name|, name, inner);
    case Box(opener, inner) =>
      BoxAt(s, i, opener, Texts(inner));
      BoxStands(s, i, i + 1 + |Texts(inner)|, opener, inner);
    case _ => LeafStands(s, i, p);
  }

  lemma {:induction false} CallStands(s: string, i: nat, j: nat, name: string, inner: seq<Piece>)
    requires IdentText(name) && forall k :: 0 <= k < |inner| ==> Writable(inner[k])
    requires At(s, i, name) && j == i + |name| < |s| && s[j] == '(' && At(s, j + 1, Texts(inner))
    requires j + 1 + |Texts(inner)| < |s| && s[j + 1 + |Texts(inner)|] == ')'
    ensures IsComponent(s, Placed(Call(name, inner), i))
    decreases inner, 3
  {
    var hi, cs := j + |Texts(inner)| + 2, PlacedAll(inner, j + 1);
    assert NameTo(s, i, j) by { NameToEnd(s, i, name); }
    assert IsList(s, j + 1, hi, cs, ')') by { InnerStands(s, j + 1, inner, ')'); }
    assert Placed(Call(name, inner), i) == Component(Function, i, hi, s[i..j], "", ')', cs) by {
      CallPlaced(i, name, inner);
      AtSlice(s, i, name);
    }
    CallIs(s, i, j, hi, cs, Placed(Call(name, inner), i));
  }

  lemma CallPlaced(i: nat, name: string, inner: seq<Piece>)
    ensures Placed(Call(name, inner), i) ==
      Component(Function, i, i + |name| + |Texts(inner)| + 2, name, "", ')', PlacedAll(inner, i + |name| + 1))
  {
  }

  lemma {:induction false} BoxStands(s: string, i: nat, hi: nat, opener: char, inner: seq<Piece>)
    requires IsOpener(opener) && forall k :: 0 <= k < |inner| ==> Writable(inner[k])
    requires i < |s| && s[i] == opener && At(s, i + 1, Texts(inner)) && hi == i + 1 + |Texts(inner)|
    requires hi < |s| && s[hi] == CloserOf(opener)
    ensures IsComponent(s, Placed(Box(opener, inner), i))
    decreases inner, 3
  {
    InnerStands(s, i + 1, inner, CloserOf(opener));
    BoxPlaced(i, hi, opener, inner);
    BoxIs(s, i, hi + 1, PlacedAll(inner, i + 1), Placed(Box(opener, inner), i));
  }

  lemma BoxPlaced(i: nat, hi: nat, opener: char, inner: seq<Piece>)
    requires hi == i + 1 + |Texts(inner)|
    ensures Placed(Box(opener, inner), i) ==
      Component(Block, i, hi + 1, "", "", CloserOf(opener), PlacedAll(inner, i + 1))
  {
  }

  lemma CallAt(s: string, i: nat, name: string, text: string)
    requires At(s, i, name + ("(" + (text + ")")))
    ensures At(s, i, name) && i + |name| + 1 + |text| < |s| && s[i + |name|] == '('
    ensures At(s, i + |name| + 1, text) && s[i + |name| + 1 + |text|] == ')'
  {
    AtParts(s, i, name, "(" + (text + ")"));
    AtParts(s, i + |name|, "(", text + ")");
    AtParts(s, i + |name| + 1, text, ")");
    AtChar(s, i + |name|, "(", 0);
    AtChar(s, i + |name| + 1 + |text|, ")", 0);
  }

  lemma BoxAt(s: string, i: nat, opener: char, text: string)
    requires At(s, i, [opener] + (text + [CloserOf(opener)]))
    ensures i + 1 + |text| < |s| && s[i] == opener && At(s, i + 1, text) && s[i + 1 + |text|] == CloserOf(opener)
  {
    AtParts(s, i, [opener], text + [CloserOf(opener)]);
    AtParts(s, i + 1, text, [CloserOf(opener)]);
    AtChar(s, i, [opener], 0);
    AtChar(s, i + 1 + |text|, [CloserOf(opener)], 0);
  }

  lemma CallIs(s: string, i: nat, j: nat, hi: nat, cs: seq<Component>, c: Component)
    requires NameTo(s, i, j) && j < |s| && s[j] == '(' && IsList(s, j + 1, hi, cs, ')')
    requires c == Component(Function, i, hi, s[i..j], "", ')', cs)
    ensures IsComponent(s, c)
  {
    assert TokenAt(s, i) == Opens(Function, s[i..j], j + 1, ')');
    OpensComponent(s, c, j + 1);
  }

  lemma BoxIs(s: string, i: nat, hi: nat, cs: seq<Component>, c: Component)
    requires i < |s| && IsOpener(s[i]) && IsList(s, i + 1, hi, cs, CloserOf(s[i]))
    requires c == Component(Block, i, hi, "", "", CloserOf(s[i]), cs)
    ensures IsComponent(s, c)
  {
    assert TokenAt(s, i) == Opens(Block, "", i + 1, CloserOf(s[i]));
    OpensComponent(s, c, i + 1);
  }

  lemma {:induction false} InnerStands(s: string, lo: nat, ps: seq<Piece>, closer: char)
    requires (forall k :: 0 <= k < |ps| ==> Writable(ps[k])) && At(s, lo, Texts(ps)) && IsCloser(closer)
    requires lo + |Texts(ps)| < |s| && s[lo + |Texts(ps)|] == closer
    ensures IsList(s, lo, lo + |Texts(ps)| + 1, PlacedAll(ps, lo), closer)
    decreases ps, 2
  {
    CloserEnds(s, lo + |Texts(ps)|, closer);
    ListStands(s, lo, lo + |Texts(ps)| + 1, ps, closer);
  }

  lemma CloserEnds(s: string, m: nat, closer: char)
    requires m < |s| && s[m] == closer && IsCloser(closer)
    ensures EndsAt(s, m, m + 1, closer)
  {
  }

  lemma {:induction false} ListStands(s: string, lo: nat, hi: nat, ps: seq<Piece>, closing: char)
    requires (forall k :: 0 <= k < |ps| ==> Writable(ps[k])) && At(s, lo, Texts(ps))
    requires EndsAt(s, lo + |Texts(ps)|, hi, closing) && (closing == NONE || IsCloser(closing))
    ensures IsList(s, lo, hi, PlacedAll(ps, lo), closing)
    decreases ps, 1
  {
    if ps == [] {
      NoneStand(s, lo, hi, closing);
    } else {
      SplitFirst(s, lo, ps);
      FirstStands(s, lo, lo + |Text(ps[0])|, hi, ps, closing, PlacedAll(ps, lo));
    }
  }

  lemma SplitFirst(s: string, lo: nat, ps: seq<Piece>)
    requires ps != [] && At(s, lo, Texts(ps))
    ensures At(s, lo, Text(ps[0])) && At(s, lo + |Text(ps[0])|, Following(ps[1..]))
    ensures |Texts(ps)| == |Text(ps[0])| + |Following(ps[1..])|
  {
    AtParts(s, lo, Text(ps[0]), Following(ps[1..]));
  }

  lemma SplitNext(s: string, j: nat, ps: seq<Piece>)
    requires ps != [] && At(s, j, Following(ps))
    ensures j < |s| && s[j] == ' '
    ensures At(s, j + 1, Text(ps[0])) && At(s, j + 1 + |Text(ps[0])|, Following(ps[1..]))
    ensures |Following(ps)| == 1 + |Text(ps[0])| + |Following(ps[1..])|
  {
    AtParts(s, j, " ", Text(ps[0]) + Following(ps[1..]));
    AtChar(s, j, " ", 0);
    AtParts(s, j + 1, Text(ps[0]), Following(ps[1..]));
  }

  lemma NoneStand(s: string, j: nat, hi: nat, closing: char)
    requires EndsAt(s, j, hi, closing)
    ensures IsList(s, j, hi, [], closing)
  {
    assert Gap(s, j, j);
  }

  lemma {:induction false} FirstStands(s: string, lo: nat, mid: nat, hi: nat, ps: seq<Piece>, closing: char,
                                       cs: seq<Component>)
    requires ps != [] && forall k :: 0 <= k < |ps| ==> Writable(ps[k])
    requires cs == Own(ps[0], lo) + PlacedRest(ps[1..], mid)
    requires At(s, lo, Text(ps[0])) && mid == lo + |Text(ps[0])| && At(s, mid, Following(ps[1..]))
    requires EndsAt(s, mid + |Following(ps[1..])|, hi, closing) && (closing == NONE || IsCloser(closing))
    ensures IsList(s, lo, hi, cs, closing)
    decreases ps, 0
  {
    RestStands(s, mid, hi, ps[1..], closing);
    OneStands(s, lo, mid, hi, ps[0], PlacedRest(ps[1..], mid), closing);
  }

  /** One piece and what is read behind it. */
  lemma {:induction false} OneStands(s: string, i: nat, j: nat, hi: nat, p: Piece, cs: seq<Component>, closing: char)
    requires Writable(p) && At(s, i, Text(p)) && j == i + |Text(p)| && Ends(s, j)
    requires IsList(s, j, hi, cs, closing)
    ensures IsList(s, i, hi, Own(p, i) + cs, closing)
    decreases p, 2
  {
    if p.Note? {
      NoteEnds(s, i, p.text);
      NoteBefore(s, i, hi, cs, closing);
      assert Own(p, i) + cs == cs;
    } else {
      PieceStands(s, i, p);
      PlacedEnds(p, i);
      ComponentBefore(s, Placed(p, i), hi, cs, closing);
    }
  }

  lemma PlacedEnds(p: Piece, i: nat)
    requires !p.Note?
    ensures Placed(p, i).start == i && Placed(p, i).end == i + |Text(p)|
  {
  }

  lemma ComponentBefore(s: string, c: Component, hi: nat, cs: seq<Component>, closing: char)
    requires IsComponent(s, c) && IsList(s, c.end, hi, cs, closing)
    ensures IsList(s, c.start, hi, [c] + cs, closing)
  {
    assert Gap(s, c.start, c.start) && ([c] + cs)[1..] == cs;
  }

  lemma NoteBefore(s: string, i: nat, hi: nat, cs: seq<Component>, closing: char)
    requires CommentAt(s, i) && IsList(s, CommentEnd(s, i), hi, cs, closing)
    ensures IsList(s, i, hi, cs, closing)
  {
    if cs == [] {
      var j :| Gap(s, CommentEnd(s, i), j) && EndsAt(s, j, hi, closing);
      assert Gap(s, i, j);
    }
  }

  /** What stands behind a piece: spaces and pieces in turn. */
  lemma {:induction false} RestStands(s: string, j: nat, hi: nat, ps: seq<Piece>, closing: char)
    requires (forall k :: 0 <= k < |ps| ==> Writable(ps[k])) && At(s, j, Following(ps))
    requires EndsAt(s, j + |Following(ps)|, hi, closing) && (closing == NONE || IsCloser(closing))
    ensures IsList(s, j, hi, PlacedRest(ps, j), closing) && Ends(s, j)
    decreases ps, 1
  {
    if ps == [] {
      assert Gap(s, j, j);
    } else {
      SplitNext(s, j, ps);
      FirstStands(s, j + 1, j + 1 + |Text(ps[0])|, hi, ps, closing,
                  Own(ps[0], j + 1) + PlacedRest(ps[1..], j + 1 + |Text(ps[0])|));
      FirstOf(s, j + 1, ps[0]);
      SpaceBefore(s, j, hi, Own(ps[0], j + 1) + PlacedRest(ps[1..], j + 1 + |Text(ps[0])|), closing);
    }
  }

  lemma SpaceBefore(s: string, j: nat, hi: nat, cs: seq<Component>, closing: char)
    requires j + 1 < |s| && s[j] == ' ' && !IsWs(s[j + 1]) && IsList(s, j + 1, hi, cs, closing)
    ensures IsList(s, j, hi, [Leaf(Whitespace, j, j + 1, "", "", NONE)] + cs, closing)
  {
    var c := Leaf(Whitespace, j, j + 1, "", "", NONE);
    RunReaches(s, j, j + 1, IsWs, |s|);
    assert WsEnd(s, j) == j + 1;
    ComponentBefore(s, c, hi, cs, closing);
  }

  /** Whatever is put together from pieces is a value, and its only reading gives these pieces back. */
  lemma PrintedIsRead(ps: seq<Piece>)
    requires forall k :: 0 <= k < |ps| ==> Writable(ps[k])
    ensures IsValue(Texts(ps), PlacedAll(ps, 0))
    ensures forall cs :: IsValue(Texts(ps), cs) ==> cs == PlacedAll(ps, 0)
  {
    var s := Texts(ps);
    assert s[0..|s|] == s;
    ListStands(s, 0, |s|, ps, NONE);
    forall cs | IsValue(s, cs) ensures cs == PlacedAll(ps, 0) {
      ListUnique(s, 0, |s|, cs, |s|, PlacedAll(ps, 0), NONE);
    }
  }

  /** A numeral and a unit make one dimension, if and only if the unit does not go on with the numeral as
      an exponent. */
  lemma DimensionExactly(n: Numeral, unit: string)
    requires IsNumeral(n) && IdentText(unit)
    ensures var t := NumeralText(n) + unit;
      IsValue(t, [Leaf(Dimension, 0, |t|, unit, NumeralText(n), NONE)])
      <==> (n.exponent == "" ==> !Exponential(unit))
  {
    var t := NumeralText(n) + unit;
    assert At(t, 0, t);
    AtParts(t, 0, NumeralText(n), unit);
    UnitEnds(t, 0, |NumeralText(n)|, n, unit);
    if n.exponent == "" ==> !Exponential(unit) {
      DimAlone(n, unit);
    } else {
      NotDim(t, n, unit);
    }
  }

  lemma DimAlone(n: Numeral, unit: string)
    requires Writable(Dim(n, unit))
    ensures IsValue(NumeralText(n) + unit, [Placed(Dim(n, unit), 0)])
  {
    var p := Dim(n, unit);
    PrintedIsRead([p]);
    assert Texts([p]) == Text(p) + Following([]) == Text(p);
    assert PlacedAll([p], 0) == Own(p, 0) + PlacedRest([], |Text(p)|) == [Placed(p, 0)];
  }

  lemma NotDim(t: string, n: Numeral, unit: string)
    requires IsNumeral(n) && At(t, 0, NumeralText(n)) && NumberEnd(t, 0) != |NumeralText(n)|
    ensures !IsValue(t, [Leaf(Dimension, 0, |t|, unit, NumeralText(n), NONE)])
  {
    var c := Leaf(Dimension, 0, |t|, unit, NumeralText(n), NONE);
    NumeralFirst(t, 0, n);
    OtherNumber(t, c);
    FirstIsComponent(t, c);
  }

  lemma OtherNumber(t: string, c: Component)
    requires c.start == 0 < |t| && StartsNumber(t, 0) && !IsWs(t[0]) && t[0] !in "\"'"
    requires |c.number| != NumberEnd(t, 0)
    ensures !IsComponent(t, c)
  {
    assert TokenAt(t, 0) == Whole(NumericToken(t, 0)) && |NumericToken(t, 0).number| == NumberEnd(t, 0);
  }

  lemma FirstIsComponent(t: string, c: Component)
    ensures IsValue(t, [c]) ==> IsComponent(t, c)
  {
  }
}
