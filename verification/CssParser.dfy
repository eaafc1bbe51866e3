/** Component values (CSS Syntax Module Level 3, section 5): a grammar, and the parser that
    accepts exactly it. */
module CssParser {
  import opened Ascii
  import opened Wrappers
  import opened CssTokens

  datatype Kind =
    | Whitespace | Ident | Function | String | Number | Percentage | Dimension | Hash | AtKeyword
    | Colon | Semicolon | Comma | Delim | Block

  /** `number` is the text of the number; `delimiter` is the quote, the single character, or the
      closing bracket, as the kind says. */
  datatype Component = Component(
    kind: Kind, start: nat, end: nat, value: string, number: string, delimiter: char, children: seq<Component>)

  const NONE := '\U{00}'

  function Leaf(kind: Kind, start: nat, end: nat, value: string, number: string, delimiter: char): Component
  {
    Component(kind, start, end, value, number, delimiter, [])
  }

  function CloserOf(c: char): char
  {
    if c == '(' then ')' else if c == '[' then ']' else '}'
  }

  predicate IsOpener(c: char)
  {
    c == '(' || c == '[' || c == '{'
  }

  predicate IsCloser(c: char)
  {
    c == ')' || c == ']' || c == '}'
  }

  /** What the token at `i` begins: a whole component, a bracketed one whose children start at
      `body`, or a string broken off by a newline. */
  datatype Token = Whole(c: Component) | Opens(kind: Kind, value: string, body: nat, closer: char) | Broken

  function StringToken(s: string, i: nat): Token
    requires i < |s|
  {
    match StringStop(s, i + 1, s[i])
    case None => Broken
    case Some(stop) =>
      Whole(Leaf(String, i, if stop < |s| then stop + 1 else stop, s[i + 1..stop], "", s[i]))
  }

  function NumericToken(s: string, i: nat): Component
    requires i < |s|
  {
    var n := NumberEnd(s, i);
    if n < |s| && s[n] == '%' then Leaf(Percentage, i, n + 1, "%", s[i..n], NONE)
    else if StartsIdent(s, n) then Leaf(Dimension, i, NameEnd(s, n), s[n..NameEnd(s, n)], s[i..n], NONE)
    else Leaf(Number, i, n, "", s[i..n], NONE)
  }

  function IdentToken(s: string, i: nat): Token
    requires i < |s|
  {
    var n := NameEnd(s, i);
    if n < |s| && s[n] == '(' then Opens(Function, s[i..n], n + 1, ')')
    else Whole(Leaf(Ident, i, n, s[i..n], "", NONE))
  }

  function CharToken(s: string, i: nat): Token
    requires i < |s|
  {
    var c := s[i];
    if IsOpener(c) then Opens(Block, "", i + 1, CloserOf(c))
    else
      var kind := if c == ':' then Colon else if c == ';' then Semicolon else if c == ',' then Comma else Delim;
      Whole(Leaf(kind, i, i + 1, "", "", c))
  }

  function TokenAt(s: string, i: nat): Token
    requires i < |s|
  {
    var c := s[i];
    if IsWs(c) then Whole(Leaf(Whitespace, i, WsEnd(s, i), "", "", NONE))
    else if c == '"' || c == '\'' then StringToken(s, i)
    else if StartsNumber(s, i) then Whole(NumericToken(s, i))
    else if c == '@' && StartsIdent(s, i + 1) then
      Whole(Leaf(AtKeyword, i, NameEnd(s, i + 1), s[i + 1..NameEnd(s, i + 1)], "", NONE))
    else if c == '#' && i + 1 < |s| && (IsName(s[i + 1]) || ValidEscape(s, i + 1)) then
      Whole(Leaf(Hash, i, NameEnd(s, i + 1), s[i + 1..NameEnd(s, i + 1)], "", NONE))
    else if StartsIdent(s, i) then IdentToken(s, i)
    else CharToken(s, i)
  }

  // ---- the grammar ----

  /** Only comments from `i` to `j`. */
  ghost predicate Gap(s: string, i: nat, j: nat)
    decreases |s| - i
  {
    i == j <= |s| || (CommentAt(s, i) && Gap(s, CommentEnd(s, i), j))
  }

  /** `c` is the component value that begins at its start. */
  ghost predicate IsComponent(s: string, c: Component)
    decreases c, 1
  {
    c.start < |s| && !CommentAt(s, c.start) && !IsCloser(s[c.start]) &&
    match TokenAt(s, c.start)
    case Whole(leaf) => c == leaf
    case Opens(kind, value, body, closer) =>
      && c.kind == kind && c.value == value && c.number == "" && c.delimiter == closer
      && body <= |s| && IsList(s, body, c.end, c.children, closer)
    case Broken => false
  }

  /** `cs` are the component values from `lo` up to `hi`, which is past the closing character,
      or the end of the input. */
  ghost predicate IsList(s: string, lo: nat, hi: nat, cs: seq<Component>, closing: char)
    decreases cs, 0
  {
    if cs == [] then exists j :: Gap(s, lo, j) && EndsAt(s, j, hi, closing)
    else Gap(s, lo, cs[0].start) && IsComponent(s, cs[0]) && IsList(s, cs[0].end, hi, cs[1..], closing)
  }

  ghost predicate EndsAt(s: string, j: nat, hi: nat, closing: char)
  {
    (j == |s| == hi) || (j < |s| && closing != NONE && s[j] == closing && !CommentAt(s, j) && hi == j + 1)
  }

  /** The whole input is a list of component values with every bracket matched or left open at
      the end, and no string broken by a newline. */
  ghost predicate IsValue(s: string, cs: seq<Component>)
  {
    IsList(s, 0, |s|, cs, NONE)
  }

  // ---- the grammar is unambiguous ----

  lemma {:induction false} GapEnds(s: string, i: nat, j: nat, k: nat)
    requires Gap(s, i, j) && Gap(s, i, k)
    requires (j == |s| || !CommentAt(s, j)) && (k == |s| || !CommentAt(s, k))
    ensures j == k
    decreases |s| - i
  {
    if CommentAt(s, i) {
      GapEnds(s, CommentEnd(s, i), j, k);
    }
  }

  lemma {:induction false} ComponentUnique(s: string, c: Component, d: Component)
    requires IsComponent(s, c) && IsComponent(s, d) && c.start == d.start
    ensures c == d
    decreases c, 1
  {
    match TokenAt(s, c.start)
    case Whole(leaf) =>
    case Opens(kind, value, body, closer) =>
      ListUnique(s, body, c.end, c.children, d.end, d.children, closer);
    case Broken =>
  }

  lemma {:induction false} ListUnique(s: string, lo: nat, hi: nat, cs: seq<Component>, hi': nat, ds: seq<Component>,
                                      closing: char)
    requires IsList(s, lo, hi, cs, closing) && IsList(s, lo, hi', ds, closing)
    requires closing == NONE || IsCloser(closing)
    ensures cs == ds && hi == hi'
    decreases cs, 0
  {
    if cs == [] {
      var j :| Gap(s, lo, j) && EndsAt(s, j, hi, closing);
      if ds == [] {
        var k :| Gap(s, lo, k) && EndsAt(s, k, hi', closing);
        GapEnds(s, lo, j, k);
      } else {
        GapEnds(s, lo, j, ds[0].start);
      }
    } else if ds == [] {
      var k :| Gap(s, lo, k) && EndsAt(s, k, hi', closing);
      GapEnds(s, lo, cs[0].start, k);
    } else {
      GapEnds(s, lo, cs[0].start, ds[0].start);
      ComponentUnique(s, cs[0], ds[0]);
      ListUnique(s, cs[0].end, hi, cs[1..], hi', ds[1..], closing);
    }
  }

  // ---- lists under construction ----

  /** `cs` are the component values from `lo` on, read as far as `p`. */
  ghost predicate Part(s: string, lo: nat, p: nat, cs: seq<Component>)
    decreases |cs|
  {
    if cs == [] then Gap(s, lo, p)
    else Gap(s, lo, cs[0].start) && IsComponent(s, cs[0]) && Part(s, cs[0].end, p, cs[1..])
  }

  ghost predicate NoList(s: string, lo: nat, closing: char)
  {
    forall hi, cs :: !IsList(s, lo, hi, cs, closing)
  }

  ghost predicate NoComponent(s: string, i: nat)
  {
    forall c: Component :: c.start == i ==> !IsComponent(s, c)
  }

  lemma {:induction false} GapMore(s: string, i: nat, j: nat)
    requires Gap(s, i, j) && CommentAt(s, j)
    ensures Gap(s, i, CommentEnd(s, j))
    decreases |s| - i
  {
    if i != j {
      GapMore(s, CommentEnd(s, i), j);
    }
  }

  lemma {:induction false} GapRest(s: string, i: nat, j: nat, k: nat)
    requires Gap(s, i, j) && Gap(s, i, k) && (k == |s| || !CommentAt(s, k))
    ensures Gap(s, j, k)
    decreases |s| - i
  {
    if i != j {
      GapRest(s, CommentEnd(s, i), j, k);
    }
  }

  lemma {:induction false} PartComment(s: string, lo: nat, p: nat, cs: seq<Component>)
    requires Part(s, lo, p, cs) && CommentAt(s, p)
    ensures Part(s, lo, CommentEnd(s, p), cs)
    decreases |cs|
  {
    if cs == [] {
      GapMore(s, lo, p);
    } else {
      PartComment(s, cs[0].end, p, cs[1..]);
    }
  }

  lemma {:induction false} PartMore(s: string, lo: nat, p: nat, cs: seq<Component>, c: Component)
    requires Part(s, lo, p, cs) && IsComponent(s, c) && c.start == p && c.end <= |s|
    ensures Part(s, lo, c.end, cs + [c])
    decreases |cs|
  {
    if cs == [] {
      assert (cs + [c])[1..] == [];
    } else {
      assert (cs + [c])[1..] == cs[1..] + [c];
      PartMore(s, cs[0].end, p, cs[1..], c);
    }
  }

  lemma {:induction false} PartDone(s: string, lo: nat, p: nat, hi: nat, cs: seq<Component>, closing: char)
    requires Part(s, lo, p, cs) && EndsAt(s, p, hi, closing)
    ensures IsList(s, lo, hi, cs, closing)
    decreases |cs|
  {
    if cs != [] {
      PartDone(s, cs[0].end, p, hi, cs[1..], closing);
    }
  }

  /** A list can be read from anywhere in the comments before its first member. */
  lemma ListPastGap(s: string, lo: nat, p: nat, hi: nat, es: seq<Component>, closing: char)
    requires Gap(s, lo, p) && IsList(s, lo, hi, es, closing)
    ensures IsList(s, p, hi, es, closing)
  {
    if es == [] {
      var j :| Gap(s, lo, j) && EndsAt(s, j, hi, closing);
      GapRest(s, lo, p, j);
    } else {
      GapRest(s, lo, p, es[0].start);
    }
  }

  /** A list that can begin with `c` does. */
  lemma FirstIs(s: string, lo: nat, c: Component, hi: nat, es: seq<Component>, closing: char)
    requires Gap(s, lo, c.start) && IsComponent(s, c) && IsList(s, lo, hi, es, closing)
    requires closing == NONE || IsCloser(closing)
    ensures es != [] && es[0] == c && IsList(s, c.end, hi, es[1..], closing)
  {
    if es == [] {
      var j :| Gap(s, lo, j) && EndsAt(s, j, hi, closing);
      GapEnds(s, lo, c.start, j);
    } else {
      GapEnds(s, lo, c.start, es[0].start);
      ComponentUnique(s, c, es[0]);
    }
  }

  lemma Resumed(es: seq<Component>, cs: seq<Component>, ds: seq<Component>)
    requires es != [] && cs != [] && es[0] == cs[0] && es[1..] == cs[1..] + ds
    ensures es == cs + ds
  {
    assert es == [es[0]] + es[1..];
  }

  /** Any reading of the whole list continues what has been read. */
  lemma {:induction false} PartRest(s: string, lo: nat, p: nat, cs: seq<Component>, hi: nat, es: seq<Component>,
                                    closing: char)
    returns (ds: seq<Component>)
    requires Part(s, lo, p, cs) && IsList(s, lo, hi, es, closing)
    requires closing == NONE || IsCloser(closing)
    ensures IsList(s, p, hi, ds, closing) && es == cs + ds
    decreases |cs|
  {
    if cs == [] {
      ListPastGap(s, lo, p, hi, es, closing);
      ds := es;
    } else {
      FirstIs(s, lo, cs[0], hi, es, closing);
      ds := PartRest(s, cs[0].end, p, cs[1..], hi, es[1..], closing);
      Resumed(es, cs, ds);
    }
  }

  lemma NothingHere(s: string, p: nat, hi: nat, ds: seq<Component>, closing: char)
    requires p < |s| && !CommentAt(s, p) && (closing == NONE || s[p] != closing)
    requires IsCloser(s[p]) || NoComponent(s, p)
    ensures !IsList(s, p, hi, ds, closing)
  {
    assert forall j :: Gap(s, p, j) ==> j == p;
  }

  /** A dead end after what has been read is a dead end for the list. */
  lemma DeadEnd(s: string, lo: nat, p: nat, cs: seq<Component>, closing: char)
    requires Part(s, lo, p, cs) && p < |s| && !CommentAt(s, p)
    requires closing == NONE || IsCloser(closing)
    requires closing == NONE || s[p] != closing
    requires IsCloser(s[p]) || NoComponent(s, p)
    ensures NoList(s, lo, closing)
  {
    forall hi, es ensures !IsList(s, lo, hi, es, closing) {
      if IsList(s, lo, hi, es, closing) {
        var ds := PartRest(s, lo, p, cs, hi, es, closing);
        NothingHere(s, p, hi, ds, closing);
      }
    }
  }

  /** Two adjoining stretches of a text make one. */
  lemma Spliced(s: string, a: nat, b: nat, c: nat)
    requires a <= b <= c <= |s|
    ensures s[a..b] + s[b..c] == s[a..c]
    ensures c == b + 1 ==> s[b..c] == [s[b]]
  {
  }

  class Parser {
    const input: string
    var offset: nat
    var valid: bool

    constructor (input: string)
      ensures this.input == input && offset == 0 && valid
    {
      this.input, offset, valid := input, 0, true;
    }

    /** The escape whose backslash has just been read; a backslash before a newline is none. */
    method TakeEscape() returns (text: string)
      requires 0 < offset <= |input| && input[offset - 1] == '\\'
      modifies this`offset, this`valid
      ensures var end := EscapeEnd(input, old(offset) - 1);
              if end < old(offset) then text == "" && !valid && offset == old(offset)
              else text == input[old(offset) - 1..end] && valid == old(valid) && offset == end
    {
      var escape := offset - 1;
      var next := FindEscapeEnd(input, escape);
      if next == escape {
        valid := false;
        return "";
      }
      text := input[escape..next];
      offset := next;
    }

    /** The content of a string, up to its closing quote or the end of the input. */
    method ConsumeQuoted(quote: char) returns (value: string)
      requires offset <= |input|
      modifies this`offset, this`valid
      ensures old(offset) <= offset <= |input|
      ensures match StringStop(input, old(offset), quote)
              case None => !valid
              case Some(stop) =>
                && valid == old(valid) && value == input[old(offset)..stop]
                && offset == if stop < |input| then stop + 1 else stop
    {
      ghost var begin := offset;
      ghost var stop := StringStop(input, begin, quote);
      value := "";
      while offset < |input|
        invariant begin <= offset <= |input| && valid == old(valid)
        invariant StringStop(input, offset, quote) == stop
        invariant value == input[begin..offset]
      {
        var ch := input[offset];
        offset := offset + 1;
        if ch == quote {
          return;
        }
        if IsNewline(ch) {
          valid := false;
          return;
        }
        if ch == '\\' && offset < |input| {
          ghost var escape := offset - 1;
          var text := TakeEscape();
          if text == "" {
            return;
          }
          Spliced(input, begin, escape, offset);
          value := value + text;
        } else {
          Spliced(input, begin, offset - 1, offset);
          value := value + [ch];
        }
      }
    }

    method ConsumeString() returns (c: Component)
      requires offset < |input| && (input[offset] == '"' || input[offset] == '\'')
      modifies this`offset, this`valid
      ensures old(offset) < offset <= |input|
      ensures match StringToken(input, old(offset))
              case Broken => !valid
              case token => token == Whole(c) && c.end == offset && valid == old(valid)
    {
      var start := offset;
      var quote := input[offset];
      offset := offset + 1;
      var value := ConsumeQuoted(quote);
      c := Leaf(String, start, offset, value, "", quote);
    }

    method ConsumeNumeric() returns (c: Component)
      requires offset < |input| && StartsNumber(input, offset)
      modifies this`offset
      ensures c == NumericToken(input, old(offset)) && offset == c.end
      ensures old(offset) < offset <= |input|
    {
      var start := offset;
      var numberEnd := FindNumberEnd(input, start);
      NumberAdvances(input, start);
      var number := input[start..numberEnd];
      var kind := Number;
      var end := numberEnd;
      if end < |input| && input[end] == '%' {
        kind := Percentage;
        end := end + 1;
      } else if StartsIdent(input, end) {
        kind := Dimension;
        end := FindNameEnd(input, end);
      }
      c := Leaf(kind, start, end, input[numberEnd..end], number, NONE);
      offset := end;
    }

    /** An identifier, at-keyword, hash or function; a function's arguments are parsed too. */
    method ConsumeIdent(at: bool, hash: bool) returns (c: Component)
      requires offset < |input| && !(at && hash)
      requires var t := TokenAt(input, offset);
               if at || hash then t == Whole(Leaf(if at then AtKeyword else Hash, offset, NameEnd(input, offset + 1),
                                                  input[offset + 1..NameEnd(input, offset + 1)], "", NONE))
               else t == IdentToken(input, offset) && StartsIdent(input, offset)
      requires !CommentAt(input, offset) && !IsCloser(input[offset])
      modifies this`offset, this`valid
      ensures old(offset) < offset <= |input|
      ensures valid ==> old(valid) && IsComponent(input, c) && c.start == old(offset) && c.end == offset
      ensures old(valid) && !valid ==> NoComponent(input, old(offset))
      decreases |input| - offset, 0
    {
      var start := offset;
      if at || hash {
        offset := offset + 1;
      } else {
        IdentAdvances(input, start);
      }
      var nameStart := offset;
      offset := FindNameEnd(input, offset);
      var value := input[nameStart..offset];
      if !at && !hash && offset < |input| && input[offset] == '(' {
        offset := offset + 1;
        ghost var body := offset;
        var children := ParseList(')');
        c := Component(Function, start, offset, value, "", ')', children);
        if valid {
          OpensComponent(input, c, body);
        } else if old(valid) {
          OpensNothing(input, start, body, ')');
        }
      } else {
        c := Leaf(if at then AtKeyword else if hash then Hash else Ident, start, offset, value, "", NONE);
      }
    }

    method Consume() returns (c: Component)
      requires offset < |input| && !CommentAt(input, offset) && !IsCloser(input[offset])
      modifies this`offset, this`valid
      ensures old(offset) < offset <= |input|
      ensures valid ==> old(valid) && IsComponent(input, c) && c.start == old(offset) && c.end == offset
      ensures old(valid) && !valid ==> NoComponent(input, old(offset))
      decreases |input| - offset, 1
    {
      var start := offset;
      var ch := input[offset];
      if IsWs(ch) {
        offset := FindRunEnd(input, offset, IsWs, |input|);
        c := Leaf(Whitespace, start, offset, "", "", NONE);
        return;
      }
      if ch == '"' || ch == '\'' {
        c := ConsumeString();
        return;
      }
      if StartsNumber(input, offset) {
        c := ConsumeNumeric();
        return;
      }
      if ch == '@' && StartsIdent(input, offset + 1) {
        c := ConsumeIdent(true, false);
        return;
      }
      if ch == '#' && offset + 1 < |input| && (IsName(input[offset + 1]) || ValidEscape(input, offset + 1)) {
        c := ConsumeIdent(false, true);
        return;
      }
      if StartsIdent(input, offset) {
        c := ConsumeIdent(false, false);
        return;
      }
      c := ConsumeChar();
    }

    /** A single character, or a bracketed block with its content. */
    method ConsumeChar() returns (c: Component)
      requires offset < |input| && !CommentAt(input, offset) && !IsCloser(input[offset])
      requires TokenAt(input, offset) == CharToken(input, offset)
      modifies this`offset, this`valid
      ensures old(offset) < offset <= |input|
      ensures valid ==> old(valid) && IsComponent(input, c) && c.start == old(offset) && c.end == offset
      ensures old(valid) && !valid ==> NoComponent(input, old(offset))
      decreases |input| - offset, 0
    {
      var start := offset;
      var ch := input[offset];
      offset := offset + 1;
      var kind := if ch == ':' then Colon else if ch == ';' then Semicolon else if ch == ',' then Comma else Delim;
      c := Leaf(kind, start, offset, "", "", ch);
      if ch == '(' || ch == '[' || ch == '{' {
        var closer := if ch == '(' then ')' else if ch == '[' then ']' else '}';
        ghost var body := offset;
        var children := ParseList(closer);
        c := Component(Block, start, offset, "", "", closer, children);
        if valid {
          OpensComponent(input, c, body);
        } else if old(valid) {
          OpensNothing(input, start, body, closer);
        }
      }
    }

    /** Reads component values up to the closing character or the end of the input. The input
        stays valid exactly when the grammar has a reading of it. */
    method ParseList(closing: char) returns (cs: seq<Component>)
      requires offset <= |input| && (closing == NONE || IsCloser(closing))
      modifies this`offset, this`valid
      ensures old(offset) <= offset <= |input|
      ensures valid ==> old(valid) && IsList(input, old(offset), offset, cs, closing)
      ensures old(valid) && !valid ==> NoList(input, old(offset), closing)
      ensures closing == NONE ==> offset == |input|
      decreases |input| - offset, 2
    {
      ghost var lo := offset;
      cs := [];
      while offset < |input|
        invariant lo <= offset <= |input|
        invariant valid ==> old(valid) && Part(input, lo, offset, cs)
        invariant old(valid) && !valid ==> NoList(input, lo, closing)
        decreases |input| - offset
      {
        var ch := input[offset];
        if ch == '/' && offset + 1 < |input| && input[offset + 1] == '*' {
          if valid {
            PartComment(input, lo, offset, cs);
          }
          offset := FindCommentEnd(input, offset);
          continue;
        }
        if closing != NONE && ch == closing {
          offset := offset + 1;
          if valid {
            PartDone(input, lo, offset - 1, offset, cs, closing);
          }
          return;
        }
        if valid {
          NowhereElse(input, lo, offset, cs, closing);
        }
        if ch == ')' || ch == ']' || ch == '}' {
          valid := false;
          offset := offset + 1;
          if closing != NONE {
            return;
          }
          continue;
        }
        ghost var p := offset;
        var c := Consume();
        if valid {
          PartMore(input, lo, p, cs, c);
        }
        cs := cs + [c];
      }
      if valid {
        PartDone(input, lo, offset, offset, cs, closing);
      }
    }
  }

  /** The two dead ends of a list, as the loop meets them. */
  lemma NowhereElse(s: string, lo: nat, p: nat, cs: seq<Component>, closing: char)
    requires Part(s, lo, p, cs) && p < |s| && !CommentAt(s, p)
    requires closing == NONE || IsCloser(closing)
    requires closing == NONE || s[p] != closing
    ensures IsCloser(s[p]) || NoComponent(s, p) ==> NoList(s, lo, closing)
  {
    if IsCloser(s[p]) || NoComponent(s, p) {
      DeadEnd(s, lo, p, cs, closing);
    }
  }

  lemma NumberAdvances(s: string, i: nat)
    requires i < |s| && StartsNumber(s, i)
    ensures NumberEnd(s, i) > i
  {
    var a := if s[i] == '+' || s[i] == '-' then i + 1 else i;
    if s[a] != '.' {
      assert IsDigit(s[a]);
    } else {
      assert DigitsEnd(s, a) == a;
      assert FractionEnd(s, a) > a;
    }
  }

  lemma IdentAdvances(s: string, i: nat)
    requires StartsIdent(s, i)
    ensures NameEnd(s, i) > i
  {
    if s[i] == '\\' {
      assert EscapeEnd(s, i) != i;
    }
  }

  lemma OpensComponent(s: string, c: Component, body: nat)
    requires c.start < |s| && !CommentAt(s, c.start) && !IsCloser(s[c.start]) && body <= |s|
    requires TokenAt(s, c.start) == Opens(c.kind, c.value, body, c.delimiter) && c.number == ""
    requires IsList(s, body, c.end, c.children, c.delimiter)
    ensures IsComponent(s, c)
  {
  }

  lemma OpensNothing(s: string, i: nat, body: nat, closer: char)
    requires i < |s| && body <= |s| && NoList(s, body, closer)
    requires TokenAt(s, i).Opens? && TokenAt(s, i).body == body && TokenAt(s, i).closer == closer
    ensures NoComponent(s, i)
  {
  }

  /** Parses a whole input. It is found valid exactly when the grammar reads it, and then the
      result is the only reading. */
  method ParseValues(input: string) returns (cs: seq<Component>, valid: bool)
    ensures valid ==> IsValue(input, cs)
    ensures forall ds :: IsValue(input, ds) ==> valid && cs == ds
  {
    var parser := new Parser(input);
    cs := parser.ParseList(NONE);
    valid := parser.valid;
    forall ds | IsValue(input, ds)
      ensures valid && cs == ds
    {
      assert !NoList(input, 0, NONE);
      ListUnique(input, 0, |input|, cs, |input|, ds, NONE);
    }
  }
}
