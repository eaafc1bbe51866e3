/** The one-pass scanner, and why it sees the structure the parser builds. */
module CssScan {
  import opened Ascii
  import opened CssTokens
  import opened CssParser

  const MAX_STACK := 128

  /** A search for a terminator also stops at a NUL, which ends every C string. */
  predicate Hit(terminators: string, c: char)
  {
    c in terminators || c == NONE
  }

  /** Where the scan started at `p` stops, inside `quote` if that is not NONE, and with the
      closing brackets `st` still to come. */
  function ScanFrom(s: string, p: nat, quote: char, st: string, terminators: string): (r: nat)
    requires p <= |s|
    ensures p <= r <= |s|
    decreases |s| - p
  {
    if p == |s| then p
    else if quote != NONE then
      if s[p] == '\\' && p + 1 < |s| then ScanFrom(s, p + 2, quote, st, terminators)
      else ScanFrom(s, p + 1, if s[p] == quote then NONE else quote, st, terminators)
    else if CommentAt(s, p) then ScanFrom(s, CommentEnd(s, p), quote, st, terminators)
    else if s[p] == '\\' && p + 1 < |s| then ScanFrom(s, p + 2, quote, st, terminators)
    else if s[p] == '"' || s[p] == '\'' then ScanFrom(s, p + 1, s[p], st, terminators)
    else if |st| == 0 && Hit(terminators, s[p]) then p
    else ScanFrom(s, p + 1, quote, NextStack(st, s[p]), terminators)
  }

  function NextStack(st: string, c: char): string
  {
    if IsOpener(c) then if |st| < MAX_STACK then st + [CloserOf(c)] else st
    else if |st| > 0 && c == st[|st| - 1] then st[..|st| - 1]
    else st
  }

  /** An opening bracket puts its closing bracket on the stack, if there is room; the closing
      bracket on top comes off. */
  method PushOrPop(stack: array<char>, depth: nat, c: char) returns (newDepth: nat)
    requires depth <= stack.Length == MAX_STACK
    modifies stack
    ensures newDepth <= stack.Length && stack[..newDepth] == NextStack(old(stack[..depth]), c)
  {
    newDepth := depth;
    if c == '(' || c == '[' || c == '{' {
      if depth < stack.Length {
        stack[depth] := if c == '(' then ')' else if c == '[' then ']' else '}';
        newDepth := depth + 1;
      }
    } else if depth > 0 && c == stack[depth - 1] {
      newDepth := depth - 1;
      assert stack[..depth][..depth - 1] == stack[..depth - 1];
    }
  }

  method Scan(input: string, terminators: string) returns (p: nat, terminator: char)
    ensures p == ScanFrom(input, 0, NONE, "", terminators)
    ensures p <= |input| && terminator == if p < |input| then input[p] else NONE
  {
    p := 0;
    var quote := NONE;
    var stack := new char[MAX_STACK];
    var depth: nat := 0;
    terminator := NONE;
    while p < |input|
      invariant p <= |input| && depth <= stack.Length == MAX_STACK && fresh(stack)
      invariant ScanFrom(input, p, quote, stack[..depth], terminators) == ScanFrom(input, 0, NONE, "", terminators)
      decreases |input| - p
    {
      var c := input[p];
      if quote != NONE {
        if c == '\\' && p + 1 < |input| {
          p := p + 2;
          continue;
        }
        if c == quote {
          quote := NONE;
        }
        p := p + 1;
        continue;
      }
      if c == '/' && p + 1 < |input| && input[p + 1] == '*' {
        p := FindCommentEnd(input, p);
        continue;
      }
      if c == '\\' && p + 1 < |input| {
        p := p + 2;
        continue;
      }
      if c == '"' || c == '\'' {
        quote := c;
        p := p + 1;
        continue;
      }
      if depth == 0 && Hit(terminators, c) {
        terminator := c;
        return;
      }
      depth := PushOrPop(stack, depth, c);
      p := p + 1;
    }
  }

  // ---- what the scan passes over ----

  /** The scan outside quotes gets from `a` to `b` with nothing changed. */
  ghost predicate Moves(s: string, a: nat, b: nat, st: string, t: string)
  {
    a <= b <= |s| && ScanFrom(s, a, NONE, st, t) == ScanFrom(s, b, NONE, st, t)
  }

  /** The terminators that are component kinds of their own. */
  predicate IsTerminator(c: char)
  {
    c == ';' || c == ',' || c == ':'
  }

  ghost predicate Separators(t: string)
  {
    forall c :: c in t ==> IsTerminator(c)
  }

  ghost predicate NulFree(s: string)
  {
    forall i :: 0 <= i < |s| ==> s[i] != NONE
  }

  ghost predicate Inert(c: char)
  {
    && !IsOpener(c) && !IsCloser(c) && c != '"' && c != '\'' && c != '\\' && c != '/'
    && c != ';' && c != ',' && c != ':' && c != NONE
  }

  /** A stack holds closing brackets. */
  ghost predicate Closers(st: string)
  {
    forall i :: 0 <= i < |st| ==> IsCloser(st[i])
  }

  lemma {:induction false} InertMoves(s: string, a: nat, b: nat, st: string, t: string)
    requires a <= b <= |s| && Separators(t) && Closers(st)
    requires forall k :: a <= k < b ==> Inert(s[k])
    ensures Moves(s, a, b, st, t)
    decreases b - a
  {
    if a < b {
      InertMoves(s, a + 1, b, st, t);
    }
  }

  lemma EscapeMoves(s: string, i: nat, st: string, t: string)
    requires i < |s| && s[i] == '\\' && EscapeEnd(s, i) != i && Separators(t) && Closers(st)
    ensures Moves(s, i, EscapeEnd(s, i), st, t)
  {
    var e := EscapeEnd(s, i);
    if i + 1 < |s| {
      InertMoves(s, i + 2, e, st, t);
    } else {
      assert NextStack(st, s[i]) == st;
    }
  }

  lemma {:induction false} NameMoves(s: string, i: nat, st: string, t: string)
    requires i <= |s| && Separators(t) && Closers(st)
    ensures Moves(s, i, NameEnd(s, i), st, t)
    decreases |s| - i
  {
    if i < |s| && IsName(s[i]) {
      InertMoves(s, i, i + 1, st, t);
      NameMoves(s, i + 1, st, t);
    } else if i < |s| && s[i] == '\\' && EscapeEnd(s, i) != i {
      EscapeMoves(s, i, st, t);
      NameMoves(s, EscapeEnd(s, i), st, t);
    }
  }

  lemma NumberMoves(s: string, i: nat, st: string, t: string)
    requires i <= |s| && Separators(t) && Closers(st)
    ensures Moves(s, i, NumberEnd(s, i), st, t)
  {
    var a := if i < |s| && (s[i] == '+' || s[i] == '-') then i + 1 else i;
    var b := DigitsEnd(s, a);
    var c := FractionEnd(s, b);
    InertMoves(s, i, a, st, t);
    InertMoves(s, a, b, st, t);
    FractionMoves(s, b, st, t);
    ExponentMoves(s, c, st, t);
  }

  lemma FractionMoves(s: string, i: nat, st: string, t: string)
    requires i <= |s| && Separators(t) && Closers(st)
    ensures Moves(s, i, FractionEnd(s, i), st, t)
  {
    InertMoves(s, i, FractionEnd(s, i), st, t);
  }

  lemma ExponentMoves(s: string, i: nat, st: string, t: string)
    requires i <= |s| && Separators(t) && Closers(st)
    ensures Moves(s, i, ExponentEnd(s, i), st, t)
  {
    InertMoves(s, i, ExponentEnd(s, i), st, t);
  }

  /** Inside quotes, runs without quotes and backslashes are passed over. */
  lemma {:induction false} QuotedRun(s: string, a: nat, b: nat, quote: char, st: string, t: string)
    requires a <= b <= |s| && quote != NONE
    requires forall k :: a <= k < b ==> s[k] != quote && s[k] != '\\'
    ensures ScanFrom(s, a, quote, st, t) == ScanFrom(s, b, quote, st, t)
    decreases b - a
  {
    if a < b {
      QuotedRun(s, a + 1, b, quote, st, t);
    }
  }

  /** Inside quotes, an escape is passed over whole. */
  lemma EscapeQuoted(s: string, i: nat, quote: char, st: string, t: string)
    requires i + 1 < |s| && s[i] == '\\' && EscapeEnd(s, i) != i && (quote == '"' || quote == '\'')
    ensures ScanFrom(s, i, quote, st, t) == ScanFrom(s, EscapeEnd(s, i), quote, st, t)
  {
    QuotedRun(s, i + 2, EscapeEnd(s, i), quote, st, t);
  }

  lemma CharQuoted(s: string, i: nat, quote: char, st: string, t: string)
    requires i < |s| && s[i] != quote && !(s[i] == '\\' && i + 1 < |s|) && quote != NONE
    ensures ScanFrom(s, i, quote, st, t) == ScanFrom(s, i + 1, quote, st, t)
  {
  }

  lemma {:induction false} StringMoves(s: string, i: nat, quote: char, st: string, t: string)
    requires i <= |s| && (quote == '"' || quote == '\'') && StringStop(s, i, quote).Some?
    ensures var stop := StringStop(s, i, quote).value;
            ScanFrom(s, i, quote, st, t) == ScanFrom(s, if stop < |s| then stop + 1 else stop, NONE, st, t)
    decreases |s| - i
  {
    if i < |s| && s[i] != quote {
      if s[i] == '\\' && i + 1 < |s| {
        EscapeQuoted(s, i, quote, st, t);
        StringMoves(s, EscapeEnd(s, i), quote, st, t);
      } else {
        CharQuoted(s, i, quote, st, t);
        StringMoves(s, i + 1, quote, st, t);
      }
    }
  }

  ghost predicate Stops(c: Component, t: string)
  {
    (c.kind == Semicolon && ';' in t) || (c.kind == Comma && ',' in t) || (c.kind == Colon && ':' in t)
  }

  lemma NumericMoves(s: string, i: nat, st: string, t: string)
    requires i < |s| && Separators(t) && Closers(st)
    ensures Moves(s, i, NumericToken(s, i).end, st, t)
  {
    var n := NumberEnd(s, i);
    NumberMoves(s, i, st, t);
    if n < |s| && s[n] == '%' {
      InertMoves(s, n, n + 1, st, t);
    } else {
      NameMoves(s, n, st, t);
    }
  }

  /** A component without children is passed over, unless it is a terminator at the top level. */
  lemma LeafMoves(s: string, c: Component, st: string, t: string)
    requires IsComponent(s, c) && TokenAt(s, c.start).Whole?
    requires NulFree(s) && Separators(t) && Closers(st) && (st == [] ==> !Stops(c, t))
    ensures Moves(s, c.start, c.end, st, t)
  {
    var i, ch := c.start, s[c.start];
    if IsWs(ch) {
      InertMoves(s, i, WsEnd(s, i), st, t);
    } else if ch == '"' || ch == '\'' {
      StringMoves(s, i + 1, ch, st, t);
    } else if StartsNumber(s, i) {
      NumericMoves(s, i, st, t);
    } else {
      WordMoves(s, c, st, t);
    }
  }

  /** The same for a component that is neither white space, a string nor a number. */
  lemma WordMoves(s: string, c: Component, st: string, t: string)
    requires IsComponent(s, c) && TokenAt(s, c.start).Whole?
    requires NulFree(s) && Separators(t) && Closers(st) && (st == [] ==> !Stops(c, t))
    requires !IsWs(s[c.start]) && s[c.start] != '"' && s[c.start] != '\'' && !StartsNumber(s, c.start)
    ensures Moves(s, c.start, c.end, st, t)
  {
    var i, ch := c.start, s[c.start];
    if (ch == '@' && StartsIdent(s, i + 1))
       || (ch == '#' && i + 1 < |s| && (IsName(s[i + 1]) || ValidEscape(s, i + 1))) {
      InertMoves(s, i, i + 1, st, t);
      NameMoves(s, i + 1, st, t);
    } else if StartsIdent(s, i) {
      NameMoves(s, i, st, t);
    } else {
      CharMoves(s, i, st, t);
    }
  }

  /** A single character; a backslash takes the newline after it along, which changes nothing. */
  lemma CharMoves(s: string, i: nat, st: string, t: string)
    requires i < |s| && NulFree(s) && Separators(t) && Closers(st)
    requires !CommentAt(s, i) && !IsOpener(s[i]) && !IsCloser(s[i]) && s[i] != '"' && s[i] != '\''
    requires s[i] == '\\' ==> !ValidEscape(s, i)
    requires st == [] ==> s[i] !in t
    ensures Moves(s, i, i + 1, st, t)
  {
    if s[i] == '\\' && i + 1 < |s| {
      InertMoves(s, i + 1, i + 2, st, t);
    } else {
      assert NextStack(st, s[i]) == st;
    }
  }

  // ---- nesting ----

  ghost function Depth(c: Component): nat
    decreases c, 1
  {
    if c.kind == Function || c.kind == Block then 1 + DepthAll(c.children) else 0
  }

  ghost function DepthAll(cs: seq<Component>): nat
    decreases cs, 0
  {
    if cs == [] then 0
    else if Depth(cs[0]) > DepthAll(cs[1..]) then Depth(cs[0]) else DepthAll(cs[1..])
  }

  lemma {:induction false} GapMoves(s: string, i: nat, j: nat, st: string, t: string)
    requires Gap(s, i, j)
    ensures Moves(s, i, j, st, t)
    decreases |s| - i
  {
    if i != j {
      GapMoves(s, CommentEnd(s, i), j, st, t);
    }
  }

  /** An opening token puts its closing bracket on the stack. */
  lemma OpensPush(s: string, i: nat, st: string, t: string)
    requires i < |s| && NulFree(s) && Separators(t) && Closers(st) && |st| < MAX_STACK
    requires !CommentAt(s, i) && !IsCloser(s[i]) && TokenAt(s, i).Opens?
    ensures var k := TokenAt(s, i);
            k.body <= |s| && ScanFrom(s, i, NONE, st, t) == ScanFrom(s, k.body, NONE, st + [k.closer], t)
  {
    var k := TokenAt(s, i);
    if k.kind == Function {
      NameMoves(s, i, st, t);
    }
    var j := k.body - 1;
    assert IsOpener(s[j]) && k.closer == CloserOf(s[j]);
    assert ScanFrom(s, j, NONE, st, t) == ScanFrom(s, j + 1, NONE, NextStack(st, s[j]), t);
  }

  lemma {:induction false} ComponentMoves(s: string, c: Component, st: string, t: string)
    requires IsComponent(s, c) && NulFree(s) && Separators(t) && Closers(st) && (st == [] ==> !Stops(c, t))
    requires |st| + Depth(c) <= MAX_STACK
    ensures Moves(s, c.start, c.end, st, t)
    decreases c, 1
  {
    match TokenAt(s, c.start)
    case Whole(leaf) => LeafMoves(s, c, st, t);
    case Opens(kind, value, body, closer) =>
      OpensPush(s, c.start, st, t);
      ListMoves(s, body, c.end, c.children, closer, st, t);
    case Broken =>
  }

  /** A bracketed list is passed over, and takes its closing bracket off the stack. */
  lemma {:induction false} ListMoves(s: string, lo: nat, hi: nat, cs: seq<Component>, closing: char, st: string,
                                     t: string)
    requires IsList(s, lo, hi, cs, closing) && IsCloser(closing) && lo <= |s|
    requires NulFree(s) && Separators(t) && Closers(st) && |st| + 1 + DepthAll(cs) <= MAX_STACK
    ensures lo <= hi <= |s| && ScanFrom(s, lo, NONE, st + [closing], t) == ScanFrom(s, hi, NONE, st, t)
    decreases cs, 0
  {
    var inner := st + [closing];
    if cs == [] {
      var j: nat :| Gap(s, lo, j) && EndsAt(s, j, hi, closing);
      GapMoves(s, lo, j, inner, t);
      if j < |s| {
        assert NextStack(inner, s[j]) == st;
      }
    } else {
      var c := cs[0];
      GapMoves(s, lo, c.start, inner, t);
      ComponentMoves(s, c, inner, t);
      ListMoves(s, c.end, hi, cs[1..], closing, st, t);
    }
  }

  /** The start of the first top-level terminator, or the end of the input. */
  ghost function FirstStop(s: string, cs: seq<Component>, t: string): nat
  {
    if cs == [] then |s| else if Stops(cs[0], t) then cs[0].start else FirstStop(s, cs[1..], t)
  }

  /** A separator is the single character of its kind. */
  lemma StopChar(s: string, c: Component, t: string)
    requires IsComponent(s, c) && Stops(c, t)
    ensures s[c.start] in t && s[c.start] == if c.kind == Semicolon then ';' else if c.kind == Comma then ',' else ':'
  {
  }

  lemma StopsThere(s: string, c: Component, t: string)
    requires IsComponent(s, c) && Stops(c, t) && Separators(t)
    ensures ScanFrom(s, c.start, NONE, "", t) == c.start
  {
    StopChar(s, c, t);
  }

  lemma {:induction false} TopScan(s: string, lo: nat, cs: seq<Component>, t: string)
    requires IsList(s, lo, |s|, cs, NONE) && lo <= |s|
    requires NulFree(s) && Separators(t) && DepthAll(cs) <= MAX_STACK
    ensures ScanFrom(s, lo, NONE, "", t) == FirstStop(s, cs, t)
    decreases |cs|
  {
    if cs == [] {
      var j: nat :| Gap(s, lo, j) && EndsAt(s, j, |s|, NONE);
      GapMoves(s, lo, j, "", t);
    } else {
      GapMoves(s, lo, cs[0].start, "", t);
      if Stops(cs[0], t) {
        StopsThere(s, cs[0], t);
      } else {
        ComponentMoves(s, cs[0], "", t);
        TopScan(s, cs[0].end, cs[1..], t);
      }
    }
  }

  /** On every valid input nested at most 128 deep, the scanner stops exactly where the parser's
      first top-level terminator starts. */
  lemma ScannerAgrees(s: string, cs: seq<Component>, t: string)
    requires IsValue(s, cs) && NulFree(s) && Separators(t) && DepthAll(cs) <= MAX_STACK
    ensures ScanFrom(s, 0, NONE, "", t) == FirstStop(s, cs, t)
  {
    TopScan(s, 0, cs, t);
  }
}
