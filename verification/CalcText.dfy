/** calc() expressions written down and evaluated: the text of an expression is parsed and read back as that
    expression, by precedence and from the left, with every number at its value. */
module CalcText {
  import opened Wrappers
  import opened CssNumbers
  import opened CssPrinted
  import opened CalcValue
  import opened CalcEval
  import opened CalcMachine
  import N = CalcNumbers
  import P = CssParser

  /** An expression as an author writes it.  The unit is empty for a number and "%" for a percentage. */
  datatype Calc =
    | Val(number: Numeral, unit: string)
    | Sum(l: Calc, r: Calc) | Diff(l: Calc, r: Calc) | Prod(l: Calc, r: Calc) | Quot(l: Calc, r: Calc)

  // ---- writing ----

  function LeafPiece(n: Numeral, unit: string): Piece {
    if unit == "" then Num(n) else if unit == "%" then Piece.Pct(n) else Dim(n, unit)
  }

  predicate IsSum(c: Calc) { c.Sum? || c.Diff? }

  /** Parentheses stand where precedence and order need them, and nowhere else. */
  function SumPieces(c: Calc): seq<Piece>
    decreases c, 2
  {
    match c
    case Sum(l, r) => SumPieces(l) + ([Mark('+')] + ProductPieces(r))
    case Diff(l, r) => SumPieces(l) + ([Mark('-')] + ProductPieces(r))
    case _ => ProductPieces(c)
  }

  function ProductPieces(c: Calc): seq<Piece>
    decreases c, if IsSum(c) then 4 else 1
  {
    match c
    case Prod(l, r) => ProductPieces(l) + ([Mark('*')] + [TermPiece(r)])
    case Quot(l, r) => ProductPieces(l) + ([Mark('/')] + [TermPiece(r)])
    case _ => [TermPiece(c)]
  }

  function TermPiece(c: Calc): Piece
    decreases c, if c.Val? then 0 else 3
  {
    match c
    case Val(n, unit) => LeafPiece(n, unit)
    case _ => Box('(', SumPieces(c))
  }

  // ---- what is to be read ----

  function LeafExpr(n: Numeral, unit: string): Option<Expr> {
    LeafWith(if unit == "" then P.Number else if unit == "%" then P.Percentage else P.Dimension, unit,
             N.NumeralValue(n))
  }

  /** The expression, when all its units are known. */
  ghost predicate Known(c: Calc) {
    match c
    case Val(n, unit) => IsNumeral(n) && LeafExpr(n, unit).Some?
    case Sum(l, r) => Known(l) && Known(r)
    case Diff(l, r) => Known(l) && Known(r)
    case Prod(l, r) => Known(l) && Known(r)
    case Quot(l, r) => Known(l) && Known(r)
  }

  ghost function ExprOf(c: Calc): Expr
    requires Known(c)
  {
    match c
    case Val(n, unit) => LeafExpr(n, unit).value
    case Sum(l, r) => Add(ExprOf(l), ExprOf(r))
    case Diff(l, r) => Sub(ExprOf(l), ExprOf(r))
    case Prod(l, r) => Mul(ExprOf(l), ExprOf(r))
    case Quot(l, r) => Div(ExprOf(l), ExprOf(r))
  }

  // ---- pieces laid out as components ----

  /** From `i` on stand the pieces, with white space between neighbours. */
  ghost predicate Laid(items: seq<P.Component>, i: nat, ps: seq<Piece>) {
    && (ps != [] ==> i + 2 * |ps| - 1 <= |items|)
    && forall k {:trigger LaidAt(items, i, ps, k)} :: 0 <= k < |ps| ==> LaidAt(items, i, ps, k)
  }

  ghost predicate LaidAt(items: seq<P.Component>, i: nat, ps: seq<Piece>, k: nat)
    requires k < |ps|
  {
    PieceAt(items, i + 2 * k, ps[k]) && (k > 0 ==> SpaceAt(items, i + 2 * k - 1))
  }

  ghost predicate PieceAt(items: seq<P.Component>, j: nat, p: Piece) {
    j < |items| && !p.Note? && items[j] == Placed(p, items[j].start)
  }

  predicate SpaceAt(items: seq<P.Component>, j: nat) { j < |items| && IsWs(items[j]) }

  ghost predicate NoNotes(ps: seq<Piece>) { forall k :: 0 <= k < |ps| ==> !ps[k].Note? }

  /** Two lists in turn. */
  function Woven(a: seq<P.Component>, b: seq<P.Component>): seq<P.Component>
    requires |a| == |b|
  {
    if a == [] then [] else [a[0], b[0]] + Woven(a[1..], b[1..])
  }

  lemma {:induction false} WovenAt(a: seq<P.Component>, b: seq<P.Component>, k: nat, j: nat)
    requires k < |a| == |b| && j == 2 * k
    ensures |Woven(a, b)| == 2 * |a| && Woven(a, b)[j] == a[k] && Woven(a, b)[j + 1] == b[k]
    decreases |a|
  {
    WovenLength(a, b);
    if k > 0 { WovenAt(a[1..], b[1..], k - 1, j - 2); }
  }

  lemma {:induction false} WovenLength(a: seq<P.Component>, b: seq<P.Component>)
    requires |a| == |b|
    ensures |Woven(a, b)| == 2 * |a|
  {
    if a != [] { WovenLength(a[1..], b[1..]); }
  }

  /** The components of the pieces, and the white space before each of them. */
  function Comps(ps: seq<Piece>, at: nat): (cs: seq<P.Component>)
    requires NoNotes(ps)
    ensures |cs| == |ps|
  {
    if ps == [] then [] else assert !ps[0].Note?; [Placed(ps[0], at + 1)] + Comps(ps[1..], at + 1 + |Text(ps[0])|)
  }

  function Spaces(ps: seq<Piece>, at: nat): (cs: seq<P.Component>)
    ensures |cs| == |ps| && forall k :: 0 <= k < |cs| ==> IsWs(cs[k])
  {
    if ps == [] then []
    else [P.Leaf(P.Whitespace, at, at + 1, "", "", P.NONE)] + Spaces(ps[1..], at + 1 + |Text(ps[0])|)
  }

  lemma {:induction false} CompsAt(ps: seq<Piece>, at: nat, k: nat)
    requires NoNotes(ps) && k < |ps|
    ensures PieceAt(Comps(ps, at), k, ps[k])
    decreases |ps|
  {
    var n := at + 1 + |Text(ps[0])|;
    CompsAre(ps, at, n);
    if k > 0 {
      CompsAt(ps[1..], n, k - 1);
      PieceLater(Placed(ps[0], at + 1), Comps(ps[1..], n), Comps(ps, at), k, ps[k]);
    } else {
      PlacedEnds(ps[0], at + 1);
    }
  }

  lemma CompsAre(ps: seq<Piece>, at: nat, n: nat)
    requires ps != [] && NoNotes(ps) && n == at + 1 + |Text(ps[0])|
    ensures NoNotes(ps[1..]) && !ps[0].Note? && Comps(ps, at) == [Placed(ps[0], at + 1)] + Comps(ps[1..], n)
  {
    assert !ps[0].Note?;
  }

  lemma PieceLater(first: P.Component, rest: seq<P.Component>, all: seq<P.Component>, k: nat, p: Piece)
    requires all == [first] + rest && k > 0 && PieceAt(rest, k - 1, p)
    ensures PieceAt(all, k, p)
  {
  }

  lemma {:induction false} RestWoven(ps: seq<Piece>, at: nat)
    requires NoNotes(ps)
    ensures PlacedRest(ps, at) == Woven(Spaces(ps, at), Comps(ps, at))
    decreases |ps|
  {
    if ps != [] {
      RestIs(ps, at);
      RestWoven(ps[1..], at + 1 + |Text(ps[0])|);
    }
  }

  lemma RestIs(ps: seq<Piece>, at: nat)
    requires ps != [] && NoNotes(ps)
    ensures !ps[0].Note? && NoNotes(ps[1..])
    ensures PlacedRest(ps, at) ==
      [P.Leaf(P.Whitespace, at, at + 1, "", "", P.NONE), Placed(ps[0], at + 1)]
      + PlacedRest(ps[1..], at + 1 + |Text(ps[0])|)
  {
    assert !ps[0].Note? && Own(ps[0], at + 1) == [Placed(ps[0], at + 1)];
  }

  lemma AllIs(ps: seq<Piece>, at: nat)
    requires ps != [] && NoNotes(ps)
    ensures !ps[0].Note? && NoNotes(ps[1..])
    ensures PlacedAll(ps, at) == [Placed(ps[0], at)] + PlacedRest(ps[1..], at + |Text(ps[0])|)
  {
    assert !ps[0].Note? && Own(ps[0], at) == [Placed(ps[0], at)];
  }

  lemma OneBefore(all: seq<P.Component>, c: P.Component, a: seq<P.Component>, b: seq<P.Component>, k: nat, j: nat)
    requires |a| == |b| && all == [c] + Woven(a, b) && 0 < k <= |a| && j == 2 * k
    ensures |all| == 2 * |a| + 1 && all[j - 1] == a[k - 1] && all[j] == b[k - 1]
  {
    WovenAt(a, b, k - 1, j - 2);
  }

  lemma AllLaid(ps: seq<Piece>, at: nat, k: nat, j: nat)
    requires NoNotes(ps) && k < |ps| && j == 2 * k
    ensures PieceAt(PlacedAll(ps, at), j, ps[k]) && (k > 0 ==> SpaceAt(PlacedAll(ps, at), j - 1))
  {
    var rest, next := ps[1..], at + |Text(ps[0])|;
    AllIs(ps, at);
    if k > 0 {
      RestWoven(rest, next);
      OneBefore(PlacedAll(ps, at), Placed(ps[0], at), Spaces(rest, next), Comps(rest, next), k, j);
      CompsAt(rest, next, k - 1);
    } else {
      PlacedEnds(ps[0], at);
    }
  }

  lemma AllLength(ps: seq<Piece>, at: nat)
    requires ps != [] && NoNotes(ps)
    ensures |PlacedAll(ps, at)| == 2 * |ps| - 1
  {
    var rest, next := ps[1..], at + |Text(ps[0])|;
    AllIs(ps, at);
    RestWoven(rest, next);
    WovenLength(Spaces(rest, next), Comps(rest, next));
  }

  /** Pieces that are placed are laid out so. */
  lemma PlacedLaid(ps: seq<Piece>, at: nat)
    requires ps != [] && NoNotes(ps)
    ensures |PlacedAll(ps, at)| == 2 * |ps| - 1 && Laid(PlacedAll(ps, at), 0, ps)
  {
    AllLength(ps, at);
    forall k {:trigger LaidAt(PlacedAll(ps, at), 0, ps, k)} | 0 <= k < |ps|
        ensures LaidAt(PlacedAll(ps, at), 0, ps, k) {
      AllLaid(ps, at, k, 2 * k);
    }
  }

  /** Two stretches of pieces, laid out one after the other. */
  lemma LaidParts(items: seq<P.Component>, i: nat, a: seq<Piece>, b: seq<Piece>, j: nat)
    requires Laid(items, i, a + b) && a != [] && b != [] && j == i + 2 * |a|
    ensures Laid(items, i, a) && SpaceAt(items, j - 1) && Laid(items, j, b)
  {
    forall k {:trigger LaidAt(items, i, a, k)} | 0 <= k < |a| ensures LaidAt(items, i, a, k) {
      assert LaidAt(items, i, a + b, k) && (a + b)[k] == a[k];
    }
    forall k {:trigger LaidAt(items, j, b, k)} | 0 <= k < |b| ensures LaidAt(items, j, b, k) {
      assert LaidAt(items, i, a + b, |a| + k) && (a + b)[|a| + k] == b[k];
    }
    assert LaidAt(items, i, a + b, |a|);
  }

  // ---- nesting ----

  /** The parentheses are nested at most so deep. */
  ghost predicate Within(ps: seq<Piece>, depth: nat)
    decreases ps
  {
    forall k :: 0 <= k < |ps| ==> (ps[k].Box? ==> depth > 0 && Within(ps[k].inner, depth - 1))
  }

  lemma WithinParts(a: seq<Piece>, b: seq<Piece>, depth: nat)
    requires Within(a + b, depth)
    ensures Within(a, depth) && Within(b, depth)
  {
    var c := a + b;
    forall k | 0 <= k < |a| ensures a[k].Box? ==> depth > 0 && Within(a[k].inner, depth - 1) { assert c[k] == a[k]; }
    forall k | 0 <= k < |b| ensures b[k].Box? ==> depth > 0 && Within(b[k].inner, depth - 1) {
      assert c[|a| + k] == b[k];
    }
  }

  lemma {:induction false} SumShape(c: Calc)
    ensures SumPieces(c) != [] && NoNotes(SumPieces(c))
    decreases c, 2
  {
    if IsSum(c) {
      SumShape(c.l);
      ProductShape(c.r);
    } else {
      ProductShape(c);
    }
  }

  lemma {:induction false} ProductShape(c: Calc)
    ensures ProductPieces(c) != [] && NoNotes(ProductPieces(c))
    decreases c, 1
  {
    if c.Prod? || c.Quot? { ProductShape(c.l); }
  }

  // ---- reading ----

  lemma SkipSpace(items: seq<P.Component>, j: nat, end: nat)
    requires SpaceAt(items, j) && j + 1 < end <= |items| && !IsWs(items[j + 1])
    ensures SkipWs(items, j, end) == j + 1
  {
  }

  lemma PieceNoSpace(items: seq<P.Component>, j: nat, p: Piece)
    requires PieceAt(items, j, p)
    ensures !IsWs(items[j])
    ensures p.Mark? && p.c !in ":;," ==> items[j].kind == P.Delim && items[j].delimiter == p.c
  {
  }

  /** A value stands for its leaf. */
  lemma LeafRead(items: seq<P.Component>, j: nat, n: Numeral, unit: string)
    requires PieceAt(items, j, LeafPiece(n, unit)) && IsNumeral(n)
    ensures LeafOf(items[j]) == LeafExpr(n, unit) && items[j].kind != P.Block && items[j].kind != P.Function
  {
    N.NumberIsValue(n);
    LeafPlaced(items[j], n, unit);
    LeafSame(items[j], N.NumeralValue(n));
  }

  lemma LeafPlaced(c: P.Component, n: Numeral, unit: string)
    requires c == Placed(LeafPiece(n, unit), c.start)
    ensures c.kind == (if unit == "" then P.Number else if unit == "%" then P.Percentage else P.Dimension)
    ensures c.number == NumeralText(n) && c.value == unit
  {
  }

  lemma LeafSame(c: P.Component, x: real)
    requires NumberValue(c.number) == x
    ensures LeafOf(c) == LeafWith(c.kind, c.value, x)
  {
  }

  /** `j` is where the term stands, past the white space from `pos` on. */
  lemma {:induction false} TermRead(items: seq<P.Component>, pos: nat, j: nat, end: nat, depth: nat, c: Calc)
    requires Known(c) && PieceAt(items, j, TermPiece(c)) && pos <= j < end <= |items| && SkipWs(items, pos, end) == j
    requires depth <= MAX_DEPTH && Within([TermPiece(c)], MAX_DEPTH - depth)
    ensures ReadTerm(items, pos, end, depth) == Some((ExprOf(c), j + 1))
    decreases c, if c.Val? then 0 else 9
  {
    match c
    case Val(n, unit) =>
      LeafRead(items, j, n, unit);
      TermOfLeaf(items, pos, j, end, depth, ExprOf(c));
    case _ =>
      BoxLaid(items, j, depth, c);
      SumRead(items[j].children, 0, depth + 1, c);
      TermOfBox(items, pos, j, end, depth, ExprOf(c));
  }

  lemma BoxLaid(items: seq<P.Component>, j: nat, depth: nat, c: Calc)
    requires PieceAt(items, j, Box('(', SumPieces(c)))
    requires depth <= MAX_DEPTH && Within([Box('(', SumPieces(c))], MAX_DEPTH - depth)
    ensures items[j].kind == P.Block && items[j].delimiter == ')' && depth < MAX_DEPTH
    ensures Laid(items[j].children, 0, SumPieces(c)) && |items[j].children| == 2 * |SumPieces(c)| - 1
    ensures Within(SumPieces(c), MAX_DEPTH - depth - 1)
  {
    var p := Box('(', SumPieces(c));
    assert p == [p][0];
    SumShape(c);
    PlacedLaid(SumPieces(c), items[j].start + 1);
  }

  lemma TermOfLeaf(items: seq<P.Component>, pos: nat, j: nat, end: nat, depth: nat, e: Expr)
    requires pos <= j < end <= |items| && SkipWs(items, pos, end) == j && LeafOf(items[j]) == Some(e)
    requires items[j].kind != P.Block && items[j].kind != P.Function
    ensures ReadTerm(items, pos, end, depth) == Some((e, j + 1))
  {
    assert ReadTerm(items, pos, end, depth) == Advanced(LeafOf(items[j]), j);
  }

  lemma TermOfBox(items: seq<P.Component>, pos: nat, j: nat, end: nat, depth: nat, e: Expr)
    requires pos <= j < end <= |items| && SkipWs(items, pos, end) == j
    requires items[j].kind == P.Block && items[j].delimiter == ')'
    requires ReadSum(items[j].children, 0, |items[j].children|, depth + 1) == Some(e)
    ensures ReadTerm(items, pos, end, depth) == Some((e, j + 1))
  {
  }

  /** A product that ends at `next`: what is read behind it. */
  lemma {:induction false} ProductRead(items: seq<P.Component>, pos: nat, j: nat, next: nat, end: nat, depth: nat,
                                       c: Calc)
    requires |ProductPieces(c)| > 0 && next == j + 2 * |ProductPieces(c)| - 1 && next <= end <= |items|
    requires Known(c) && Laid(items, j, ProductPieces(c)) && pos <= j && SkipWs(items, pos, end) == j
    requires depth <= MAX_DEPTH && Within(ProductPieces(c), MAX_DEPTH - depth)
    ensures ReadProduct(items, pos, end, depth) == ReadFactors(items, next, end, depth, ExprOf(c))
    decreases c, if IsSum(c) then 10 else 4
  {
    if c.Prod? || c.Quot? {
      var k, op := j + 2 * |ProductPieces(c.l)| - 1, if c.Prod? then '*' else '/';
      ProductParts(items, j, k, next, MAX_DEPTH - depth, c, op);
      ProductRead(items, pos, j, k, end, depth, c.l);
      FactorRead(items, k, next, end, depth, ExprOf(c.l), op, c.r);
    } else {
      assert LaidAt(items, j, [TermPiece(c)], 0);
      TermRead(items, pos, j, end, depth, c);
      ProductOfTerm(items, pos, end, depth, ExprOf(c), next);
    }
  }

  lemma ProductOfTerm(items: seq<P.Component>, pos: nat, end: nat, depth: nat, e: Expr, next: nat)
    requires pos <= next <= end <= |items| && ReadTerm(items, pos, end, depth) == Some((e, next))
    ensures ReadProduct(items, pos, end, depth) == ReadFactors(items, next, end, depth, e)
  {
  }

  /** Where the parts of a product stand; its left part ends at `k`. */
  lemma ProductParts(items: seq<P.Component>, j: nat, k: int, next: nat, room: nat, c: Calc, op: char)
    requires (c.Prod? || c.Quot?) && Laid(items, j, ProductPieces(c)) && Within(ProductPieces(c), room)
    requires op == (if c.Prod? then '*' else '/')
    requires k == j + 2 * |ProductPieces(c.l)| - 1 && next == j + 2 * |ProductPieces(c)| - 1
    ensures |ProductPieces(c.l)| > 0 && k >= 0 && next == k + 4
    ensures Laid(items, j, ProductPieces(c.l)) && SpaceAt(items, k) && Laid(items, k + 1, [Mark(op)])
    ensures SpaceAt(items, k + 2) && Laid(items, k + 3, [TermPiece(c.r)])
    ensures Within(ProductPieces(c.l), room) && Within([TermPiece(c.r)], room)
  {
    ProductShape(c.l);
    assert ProductPieces(c) == ProductPieces(c.l) + ([Mark(op)] + [TermPiece(c.r)]);
    OperandParts(items, j, k, next, room, ProductPieces(c.l), op, [TermPiece(c.r)]);
  }

  /** Where two operands with an operator between them stand; the first ends at `k`. */
  lemma OperandParts(items: seq<P.Component>, j: nat, k: int, next: nat, room: nat, l: seq<Piece>, op: char,
                     r: seq<Piece>)
    requires l != [] && r != [] && Laid(items, j, l + ([Mark(op)] + r)) && Within(l + ([Mark(op)] + r), room)
    requires k == j + 2 * |l| - 1 && next == j + 2 * |l + ([Mark(op)] + r)| - 1
    ensures k >= 0 && next == k + 2 + 2 * |r|
    ensures Laid(items, j, l) && SpaceAt(items, k) && Laid(items, k + 1, [Mark(op)])
    ensures SpaceAt(items, k + 2) && Laid(items, k + 3, r)
    ensures Within(l, room) && Within(r, room)
  {
    WithinParts(l, [Mark(op)] + r, room);
    WithinParts([Mark(op)], r, room);
    LaidParts(items, j, l, [Mark(op)] + r, k + 1);
    LaidParts(items, k + 1, [Mark(op)], r, k + 3);
  }

  /** Where the parts of a sum stand; its left part ends at `k`. */
  lemma SumParts(items: seq<P.Component>, j: nat, k: int, next: nat, room: nat, c: Calc, op: char)
    requires IsSum(c) && Laid(items, j, SumPieces(c)) && Within(SumPieces(c), room)
    requires op == (if c.Sum? then '+' else '-')
    requires k == j + 2 * |SumPieces(c.l)| - 1 && next == j + 2 * |SumPieces(c)| - 1
    ensures |SumPieces(c.l)| > 0 && |ProductPieces(c.r)| > 0 && k >= 0 && next == k + 2 + 2 * |ProductPieces(c.r)|
    ensures Laid(items, j, SumPieces(c.l)) && SpaceAt(items, k) && Laid(items, k + 1, [Mark(op)])
    ensures SpaceAt(items, k + 2) && Laid(items, k + 3, ProductPieces(c.r))
    ensures Within(SumPieces(c.l), room) && Within(ProductPieces(c.r), room)
  {
    SumShape(c.l);
    ProductShape(c.r);
    assert SumPieces(c) == SumPieces(c.l) + ([Mark(op)] + ProductPieces(c.r));
    OperandParts(items, j, k, next, room, SumPieces(c.l), op, ProductPieces(c.r));
  }

  lemma OperatorAt(items: seq<P.Component>, k: nat, end: nat, op: char, ps: seq<Piece>)
    requires op in "+-*/" && ps != [] && k + 3 < end <= |items|
    requires SpaceAt(items, k) && Laid(items, k + 1, [Mark(op)]) && SpaceAt(items, k + 2) && Laid(items, k + 3, ps)
    ensures SkipWs(items, k, end) == k + 1 && items[k + 1].kind == P.Delim && items[k + 1].delimiter == op
    ensures SkipWs(items, k + 2, end) == k + 3 && PieceAt(items, k + 3, ps[0])
  {
    assert LaidAt(items, k + 1, [Mark(op)], 0) && LaidAt(items, k + 3, ps, 0);
    PieceNoSpace(items, k + 1, Mark(op));
    PieceNoSpace(items, k + 3, ps[0]);
    SkipSpace(items, k, end);
    SkipSpace(items, k + 2, end);
  }

  /** One more factor: white space, the operator, white space and a term. */
  lemma {:induction false} FactorRead(items: seq<P.Component>, k: nat, next: nat, end: nat, depth: nat, acc: Expr,
                                      op: char, r: Calc)
    requires Known(r) && (op == '*' || op == '/') && next == k + 4 && next <= end <= |items|
    requires SpaceAt(items, k) && Laid(items, k + 1, [Mark(op)]) && SpaceAt(items, k + 2)
    requires Laid(items, k + 3, [TermPiece(r)])
    requires depth <= MAX_DEPTH && Within([TermPiece(r)], MAX_DEPTH - depth)
    ensures ReadFactors(items, k, end, depth, acc) ==
      ReadFactors(items, next, end, depth, if op == '*' then Mul(acc, ExprOf(r)) else Div(acc, ExprOf(r)))
    decreases r, 12
  {
    OperatorAt(items, k, end, op, [TermPiece(r)]);
    TermRead(items, k + 2, k + 3, end, depth, r);
    FactorStep(items, k, next, end, depth, acc, op, ExprOf(r));
  }

  lemma FactorStep(items: seq<P.Component>, k: nat, next: nat, end: nat, depth: nat, acc: Expr, op: char, e: Expr)
    requires (op == '*' || op == '/') && k + 2 <= next <= end <= |items| && k + 1 < end
    requires SkipWs(items, k, end) == k + 1 && items[k + 1].kind == P.Delim && items[k + 1].delimiter == op
    requires ReadTerm(items, k + 2, end, depth) == Some((e, next))
    ensures ReadFactors(items, k, end, depth, acc) ==
      ReadFactors(items, next, end, depth, if op == '*' then Mul(acc, e) else Div(acc, e))
  {
  }

  /** Nothing there goes on with a product. */
  ghost predicate ProductEnds(items: seq<P.Component>, e: nat, end: nat)
    requires e <= end <= |items|
  {
    var p := SkipWs(items, e, end);
    p >= end || !IsOp(items[p], '*', '/')
  }

  /** A sum that ends at `next`: what is read behind it. */
  lemma {:induction false} SumPrefix(items: seq<P.Component>, pos: nat, j: nat, next: nat, end: nat, depth: nat,
                                     c: Calc)
    requires |SumPieces(c)| > 0 && next == j + 2 * |SumPieces(c)| - 1 && next <= end <= |items|
    requires Known(c) && Laid(items, j, SumPieces(c)) && pos <= j && SkipWs(items, pos, end) == j
    requires depth <= MAX_DEPTH && Within(SumPieces(c), MAX_DEPTH - depth) && ProductEnds(items, next, end)
    ensures ReadSum(items, pos, end, depth) == ReadAddends(items, next, end, depth, ExprOf(c))
    decreases c, 6
  {
    if IsSum(c) {
      var k, op := j + 2 * |SumPieces(c.l)| - 1, if c.Sum? then '+' else '-';
      SumParts(items, j, k, next, MAX_DEPTH - depth, c, op);
      AddendEnds(items, k, end, op);
      SumPrefix(items, pos, j, k, end, depth, c.l);
      AddendRead(items, k, next, end, depth, ExprOf(c.l), op, c.r);
    } else {
      ProductRead(items, pos, j, next, end, depth, c);
      SumOfProduct(items, pos, end, depth, ExprOf(c), next);
    }
  }

  lemma SumOfProduct(items: seq<P.Component>, pos: nat, end: nat, depth: nat, e: Expr, next: nat)
    requires pos <= next <= end <= |items| && depth <= MAX_DEPTH && ProductEnds(items, next, end)
    requires ReadProduct(items, pos, end, depth) == ReadFactors(items, next, end, depth, e)
    ensures ReadSum(items, pos, end, depth) == ReadAddends(items, next, end, depth, e)
  {
  }

  lemma AddendEnds(items: seq<P.Component>, k: nat, end: nat, op: char)
    requires (op == '+' || op == '-') && k + 1 < end <= |items| && SpaceAt(items, k) && Laid(items, k + 1, [Mark(op)])
    ensures ProductEnds(items, k, end)
  {
    assert LaidAt(items, k + 1, [Mark(op)], 0);
    PieceNoSpace(items, k + 1, Mark(op));
    SkipSpace(items, k, end);
  }

  /** One more addend, which ends at `next`. */
  lemma {:induction false} AddendRead(items: seq<P.Component>, k: nat, next: nat, end: nat, depth: nat, acc: Expr,
                                      op: char, r: Calc)
    requires Known(r) && (op == '+' || op == '-') && |ProductPieces(r)| > 0
    requires next == k + 2 + 2 * |ProductPieces(r)| && next <= end <= |items| && ProductEnds(items, next, end)
    requires SpaceAt(items, k) && Laid(items, k + 1, [Mark(op)]) && SpaceAt(items, k + 2)
    requires Laid(items, k + 3, ProductPieces(r))
    requires depth <= MAX_DEPTH && Within(ProductPieces(r), MAX_DEPTH - depth)
    ensures ReadAddends(items, k, end, depth, acc) ==
      ReadAddends(items, next, end, depth, if op == '+' then Add(acc, ExprOf(r)) else Sub(acc, ExprOf(r)))
    decreases r, 12
  {
    OperatorAt(items, k, end, op, ProductPieces(r));
    ProductRead(items, k + 2, k + 3, next, end, depth, r);
    AddendStep(items, k, next, end, depth, acc, op, ExprOf(r));
  }

  lemma AddendStep(items: seq<P.Component>, k: nat, next: nat, end: nat, depth: nat, acc: Expr, op: char, e: Expr)
    requires (op == '+' || op == '-') && k + 3 < end && k + 3 <= next <= end <= |items|
    requires SkipWs(items, k, end) == k + 1 && items[k + 1].kind == P.Delim && items[k + 1].delimiter == op
    requires SpaceAt(items, k + 2) && ProductEnds(items, next, end)
    requires ReadProduct(items, k + 2, end, depth) == ReadFactors(items, next, end, depth, e)
    ensures ReadAddends(items, k, end, depth, acc) ==
      ReadAddends(items, next, end, depth, if op == '+' then Add(acc, e) else Sub(acc, e))
  {
    assert ReadFactors(items, next, end, depth, e) == Some((e, next));
  }

  /** A whole list of components that is a sum is read as it. */
  lemma {:induction false} SumRead(items: seq<P.Component>, start: nat, depth: nat, c: Calc)
    requires Known(c) && Laid(items, 0, SumPieces(c)) && |items| == 2 * |SumPieces(c)| - 1 && start == 0
    requires depth <= MAX_DEPTH && Within(SumPieces(c), MAX_DEPTH - depth)
    ensures ReadSum(items, 0, |items|, depth) == Some(ExprOf(c))
    decreases c, 7
  {
    assert LaidAt(items, 0, SumPieces(c), 0);
    PieceNoSpace(items, 0, SumPieces(c)[0]);
    SumPrefix(items, 0, 0, |items|, |items|, depth, c);
    SumEnds(items, |items|, depth, ExprOf(c));
  }

  lemma SumEnds(items: seq<P.Component>, end: nat, depth: nat, e: Expr)
    requires end == |items|
    ensures ReadAddends(items, end, end, depth, e) == Some(e)
  {
  }

  // ---- from the text to the value ----

  /** Every unit is an identifier that does not go on with its number as an exponent. */
  predicate Clean(c: Calc) {
    match c
    case Val(n, unit) =>
      IsNumeral(n) &&
      (unit == "" || unit == "%" || (IdentText(unit) && (n.exponent == "" ==> !Exponential(unit))))
    case Sum(l, r) => Clean(l) && Clean(r)
    case Diff(l, r) => Clean(l) && Clean(r)
    case Prod(l, r) => Clean(l) && Clean(r)
    case Quot(l, r) => Clean(l) && Clean(r)
  }

  ghost predicate AllWritable(ps: seq<Piece>) { forall k :: 0 <= k < |ps| ==> Writable(ps[k]) }

  lemma WritableParts(a: seq<Piece>, b: seq<Piece>)
    requires AllWritable(a) && AllWritable(b)
    ensures AllWritable(a + b)
  {
  }

  lemma {:induction false} SumWritable(c: Calc)
    requires Clean(c)
    ensures AllWritable(SumPieces(c))
    decreases c, 2
  {
    if IsSum(c) {
      SumWritable(c.l);
      ProductWritable(c.r);
      WritableParts([Mark(if c.Sum? then '+' else '-')], ProductPieces(c.r));
      WritableParts(SumPieces(c.l), [Mark(if c.Sum? then '+' else '-')] + ProductPieces(c.r));
    } else {
      ProductWritable(c);
    }
  }

  lemma {:induction false} ProductWritable(c: Calc)
    requires Clean(c)
    ensures AllWritable(ProductPieces(c))
    decreases c, if IsSum(c) then 4 else 1
  {
    if c.Prod? || c.Quot? {
      ProductWritable(c.l);
      TermWritable(c.r);
      WritableParts([Mark(if c.Prod? then '*' else '/')], [TermPiece(c.r)]);
      WritableParts(ProductPieces(c.l), [Mark(if c.Prod? then '*' else '/')] + [TermPiece(c.r)]);
    } else {
      TermWritable(c);
    }
  }

  lemma {:induction false} TermWritable(c: Calc)
    requires Clean(c)
    ensures Writable(TermPiece(c))
    decreases c, if c.Val? then 0 else 3
  {
    if !c.Val? { SumWritable(c); }
  }

  /** The text of an expression, nested at most 32 deep, is parsed, and read as that expression: products
      before sums, both from the left, and every number at its value. */
  lemma PrintedSum(c: Calc)
    requires Known(c) && Clean(c) && Within(SumPieces(c), MAX_DEPTH)
    ensures var items := PlacedAll(SumPieces(c), 0);
      P.IsValue(Texts(SumPieces(c)), items) && ReadSum(items, 0, |items|, 0) == Some(ExprOf(c))
  {
    SumWritable(c);
    PrintedIsRead(SumPieces(c));
    SumShape(c);
    PlacedLaid(SumPieces(c), 0);
    SumRead(PlacedAll(SumPieces(c), 0), 0, 0, c);
  }

  // ---- the evaluator itself ----

  ghost predicate NoCalls(ps: seq<Piece>)
    decreases ps
  {
    forall k :: 0 <= k < |ps| ==> !ps[k].Call? && (ps[k].Box? ==> NoCalls(ps[k].inner))
  }

  lemma NoCallsParts(a: seq<Piece>, b: seq<Piece>)
    requires NoCalls(a) && NoCalls(b)
    ensures NoCalls(a + b)
  {
  }

  lemma {:induction false} SumNoCalls(c: Calc)
    ensures NoCalls(SumPieces(c))
    decreases c, 2
  {
    if IsSum(c) {
      var op := [Mark(if c.Sum? then '+' else '-')];
      SumNoCalls(c.l);
      ProductNoCalls(c.r);
      NoCallsParts(op, ProductPieces(c.r));
      NoCallsParts(SumPieces(c.l), op + ProductPieces(c.r));
    } else {
      ProductNoCalls(c);
    }
  }

  lemma {:induction false} ProductNoCalls(c: Calc)
    ensures NoCalls(ProductPieces(c))
    decreases c, if IsSum(c) then 4 else 1
  {
    if c.Prod? || c.Quot? {
      var op := [Mark(if c.Prod? then '*' else '/')];
      ProductNoCalls(c.l);
      TermNoCalls(c.r);
      NoCallsParts(op, [TermPiece(c.r)]);
      NoCallsParts(ProductPieces(c.l), op + [TermPiece(c.r)]);
    } else {
      TermNoCalls(c);
    }
  }

  lemma {:induction false} TermNoCalls(c: Calc)
    ensures NoCalls([TermPiece(c)])
    decreases c, if c.Val? then 0 else 3
  {
    if !c.Val? { SumNoCalls(c); }
  }

  lemma OnlyCalcJoined(a: seq<P.Component>, b: seq<P.Component>)
    requires OnlyCalc(a) && OnlyCalc(b)
    ensures OnlyCalc(a + b)
  {
  }

  lemma {:induction false} OwnOnlyCalc(p: Piece, at: nat)
    requires !p.Call? && (p.Box? ==> NoCalls(p.inner))
    ensures OnlyCalc(Own(p, at))
    decreases p, 1
  {
    if p.Box? { PlacedOnlyCalc(p.inner, at + 1); }
  }

  lemma {:induction false} PlacedOnlyCalc(ps: seq<Piece>, at: nat)
    requires NoCalls(ps)
    ensures OnlyCalc(PlacedAll(ps, at))
    decreases ps, 0
  {
    if ps != [] {
      OwnOnlyCalc(ps[0], at);
      RestOnlyCalc(ps[1..], at + |Text(ps[0])|);
      OnlyCalcJoined(Own(ps[0], at), PlacedRest(ps[1..], at + |Text(ps[0])|));
    }
  }

  lemma LeafOnlyCalc(c: P.Component)
    requires c.kind != P.Function && c.children == []
    ensures OnlyCalc([c])
  {
  }

  lemma {:induction false} RestOnlyCalc(ps: seq<Piece>, at: nat)
    requires NoCalls(ps)
    ensures OnlyCalc(PlacedRest(ps, at))
    decreases ps, 0
  {
    if ps != [] {
      var n := at + 1 + |Text(ps[0])|;
      FirstNoCalls(ps);
      OwnOnlyCalc(ps[0], at + 1);
      RestOnlyCalc(ps[1..], n);
      RestSpaced(ps, at, n);
      SpacedOnlyCalc(at, Own(ps[0], at + 1), PlacedRest(ps[1..], n));
    }
  }

  lemma FirstNoCalls(ps: seq<Piece>)
    requires ps != [] && NoCalls(ps)
    ensures !ps[0].Call? && (ps[0].Box? ==> NoCalls(ps[0].inner)) && NoCalls(ps[1..])
  {
  }

  lemma RestSpaced(ps: seq<Piece>, at: nat, n: nat)
    requires ps != [] && n == at + 1 + |Text(ps[0])|
    ensures PlacedRest(ps, at) ==
      [P.Leaf(P.Whitespace, at, at + 1, "", "", P.NONE)] + (Own(ps[0], at + 1) + PlacedRest(ps[1..], n))
  {
  }

  lemma SpacedOnlyCalc(at: nat, own: seq<P.Component>, rest: seq<P.Component>)
    requires OnlyCalc(own) && OnlyCalc(rest)
    ensures OnlyCalc([P.Leaf(P.Whitespace, at, at + 1, "", "", P.NONE)] + (own + rest))
  {
    LeafOnlyCalc(P.Leaf(P.Whitespace, at, at + 1, "", "", P.NONE));
    OnlyCalcJoined(own, rest);
    OnlyCalcJoined([P.Leaf(P.Whitespace, at, at + 1, "", "", P.NONE)], own + rest);
  }

  /** An expression written down, parsed and evaluated: accepted if its kinds fit, with its value. */
  method EvaluateText(c: Calc) returns (out: MathValue, ok: bool)
    requires Known(c) && Clean(c) && Within(SumPieces(c), MAX_DEPTH)
    ensures out.Valid() && (ok <==> Compile(ExprOf(c)).Some?)
    ensures ok ==> out.kind.Some? && Compile(ExprOf(c)) == Some(out.Val())
  {
    PrintedSum(c);
    SumNoCalls(c);
    PlacedOnlyCalc(SumPieces(c), 0);
    var cs, _ := P.ParseValues(Texts(SumPieces(c)));
    out := new MathValue();
    ok := EvalSum(cs, 0, |cs|, out, 0);
  }
}
