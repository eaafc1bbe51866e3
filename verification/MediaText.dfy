/** The small readings a media query parser is made of.  A cursor is the text that is left. */
module MediaText {
  import opened Ascii
  import opened Wrappers
  import opened Decimals

  function SkipWs(s: string): (r: string)
    ensures |r| <= |s| && (r != "" ==> !IsWs(r[0]))
    ensures s != "" && !IsWs(s[0]) ==> r == s
  {
    if s != "" && IsWs(s[0]) then SkipWs(s[1..]) else s
  }

  function TrimEnd(s: string): (r: string)
    ensures |r| <= |s|
    ensures s != "" && !IsWs(s[|s| - 1]) ==> r == s
  {
    if s != "" && IsWs(s[|s| - 1]) then TrimEnd(s[..|s| - 1]) else s
  }

  function Trim(s: string): (r: string)
    ensures |r| <= |s|
  {
    TrimEnd(SkipWs(s))
  }

  predicate IdentChar(c: char) { IsAlnum(c) || c == '-' || c == '_' }

  /** How long the run of identifier characters is. */
  function IdentLength(s: string): (n: nat)
    ensures n <= |s| && (n < |s| ==> !IdentChar(s[n]))
    ensures forall i :: 0 <= i < n ==> IdentChar(s[i])
  {
    if s != "" && IdentChar(s[0]) then 1 + IdentLength(s[1..]) else 0
  }

  datatype Read = Read(ident: string, rest: string)

  /** An identifier, folded, that fits a buffer of so many bytes. */
  function ReadIdent(s: string, room: nat): (r: Option<Read>)
    ensures r.Some? ==> |r.value.rest| < |s|
  {
    var n := IdentLength(s);
    if n == 0 || n >= room then None else Some(Read(Lower(s[..n]), s[n..]))
  }

  /** A keyword, followed by white space, a parenthesis or the end. */
  predicate KwAt(s: string, kw: string) {
    |s| >= |kw| && Lower(s[..|kw|]) == kw && (|s| == |kw| || IsWs(s[|kw|]) || s[|kw|] == '(')
  }

  /** Where the parenthesis closes that is open before the text, or the end. */
  function CloseParen(s: string, depth: nat): (k: nat)
    requires depth > 0
    ensures k <= |s| && (k < |s| ==> s[k] == ')')
    decreases |s|
  {
    if s == "" then 0
    else if s[0] == ')' && depth == 1 then 0
    else 1 + CloseParen(s[1..], if s[0] == '(' then depth + 1 else if s[0] == ')' then depth - 1 else depth)
  }

  /** No bracket closes before it opens, and there is no semicolon or exclamation mark. */
  predicate AnyValueOk(s: string, paren: nat, bracket: nat, brace: nat)
    decreases |s|
  {
    s == "" ||
    if s[0] == '(' then AnyValueOk(s[1..], paren + 1, bracket, brace)
    else if s[0] == ')' then paren > 0 && AnyValueOk(s[1..], paren - 1, bracket, brace)
    else if s[0] == '[' then AnyValueOk(s[1..], paren, bracket + 1, brace)
    else if s[0] == ']' then bracket > 0 && AnyValueOk(s[1..], paren, bracket - 1, brace)
    else if s[0] == '{' then AnyValueOk(s[1..], paren, bracket, brace + 1)
    else if s[0] == '}' then brace > 0 && AnyValueOk(s[1..], paren, bracket, brace - 1)
    else s[0] != ';' && s[0] != '!' && AnyValueOk(s[1..], paren, bracket, brace)
  }

  // ---- numbers ----

  function Digits(s: string): (n: nat)
    ensures n <= |s| && (n < |s| ==> !IsDigit(s[n]))
    ensures forall i :: 0 <= i < n ==> IsDigit(s[i])
  {
    if s != "" && IsDigit(s[0]) then 1 + Digits(s[1..]) else 0
  }

  datatype Number = Number(value: real, rest: string)

  function SignLength(s: string): nat {
    if s != "" && (s[0] == '+' || s[0] == '-') then 1 else 0
  }

  /** The exponent of a decimal numeral, if one stands there: a letter e, a sign perhaps, and digits. */
  function Exponent(s: string): (e: (int, string))
    ensures |e.1| <= |s|
  {
    if s == "" || (s[0] != 'e' && s[0] != 'E') then (0, s)
    else
      var sign := SignLength(s[1..]);
      var d := Digits(s[1 + sign..]);
      if d == 0 then (0, s)
      else
        var v := NatOf(s[1 + sign..][..d]) as int;
        (if s[1] == '-' then -v else v, s[1 + sign + d..])
  }

  /** The digits of a numeral before and after the point, and what follows them. */
  datatype Mantissa = Mantissa(whole: string, fraction: string, rest: string)

  function ReadMantissa(t: string): (r: Option<Mantissa>)
    ensures r.Some? ==> |r.value.rest| < |t|
  {
    var d := Digits(t);
    var dot := d < |t| && t[d] == '.';
    var f := if dot then Digits(t[d + 1..]) else 0;
    if d + f == 0 then None
    else if dot then Some(Mantissa(t[..d], t[d + 1..][..f], t[d + 1..][f..]))
    else Some(Mantissa(t[..d], "", t[d..]))
  }

  /** An unsigned decimal numeral: digits with a fraction perhaps, and an exponent perhaps. */
  function ReadUnsigned(t: string): (r: Option<Number>)
    ensures r.Some? ==> |r.value.rest| < |t|
  {
    match ReadMantissa(t)
    case None => None
    case Some(m) =>
      var e := Exponent(m.rest);
      Some(Number(Composed(NatOf(m.whole), NatOf(m.fraction), |m.fraction|, e.0), e.1))
  }

  /** A decimal numeral at the beginning of the text, with a sign perhaps. */
  function ReadNumber(s: string): (r: Option<Number>)
    ensures r.Some? ==> |r.value.rest| < |s|
  {
    if SignLength(s) == 0 then ReadUnsigned(s)
    else match ReadUnsigned(s[1..])
      case None => None
      case Some(n) => Some(if s[0] == '-' then Number(-n.value, n.rest) else n)
  }

  /** What may follow a numeral without becoming part of it. */
  predicate EndsNumber(rest: string) {
    rest == "" || !(IsDigit(rest[0]) || rest[0] == '.' || rest[0] == 'e' || rest[0] == 'E')
  }

  // ---- reading them ----

  lemma DigitsAre(s: string, n: nat)
    requires n <= |s| && (forall i :: 0 <= i < n ==> IsDigit(s[i])) && (n < |s| ==> !IsDigit(s[n]))
    ensures Digits(s) == n
  {
  }

  lemma DigitsBefore(ds: string, rest: string)
    requires AllDigits(ds) && (rest == "" || !IsDigit(rest[0]))
    ensures Digits(ds + rest) == |ds| && (ds + rest)[..|ds|] == ds && (ds + rest)[|ds|..] == rest
  {
    DigitsAre(ds + rest, |ds|);
  }

  lemma UnsignedIs(t: string, m: Mantissa)
    requires ReadMantissa(t) == Some(m) && EndsNumber(m.rest)
    ensures ReadUnsigned(t) == Some(Number(Composed(NatOf(m.whole), NatOf(m.fraction), |m.fraction|, 0), m.rest))
  {
    NoExponent(m.rest);
  }

  lemma ReadNatural(n: nat, rest: string)
    requires EndsNumber(rest)
    ensures ReadUnsigned(NatDigits(n) + rest) == Some(Number(n as real, rest))
  {
    var ds := NatDigits(n);
    DigitsBefore(ds, rest);
    UnsignedIs(ds + rest, Mantissa(ds, "", rest));
  }

  lemma ReadPoint(t: string, a: string, b: string, rest: string)
    requires AllDigits(a) && AllDigits(b) && b != "" && EndsNumber(rest) && t == a + ("." + (b + rest))
    ensures ReadUnsigned(t) == Some(Number(Composed(NatOf(a), NatOf(b), |b|, 0), rest))
  {
    PointDigits(t, a, b, rest);
    UnsignedIs(t, Mantissa(a, b, rest));
  }

  lemma PointDigits(t: string, a: string, b: string, rest: string)
    requires AllDigits(a) && AllDigits(b) && b != "" && EndsNumber(rest) && t == a + ("." + (b + rest))
    ensures ReadMantissa(t) == Some(Mantissa(a, b, rest))
  {
    DigitsBefore(a, "." + (b + rest));
    DigitsBefore(b, rest);
    assert t[|a| + 1..] == b + rest;
  }

  lemma NoExponent(rest: string)
    requires EndsNumber(rest)
    ensures Exponent(rest) == (0, rest)
  {
  }

  lemma ReadPlaces(n: nat, places: nat, rest: string)
    requires EndsNumber(rest)
    ensures ReadUnsigned(Unsigned(n, places) + rest) == Some(Number(Shifted(n as real, places), rest))
  {
    if places == 0 {
      ReadNatural(n, rest);
    } else {
      var a, b := WholePart(n, places), FractionPart(n, places);
      SplitValue(n, places);
      PointAssoc(a, b, rest);
      ReadPoint(Unsigned(n, places) + rest, a, b, rest);
    }
  }

  lemma PointAssoc(a: string, b: string, rest: string)
    ensures (a + ("." + b)) + rest == a + ("." + (b + rest))
  {
  }

  lemma ReadPlus(s: string)
    requires SignLength(s) == 0
    ensures ReadNumber(s) == ReadUnsigned(s)
  {
  }

  lemma ReadMinus(t: string, v: real, rest: string)
    requires ReadUnsigned(t) == Some(Number(v, rest))
    ensures ReadNumber("-" + t) == Some(Number(-v, rest))
  {
    assert ("-" + t)[1..] == t;
  }

  lemma Assoc(a: string, b: string, c: string)
    ensures (a + b) + c == a + (b + c)
  {
  }

  lemma ReadFixedPositive(n: nat, places: nat, rest: string)
    requires EndsNumber(rest)
    ensures ReadNumber(Unsigned(n, places) + rest) == Some(Number(Shifted(n as real, places), rest))
  {
    var text := Unsigned(n, places);
    ReadPlaces(n, places, rest);
    assert (text + rest)[0] == text[0];
    ReadPlus(text + rest);
  }

  lemma ReadFixedNegative(n: nat, places: nat, rest: string)
    requires EndsNumber(rest)
    ensures ReadNumber(("-" + Unsigned(n, places)) + rest) == Some(Number(-Shifted(n as real, places), rest))
  {
    var text := Unsigned(n, places);
    ReadPlaces(n, places, rest);
    ReadMinus(text + rest, Shifted(n as real, places), rest);
    Assoc("-", text, rest);
  }

  /** A printed number is read back. */
  lemma ReadFixed(n: int, places: nat, rest: string)
    requires EndsNumber(rest)
    ensures ReadNumber(Fixed(n, places) + rest) == Some(Number(Shifted(n as real, places), rest))
  {
    if n >= 0 {
      ReadFixedPositive(n, places, rest);
    } else {
      ReadFixedNegative(-n, places, rest);
    }
    FixedReads(n, places, rest, ReadNumber);
  }

  lemma FixedReads(n: int, places: nat, rest: string, number: string -> Option<Number>)
    requires n >= 0 ==> number(Unsigned(n, places) + rest) == Some(Number(Shifted(n as real, places), rest))
    requires n < 0 ==>
      number(("-" + Unsigned(-n, places)) + rest) == Some(Number(-Shifted((-n) as real, places), rest))
    ensures number(Fixed(n, places) + rest) == Some(Number(Shifted(n as real, places), rest))
  {
    if n < 0 {
      ScaledNegative((-n) as real, places);
      assert -((-n) as real) == n as real;
    }
  }
}
