/** What an event stream means, stated on the whole stream: lines, blocks of lines, messages
    (sections 9.2.5 and 9.2.6 of the WHATWG HTML standard).  A char is one byte. */
module EsStream {
  import opened Ascii

  // ---- Lines ----

  predicate IsBreak(c: char) { c == '\r' || c == '\n' }

  /** The first line break at or after the start, or the end of the stream. */
  function FirstBreak(s: string): (k: nat)
    ensures k <= |s| && (k < |s| ==> IsBreak(s[k]))
    ensures forall i :: 0 <= i < k ==> !IsBreak(s[i])
  {
    if s == "" || IsBreak(s[0]) then 0 else 1 + FirstBreak(s[1..])
  }

  /** A line ends with a carriage return and line feed together, or with either alone. */
  function BreakEnd(s: string, k: nat): (e: nat)
    requires k < |s|
    ensures k < e <= |s|
  {
    if s[k] == '\r' && k + 1 < |s| && s[k + 1] == '\n' then k + 2 else k + 1
  }

  /** The finished lines of the stream, without their ends. */
  function Lines(s: string): seq<string>
    decreases |s|
  {
    var k := FirstBreak(s);
    if k == |s| then [] else [s[..k]] + Lines(s[BreakEnd(s, k)..])
  }

  /** What stands after the last finished line. */
  function Rest(s: string): string
    decreases |s|
  {
    var k := FirstBreak(s);
    if k == |s| then s else Rest(s[BreakEnd(s, k)..])
  }

  // ---- Fields ----

  /** A line is cut at its first colon, or has an empty value; one space after the colon is not
      part of the value.  A comment is a line with an empty field name. */
  datatype Field = Field(name: string, value: string)

  function Colon(line: string): (k: nat)
    ensures k <= |line| && (k < |line| ==> line[k] == ':')
    ensures forall i :: 0 <= i < k ==> line[i] != ':'
  {
    if line == "" || line[0] == ':' then 0 else 1 + Colon(line[1..])
  }

  function FieldOf(line: string): Field {
    var k := Colon(line);
    if k == |line| then Field(line, "")
    else if k + 1 < |line| && line[k + 1] == ' ' then Field(line[..k], line[k + 2..])
    else Field(line[..k], line[k + 1..])
  }

  /** The values given to a field by some lines, in order. */
  function Values(lines: seq<string>, name: string): seq<string> {
    if lines == [] then []
    else
      var f := FieldOf(lines[|lines| - 1]);
      Values(lines[..|lines| - 1], name) + (if f.name == name then [f.value] else [])
  }

  function LastOr(values: seq<string>, otherwise: string): string {
    if values == [] then otherwise else values[|values| - 1]
  }

  // ---- Messages ----

  datatype Message = Message(event: string, data: string, lastId: string)

  /** The lines since the last empty line. */
  function Block(lines: seq<string>): seq<string> {
    if lines == [] || lines[|lines| - 1] == "" then []
    else Block(lines[..|lines| - 1]) + [lines[|lines| - 1]]
  }

  function Joined(values: seq<string>): string
    requires values != []
  {
    if |values| == 1 then values[0] else Joined(values[..|values| - 1]) + "\n" + values[|values| - 1]
  }

  function TypeOf(block: seq<string>): string {
    var t := LastOr(Values(block, "event"), "");
    if t == "" then "message" else t
  }

  /** Every empty line that closes a block with at least one data line makes a message. */
  function Messages(lines: seq<string>, firstId: string): seq<Message> {
    if lines == [] then []
    else
      var before := lines[..|lines| - 1];
      var block := Block(before);
      Messages(before, firstId) +
      (if lines[|lines| - 1] == "" && Values(block, "data") != []
       then [Message(TypeOf(block), Joined(Values(block, "data")), LastOr(Values(before, "id"), firstId))]
       else [])
  }

  // ---- Reconnection time ----

  const DAY_MS: int := 86400000

  /** The reconnection time after the lines: the last retry value that is a positive decimal number,
      at most a day. */
  function Retry(values: seq<string>, first: int): int {
    if values == [] then first
    else Retried(values[|values| - 1], Retry(values[..|values| - 1], first))
  }

  /** The reconnection time after one retry value. */
  function Retried(v: string, before: int): int {
    if Numeral(v) && NatOf(v) > 0 then if NatOf(v) < DAY_MS then NatOf(v) else DAY_MS
    else before
  }

  predicate Numeral(v: string) { v != "" && AllDigits(v) }

  /** The reconnection time as the standard has it: every numeral sets it, whatever its value. */
  function StandardRetried(v: string, before: int): int {
    if Numeral(v) then NatOf(v) else before
  }

  function StandardRetry(values: seq<string>, first: int): int {
    if values == [] then first
    else StandardRetried(values[|values| - 1], StandardRetry(values[..|values| - 1], first))
  }

  function Numerals(values: seq<string>): seq<string> {
    if values == [] then []
    else
      var v := values[|values| - 1];
      Numerals(values[..|values| - 1]) + (if Numeral(v) then [v] else [])
  }

  /** When one value leaves the reconnection time as the standard has it. */
  lemma RetriedExactly(v: string, before: int)
    ensures Retried(v, before) == StandardRetried(v, before)
       <==> !Numeral(v) || 0 < NatOf(v) <= DAY_MS || (NatOf(v) == 0 && before == 0)
  {
  }

  /** When a whole stream of values does: the last numeral alone decides, unless it is a zero; then
      nothing but zeros may have been there from the start. */
  lemma {:induction false} RetryExactly(values: seq<string>, first: int)
    ensures var ns := Numerals(values);
      Retry(values, first) == StandardRetry(values, first)
      <==> ns == [] || 0 < NatOf(ns[|ns| - 1]) <= DAY_MS || (first == 0 && forall v <- ns :: NatOf(v) == 0)
  {
    RetryValues(values, first);
  }

  /** Both times, by the numerals among the values. */
  lemma {:induction false} RetryValues(values: seq<string>, first: int)
    ensures var ns := Numerals(values);
      && (ns == [] ==> Retry(values, first) == StandardRetry(values, first) == first)
      && (ns != [] ==> StandardRetry(values, first) == NatOf(ns[|ns| - 1]))
      && (ns != [] && NatOf(ns[|ns| - 1]) > 0 ==>
            Retry(values, first) == if NatOf(ns[|ns| - 1]) < DAY_MS then NatOf(ns[|ns| - 1]) else DAY_MS)
      && ((forall v <- ns :: NatOf(v) == 0) ==> Retry(values, first) == first)
      && (!(forall v <- ns :: NatOf(v) == 0) ==> Retry(values, first) > 0)
  {
    if values != [] {
      RetryValues(values[..|values| - 1], first);
    }
  }

  lemma NextDigit(s: string, k: nat)
    requires k < |s| && IsDigit(s[k])
    ensures NatOf(s[..k + 1]) == NatOf(s[..k]) * 10 + (s[k] - '0') as nat
  {
    assert s[..k + 1][..k] == s[..k];
  }

  lemma StartOfDay(v: string)
    requires v == "86400001"
    ensures NatOf(v[..4]) == 8640
  {
    NextDigit(v, 0);
    NextDigit(v, 1);
    NextDigit(v, 2);
    NextDigit(v, 3);
  }

  lemma AboveDay(v: string)
    requires v == "86400001"
    ensures Numeral(v) && NatOf(v) == 86400001
  {
    StartOfDay(v);
    NextDigit(v, 4);
    NextDigit(v, 5);
    NextDigit(v, 6);
    NextDigit(v, 7);
    assert v[..8] == v;
  }

  /** A retry time of zero is not taken and one above a day is cut; a later numeral repairs both. */
  lemma RetryDiffers()
    ensures Retry(["0"], 3000) == 3000 && StandardRetry(["0"], 3000) == 0
    ensures Retry(["86400001"], 3000) == 86400000 && StandardRetry(["86400001"], 3000) == 86400001
    ensures Retry(["86400001", "0", "1"], 3000) == 1 == StandardRetry(["86400001", "0", "1"], 3000)
  {
    assert NatOf("0") == 0 && NatOf("1") == 1;
    AboveDay("86400001");
    RetryOfOne("0", 3000);
    RetryOfOne("86400001", 3000);
    var values := ["86400001", "0", "1"];
    assert values[2] == "1";
  }

  lemma RetryOfOne(v: string, first: int)
    ensures Retry([v], first) == Retried(v, first) && StandardRetry([v], first) == StandardRetried(v, first)
  {
  }

  // ---- Size limits ----

  const MAX_LINE: nat := 0x10_0000
  const MAX_EVENT: nat := 0x80_0000

  /** Bytes of the data buffer: every data line brings its value and one line feed. */
  function DataSize(values: seq<string>): nat {
    if values == [] then 0 else DataSize(values[..|values| - 1]) + |values[|values| - 1]| + 1
  }

  /** The data of every block, finished or not, fits. */
  predicate Fits(texts: seq<string>) {
    texts == [] ||
    (Fits(texts[..|texts| - 1]) && DataSize(Values(Block(texts), "data")) <= MAX_EVENT)
  }

  /** No line, finished or not, and no block's data is longer than allowed. */
  ghost predicate Within(s: string) {
    |Rest(s)| <= MAX_LINE &&
    (forall l <- Lines(s) :: |l| <= MAX_LINE) &&
    Fits(Texts(Lines(s)))
  }

  // ---- Strings that end at a NUL ----

  const NUL: char := '\U{00}'

  /** A line as the reader sees it: up to its first NUL, if it has one. */
  function Text(line: string): string {
    if line == "" || line[0] == NUL then "" else [line[0]] + Text(line[1..])
  }

  function Texts(lines: seq<string>): (texts: seq<string>)
    ensures |texts| == |lines|
  {
    if lines == [] then [] else Texts(lines[..|lines| - 1]) + [Text(lines[|lines| - 1])]
  }

  // ---- One byte more ----

  predicate EndsInReturn(s: string) { s != "" && s[|s| - 1] == '\r' }

  lemma FirstBreakMeans(s: string, k: nat)
    requires k <= |s| && (k < |s| ==> IsBreak(s[k]))
    requires forall i :: 0 <= i < k ==> !IsBreak(s[i])
    ensures FirstBreak(s) == k
  {
  }

  /** Unfolds the first line, given where it ends. */
  lemma OneLine(s: string, k: nat, e: nat)
    requires k < |s| && FirstBreak(s) == k && BreakEnd(s, k) == e
    ensures Lines(s) == [s[..k]] + Lines(s[e..]) && Rest(s) == Rest(s[e..])
  {
  }

  lemma NoLine(s: string)
    requires FirstBreak(s) == |s|
    ensures Lines(s) == [] && Rest(s) == s
  {
  }

  lemma NoLineSnoc(s: string, c: char)
    requires FirstBreak(s) == |s|
    ensures IsBreak(c) ==> Lines(s + [c]) == [s] && Rest(s + [c]) == ""
    ensures !IsBreak(c) ==> Lines(s + [c]) == [] && Rest(s + [c]) == s + [c]
  {
    var t := s + [c];
    NoLine("");
    if IsBreak(c) {
      FirstBreakMeans(t, |s|);
      OneLine(t, |s|, |t|);
      assert t[..|s|] == s && t[|t|..] == "";
    } else {
      FirstBreakMeans(t, |t|);
      NoLine(t);
    }
  }

  /** Reading one byte more finishes at most one line; a line feed after a carriage return finishes none. */
  lemma {:induction false} LinesSnoc(s: string, c: char)
    ensures c == '\n' && EndsInReturn(s) ==> Lines(s + [c]) == Lines(s) && Rest(s + [c]) == Rest(s) == ""
    ensures IsBreak(c) && !(c == '\n' && EndsInReturn(s)) ==>
      Lines(s + [c]) == Lines(s) + [Rest(s)] && Rest(s + [c]) == ""
    ensures !IsBreak(c) ==> Lines(s + [c]) == Lines(s) && Rest(s + [c]) == Rest(s) + [c]
    decreases |s|
  {
    var t := s + [c];
    var k := FirstBreak(s);
    if k == |s| {
      NoLine(s);
      NoLineSnoc(s, c);
    } else if s[k] == '\r' && k + 1 == |s| && c == '\n' {
      ReturnThenFeed(s, k);
    } else {
      var e := BreakEnd(s, k);
      OneLine(s, k, e);
      FirstLineSnoc(s, c, k, e);
      TailEnd(s, k, e);
      LinesSnoc(s[e..], c);
    }
  }

  /** The first line stays when a byte is added that is not the line feed of its end. */
  lemma FirstLineSnoc(s: string, c: char, k: nat, e: nat)
    requires k < |s| && FirstBreak(s) == k && BreakEnd(s, k) == e
    requires !(s[k] == '\r' && k + 1 == |s| && c == '\n')
    ensures Lines(s + [c]) == [s[..k]] + Lines(s[e..] + [c]) && Rest(s + [c]) == Rest(s[e..] + [c])
  {
    SnocSlices(s, c, k, e);
    FirstBreakMeans(s + [c], k);
    OneLine(s + [c], k, e);
  }

  lemma SnocSlices(s: string, c: char, k: nat, e: nat)
    requires k <= |s| && e <= |s|
    ensures (s + [c])[..k] == s[..k] && (s + [c])[e..] == s[e..] + [c]
  {
  }

  /** What follows the first line ends as the stream does, unless nothing follows. */
  lemma TailEnd(s: string, k: nat, e: nat)
    requires k < |s| && BreakEnd(s, k) == e
    ensures EndsInReturn(s[e..]) == (EndsInReturn(s) && e < |s|)
    ensures e == |s| && EndsInReturn(s) ==> s[k] == '\r' && k + 1 == |s|
  {
  }

  lemma ReturnThenFeed(s: string, k: nat)
    requires k + 1 == |s| && FirstBreak(s) == k && s[k] == '\r'
    ensures Lines(s + ['\n']) == Lines(s) && Rest(s + ['\n']) == Rest(s) == ""
  {
    var t := s + ['\n'];
    FirstBreakMeans(t, k);
    OneLine(s, k, |s|);
    OneLine(t, k, |t|);
    assert t[..k] == s[..k] && t[|t|..] == "" && s[|s|..] == "";
    NoLine("");
  }

  /** The limits, byte by byte. */
  lemma WithinSnoc(s: string, c: char)
    requires c == '\n' && EndsInReturn(s)
    ensures Within(s + [c]) == Within(s)
  {
    LinesSnoc(s, c);
  }

  lemma WithinByte(s: string, c: char)
    requires !IsBreak(c)
    ensures Within(s + [c]) == (Within(s) && |Rest(s)| < MAX_LINE)
  {
    LinesSnoc(s, c);
  }

  lemma WithinLine(s: string, c: char)
    requires IsBreak(c) && !(c == '\n' && EndsInReturn(s))
    ensures Texts(Lines(s + [c])) == Texts(Lines(s)) + [Text(Rest(s))]
    ensures Within(s + [c]) ==
      (Within(s) && DataSize(Values(Block(Texts(Lines(s)) + [Text(Rest(s))]), "data")) <= MAX_EVENT)
  {
    LinesSnoc(s, c);
    var lines := Lines(s) + [Rest(s)];
    assert lines[..|lines| - 1] == Lines(s);
    var texts := Texts(Lines(s)) + [Text(Rest(s))];
    assert texts[..|texts| - 1] == Texts(Lines(s));
  }

  /** A stream that has gone over a limit stays over it. */
  lemma {:induction false} OverStaysOver(s: string, t: string)
    requires !Within(s)
    ensures !Within(s + t)
    decreases |t|
  {
    if t == "" {
      assert s + t == s;
    } else {
      var u := t[..|t| - 1];
      var c := t[|t| - 1];
      OverStaysOver(s, u);
      assert s + t == (s + u) + [c];
      if !IsBreak(c) {
        WithinByte(s + u, c);
      } else if c == '\n' && EndsInReturn(s + u) {
        WithinSnoc(s + u, c);
      } else {
        WithinLine(s + u, c);
      }
    }
  }

  // ---- Streams without NUL and without byte order mark ----

  lemma {:induction false} TextIsLine(line: string)
    requires NUL !in line
    ensures Text(line) == line
  {
    if line != "" {
      TextIsLine(line[1..]);
    }
  }

  lemma {:induction false} LinesHaveNoNul(s: string)
    requires NUL !in s
    ensures forall l <- Lines(s) :: NUL !in l
    decreases |s|
  {
    var k := FirstBreak(s);
    if k < |s| {
      LinesHaveNoNul(s[BreakEnd(s, k)..]);
    }
  }

  lemma {:induction false} TextsAreLines(lines: seq<string>)
    requires forall l <- lines :: NUL !in l
    ensures Texts(lines) == lines
  {
    if lines != [] {
      TextsAreLines(lines[..|lines| - 1]);
      TextIsLine(lines[|lines| - 1]);
    }
  }
}
