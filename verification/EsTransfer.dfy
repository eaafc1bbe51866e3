/** A whole transfer: chunks arrive one after the other, and what has been posted at the end does
    not depend on where the stream was cut. */
module EsTransfer {
  import opened Wrappers
  import opened EsStream
  import opened EsParser

  function Stream(chunks: seq<string>): string {
    if chunks == [] then "" else Stream(chunks[..|chunks| - 1]) + chunks[|chunks| - 1]
  }

  /** What the standard's own reading of the stream gives: one leading byte order mark is dropped. */
  function WithoutMark(s: string): string {
    if |s| >= 3 && s[..3] == MARK then s[3..] else s
  }

  const MARK: string := ['\U{EF}', '\U{BB}', '\U{BF}']

  /** The write callback: after a fatal line the rest of the transfer is refused. */
  method Receive(p: Parser, chunk: string) returns (taken: bool)
    requires p.Valid()
    modifies p
    ensures p.Valid()
    ensures taken == !old(p.fatal)
    ensures taken ==> p.seen == old(p.seen) + chunk
    ensures !taken ==> p.fatal && p.seen == old(p.seen)
  {
    if p.fatal { return false; }
    p.Feed(chunk);
    return true;
  }

  /** The transfer fails exactly when the whole stream breaks a
      size limit; otherwise the messages, the last event id and the reconnection time are those of
      the whole stream's lines, however it was cut. */
  method Transfer(chunks: seq<string>, lastId: string, reconnect: int) returns (p: Parser)
    ensures fresh(p)
    ensures p.fatal <==> !Within(Stream(chunks))
    ensures !p.fatal ==> p.Now() == Meaning(Texts(Lines(Stream(chunks))), lastId, reconnect)
    ensures !p.fatal && NUL !in Stream(chunks) ==>
      p.Now() == Meaning(Lines(Stream(chunks)), lastId, reconnect)
  {
    p := new Parser(lastId, reconnect);
    TakeAll(p, chunks);
    if NUL !in Stream(chunks) { CleanLines(Stream(chunks)); }
  }

  /** Reads chunks until one is refused. */
  method TakeAll(p: Parser, chunks: seq<string>)
    requires p.Valid() && p.seen == ""
    modifies p
    ensures p.fatal <==> !Within(Stream(chunks))
    ensures !p.fatal ==> p.Valid() && p.seen == Stream(chunks)
  {
    var i := 0;
    var taken := true;
    while i < |chunks| && taken
      invariant 0 <= i <= |chunks| && p.Valid()
      invariant taken ==> p.seen == Stream(chunks[..i])
      invariant !taken ==> p.fatal && !Within(Stream(chunks))
    {
      assert chunks[..i + 1][..i] == chunks[..i];
      taken := Receive(p, chunks[i]);
      if !taken { StaysOver(chunks, i); }
      i := i + 1;
    }
    assert taken ==> chunks[..i] == chunks;
  }

  lemma {:induction false} StaysOver(chunks: seq<string>, i: nat)
    requires i <= |chunks| && !Within(Stream(chunks[..i]))
    ensures !Within(Stream(chunks))
    decreases |chunks|
  {
    if i == |chunks| {
      assert chunks[..i] == chunks;
    } else {
      var before := chunks[..|chunks| - 1];
      assert before[..i] == chunks[..i];
      StaysOver(before, i);
      OverStaysOver(Stream(before), chunks[|chunks| - 1]);
    }
  }

  lemma CleanLines(s: string)
    requires NUL !in s
    ensures Texts(Lines(s)) == Lines(s)
  {
    LinesHaveNoNul(s);
    TextsAreLines(Lines(s));
  }

  // ---- The byte order mark ----

  /** What has been read after a stream, whole lines only. */
  function After(s: string, id: string, retry: int): Buffers { Meaning(Texts(Lines(s)), id, retry) }

  /** The parser does not drop the mark; on this stream that makes no difference. */
  predicate SameReading(s: string, id: string, retry: int) {
    After(s, id, retry) == After(WithoutMark(s), id, retry)
  }

  /** As the first line of a stream the field changes nothing: it is none of the four, or an event
      type that is empty, or the event id and the reconnection time there were before. */
  predicate Idle(f: Field, id: string, retry: int) {
    f.name !in ["data", "event", "id", "retry"] ||
    (f.name == "event" && f.value == "") ||
    (f.name == "id" && f.value == id) ||
    (f.name == "retry" && Retried(f.value, retry) == retry)
  }

  function Step(b: Buffers, text: string): Buffers {
    if text == "" then Closed(b) else Noted(b, FieldOf(text))
  }

  lemma OneStep(texts: seq<string>, text: string, id: string, retry: int)
    ensures Meaning(texts + [text], id, retry) == Step(Meaning(texts, id, retry), text)
  {
    if text == "" { EmptyLine(texts, id, retry); } else { FieldLine(texts, text, id, retry); }
  }

  function Steps<B>(step: (B, string) -> B, b: B, more: seq<string>): B
    decreases |more|
  {
    if more == [] then b else Steps(step, step(b, more[0]), more[1..])
  }

  /** A reading that goes step by step is determined by what it has come to. */
  lemma {:induction false} StepByStep<B>(read: seq<string> -> B, step: (B, string) -> B, a: seq<string>,
                                         more: seq<string>)
    requires forall x, t :: read(x + [t]) == step(read(x), t)
    ensures read(a + more) == Steps(step, read(a), more)
    decreases |more|
  {
    if more == [] {
      assert a + more == a;
    } else {
      StepByStep(read, step, a + [more[0]], more[1..]);
      assert a + more == (a + [more[0]]) + more[1..];
    }
  }

  /** What the lines so far mean is all that counts for the lines that follow. */
  lemma ReadOn(a: seq<string>, more: seq<string>, id: string, retry: int)
    ensures Meaning(a + more, id, retry) == Steps(Step, Meaning(a, id, retry), more)
  {
    var read := x => Meaning(x, id, retry);
    forall x, t ensures read(x + [t]) == Step(read(x), t) { OneStep(x, t, id, retry); }
    StepByStep(read, Step, a, more);
  }

  lemma {:induction false} TextsCons(line: string, lines: seq<string>)
    ensures Texts([line] + lines) == [Text(line)] + Texts(lines)
  {
    var all := [line] + lines;
    if lines != [] {
      TextsCons(line, lines[..|lines| - 1]);
      assert all[..|all| - 1] == [line] + lines[..|lines| - 1];
    } else {
      assert all[..0] == [];
    }
  }

  lemma TextMarked(line: string)
    ensures Text(MARK + line) == MARK + Text(line)
  {
    TextPrefix(MARK, line);
  }

  lemma MarkedName(text: string)
    ensures FieldOf(MARK + text).name !in ["data", "event", "id", "retry"]
  {
    var name := FieldOf(MARK + text).name;
    assert Colon(MARK + text) > 0;
    assert name[0] == '\U{EF}';
  }

  /** The lines of a stream whose first line is l. */
  lemma FirstLine(l: string, t: string) returns (lines: seq<string>)
    requires (forall c <- l :: !IsBreak(c)) && t != "" && IsBreak(t[0])
    ensures lines == Lines(t[BreakEnd(t, 0)..]) && Lines(l + t) == [l] + lines
  {
    var s, e := l + t, BreakEnd(t, 0);
    FirstBreakMeans(s, |l|);
    assert BreakEnd(s, |l|) == |l| + e;
    OneLine(s, |l|, |l| + e);
    assert s[..|l|] == l && s[|l| + e..] == t[e..];
    lines := Lines(t[e..]);
  }

  /** The first line leaves the initial buffers as they are exactly when its field is idle. */
  lemma IdleFirst(text: string, id: string, retry: int)
    ensures Meaning([text], id, retry) == Meaning([], id, retry) <==> Idle(FieldOf(text), id, retry)
  {
    OneStep([], text, id, retry);
    assert [] + [text] == [text];
    assert Meaning([], id, retry) == Buffers([], id, retry, "", None);
  }

  /** The mark and the first line together leave them as they are. */
  lemma MarkedFirst(l: string, id: string, retry: int)
    ensures Meaning([Text(MARK + l)], id, retry) == Meaning([], id, retry)
  {
    TextMarked(l);
    MarkedName(Text(l));
    IdleFirst(MARK + Text(l), id, retry);
  }

  lemma MarkDropped(s: string)
    ensures WithoutMark(MARK + s) == s
  {
    assert (MARK + s)[..3] == MARK && (MARK + s)[3..] == s;
  }

  lemma ReadBoth(l: string, t: string, id: string, retry: int) returns (more: seq<string>)
    requires (forall c <- l :: !IsBreak(c)) && t != "" && IsBreak(t[0])
    ensures more == Texts(Lines(t[BreakEnd(t, 0)..]))
    ensures After(l + t, id, retry) == Meaning([Text(l)] + more, id, retry)
    ensures After(MARK + (l + t), id, retry) == Meaning([Text(MARK + l)] + more, id, retry)
  {
    assert MARK + (l + t) == (MARK + l) + t;
    var lines := FirstLine(l, t);
    var _ := FirstLine(MARK + l, t);
    TextsCons(l, lines);
    TextsCons(MARK + l, lines);
    more := Texts(lines);
  }

  /** With a mark before a first line l, the parser's reading is the standard's, whatever follows the
      line, exactly when the field of l is idle. */
  lemma MarkHarmless(l: string, id: string, retry: int)
    requires forall c <- l :: !IsBreak(c)
    ensures (forall t: string | t != "" && IsBreak(t[0]) :: SameReading(MARK + (l + t), id, retry))
       <==> Idle(FieldOf(Text(l)), id, retry)
  {
    if Idle(FieldOf(Text(l)), id, retry) {
      forall t: string | t != "" && IsBreak(t[0]) ensures SameReading(MARK + (l + t), id, retry) {
        IdleReads(l, t, id, retry);
      }
    } else {
      FieldLost(l, id, retry);
    }
  }

  lemma IdleReads(l: string, t: string, id: string, retry: int)
    requires (forall c <- l :: !IsBreak(c)) && t != "" && IsBreak(t[0]) && Idle(FieldOf(Text(l)), id, retry)
    ensures SameReading(MARK + (l + t), id, retry)
  {
    IdleFirst(Text(l), id, retry);
    MarkedFirst(l, id, retry);
    var more := ReadBoth(l, t, id, retry);
    ReadOn([Text(l)], more, id, retry);
    ReadOn([Text(MARK + l)], more, id, retry);
    MarkDropped(l + t);
  }

  lemma FieldLost(l: string, id: string, retry: int)
    requires (forall c <- l :: !IsBreak(c)) && !Idle(FieldOf(Text(l)), id, retry)
    ensures !SameReading(MARK + (l + "\n"), id, retry)
  {
    IdleFirst(Text(l), id, retry);
    MarkedFirst(l, id, retry);
    var more := ReadBoth(l, "\n", id, retry);
    NoLine("");
    assert [Text(l)] + more == [Text(l)] && [Text(MARK + l)] + more == [Text(MARK + l)];
    MarkDropped(l + "\n");
  }

  /** Without a mark, or before the first line has ended, there is no difference. */
  lemma UnmarkedSame(s: string, id: string, retry: int)
    requires !(MARK <= s) || forall c <- s :: !IsBreak(c)
    ensures SameReading(s, id, retry)
  {
    if MARK <= s {
      FirstBreakMeans(s, |s|);
      NoLine(s);
      FirstBreakMeans(s[3..], |s| - 3);
      NoLine(s[3..]);
    }
  }

  /** So a message can be lost: the mark hides the data of the first line. */
  lemma MarkHidesFirstField(value: string, id: string)
    requires forall c <- value :: !IsBreak(c)
    ensures !Idle(FieldOf(Text("data:" + value)), id, 0)
    ensures exists t: string | t != "" && IsBreak(t[0]) :: !SameReading(MARK + (("data:" + value) + t), id, 0)
  {
    var l := "data:" + value;
    assert l[0] == 'd' && l[1] == 'a' && l[2] == 't' && l[3] == 'a' && l[4] == ':';
    TextPrefix("data:", value);
    ColonAt("data:" + Text(value), 4);
    assert ("data:" + Text(value))[..4] == "data";
    MarkHarmless(l, id, 0);
  }

  lemma {:induction false} TextPrefix(a: string, b: string)
    requires NUL !in a
    ensures Text(a + b) == a + Text(b)
  {
    if a == "" {
      assert a + b == b;
    } else {
      assert a[0] in a && forall c <- a[1..] :: c in a;
      TextPrefix(a[1..], b);
      TextCons(a[0], a[1..] + b);
      assert a + b == [a[0]] + (a[1..] + b) && a + Text(b) == [a[0]] + (a[1..] + Text(b));
    }
  }

  lemma TextCons(c: char, s: string)
    requires c != NUL
    ensures Text([c] + s) == [c] + Text(s)
  {
    assert ([c] + s)[1..] == s;
  }

  lemma ColonAt(l: string, k: nat)
    requires k < |l| && l[k] == ':' && ':' !in l[..k]
    ensures Colon(l) == k
  {
    assert forall i :: 0 <= i < k ==> l[i] in l[..k];
  }
}
