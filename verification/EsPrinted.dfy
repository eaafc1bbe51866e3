/** Messages written as an event stream and read again: whatever the line ends, the reader posts exactly the
    messages that were sent. */
module EsPrinted {
  import opened Wrappers
  import opened EsStream
  import opened EsParser
  import opened EsTransfer

  // ---- fields ----

  /** A line with a name, a colon, a space and a value gives the name that value. */
  lemma FieldWithSpace(name: string, value: string)
    requires ':' !in name
    ensures FieldOf(name + (": " + value)) == Field(name, value)
  {
    var line := name + (": " + value);
    assert line[..|name|] == name && line[|name|] == ':' && line[|name| + 1] == ' ' && line[|name| + 2..] == value;
    ColonAt(line, |name|);
  }

  /** So does one without the space, if the value does not begin with one. */
  lemma FieldWithoutSpace(name: string, value: string)
    requires ':' !in name && (value == "" || value[0] != ' ')
    ensures FieldOf(name + (":" + value)) == Field(name, value)
  {
    var line := name + (":" + value);
    assert line[..|name|] == name && line[|name|] == ':' && line[|name| + 1..] == value;
    ColonAt(line, |name|);
  }

  /** A line without a colon gives its whole text as name, and an empty value. */
  lemma {:induction false} FieldAlone(name: string)
    requires ':' !in name
    ensures FieldOf(name) == Field(name, "")
  {
    NoColon(name);
  }

  lemma {:induction false} NoColon(name: string)
    requires ':' !in name
    ensures Colon(name) == |name|
  {
    if name != "" { NoColon(name[1..]); }
  }

  // ---- what is sent ----

  /** A message with its data lines; an empty event type stands for the default, and a note is a comment. */
  datatype Sent = Sent(note: Option<string>, event: string, id: Option<string>, data: seq<string>)

  predicate OneLineText(t: string) { forall c <- t :: !IsBreak(c) && c != NUL }

  predicate Sendable(m: Sent) {
    && (m.note.Some? ==> OneLineText(m.note.value)) && OneLineText(m.event)
    && (m.id.Some? ==> OneLineText(m.id.value)) && forall v <- m.data :: OneLineText(v)
  }

  function NoteLines(m: Sent): seq<string> { if m.note.Some? then [":" + m.note.value] else [] }

  function EventLines(m: Sent): seq<string> { if m.event == "" then [] else ["event: " + m.event] }

  function IdLines(m: Sent): seq<string> { if m.id.Some? then ["id: " + m.id.value] else [] }

  function DataLines(data: seq<string>): seq<string> {
    if data == [] then [] else ["data: " + data[0]] + DataLines(data[1..])
  }

  function LinesOf(m: Sent): seq<string> {
    NoteLines(m) + (EventLines(m) + (IdLines(m) + (DataLines(m.data) + [""])))
  }

  function AllLines(ms: seq<Sent>): seq<string> {
    if ms == [] then [] else LinesOf(ms[0]) + AllLines(ms[1..])
  }

  predicate IsEnd(e: string) { e == "\n" || e == "\r" || e == "\r\n" }

  /** The lines as a stream, each with its end. */
  function Ended(lines: seq<string>, e: string): string {
    if lines == [] then "" else lines[0] + (e + Ended(lines[1..], e))
  }

  // ---- what is to be received ----

  /** The event type, the data lines and the last event id of a message. */
  datatype Received = Received(event: string, data: seq<string>, lastId: string)

  function IdAfter(m: Sent, id: string): string { if m.id.Some? then m.id.value else id }

  /** Every sent message with data is received, with its own type and the last id sent so far. */
  function Expected(ms: seq<Sent>, id: string): seq<Received> {
    if ms == [] then []
    else Arriving(ms[0], IdAfter(ms[0], id)) + Expected(ms[1..], IdAfter(ms[0], id))
  }

  function Arriving(m: Sent, last: string): seq<Received> {
    if m.data == [] then [] else [Received(if m.event == "" then "message" else m.event, m.data, last)]
  }

  /** The pieces of a text between its line feeds. */
  function Split(s: string): seq<string> {
    var k := Feed(s);
    if k == |s| then [s] else [s[..k]] + Split(s[k + 1..])
  }

  function Feed(s: string): (k: nat)
    ensures k <= |s| && (k < |s| ==> s[k] == '\n')
    ensures forall i :: 0 <= i < k ==> s[i] != '\n'
  {
    if s == "" || s[0] == '\n' then 0 else 1 + Feed(s[1..])
  }

  function Opened(m: Message): Received { Received(m.event, Split(m.data), m.lastId) }

  function OpenedAll(ms: seq<Message>): (rs: seq<Received>)
    ensures |rs| == |ms|
  {
    if ms == [] then [] else OpenedAll(ms[..|ms| - 1]) + [Opened(ms[|ms| - 1])]
  }

  // ---- data lines and line feeds ----

  lemma FeedMeans(s: string, k: nat)
    requires k <= |s| && (k < |s| ==> s[k] == '\n') && forall i :: 0 <= i < k ==> s[i] != '\n'
    ensures Feed(s) == k
  {
  }

  lemma {:induction false} SplitMore(s: string, v: string)
    requires '\n' !in v
    ensures Split(s + "\n" + v) == Split(s) + [v]
    decreases |s|
  {
    var t, k := s + "\n" + v, Feed(s);
    assert forall i :: 0 <= i < |v| ==> v[i] in v;
    FeedMeans(t, k);
    if k == |s| {
      assert t[..k] == s && t[k + 1..] == v;
      FeedMeans(v, |v|);
    } else {
      assert t[..k] == s[..k] && t[k + 1..] == s[k + 1..] + "\n" + v;
      SplitMore(s[k + 1..], v);
    }
  }

  /** Cutting the data of a message at its line feeds gives back the values of its data lines. */
  lemma {:induction false} JoinedSplits(values: seq<string>)
    requires values != [] && forall v <- values :: '\n' !in v
    ensures Split(Joined(values)) == values
    decreases |values|
  {
    var front, last := values[..|values| - 1], values[|values| - 1];
    assert last in values && values == front + [last];
    if front == [] {
      assert forall i :: 0 <= i < |last| ==> last[i] in last;
      FeedMeans(last, |last|);
    } else {
      assert forall v <- front :: v in values;
      JoinedSplits(front);
      SplitMore(Joined(front), last);
    }
  }

  // ---- lines ----

  lemma LineThenRest(l: string, e: string, rest: string)
    requires (forall c <- l :: !IsBreak(c)) && IsEnd(e) && (e == "\n" || rest == "" || rest[0] != '\n')
    ensures Lines(l + (e + rest)) == [l] + Lines(rest)
  {
    EndStands(l, e, rest);
    LineIs(l + (e + rest), l, |l| + |e|, rest);
  }

  lemma LineIs(s: string, l: string, next: nat, rest: string)
    requires |l| < |s| && IsBreak(s[|l|]) && (forall i :: 0 <= i < |l| ==> !IsBreak(s[i]))
    requires BreakEnd(s, |l|) == next && s[..|l|] == l && s[next..] == rest
    ensures Lines(s) == [l] + Lines(rest)
  {
    FirstBreakMeans(s, |l|);
    OneLine(s, |l|, next);
  }

  lemma EndStands(l: string, e: string, rest: string)
    requires (forall c <- l :: !IsBreak(c)) && IsEnd(e) && (e == "\n" || rest == "" || rest[0] != '\n')
    ensures var s := l + (e + rest);
      && s[..|l|] == l && s[|l| + |e|..] == rest && |l| < |s| && IsBreak(s[|l|])
      && (forall i :: 0 <= i < |l| ==> !IsBreak(s[i])) && BreakEnd(s, |l|) == |l| + |e|
  {
    var s := l + (e + rest);
    assert forall i :: 0 <= i < |l| ==> s[i] == l[i] && l[i] in l;
    assert s[|l|] == e[0];
    if |e| == 2 {
      assert s[|l| + 1] == e[1];
    } else if rest != "" {
      assert s[|l| + 1] == rest[0];
    }
  }

  /** What begins with a line does not begin with a line feed, unless that is how lines end. */
  lemma EndedFirst(lines: seq<string>, e: string)
    requires IsEnd(e) && forall l <- lines :: OneLineText(l)
    ensures var t := Ended(lines, e); e == "\n" || t == "" || t[0] != '\n'
  {
    if lines != [] {
      var l, rest := lines[0], e + Ended(lines[1..], e);
      assert l in lines && Ended(lines, e) == l + rest;
      if l == "" {
        assert (l + rest)[0] == e[0];
      } else {
        assert l[0] in l && (l + rest)[0] == l[0];
      }
    }
  }

  lemma {:induction false} EndedLines(lines: seq<string>, e: string)
    requires IsEnd(e) && forall l <- lines :: OneLineText(l)
    ensures Lines(Ended(lines, e)) == lines
  {
    if lines == [] {
      NoLine("");
    } else {
      var l, rest := lines[0], Ended(lines[1..], e);
      assert l in lines && forall k <- lines[1..] :: k in lines;
      EndedLines(lines[1..], e);
      EndedFirst(lines[1..], e);
      LineThenRest(l, e, rest);
      assert lines == [l] + lines[1..];
    }
  }

  // ---- one message ----

  lemma StepsJoin(b: Buffers, a: seq<string>, more: seq<string>)
    ensures Steps(Step, b, a + more) == Steps(Step, Steps(Step, b, a), more)
    decreases |a|
  {
    if a == [] {
      assert a + more == more;
    } else {
      assert (a + more)[0] == a[0] && (a + more)[1..] == a[1..] + more;
      StepsJoin(Step(b, a[0]), a[1..], more);
    }
  }

  lemma OneOf(b: Buffers, line: string)
    ensures Steps(Step, b, [line]) == Step(b, line)
  {
    assert [line][1..] == [];
  }

  lemma NoteRead(b: Buffers, m: Sent)
    ensures Steps(Step, b, NoteLines(m)) == b
  {
    if m.note.Some? {
      var line := ":" + m.note.value;
      OneOf(b, line);
      assert line[0] == ':' && Colon(line) == 0;
      assert FieldOf(line).name == "";
    }
  }

  lemma NamedLine(b: Buffers, name: string, value: string)
    requires ':' !in name
    ensures Steps(Step, b, [name + (": " + value)]) == Noted(b, Field(name, value))
  {
    FieldWithSpace(name, value);
    OneOf(b, name + (": " + value));
  }

  lemma EventRead(b: Buffers, m: Sent)
    requires b.eventType == None
    ensures Steps(Step, b, EventLines(m)) == b.(eventType := if m.event == "" then None else Some(m.event))
  {
    if m.event != "" {
      assert "event: " + m.event == "event" + (": " + m.event);
      NamedLine(b, "event", m.event);
    }
  }

  lemma IdRead(b: Buffers, m: Sent)
    ensures Steps(Step, b, IdLines(m)) == b.(lastEventId := IdAfter(m, b.lastEventId))
  {
    if m.id.Some? {
      assert "id: " + m.id.value == "id" + (": " + m.id.value);
      NamedLine(b, "id", m.id.value);
    }
  }

  /** The values, each followed by a line feed. */
  function Fed(data: seq<string>): string {
    if data == [] then "" else data[0] + ("\n" + Fed(data[1..]))
  }

  lemma {:induction false} DataRead(b: Buffers, data: seq<string>)
    ensures Steps(Step, b, DataLines(data)) == b.(data := b.data + Fed(data))
    decreases |data|
  {
    if data == [] {
      assert b.data + "" == b.data;
    } else {
      var first, rest := data[0], data[1..];
      assert "data: " + first == "data" + (": " + first);
      StepsJoin(b, ["data: " + first], DataLines(rest));
      NamedLine(b, "data", first);
      var c := b.(data := b.data + (first + "\n"));
      DataRead(c, rest);
      JoinThree(b.data, first + "\n", Fed(rest));
      JoinThree(first, "\n", Fed(rest));
    }
  }

  lemma {:induction false} FedIsJoined(data: seq<string>)
    requires data != []
    ensures Fed(data) == Joined(data) + "\n"
    decreases |data|
  {
    var front, last := data[..|data| - 1], data[|data| - 1];
    FedMore(front, last);
    assert data == front + [last];
    if front != [] { FedIsJoined(front); }
  }

  lemma {:induction false} FedMore(data: seq<string>, v: string)
    ensures Fed(data + [v]) == Fed(data) + (v + "\n")
    decreases |data|
  {
    if data == [] {
      assert [] + [v] == [v] && [v][1..] == [];
      assert Fed([v]) == v + ("\n" + "") == v + "\n";
    } else {
      assert (data + [v])[0] == data[0] && (data + [v])[1..] == data[1..] + [v];
      FedMore(data[1..], v);
      assert data[0] + ("\n" + (Fed(data[1..]) + (v + "\n"))) == (data[0] + ("\n" + Fed(data[1..]))) + (v + "\n");
    }
  }

  /** Between two messages the buffers are empty. */
  predicate Fresh(b: Buffers) { b.data == "" && b.eventType == None }

  /** What one message makes of the reading. */
  function AfterSent(b: Buffers, m: Sent): Buffers {
    var last := IdAfter(m, b.lastEventId);
    b.(posted := if m.data == [] then b.posted
                 else b.posted + [Message(if m.event == "" then "message" else m.event, Joined(m.data), last)],
       lastEventId := last)
  }

  lemma ClosedIs(b: Buffers, m: Sent, c: Buffers)
    requires Fresh(b) && c == b.(lastEventId := IdAfter(m, b.lastEventId),
                                 eventType := if m.event == "" then None else Some(m.event), data := Fed(m.data))
    ensures Closed(c) == AfterSent(b, m)
  {
    if m.data != [] {
      FedIsJoined(m.data);
      assert c.data[..|c.data| - 1] == Joined(m.data);
    }
  }

  lemma SentRead(b: Buffers, m: Sent)
    requires Fresh(b)
    ensures Steps(Step, b, LinesOf(m)) == AfterSent(b, m)
  {
    var d := DataLines(m.data) + [""];
    StepsJoin(b, NoteLines(m), EventLines(m) + (IdLines(m) + d));
    NoteRead(b, m);
    StepsJoin(b, EventLines(m), IdLines(m) + d);
    EventRead(b, m);
    var b1 := Steps(Step, b, EventLines(m));
    StepsJoin(b1, IdLines(m), d);
    IdRead(b1, m);
    var b2 := Steps(Step, b1, IdLines(m));
    StepsJoin(b2, DataLines(m.data), [""]);
    DataRead(b2, m.data);
    var b3 := Steps(Step, b2, DataLines(m.data));
    OneOf(b3, "");
    assert "" + Fed(m.data) == Fed(m.data);
    ClosedIs(b, m, b3);
  }

  // ---- all messages ----

  function AfterAll(b: Buffers, ms: seq<Sent>): Buffers
    decreases |ms|
  {
    if ms == [] then b else AfterAll(AfterSent(b, ms[0]), ms[1..])
  }

  lemma {:induction false} AllRead(b: Buffers, ms: seq<Sent>)
    requires Fresh(b)
    ensures Steps(Step, b, AllLines(ms)) == AfterAll(b, ms)
    decreases |ms|
  {
    if ms != [] {
      StepsJoin(b, LinesOf(ms[0]), AllLines(ms[1..]));
      SentRead(b, ms[0]);
      AllRead(AfterSent(b, ms[0]), ms[1..]);
    }
  }

  lemma OpenedMore(ms: seq<Message>, m: Message)
    ensures OpenedAll(ms + [m]) == OpenedAll(ms) + [Opened(m)]
  {
    assert (ms + [m])[..|ms|] == ms;
  }

  lemma {:induction false} AllPosted(b: Buffers, ms: seq<Sent>)
    requires Fresh(b) && forall m <- ms :: Sendable(m)
    ensures OpenedAll(AfterAll(b, ms).posted) == OpenedAll(b.posted) + Expected(ms, b.lastEventId)
    decreases |ms|
  {
    if ms == [] {
      assert OpenedAll(b.posted) + [] == OpenedAll(b.posted);
    } else {
      var m, c := ms[0], AfterSent(b, ms[0]);
      assert m in ms && forall k <- ms[1..] :: k in ms;
      AllPosted(c, ms[1..]);
      OnePosted(b, m);
      JoinThree(OpenedAll(b.posted), Arriving(m, c.lastEventId), Expected(ms[1..], c.lastEventId));
    }
  }

  lemma JoinThree<T>(a: seq<T>, b: seq<T>, c: seq<T>)
    ensures (a + b) + c == a + (b + c)
  {
  }

  lemma OnePosted(b: Buffers, m: Sent)
    requires Sendable(m)
    ensures OpenedAll(AfterSent(b, m).posted) == OpenedAll(b.posted) + Arriving(m, IdAfter(m, b.lastEventId))
  {
    if m.data != [] {
      forall v <- m.data ensures '\n' !in v { assert OneLineText(v); }
      JoinedSplits(m.data);
      OpenedMore(b.posted, Message(if m.event == "" then "message" else m.event, Joined(m.data),
                                   IdAfter(m, b.lastEventId)));
    } else {
      assert OpenedAll(b.posted) + [] == OpenedAll(b.posted);
    }
  }

  lemma {:induction false} LinesClean(ms: seq<Sent>)
    requires forall m <- ms :: Sendable(m)
    ensures forall l <- AllLines(ms) :: OneLineText(l)
  {
    if ms != [] {
      assert ms[0] in ms && forall k <- ms[1..] :: k in ms;
      LinesClean(ms[1..]);
      OneClean(ms[0]);
    }
  }

  lemma OneClean(m: Sent)
    requires Sendable(m)
    ensures forall l <- LinesOf(m) :: OneLineText(l)
  {
    DataClean(m.data);
  }

  lemma {:induction false} DataClean(data: seq<string>)
    requires forall v <- data :: OneLineText(v)
    ensures forall l <- DataLines(data) :: OneLineText(l)
  {
    if data != [] {
      assert data[0] in data && forall v <- data[1..] :: v in data;
      DataClean(data[1..]);
    }
  }

  /** Messages written as a stream, with any of the three line ends, are read as what was sent: every message
      with data, in order, with its type, its data lines and the last id. */
  lemma SentIsReceived(ms: seq<Sent>, e: string, id: string, retry: int)
    requires IsEnd(e) && forall m <- ms :: Sendable(m)
    ensures OpenedAll(Meaning(Texts(Lines(Ended(AllLines(ms), e))), id, retry).posted) == Expected(ms, id)
  {
    var b := Meaning([], id, retry);
    LinesClean(ms);
    EndedLines(AllLines(ms), e);
    forall l <- AllLines(ms) ensures NUL !in l { assert OneLineText(l); }
    TextsAreLines(AllLines(ms));
    ReadOn([], AllLines(ms), id, retry);
    assert [] + AllLines(ms) == AllLines(ms);
    AllRead(b, ms);
    AllPosted(b, ms);
    assert OpenedAll([]) + Expected(ms, id) == Expected(ms, id);
  }

  /** And so however the stream is cut into chunks, if it keeps within the limits. */
  method Deliver(ms: seq<Sent>, e: string, chunks: seq<string>, id: string, retry: int) returns (p: Parser)
    requires IsEnd(e) && (forall m <- ms :: Sendable(m)) && Stream(chunks) == Ended(AllLines(ms), e)
    ensures Within(Stream(chunks)) <==> !p.fatal
    ensures !p.fatal ==> OpenedAll(p.Now().posted) == Expected(ms, id)
  {
    p := Transfer(chunks, id, retry);
    SentIsReceived(ms, e, id, retry);
  }
}
