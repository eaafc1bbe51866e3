/** The incremental stream parser, and its agreement with the meaning of the whole stream however
    the stream is cut into chunks. */
module EsParser {
  import opened Ascii
  import opened Wrappers
  import opened EsStream

  /** The data buffer: every value followed by a line feed. */
  function Buffered(values: seq<string>): (b: string)
    ensures |b| == DataSize(values)
  {
    if values == [] then "" else Buffered(values[..|values| - 1]) + (values[|values| - 1] + "\n")
  }

  /** The event type buffer: nothing when the last value is empty. */
  function TypeBuffer(values: seq<string>): Option<string> {
    if LastOr(values, "") == "" then None else Some(LastOr(values, ""))
  }

  /** Dropping the last line feed of the buffer leaves the values joined by line feeds. */
  lemma {:induction false} BufferIsJoined(values: seq<string>)
    requires values != []
    ensures Buffered(values) == Joined(values) + "\n"
  {
    if |values| > 1 {
      BufferIsJoined(values[..|values| - 1]);
    } else {
      assert Buffered(values[..0]) == "";
    }
  }

  /** What the finished lines mean: the messages so far, and the buffers for the next one. */
  datatype Buffers = Buffers(
    posted: seq<Message>, lastEventId: string, reconnectMs: int, data: string, eventType: Option<string>)

  function Meaning(texts: seq<string>, firstId: string, firstRetry: int): Buffers {
    Buffers(
      Messages(texts, firstId),
      LastOr(Values(texts, "id"), firstId),
      Retry(Values(texts, "retry"), firstRetry),
      Buffered(Values(Block(texts), "data")),
      TypeBuffer(Values(Block(texts), "event")))
  }

  /** The buffers after an empty line: a block with data makes a message. */
  function Closed(b: Buffers): Buffers {
    Buffers(
      if b.data == "" then b.posted
      else b.posted + [Message(if b.eventType.Some? then b.eventType.value else "message",
                               b.data[..|b.data| - 1], b.lastEventId)],
      b.lastEventId, b.reconnectMs, "", None)
  }

  /** The buffers after a line that names a field. */
  function Noted(b: Buffers, f: Field): Buffers {
    b.(lastEventId := if f.name == "id" then f.value else b.lastEventId,
       reconnectMs := if f.name == "retry" then Retried(f.value, b.reconnectMs) else b.reconnectMs,
       data := if f.name == "data" then b.data + (f.value + "\n") else b.data,
       eventType := if f.name != "event" then b.eventType else if f.value == "" then None else Some(f.value))
  }

  lemma EmptyLine(texts: seq<string>, id: string, retry: int)
    ensures Meaning(texts + [""], id, retry) == Closed(Meaning(texts, id, retry))
    ensures var data := Meaning(texts, id, retry).data; data != "" ==> data[|data| - 1] == '\n'
  {
    BlockOfLine(texts, "");
    ValuesOfLine(texts, "", "id");
    ValuesOfLine(texts, "", "retry");
    assert (texts + [""])[..|texts|] == texts;
    var values := Values(Block(texts), "data");
    if values != [] { BufferIsJoined(values); }
  }

  lemma FieldLine(texts: seq<string>, text: string, id: string, retry: int)
    requires text != ""
    ensures Meaning(texts + [text], id, retry) == Noted(Meaning(texts, id, retry), FieldOf(text))
  {
    DataOfLine(texts, text);
    TypeOfLine(texts, text);
    IdOfLine(texts, text, id);
    RetryOfLine(texts, text, retry);
    MessagesOfLine(texts, text, id);
  }

  lemma MessagesOfLine(texts: seq<string>, text: string, id: string)
    requires text != ""
    ensures Messages(texts + [text], id) == Messages(texts, id)
  {
    assert (texts + [text])[..|texts|] == texts;
  }

  lemma DataOfLine(texts: seq<string>, text: string)
    requires text != ""
    ensures var before, after, f :=
      Values(Block(texts), "data"), Values(Block(texts + [text]), "data"), FieldOf(text);
      && Buffered(after) == (if f.name == "data" then Buffered(before) + (f.value + "\n") else Buffered(before))
      && DataSize(after) == (if f.name == "data" then DataSize(before) + |f.value| + 1 else DataSize(before))
  {
    BlockOfLine(texts, text);
    ValuesOfLine(Block(texts), text, "data");
    MoreData(Values(Block(texts), "data"), Values(Block(texts + [text]), "data"), FieldOf(text));
  }

  lemma MoreData(before: seq<string>, after: seq<string>, f: Field)
    requires after == if f.name == "data" then before + [f.value] else before
    ensures Buffered(after) == (if f.name == "data" then Buffered(before) + (f.value + "\n") else Buffered(before))
    ensures DataSize(after) == (if f.name == "data" then DataSize(before) + |f.value| + 1 else DataSize(before))
  {
    BuffersSnoc(before, f.value);
  }

  lemma TypeOfLine(texts: seq<string>, text: string)
    requires text != ""
    ensures var before, after, f :=
      Values(Block(texts), "event"), Values(Block(texts + [text]), "event"), FieldOf(text);
      TypeBuffer(after) ==
        if f.name == "event" then (if f.value == "" then None else Some(f.value)) else TypeBuffer(before)
  {
    BlockOfLine(texts, text);
    ValuesOfLine(Block(texts), text, "event");
  }

  lemma IdOfLine(texts: seq<string>, text: string, id: string)
    ensures LastOr(Values(texts + [text], "id"), id) ==
      if FieldOf(text).name == "id" then FieldOf(text).value else LastOr(Values(texts, "id"), id)
  {
    ValuesOfLine(texts, text, "id");
  }

  lemma RetryOfLine(texts: seq<string>, text: string, retry: int)
    ensures var before, after := Values(texts, "retry"), Values(texts + [text], "retry");
      Retry(after, retry) ==
        if FieldOf(text).name == "retry" then Retried(FieldOf(text).value, Retry(before, retry))
        else Retry(before, retry)
  {
    ValuesOfLine(texts, text, "retry");
    BuffersSnoc(Values(texts, "retry"), FieldOf(text).value);
  }

  lemma BuffersSnoc(values: seq<string>, v: string)
    ensures Buffered(values + [v]) == Buffered(values) + (v + "\n")
    ensures DataSize(values + [v]) == DataSize(values) + |v| + 1
    ensures forall first :: Retry(values + [v], first) == Retried(v, Retry(values, first))
  {
    assert (values + [v])[..|values|] == values;
  }

  class Parser {
    var line: string
    var lastWasCr: bool
    var data: string
    var eventType: Option<string>
    var fatal: bool
    /** Of the connection. */
    var lastEventId: string
    var reconnectMs: int
    var posted: seq<Message>
    /** What has been read since the parser was made. */
    ghost var seen: string
    ghost const firstId: string
    ghost const firstRetry: int

    ghost function Now(): Buffers
      reads this`posted, this`lastEventId, this`reconnectMs, this`data, this`eventType
    {
      Buffers(posted, lastEventId, reconnectMs, data, eventType)
    }

    ghost predicate Valid()
      reads this
    {
      if fatal then !Within(seen)
      else
        && Within(seen)
        && line == Rest(seen)
        && lastWasCr == EndsInReturn(seen)
        && Now() == Meaning(Texts(Lines(seen)), firstId, firstRetry)
    }

    constructor (lastId: string, reconnect: int)
      ensures Valid() && !fatal && seen == "" && firstId == lastId && firstRetry == reconnect
    {
      line, lastWasCr, data, eventType, fatal := "", false, "", None, false;
      lastEventId, reconnectMs, posted := lastId, reconnect, [];
      seen, firstId, firstRetry := "", lastId, reconnect;
      new;
      NoLine("");
    }

    method DispatchEvent()
      requires fatal || data == "" || data[|data| - 1] == '\n'
      modifies this`data, this`eventType, this`posted
      ensures fatal || Now() == Closed(old(Now()))
    {
      if data == "" && eventType.None? { return; }
      if data == "" {
        eventType := None;
        return;
      }
      var n := |data|;
      if data[n - 1] == '\n' { data := data[..n - 1]; }
      var m := Message(if eventType.Some? then eventType.value else "message", data, lastEventId);
      eventType := None;
      data := "";
      posted := posted + [m];
    }

    method ProcessLine(text: string, ghost texts: seq<string>)
      requires fatal || Now() == Meaning(texts, firstId, firstRetry)
      modifies this`data, this`eventType, this`posted, this`lastEventId, this`reconnectMs, this`fatal
      ensures old(fatal) ==> fatal
      ensures !old(fatal) ==> (fatal <==> TooMuch(texts, text))
      ensures fatal || Now() == Meaning(texts + [text], firstId, firstRetry)
    {
      if text == "" {
        EmptyLine(texts, firstId, firstRetry);
        DispatchEvent();
        return;
      }
      FieldLine(texts, text, firstId, firstRetry);
      if text[0] == ':' { return; }
      var field, value := CutLine(text);
      SetField(field, value);
    }

    /** The part of line processing that acts on the field. */
    method SetField(field: string, value: string)
      modifies this`data, this`eventType, this`lastEventId, this`reconnectMs, this`fatal
      ensures old(fatal) ==> fatal
      ensures !old(fatal) ==> (fatal <==> field == "data" && |old(data)| + |value| + 1 > MAX_EVENT)
      ensures fatal || Now() == Noted(old(Now()), Field(field, value))
    {
      if field == "data" {
        if |data| + |value| + 1 > MAX_EVENT {
          fatal := true;
        } else {
          data := data + (value + "\n");
        }
      } else if field == "event" {
        eventType := if value != "" then Some(value) else None;
      } else if field == "id" {
        lastEventId := value;
      } else if field == "retry" {
        var digits := OnlyDigits(value);
        if digits {
          var ms := NatOf(value);
          if ms > 0 { reconnectMs := if ms < DAY_MS then ms else DAY_MS; }
        }
      }
    }

    /** The body of the feeding loop; answers whether the line is full and feeding stops. */
    method FeedByte(c: char) returns (full: bool)
      requires Valid()
      modifies this
      ensures Valid() && seen == old(seen) + [c]
      ensures full ==> fatal
    {
      OneByte(seen, c);
      ghost var texts := Texts(Lines(seen));
      seen := seen + [c];
      full := false;
      if c == '\n' && lastWasCr { lastWasCr := false; return; }
      lastWasCr := false;
      if c == '\r' || c == '\n' {
        if c == '\r' { lastWasCr := true; }
        ProcessLine(Text(line), texts);
        line := "";
      } else {
        if |line| >= MAX_LINE { fatal := true; return true; }
        line := line + [c];
      }
    }

    method Feed(buf: string)
      requires Valid()
      modifies this
      ensures Valid() && seen == old(seen) + buf
    {
      var i := 0;
      while i < |buf|
        invariant 0 <= i <= |buf|
        invariant Valid() && seen == old(seen) + buf[..i]
      {
        var full := FeedByte(buf[i]);
        Grown(old(seen), buf, i);
        i := i + 1;
        if full {
          OverStaysOver(seen, buf[i..]);
          seen := seen + buf[i..];
          return;
        }
      }
      Grown(old(seen), buf, i);
    }
  }

  lemma Grown(start: string, buf: string, i: nat)
    requires i <= |buf|
    ensures i < |buf| ==> (start + buf[..i]) + [buf[i]] == start + buf[..i + 1]
    ensures i < |buf| ==> (start + buf[..i + 1]) + buf[i + 1..] == start + buf
    ensures i == |buf| ==> buf[..i] == buf
  {
  }

  method CutLine(text: string) returns (field: string, value: string)
    ensures Field(field, value) == FieldOf(text)
  {
    var colon := Colon(text);
    if colon < |text| {
      field := text[..colon];
      value := text[colon + 1..];
      if value != "" && value[0] == ' ' { value := value[1..]; }
    } else {
      field, value := text, "";
    }
  }

  method OnlyDigits(v: string) returns (digits: bool)
    ensures digits <==> v != "" && AllDigits(v)
  {
    digits := v != "";
    var i := 0;
    while i < |v| && digits
      invariant 0 <= i <= |v|
      invariant digits <==> v != "" && AllDigits(v[..i])
    {
      if v[i] < '0' || v[i] > '9' { digits := false; }
      i := i + 1;
    }
    assert digits ==> v[..i] == v;
  }

  /** One byte more: what becomes of the finished lines, of the unfinished one, and of the limits. */
  lemma OneByte(s: string, c: char)
    ensures EndsInReturn(s + [c]) == (c == '\r')
    ensures !Within(s) ==> !Within(s + [c])
    ensures c == '\n' && EndsInReturn(s) ==>
      Within(s + [c]) == Within(s) && Lines(s + [c]) == Lines(s) && Rest(s + [c]) == Rest(s)
    ensures IsBreak(c) && !(c == '\n' && EndsInReturn(s)) ==>
      Texts(Lines(s + [c])) == Texts(Lines(s)) + [Text(Rest(s))] && Rest(s + [c]) == "" &&
      Within(s + [c]) == (Within(s) && !TooMuch(Texts(Lines(s)), Text(Rest(s))))
    ensures !IsBreak(c) ==>
      Lines(s + [c]) == Lines(s) && Rest(s + [c]) == Rest(s) + [c] &&
      Within(s + [c]) == (Within(s) && |Rest(s)| < MAX_LINE)
  {
    LinesSnoc(s, c);
    if !IsBreak(c) {
      WithinByte(s, c);
    } else if c == '\n' && EndsInReturn(s) {
      WithinSnoc(s, c);
    } else {
      WithinLine(s, c);
      if Within(s) { LimitOfLine(Texts(Lines(s)), Text(Rest(s))); }
    }
  }

  lemma ValuesOfLine(texts: seq<string>, text: string, name: string)
    ensures Values(texts + [text], name) ==
      if FieldOf(text).name == name then Values(texts, name) + [FieldOf(text).value] else Values(texts, name)
  {
    assert (texts + [text])[..|texts|] == texts;
  }

  lemma BlockOfLine(texts: seq<string>, text: string)
    ensures Block(texts + [text]) == if text == "" then [] else Block(texts) + [text]
  {
    assert (texts + [text])[..|texts|] == texts;
  }

  /** The line brings more data than the event may have. */
  predicate TooMuch(texts: seq<string>, text: string) {
    text != "" && FieldOf(text).name == "data" &&
    DataSize(Values(Block(texts), "data")) + |FieldOf(text).value| + 1 > MAX_EVENT
  }

  lemma LimitOfLine(texts: seq<string>, text: string)
    requires Fits(texts)
    ensures TooMuch(texts, text) <==> DataSize(Values(Block(texts + [text]), "data")) > MAX_EVENT
  {
    if text == "" {
      BlockOfLine(texts, text);
    } else {
      DataOfLine(texts, text);
      assert DataSize(Values(Block(texts), "data")) <= MAX_EVENT;
    }
  }
}
