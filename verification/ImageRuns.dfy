/** What becomes of one address over the life of the cache: how often it is requested, and when again. */
module ImageRuns {
  import opened Wrappers
  import opened ImageModel

  // ---- Courses of operations ----

  /** Every address the cache knows, and its generation. */
  datatype Table = Table(recs: map<string, Rec>, gen: nat)

  /** What is asked of the cache, and what comes back to it. */
  datatype Op =
    | Get(url: string, now: int, enabled: bool)
    | Fetch(url: string, resp: Response, now: int)
    | Decode(url: string, content: Content, now: int)
    | Insert(url: string, texture: Size)
    | Peek(url: string)
    | Collect(victims: seq<string>)
    | BeginGeneration
    | CancelCallbacks

  /** The operation leads from one table to the other; only a request under way is answered, and only
      loaded pictures are thrown out. */
  ghost predicate Made(t: Table, op: Op, t': Table) {
    t'.gen == (if op.BeginGeneration? then t.gen + 1 else t.gen) &&
    match op
    case Get(u, now, enabled) =>
      t'.recs == t.recs[u := if u in t.recs then Got(t.recs[u], now, enabled, t.gen) else FirstGot(enabled)]
    case Fetch(u, resp, now) =>
      u in t.recs && Unknown(t.recs[u]) && t'.recs == t.recs[u := Fetched(t.recs[u], resp, now, t.gen)]
    case Decode(u, content, now) =>
      u in t.recs && Unknown(t.recs[u]) &&
      t'.recs == t.recs[u := Accounted(Applied(t.recs[u], content, now), t.gen)]
    case Insert(u, texture) =>
      t'.recs == if u in t.recs then t.recs else t.recs[u := Inserted(texture, t.gen)]
    case Peek(u) => t'.recs == if u in t.recs then t.recs[u := t.recs[u].(gen := t.gen)] else t.recs
    case Collect(victims) =>
      (forall v <- victims :: v in t.recs && t.recs[v].loaded) && t'.recs == PurgedAll(t.recs, victims)
    case BeginGeneration => t'.recs == t.recs
    case CancelCallbacks => t'.recs == t.recs
  }

  ghost predicate Course(ts: seq<Table>, ops: seq<Op>) {
    |ts| == |ops| + 1 && forall i {:trigger MadeAt(ts, ops, i)} :: 0 <= i < |ops| ==> MadeAt(ts, ops, i)
  }

  ghost predicate MadeAt(ts: seq<Table>, ops: seq<Op>, i: nat)
    requires |ts| == |ops| + 1 && i < |ops|
  {
    Made(ts[i], ops[i], ts[i + 1])
  }

  // ---- One address ----

  /** A request for the address goes out. */
  predicate Begins(t: Table, op: Op, u: string) {
    op.Get? && op.url == u && op.enabled && (u in t.recs ==> Starts(t.recs[u], op.now))
  }

  /** The picture of the address is thrown out. */
  predicate ThrowsOut(op: Op, u: string) { op.Collect? && u in op.victims }

  /** How many of the first operations request the address. */
  function Requests(ts: seq<Table>, ops: seq<Op>, u: string, k: nat): nat
    requires |ts| == |ops| + 1 && k <= |ops|
  {
    if k == 0 then 0 else Requests(ts, ops, u, k - 1) + if Begins(ts[k - 1], ops[k - 1], u) then 1 else 0
  }

  /** How many of them throw its picture out. */
  function TimesOut(ops: seq<Op>, u: string, k: nat): nat
    requires k <= |ops|
  {
    if k == 0 then 0 else TimesOut(ops, u, k - 1) + if ThrowsOut(ops[k - 1], u) then 1 else 0
  }

  predicate Fine(r: Rec) { (r.loaded ==> !r.purged && !r.failed) && (r.purged ==> !r.failed) }

  /** The statuses after which an image may be asked for again. */
  const PASSING: set<int> := {408, 425, 429, 500, 502, 503, 504}

  /** Failed for good: three requests have been made, or the answer was a lasting one. */
  predicate Lost(r: Rec) {
    r.failed && !r.loaded && !r.purged && (r.attempts >= 3 || (r.status > 0 && r.status !in PASSING))
  }

  /** The wait in microseconds after the first failure, or a later one. */
  function WaitOf(r: Rec): int {
    if r.status == 429 then if r.attempts <= 1 then 15000000 else 45000000
    else if r.attempts <= 1 then 2000000 else 10000000
  }

  /** A failed image is requested again exactly when fewer than three requests have been made, its
      answer was a passing one or there was none, and the wait since then is over. */
  lemma RetriesExactly(t: Table, op: Op, u: string)
    requires u in t.recs && t.recs[u].failed && Fine(t.recs[u]) && op.Get? && op.url == u && op.enabled
    ensures Begins(t, op, u) <==>
      !Lost(t.recs[u]) && (t.recs[u].failedAt == 0 || op.now - t.recs[u].failedAt >= WaitOf(t.recs[u]))
  {
  }

  /** How one operation changes one record. */
  lemma RecStep(t: Table, op: Op, t': Table, u: string)
    requires Made(t, op, t') && u in t.recs && Fine(t.recs[u])
    ensures u in t'.recs && Fine(t'.recs[u])
    ensures var r, r' := t.recs[u], t'.recs[u];
      && r'.attempts == r.attempts + (if Begins(t, op, u) then 1 else 0)
      && (r'.purged <==> ThrowsOut(op, u) || (r.purged && !Begins(t, op, u)))
      && (ThrowsOut(op, u) ==> r.loaded)
      && (r.failed && !Begins(t, op, u) ==> r' == r.(gen := r'.gen))
  {
    if op.Collect? { PurgedAt(t.recs, op.victims, u); }
  }

  lemma FirstStep(t: Table, op: Op, t': Table, u: string)
    requires Made(t, op, t') && u !in t.recs
    ensures u in t'.recs ==> Fine(t'.recs[u]) && !t'.recs[u].purged
                             && t'.recs[u].attempts == if Begins(t, op, u) then 1 else 0
    ensures u !in t'.recs ==> !Begins(t, op, u)
    ensures !ThrowsOut(op, u)
  {
  }

  /** The record counts the requests, and there are no more than three but for those after the picture
      was thrown out. */
  lemma {:induction false} RequestsCounted(ts: seq<Table>, ops: seq<Op>, u: string, k: nat)
    requires Course(ts, ops) && u !in ts[0].recs && k <= |ops|
    ensures u !in ts[k].recs ==> Requests(ts, ops, u, k) == 0
    ensures u in ts[k].recs ==>
      Fine(ts[k].recs[u]) && Requests(ts, ops, u, k) == ts[k].recs[u].attempts &&
      Requests(ts, ops, u, k) + (if ts[k].recs[u].purged then 1 else 0) <= 3 + TimesOut(ops, u, k)
  {
    if k > 0 {
      RequestsCounted(ts, ops, u, k - 1);
      assert MadeAt(ts, ops, k - 1);
      if u in ts[k - 1].recs {
        RecStep(ts[k - 1], ops[k - 1], ts[k], u);
      } else {
        FirstStep(ts[k - 1], ops[k - 1], ts[k], u);
      }
    }
  }

  /** An address whose picture is never thrown out is requested at most three times, whatever happens. */
  lemma ThreeRequests(ts: seq<Table>, ops: seq<Op>, u: string)
    requires Course(ts, ops) && u !in ts[0].recs
    ensures Requests(ts, ops, u, |ops|) <= 3 + TimesOut(ops, u, |ops|)
    ensures (forall i :: 0 <= i < |ops| ==> !ThrowsOut(ops[i], u)) ==> Requests(ts, ops, u, |ops|) <= 3
  {
    RequestsCounted(ts, ops, u, |ops|);
    if forall i :: 0 <= i < |ops| ==> !ThrowsOut(ops[i], u) {
      NeverOut(ops, u, |ops|);
    }
  }

  lemma {:induction false} NeverOut(ops: seq<Op>, u: string, k: nat)
    requires k <= |ops| && forall i :: 0 <= i < |ops| ==> !ThrowsOut(ops[i], u)
    ensures TimesOut(ops, u, k) == 0
  {
    if k > 0 { NeverOut(ops, u, k - 1); }
  }

  /** A failed image stays as it is as long as it is not requested. */
  lemma {:induction false} FailedStays(ts: seq<Table>, ops: seq<Op>, u: string, j: nat, i: nat)
    requires Course(ts, ops) && j <= i <= |ops| && u in ts[j].recs && ts[j].recs[u].failed && Fine(ts[j].recs[u])
    requires forall k :: j <= k < i ==> !Begins(ts[k], ops[k], u)
    ensures u in ts[i].recs && ts[i].recs[u] == ts[j].recs[u].(gen := ts[i].recs[u].gen)
  {
    if j < i {
      FailedStays(ts, ops, u, j, i - 1);
      assert MadeAt(ts, ops, i - 1);
      RecStep(ts[i - 1], ops[i - 1], ts[i], u);
    }
  }

  /** What failed for good is never asked for again. */
  lemma {:induction false} LostForEver(ts: seq<Table>, ops: seq<Op>, u: string, j: nat, i: nat)
    requires Course(ts, ops) && j <= i < |ops| && u in ts[j].recs && Lost(ts[j].recs[u])
    ensures u in ts[i].recs && Lost(ts[i].recs[u]) && !Begins(ts[i], ops[i], u)
  {
    if j < i {
      LostForEver(ts, ops, u, j, i - 1);
      assert MadeAt(ts, ops, i - 1);
      RecStep(ts[i - 1], ops[i - 1], ts[i], u);
    }
  }

  /** The operation is the answer to a request of this address, and the image has failed. */
  predicate Fails(op: Op, u: string) {
    match op
    case Fetch(v, resp, _) => v == u && (resp.NoResponse? || resp.Refused? || (resp.Body? && resp.content.Undecodable?))
    case Decode(v, content, _) => v == u && content.Undecodable?
    case _ => false
  }

  /** An answer of 404, or of any other lasting status, is the last. */
  lemma RefusedForEver(ts: seq<Table>, ops: seq<Op>, u: string, j: nat, i: nat)
    requires Course(ts, ops) && j < i < |ops|
    requires ops[j].Fetch? && ops[j].url == u && ops[j].resp.Refused?
    requires ops[j].resp.status > 0 && ops[j].resp.status !in PASSING
    ensures !Begins(ts[i], ops[i], u)
  {
    assert MadeAt(ts, ops, j);
    LostForEver(ts, ops, u, j + 1, i);
  }

  /** Between a failure and the next request its wait goes by. */
  lemma NoEarlyRetry(ts: seq<Table>, ops: seq<Op>, u: string, j: nat, i: nat)
    requires Course(ts, ops) && j < i < |ops| && u !in ts[0].recs && Fails(ops[j], u) && ops[j].now != 0
    requires Begins(ts[i], ops[i], u) && forall k :: j < k < i ==> !Begins(ts[k], ops[k], u)
    ensures u in ts[j].recs && u in ts[j + 1].recs && Requests(ts, ops, u, j) == ts[j].recs[u].attempts < 3
    ensures ops[i].now - ops[j].now >=
      if ts[j + 1].recs[u].status == 429 then if Requests(ts, ops, u, j) <= 1 then 15000000 else 45000000
      else if Requests(ts, ops, u, j) <= 1 then 2000000 else 10000000
  {
    RequestsCounted(ts, ops, u, j);
    assert MadeAt(ts, ops, j);
    RecStep(ts[j], ops[j], ts[j + 1], u);
    FailedStays(ts, ops, u, j + 1, i);
    RetriesExactly(ts[i], ops[i], u);
  }

  /** A picture thrown out is asked for again, and there is no answer. */
  ghost predicate AskedInVain(ts: seq<Table>, ops: seq<Op>, u: string) {
    && Course(ts, ops) && |ops| >= 2 && u in ts[0].recs && Fine(ts[0].recs[u]) && ts[0].recs[u].purged
    && ops[0].Get? && ops[0].url == u && ops[0].enabled
    && ops[1].Fetch? && ops[1].url == u && ops[1].resp.NoResponse?
  }

  /** It has failed for good exactly if this was the third request or the answer before, whose status has
      stayed, was a lasting one; an image never loaded would be asked for again. */
  lemma ThrownOutExactly(ts: seq<Table>, ops: seq<Op>, u: string)
    requires AskedInVain(ts, ops, u)
    ensures Begins(ts[0], ops[0], u) && u in ts[2].recs
    ensures Lost(ts[2].recs[u]) <==>
      ts[0].recs[u].attempts >= 2 || (ts[0].recs[u].status > 0 && ts[0].recs[u].status !in PASSING)
  {
    assert MadeAt(ts, ops, 0) && MadeAt(ts, ops, 1);
  }

  /** Then it is never asked for again. */
  lemma ThrownOutLost(ts: seq<Table>, ops: seq<Op>, u: string, i: nat)
    requires AskedInVain(ts, ops, u) && 2 <= i < |ops|
    requires ts[0].recs[u].status > 0 && ts[0].recs[u].status !in PASSING
    ensures !Begins(ts[i], ops[i], u)
  {
    ThrownOutExactly(ts, ops, u);
    LostForEver(ts, ops, u, 2, i);
  }

  // ---- The memory of a picture ----

  /** Frames of one size take four bytes a pixel each. */
  lemma {:induction false} EqualFrames(size: Size, n: nat)
    requires size.width > 0 && size.height > 0
    ensures FrameBytes(seq(n, _ => Some(size))) == n * (4 * size.width * size.height)
  {
    var frames := seq(n, _ => Some(size));
    if n > 0 {
      assert frames[..n - 1] == seq(n - 1, _ => Some(size));
      EqualFrames(size, n - 1);
    }
  }
}
