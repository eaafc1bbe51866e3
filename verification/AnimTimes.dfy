/** When a run tells what it has to tell. */
module AnimTimes {
  import opened Wrappers
  import opened Numbers
  import opened AnimModel
  import opened AnimStates
  import opened AnimStyles
  import opened AnimRuns

  /** How many events of its story a run of so many iterations has told. */
  function Mark(r: Run): int {
    if !r.active then r.count + 1 else if r.started then r.emitted + 1 else 0
  }

  /** A run under way, of the entry it began with. */
  predicate UnderWay(r: Run, e: Entry, start: int) {
    && Some(r.name) == e.name && r.duration == e.duration > 0.0 && r.delay == e.delay && r.count == e.count
    && r.start == start && (r.active ==> !r.paused) && 1 <= r.count <= MAX_ITERATIONS
    && (r.started ==> 0 <= r.emitted < r.count)
  }

  /** So much time has gone by since the start and its delay. */
  predicate GoneBy(e: Entry, start: int, now: int, time: real) {
    (now - start) as real / 1000.0 >= e.delay + time
  }

  lemma TruncAtLeast(x: real, q: int)
    requires q >= 1
    ensures Trunc(x) >= q <==> x >= q as real
  {
  }

  /** So many iterations are reached when so much time has gone by. */
  lemma ReachedExactly(r: Run, now: int, q: int, time: real)
    requires r.duration > 0.0 && 1 <= q < r.count && time == q as real * r.duration
    ensures Reached(r, now) >= q <==> RunElapsed(r, now) >= time
  {
    QuotientExactly(RunElapsed(r, now), r.duration, q as real);
    TruncAtLeast(RunElapsed(r, now) / r.duration, q);
  }

  lemma UnderWayTicked(r: Run, e: Entry, start: int, now: int)
    requires UnderWay(r, e, start) && r.active
    ensures UnderWay(Ticked(r, now), e, start)
  {
  }

  /** A tick marks an event as told exactly when its time has come. */
  lemma MarkStep(r: Run, e: Entry, start: int, now: int, q: int, time: real)
    requires UnderWay(r, e, start) && r.active && 0 <= q <= r.count && time == q as real * e.duration
    ensures Mark(Ticked(r, now)) > q <==> Mark(r) > q || GoneBy(e, start, now, time)
  {
    assert GoneBy(e, start, now, time) <==> RunElapsed(r, now) >= time;
    var whole := r.count as real * r.duration;
    WholeTime(r, now, whole);
    TimeWithin(q, r.count, r.duration, time, whole);
    if 1 <= q < r.count { ReachedExactly(r, now, q, time); }
    MarkTicked(r, now, q, time, whole);
  }

  lemma WholeTime(r: Run, now: int, whole: real)
    requires r.duration > 0.0 && 1 <= r.count <= MAX_ITERATIONS && whole == r.count as real * r.duration
    ensures Finished(r, now) <==> RunElapsed(r, now) >= whole
  {
    FinishedExactly(r, now);
    assert Overdue(r, now) <==> RunElapsed(r, now) >= whole;
  }

  lemma TimeWithin(q: int, k: int, d: real, time: real, whole: real)
    requires d > 0.0 && 0 <= q <= k && time == q as real * d && whole == k as real * d
    ensures 0.0 <= time <= whole && (q == 0 ==> time == 0.0) && (q == k ==> time == whole)
  {
    Product(q as real, 0.0, d);
    Product(k as real, q as real, d);
  }

  lemma MarkTicked(r: Run, now: int, q: int, time: real, whole: real)
    requires r.active && !r.paused && r.duration > 0.0 && 0 <= q <= r.count && r.count >= 1
    requires (r.started ==> 0 <= r.emitted < r.count) && (Finished(r, now) <==> RunElapsed(r, now) >= whole)
    requires 0.0 <= time <= whole && (q == 0 ==> time == 0.0) && (q == r.count ==> time == whole)
    requires 1 <= q < r.count ==> (Reached(r, now) >= q <==> RunElapsed(r, now) >= time)
    ensures Mark(Ticked(r, now)) > q <==> Mark(r) > q || RunElapsed(r, now) >= time
  {
  }

  // ---- Over a course of operations ----

  /** The style has its animation stand still. */
  predicate Pauses(style: Style) {
    style.animation.Some? && style.animation.value != [] &&
    if style.playState.Some? then style.playState.value else style.animation.value[0].paused
  }

  /** The call neither has the run of the element stand still nor moves its start. */
  predicate LetsGo(call: Call, n: Node) {
    match call
    case Observe(m, style, _, _) => m == n ==> !Pauses(style)
    case Rebase(_) => false
    case _ => true
  }

  /** A run begins untold with the first call, and those after it spare it and let it go on. */
  ghost predicate SteadyCourse(ws: seq<Scene>, calls: seq<Call>, n: Node) {
    && CourseOfRun(ws, calls, n) && !RecOf(ws[0], n).anim.started
    && 1 <= EntryBegun(ws[0], calls[0], n).count <= MAX_ITERATIONS
    && forall k :: 0 <= k < |calls| ==> LetsGo(calls[k], n)
  }

  predicate TickedAfter(calls: seq<Call>, e: Entry, start: int, time: real, j: nat)
    requires j < |calls|
  {
    calls[j].Tick? && GoneBy(e, start, calls[j].now, time)
  }

  /** Among the calls after the first and before the k-th there has been a tick so much time after the
      start and its delay. */
  predicate TimeCame(calls: seq<Call>, e: Entry, start: int, time: real, k: nat)
    requires k <= |calls|
  {
    exists j :: 1 <= j < k && TickedAfter(calls, e, start, time, j)
  }

  lemma BeginsUnderWay(w: Scene, call: Call, w': Scene, n: Node)
    requires InOrder(w) && Made(w, call, w') && BeginsRun(w, call, n) && LetsGo(call, n)
    requires !RecOf(w, n).anim.started && 1 <= EntryBegun(w, call, n).count <= MAX_ITERATIONS
    ensures n in w'.recs && UnderWay(w'.recs[n].anim, EntryBegun(w, call, n), call.now)
    ensures Mark(w'.recs[n].anim) == 0
  {
    RunBegins(w, call, w', n);
  }

  lemma SteadyRun(r: Run, style: Style, count: int, now: int, reduced: bool)
    requires FateOf(r, style, count, reduced).Stays? && !Pauses(style) && (r.active ==> !r.paused)
    ensures ObservedRun(r, style, count, now, reduced) == r
  {
  }

  lemma SteadyStep(w: Scene, call: Call, w': Scene, n: Node, e: Entry, start: int, q: int, time: real)
    requires InOrder(w) && n in w.recs && Made(w, call, w') && Spares(w, call, n) && LetsGo(call, n)
    requires UnderWay(w.recs[n].anim, e, start) && 0 <= q <= e.count && time == q as real * e.duration
    ensures n in w'.recs && UnderWay(w'.recs[n].anim, e, start)
    ensures Mark(w'.recs[n].anim) > q <==>
      Mark(w.recs[n].anim) > q || (call.Tick? && GoneBy(e, start, call.now, time))
  {
    var r := w.recs[n].anim;
    assert SoundAt(w.recs, w.tracked, w.log, n);
    match call
    case Tick(now) =>
      assert TickedAt(w.recs, w.log, w.tracked, now, w'.recs, w'.log, n);
      if r.active {
        UnderWayTicked(r, e, start, now);
        MarkStep(r, e, start, now, q, time);
      }
    case Observe(m, style, now, reduced) =>
      if m == n {
        SteadyRun(r, style, ObservedTransitions(w.recs[n], style, w.count, now, reduced).count, now, reduced);
      }
    case Prune(_) =>
    case Drain =>
  }

  /** The events of a run that have been told by a point of its course are those whose time has come. */
  lemma {:induction false} MarksTimely(ws: seq<Scene>, calls: seq<Call>, n: Node, k: nat, q: int, time: real)
    requires SteadyCourse(ws, calls, n) && 1 <= k <= |calls|
    requires 0 <= q <= EntryBegun(ws[0], calls[0], n).count
    requires time == q as real * EntryBegun(ws[0], calls[0], n).duration
    ensures InOrder(ws[k]) && n in ws[k].recs
    ensures UnderWay(ws[k].recs[n].anim, EntryBegun(ws[0], calls[0], n), calls[0].now)
    ensures Mark(ws[k].recs[n].anim) > q <==>
      TimeCame(calls, EntryBegun(ws[0], calls[0], n), calls[0].now, time, k)
  {
    var e, start := EntryBegun(ws[0], calls[0], n), calls[0].now;
    assert MadeAt(ws, calls, k - 1);
    if k == 1 {
      BeginsUnderWay(ws[0], calls[0], ws[1], n);
    } else {
      MarksTimely(ws, calls, n, k - 1, q, time);
      assert SparesAt(ws, calls, n, k - 1);
      SteadyStep(ws[k - 1], calls[k - 1], ws[k], n, e, start, q, time);
      assert TimeCame(calls, e, start, time, k) <==>
        TimeCame(calls, e, start, time, k - 1) || TickedAfter(calls, e, start, time, k - 1);
    }
  }

  /** A run tells its start by the first tick after its delay, the end of its q-th iteration by the first
      tick q durations later, and its own end by the first tick when all have gone by; none of them before. */
  lemma ToldTimely(ws: seq<Scene>, calls: seq<Call>, n: Node, k: nat, q: int)
    requires SteadyCourse(ws, calls, n) && 1 <= k <= |calls|
    requires 0 <= q <= EntryBegun(ws[0], calls[0], n).count
    ensures |ToldSince(ws[0], ws[k], n)| > q <==>
      TimeCame(calls, EntryBegun(ws[0], calls[0], n), calls[0].now,
               q as real * EntryBegun(ws[0], calls[0], n).duration, k)
    ensures IsPrefix(ToldSince(ws[0], ws[k], n), StoryOf(n, EntryBegun(ws[0], calls[0], n)))
  {
    MarksTimely(ws, calls, n, k, q, q as real * EntryBegun(ws[0], calls[0], n).duration);
    RunStory(ws, calls, n, k);
    ToldMark(ws, calls, n, k);
  }

  lemma ToldMark(ws: seq<Scene>, calls: seq<Call>, n: Node, k: nat)
    requires SteadyCourse(ws, calls, n) && 1 <= k <= |calls|
    requires InOrder(ws[k]) && n in ws[k].recs
    requires UnderWay(ws[k].recs[n].anim, EntryBegun(ws[0], calls[0], n), calls[0].now)
    ensures |ToldSince(ws[0], ws[k], n)| == Mark(ws[k].recs[n].anim)
  {
    var w := ws[k];
    RunGoesOn(ws, calls, n, k);
    assert SoundAt(w.recs, w.tracked, w.log, n);
    assert Tells(n, w.recs[n].anim, w.recs[n].before, Said(w.log, n));
  }

  lemma {:induction false} IterationsAt(n: Node, name: string, d: real, a: int, b: int, i: nat)
    requires i < b - a
    ensures Iterations(n, name, d, a, b)[i] == Event(n, AnimationIteration, name, (a + 1 + i) as real * d)
    decreases b - a
  {
    if i < b - a - 1 { IterationsAt(n, name, d, a, b - 1, i); }
  }

  /** The story: the start at no time, the end of each iteration but the last at the time of so many
      durations, and the end of the run at the time of all of them. */
  lemma StoryIs(n: Node, e: Entry, q: int)
    requires e.name.Some? && 1 <= e.count && 0 <= q <= e.count
    ensures |StoryOf(n, e)| == e.count + 1
    ensures StoryOf(n, e)[q] ==
      Event(n, if q == 0 then AnimationStart else if q < e.count then AnimationIteration else AnimationEnd,
            e.name.value, q as real * e.duration)
  {
    if 0 < q < e.count { IterationsAt(n, e.name.value, e.duration, 0, e.count - 1, q - 1); }
  }
}
