/** Channels, keyframe runs and what the engine tells the page about them.
    Times are microseconds, durations milliseconds; doubles are reals. */
module AnimModel {
  import opened Numbers
  import opened Wrappers

  const MAX_ACTIVE: int := 64

  // ---- Channels ----

  datatype Channel = Channel(active: bool, start: int, duration: real, delay: real)

  datatype Rgba = Rgba(r: nat, g: nat, b: nat, a: nat)

  datatype Op = Op(kind: int, a: real, b: real)

  /** The values a style was last seen with. */
  datatype Last = Last(opacity: Option<real>, transform: Option<seq<Op>>, color: Option<Rgba>, bg: Option<Rgba>)

  const NEVER_SEEN: Last := Last(None, None, None, None)

  /** A transition of a property that has no interpolation of its own. */
  datatype Generic = Generic(prop: string, last: string, hasLast: bool, ch: Channel)

  /** The keyframe animation of an element. */
  datatype Run = Run(
    active: bool, paused: bool, started: bool, emitted: int, base: real, name: string,
    start: int, duration: real, delay: real, count: int)

  const IDLE: Channel := Channel(false, 0, 0.0, 0.0)
  const NO_RUN: Run := Run(false, false, false, 0, 0.0, "", 0, 0.0, 0.0, 0)

  function Elapsed(start: int, delay: real, now: int): real {
    (now - start) as real / 1000.0 - delay
  }

  /** A conversion to an integer drops the fraction, towards zero. */
  function Trunc(x: real): (k: int)
    ensures x >= 0.0 ==> 0 <= k && k as real <= x < (k + 1) as real
    ensures x <= 0.0 ==> k <= 0 && (k - 1) as real < x <= k as real
  {
    if x >= 0.0 then x.Floor else -((-x).Floor)
  }

  predicate Over(ch: Channel, now: int) {
    ch.active && Elapsed(ch.start, ch.delay, now) >= ch.duration
  }

  /** A transition that starts or changes its target; it needs a free place unless it already runs. */
  function Retargeted(ch: Channel, wanted: bool, room: bool, duration: real, delay: real, now: int): Channel {
    if wanted && duration > 0.0 && (ch.active || room) then Channel(true, now, duration, delay) else ch
  }

  // ---- Runs ----

  function RunElapsed(r: Run, now: int): real {
    if r.paused then r.base else Elapsed(r.start, r.delay, now)
  }

  /** The iteration the run is in, by the capped quotient. */
  function Iteration(r: Run, now: int): int
    requires r.duration > 0.0
  {
    var d := RunElapsed(r, now) / r.duration;
    Trunc(if d > 1000000000.0 then 1000000000.0 else d)
  }

  const MAX_ITERATIONS := 1000000000

  predicate Finished(r: Run, now: int)
    requires r.duration > 0.0
  {
    RunElapsed(r, now) >= 0.0 && r.count > 0 && Iteration(r, now) >= r.count
  }

  /** All iterations of the run have gone by; a count of zero is a run without end. */
  predicate Overdue(r: Run, now: int) {
    r.count > 0 && RunElapsed(r, now) >= r.count as real * r.duration
  }

  /** The capped quotient does not miss the end of a run, nor bring it early, up to its cap. */
  lemma FinishedExactly(r: Run, now: int)
    requires r.duration > 0.0 && r.count <= MAX_ITERATIONS
    ensures Finished(r, now) <==> Overdue(r, now)
  {
    if r.count > 0 {
      QuotientExactly(RunElapsed(r, now), r.duration, r.count as real);
    }
  }

  lemma QuotientExactly(x: real, d: real, k: real)
    requires d > 0.0 && k >= 0.0
    ensures x / d >= k <==> x >= k * d
    ensures x >= k * d ==> x >= 0.0
  {
    Product(x / d, k, d);
    assert x / d * d == x && k * d >= 0.0;
  }

  lemma Product(a: real, b: real, d: real)
    requires d > 0.0
    ensures a >= b <==> a * d >= b * d
  {
    assert (a - b) * d == a * d - b * d;
  }

  /** How many iteration events are due. */
  function Reached(r: Run, now: int): int
    requires r.duration > 0.0
  {
    var k := Trunc(RunElapsed(r, now) / r.duration);
    if r.count > 0 && k > r.count - 1 then r.count - 1 else k
  }

  /** Pausing keeps the time gone by, none when the delay is not over; resuming moves the start. */
  function Paused(r: Run, now: int): Run {
    var el := Elapsed(r.start, r.delay, now);
    r.(base := if el > 0.0 then el else 0.0, paused := true)
  }

  function Resumed(r: Run, now: int): Run {
    r.(start := now - Trunc((r.base + r.delay) * 1000.0), paused := false)
  }

  /** A run resumed goes on exactly from where it was paused. */
  lemma ResumeGoesOn(r: Run, pause: int, resume: int, now: int)
    requires !r.paused && RunElapsed(r, pause) >= 0.0
    ensures RunElapsed(Resumed(Paused(r, pause), resume), now) ==
      RunElapsed(r, pause) + (now - resume) as real / 1000.0
  {
    var k := pause - r.start;
    WholeMicroseconds(k);
    assert Paused(r, pause).base + r.delay == k as real / 1000.0;
    assert Resumed(Paused(r, pause), resume).start == resume - k;
  }

  /** Exactly when a run resumed goes on from where it was paused: the delay was over, or all but over. */
  lemma ResumeExactly(r: Run, pause: int, resume: int, now: int)
    requires !r.paused
    ensures RunElapsed(Resumed(Paused(r, pause), resume), now) ==
              RunElapsed(r, pause) + (now - resume) as real / 1000.0
       <==> RunElapsed(r, pause) >= 0.0 || pause - r.start == Trunc(r.delay * 1000.0)
  {
    if RunElapsed(r, pause) >= 0.0 {
      ResumeGoesOn(r, pause, resume, now);
    } else {
      assert Resumed(Paused(r, pause), resume).start == resume - Trunc(r.delay * 1000.0);
    }
  }

  lemma WholeMicroseconds(k: int)
    ensures Trunc(k as real / 1000.0 * 1000.0) == k
  {
    assert k as real / 1000.0 * 1000.0 == k as real;
  }

  /** A run paused within its delay loses what is left of the delay when it is resumed. */
  lemma PauseEndsDelay(r: Run, pause: int, resume: int)
    requires !r.paused && RunElapsed(r, pause) < 0.0
    ensures -0.001 < RunElapsed(Resumed(Paused(r, pause), resume), resume) < 0.001
  {
  }

  // ---- Events ----

  type Node = nat

  datatype Kind = TransitionEnd | AnimationStart | AnimationIteration | AnimationEnd

  datatype Event = Event(node: Node, kind: Kind, name: string, elapsed: real)

  function StartEvent(n: Node, r: Run): Event { Event(n, AnimationStart, r.name, 0.0) }

  function IterationEvent(n: Node, name: string, duration: real, k: int): Event {
    Event(n, AnimationIteration, name, k as real * duration)
  }

  function EndEvent(n: Node, r: Run): Event {
    Event(n, AnimationEnd, r.name, r.duration * (if r.count > 0 then r.count else 1) as real)
  }

  /** The iteration events after the a-th up to the b-th. */
  function Iterations(n: Node, name: string, duration: real, a: int, b: int): (events: seq<Event>)
    decreases b - a
    ensures |events| == if a < b then b - a else 0
  {
    if b <= a then [] else Iterations(n, name, duration, a, b - 1) + [IterationEvent(n, name, duration, b)]
  }

  function Between(n: Node, r: Run, a: int, b: int): (events: seq<Event>)
    ensures |events| == if a < b then b - a else 0
  {
    Iterations(n, r.name, r.duration, a, b)
  }

  /** What a run has told when it is under way. */
  function Begun(n: Node, r: Run): seq<Event> {
    if r.started then [StartEvent(n, r)] + Between(n, r, 0, r.emitted) else []
  }

  /** Everything a run of so many iterations has to tell: its start, the end of every iteration but
      the last in order, and its end. */
  function Full(n: Node, r: Run): seq<Event> {
    [StartEvent(n, r)] + Between(n, r, 0, r.count - 1) + [EndEvent(n, r)]
  }

  /** What a tick adds. */
  function Due(n: Node, r: Run, now: int): seq<Event>
    requires r.duration > 0.0
  {
    var starts := !r.started && RunElapsed(r, now) >= 0.0;
    var from := if starts then 0 else r.emitted;
    (if starts then [StartEvent(n, r)] else []) +
    (if starts || r.started then Between(n, r, from, Max(from, Reached(r, now))) else []) +
    (if Finished(r, now) then [EndEvent(n, r)] else [])
  }

  /** The run after a tick. */
  function Ticked(r: Run, now: int): Run
    requires r.duration > 0.0
  {
    if Finished(r, now) then r.(active := false, started := false, emitted := 0)
    else if !r.started && RunElapsed(r, now) >= 0.0 then r.(started := true, emitted := Max(0, Reached(r, now)))
    else if r.started then r.(emitted := Max(r.emitted, Reached(r, now)))
    else r
  }

  /** The animation events of one element, in order. */
  function Said(log: seq<Event>, n: Node): seq<Event> {
    if log == [] then []
    else
      var e := log[|log| - 1];
      Said(log[..|log| - 1], n) + (if e.node == n && !e.kind.TransitionEnd? then [e] else [])
  }

  /** The events of one element, transition ends included. */
  function Own(log: seq<Event>, n: Node): seq<Event> {
    if log == [] then []
    else
      var e := log[|log| - 1];
      Own(log[..|log| - 1], n) + (if e.node == n then [e] else [])
  }

  lemma {:induction false} OwnConcat(log: seq<Event>, more: seq<Event>, n: Node)
    ensures Own(log + more, n) == Own(log, n) + Own(more, n)
    decreases |more|
  {
    if more == [] {
      assert log + more == log;
    } else {
      var all := log + more;
      assert all[..|all| - 1] == log + more[..|more| - 1];
      OwnConcat(log, more[..|more| - 1], n);
    }
  }

  /** What one element says of its run depends on its own events alone. */
  lemma {:induction false} SaidOwn(log: seq<Event>, n: Node)
    ensures Said(log, n) == Said(Own(log, n), n)
  {
    if log != [] {
      var most, e := log[..|log| - 1], log[|log| - 1];
      SaidOwn(most, n);
      var own := Own(most, n);
      if e.node == n {
        assert Own(log, n) == own + [e] && (own + [e])[..|own|] == own;
      } else {
        assert Own(log, n) == own;
      }
    }
  }

  lemma {:induction false} SaidConcat(log: seq<Event>, more: seq<Event>, n: Node)
    ensures Said(log + more, n) == Said(log, n) + Said(more, n)
    decreases |more|
  {
    if more == [] {
      assert log + more == log;
    } else {
      var all := log + more;
      assert all[..|all| - 1] == log + more[..|more| - 1];
      SaidConcat(log, more[..|more| - 1], n);
    }
  }

  // ---- The protocol of a run ----

  /** A run that began untold, when its element had said the first `before` events, and has been
      neither replaced nor removed since. */
  ghost predicate Tells(n: Node, r: Run, before: nat, said: seq<Event>) {
    && before <= |said|
    && (r.started ==> 0 <= r.emitted && (r.count > 0 ==> r.emitted < r.count))
    && (!r.active ==> r.count > 0)
    && said[before..] == if r.active then Begun(n, r) else Full(n, r)
  }

  predicate IsPrefix(a: seq<Event>, b: seq<Event>) {
    |a| <= |b| && b[..|a|] == a
  }

  lemma BetweenJoin(n: Node, r: Run, a: int, b: int, c: int)
    requires a <= b <= c
    ensures Between(n, r, a, b) + Between(n, r, b, c) == Between(n, r, a, c)
    decreases c - b
  {
    if b < c { BetweenJoin(n, r, a, b, c - 1); }
  }

  /** When a run of n iterations is over, the uncapped count has passed them all. */
  lemma FinishedReached(r: Run, now: int)
    requires r.duration > 0.0 && Finished(r, now)
    ensures Reached(r, now) == r.count - 1
  {
  }

  /** What a run has told, with what is due, is what it has told after the tick. */
  lemma DueExtends(n: Node, r: Run, now: int)
    requires r.duration > 0.0 && !Finished(r, now) && (r.started ==> 0 <= r.emitted)
    ensures Begun(n, r) + Due(n, r, now) == Begun(n, Ticked(r, now))
  {
    var q := Ticked(r, now);
    if r.started {
      BetweenJoin(n, r, 0, r.emitted, q.emitted);
    }
  }

  lemma DueWhenFinished(n: Node, r: Run, now: int)
    requires r.duration > 0.0 && Finished(r, now) && (r.started ==> 0 <= r.emitted < r.count)
    ensures r.started ==> Due(n, r, now) == [] + Between(n, r, r.emitted, r.count - 1) + [EndEvent(n, r)]
    ensures !r.started ==> Due(n, r, now) == [StartEvent(n, r)] + Between(n, r, 0, r.count - 1) + [EndEvent(n, r)]
  {
    FinishedReached(r, now);
  }

  lemma DueCompletes(n: Node, r: Run, now: int)
    requires r.duration > 0.0 && Finished(r, now) && (r.started ==> 0 <= r.emitted < r.count)
    ensures Begun(n, r) + Due(n, r, now) == Full(n, r)
  {
    DueWhenFinished(n, r, now);
    if r.started {
      BetweenJoin(n, r, 0, r.emitted, r.count - 1);
      assert [StartEvent(n, r)] + Between(n, r, 0, r.emitted)
             + ([] + Between(n, r, r.emitted, r.count - 1) + [EndEvent(n, r)])
          == [StartEvent(n, r)] + (Between(n, r, 0, r.emitted) + Between(n, r, r.emitted, r.count - 1))
             + [EndEvent(n, r)];
    }
  }

  /** The two have the same story to tell. */
  predicate Same(r: Run, q: Run) {
    q.name == r.name && q.duration == r.duration && q.count == r.count
  }

  lemma EndSame(n: Node, r: Run, q: Run)
    requires Same(r, q)
    ensures EndEvent(n, q) == EndEvent(n, r)
  {
  }

  lemma FullSame(n: Node, r: Run, q: Run)
    requires Same(r, q)
    ensures Full(n, q) == Full(n, r)
  {
    EndSame(n, r, q);
  }

  /** A tick keeps the protocol: the events it adds extend what the run has told, and complete it
      exactly when the run is over. */
  lemma TickTells(n: Node, r: Run, before: nat, said: seq<Event>, now: int)
    requires r.active && r.duration > 0.0 && Tells(n, r, before, said)
    ensures Tells(n, Ticked(r, now), before, said + Due(n, r, now))
  {
    assert (said + Due(n, r, now))[before..] == said[before..] + Due(n, r, now);
    if Finished(r, now) {
      DueCompletes(n, r, now);
      FullSame(n, r, Ticked(r, now));
    } else {
      DueExtends(n, r, now);
    }
  }

  /** What a run has told is always a beginning of its whole story, and is the whole story exactly
      when the run is no longer active. */
  lemma StoryIsPrefix(n: Node, r: Run, before: nat, said: seq<Event>)
    requires r.count >= 1 && Tells(n, r, before, said)
    ensures IsPrefix(said[before..], Full(n, r))
    ensures !r.active <==> said[before..] == Full(n, r)
  {
    if r.active {
      var told, rest := Begun(n, r), Full(n, r)[|Begun(n, r)|..];
      if r.started {
        BetweenJoin(n, r, 0, r.emitted, r.count - 1);
      }
      assert Full(n, r) == told + rest;
    }
  }
}
