/** The channels of one element taken together: how many are active, what a tick does to them,
    and the sum over all elements. */
module AnimStates {
  import opened AnimModel
  import opened MapSums
  import opened Numbers

  datatype Rec = Rec(
    opacity: Channel, transform: Channel, color: Channel, bg: Channel,
    generic: seq<Generic>, anim: Run,
    // The run began untold and has been neither replaced nor removed; and how much its element had
    // said before.
    clean: bool, before: nat,
    last: Last)

  function ActiveGenerics(gs: seq<Generic>): nat {
    if gs == [] then 0 else ActiveGenerics(gs[..|gs| - 1]) + Bit(gs[|gs| - 1].ch.active)
  }

  function Count(r: Rec): nat {
    Bit(r.opacity.active) + Bit(r.transform.active) + Bit(r.color.active) + Bit(r.bg.active)
    + Bit(r.anim.active) + ActiveGenerics(r.generic)
  }

  /** Worth ticking: a paused animation alone is not. */
  predicate Lively(r: Rec) {
    r.opacity.active || r.transform.active || r.color.active || r.bg.active
    || (r.anim.active && !r.anim.paused) || (exists i :: 0 <= i < |r.generic| && r.generic[i].ch.active)
  }

  // ---- One element's tick ----

  function Stopped(ch: Channel, now: int): Channel {
    if Over(ch, now) then ch.(active := false) else ch
  }

  function StoppedAll(gs: seq<Generic>, now: int): (r: seq<Generic>)
    ensures |r| == |gs| && forall i :: 0 <= i < |gs| ==> r[i] == gs[i].(ch := Stopped(gs[i].ch, now))
  {
    seq(|gs|, i requires 0 <= i < |gs| => gs[i].(ch := Stopped(gs[i].ch, now)))
  }

  function EndOf(n: Node, ch: Channel, prop: string, now: int): seq<Event> {
    if Over(ch, now) then [Event(n, TransitionEnd, prop, ch.duration)] else []
  }

  function EndsOf(n: Node, gs: seq<Generic>, now: int): seq<Event> {
    if gs == [] then []
    else
      var g := gs[|gs| - 1];
      EndsOf(n, gs[..|gs| - 1], now) + EndOf(n, g.ch, g.prop, now)
  }

  /** What is active has a positive duration. */
  predicate Timed(r: Rec) {
    && (r.opacity.active ==> r.opacity.duration > 0.0)
    && (r.transform.active ==> r.transform.duration > 0.0)
    && (r.color.active ==> r.color.duration > 0.0)
    && (r.bg.active ==> r.bg.duration > 0.0)
    && (r.anim.active ==> r.anim.duration > 0.0)
  }

  function TickedRec(r: Rec, now: int): Rec
    requires Timed(r)
  {
    r.(opacity := Stopped(r.opacity, now), transform := Stopped(r.transform, now),
       color := Stopped(r.color, now), bg := Stopped(r.bg, now),
       generic := StoppedAll(r.generic, now),
       anim := if r.anim.active then Ticked(r.anim, now) else r.anim)
  }

  function TransitionEnds(n: Node, r: Rec, now: int): seq<Event> {
    EndOf(n, r.opacity, "opacity", now) + EndOf(n, r.transform, "transform", now)
    + EndOf(n, r.color, "color", now) + EndOf(n, r.bg, "background-color", now)
  }

  function RunEvents(n: Node, r: Rec, now: int): seq<Event>
    requires Timed(r)
  {
    if r.anim.active then Due(n, r.anim, now) else []
  }

  function TickLog(n: Node, r: Rec, now: int): seq<Event>
    requires Timed(r)
  {
    TransitionEnds(n, r, now) + RunEvents(n, r, now) + EndsOf(n, r.generic, now)
  }

  // ---- What holds of every element ----

  ghost predicate Good(n: Node, r: Rec, said: seq<Event>) {
    Timed(r) && (r.clean ==> Tells(n, r.anim, r.before, said))
  }

  predicate Silent(events: seq<Event>) {
    forall e <- events :: e.kind.TransitionEnd?
  }

  predicate Of(n: Node, events: seq<Event>) {
    forall e <- events :: e.node == n
  }

  lemma {:induction false} SaidSilent(events: seq<Event>, n: Node)
    requires Silent(events)
    ensures Said(events, n) == []
  {
    if events != [] {
      SaidSilent(events[..|events| - 1], n);
    }
  }

  lemma {:induction false} SaidOther(events: seq<Event>, n: Node, m: Node)
    requires Of(n, events) && m != n
    ensures Said(events, m) == []
  {
    if events != [] {
      SaidOther(events[..|events| - 1], n, m);
    }
  }

  lemma {:induction false} SaidAll(events: seq<Event>, n: Node)
    requires Of(n, events) && forall e <- events :: !e.kind.TransitionEnd?
    ensures Said(events, n) == events
  {
    if events != [] {
      SaidAll(events[..|events| - 1], n);
      assert events[..|events| - 1] + [events[|events| - 1]] == events;
    }
  }

  lemma {:induction false} IterationsAreRunEvents(n: Node, name: string, d: real, a: int, b: int)
    ensures Of(n, Iterations(n, name, d, a, b))
    ensures forall e <- Iterations(n, name, d, a, b) :: !e.kind.TransitionEnd?
    decreases b - a
  {
    if a < b { IterationsAreRunEvents(n, name, d, a, b - 1); }
  }

  lemma DueIsRunEvents(n: Node, r: Run, now: int)
    requires r.duration > 0.0
    ensures Of(n, Due(n, r, now)) && forall e <- Due(n, r, now) :: !e.kind.TransitionEnd?
  {
    IterationsAreRunEvents(n, r.name, r.duration, if !r.started && RunElapsed(r, now) >= 0.0 then 0 else r.emitted,
      Max(if !r.started && RunElapsed(r, now) >= 0.0 then 0 else r.emitted, Reached(r, now)));
  }

  lemma {:induction false} EndsAreTransitions(n: Node, gs: seq<Generic>, now: int)
    ensures Of(n, EndsOf(n, gs, now)) && Silent(EndsOf(n, gs, now))
  {
    if gs != [] {
      EndsAreTransitions(n, gs[..|gs| - 1], now);
    }
  }

  /** All that a tick of one element says is its own. */
  lemma TickOwn(n: Node, r: Rec, now: int, m: Node)
    requires Timed(r)
    ensures Of(n, TickLog(n, r, now))
    ensures Own(TickLog(n, r, now), m) == if m == n then TickLog(n, r, now) else []
  {
    EndsAreTransitions(n, r.generic, now);
    if r.anim.active { DueIsRunEvents(n, r.anim, now); }
    OwnOf(TickLog(n, r, now), n, m);
  }

  lemma {:induction false} OwnOf(events: seq<Event>, n: Node, m: Node)
    requires Of(n, events)
    ensures Own(events, m) == if m == n then events else []
  {
    if events != [] {
      OwnOf(events[..|events| - 1], n, m);
      assert events[..|events| - 1] + [events[|events| - 1]] == events;
    }
  }

  /** Of what a tick says, the element's animation events are those due to its run, and no other
      element is concerned. */
  lemma TickSays(n: Node, r: Rec, now: int, m: Node)
    requires Timed(r)
    ensures Said(TickLog(n, r, now), m) == if m == n then RunEvents(n, r, now) else []
  {
    var b := RunEvents(n, r, now);
    EndsAreTransitions(n, r.generic, now);
    if r.anim.active { DueIsRunEvents(n, r.anim, now); }
    SaidAround(TransitionEnds(n, r, now), b, EndsOf(n, r.generic, now), n, m);
  }

  lemma SaidAround(a: seq<Event>, b: seq<Event>, c: seq<Event>, n: Node, m: Node)
    requires Silent(a) && Silent(c) && Of(n, b) && forall e <- b :: !e.kind.TransitionEnd?
    ensures Said(a + b + c, m) == if m == n then b else []
  {
    SaidConcat(a + b, c, m);
    SaidConcat(a, b, m);
    SaidSilent(a, m);
    SaidSilent(c, m);
    if m == n {
      SaidAll(b, n);
    } else {
      SaidOther(b, n, m);
    }
  }

  /** A tick keeps what holds of the ticked element. */
  lemma TickGood(n: Node, r: Rec, said: seq<Event>, now: int)
    requires Good(n, r, said)
    ensures Good(n, TickedRec(r, now), said + RunEvents(n, r, now))
  {
    if r.clean && r.anim.active {
      TickTells(n, r.anim, r.before, said, now);
    } else {
      assert said + [] == said;
    }
  }

  lemma {:induction false} UpdateCounts(gs: seq<Generic>, i: nat, g: Generic)
    requires i < |gs|
    ensures ActiveGenerics(gs[i := g]) == ActiveGenerics(gs) - Bit(gs[i].ch.active) + Bit(g.ch.active)
    ensures gs[i].ch.active ==> ActiveGenerics(gs) > 0
  {
    var most := gs[..|gs| - 1];
    if i < |gs| - 1 {
      UpdateCounts(most, i, g);
      assert gs[i := g][..|gs| - 1] == most[i := g];
    } else {
      assert gs[i := g][..|gs| - 1] == most;
    }
  }

  /** A tick in two halves: the channels first, then what the run tells and the generic channels. */
  lemma TickedParts(r: Rec, mid: Rec, after: Rec, c0: int, c1: int, c2: int, now: int)
    requires Timed(r)
    requires mid == r.(opacity := Stopped(r.opacity, now), transform := Stopped(r.transform, now),
                       color := Stopped(r.color, now), bg := Stopped(r.bg, now),
                       anim := if r.anim.active then r.anim.(active := !Finished(r.anim, now)) else r.anim)
    requires after == mid.(anim := if r.anim.active then Ticked(r.anim, now) else r.anim,
                           generic := StoppedAll(r.generic, now))
    requires c1 - Count(mid) == c0 - Count(r) && after.anim.active == mid.anim.active
    requires c2 - ActiveGenerics(after.generic) == c1 - ActiveGenerics(mid.generic)
    ensures after == TickedRec(r, now) && c2 - Count(after) == c0 - Count(r)
  {
  }

  lemma AddCounts(gs: seq<Generic>, g: Generic)
    ensures ActiveGenerics(gs + [g]) == ActiveGenerics(gs) + Bit(g.ch.active)
  {
    assert (gs + [g])[..|gs|] == gs;
  }

  // ---- All elements ----

  ghost function Total(m: map<Node, Rec>): nat { Sum(m, Count) }

  lemma TotalPick(m: map<Node, Rec>, n: Node)
    requires n in m
    ensures Total(m) == Count(m[n]) + Total(m - {n})
  {
    SumPick(m, Count, n);
  }

  lemma TotalUpdate(m: map<Node, Rec>, n: Node, r: Rec)
    ensures Total(m[n := r]) == Total(m) + Count(r) - (if n in m then Count(m[n]) else 0)
  {
    SumUpdate(m, Count, n, r);
  }

  lemma SaidAfterTick(log: seq<Event>, n: Node, r: Rec, now: int, m: Node)
    requires Timed(r)
    ensures Said(log + TickLog(n, r, now), m) == Said(log, m) + if m == n then RunEvents(n, r, now) else []
  {
    SaidConcat(log, TickLog(n, r, now), m);
    TickSays(n, r, now, m);
  }

  /** What holds of the engine between calls: the count is the number of active channels and within
      its cap, the tracked elements are the lively ones, and every element is in good order. */
  ghost predicate Sound(recs: map<Node, Rec>, live: set<Node>, count: int, log: seq<Event>) {
    && count == Total(recs) <= MAX_ACTIVE
    && live <= recs.Keys
    && forall n {:trigger SoundAt(recs, live, log, n)} :: n in recs ==> SoundAt(recs, live, log, n)
  }

  ghost predicate SoundAt(recs: map<Node, Rec>, live: set<Node>, log: seq<Event>, n: Node)
    requires n in recs
  {
    (n in live <==> Lively(recs[n])) && Good(n, recs[n], Said(log, n))
  }

  /** Changing one element keeps all that, if its own part is kept. */
  lemma SoundUpdate(recs: map<Node, Rec>, live: set<Node>, count: int, log: seq<Event>,
                    n: Node, r: Rec, live': set<Node>, count': int, log': seq<Event>)
    requires Sound(recs, live, count, log)
    requires count' == count + Count(r) - (if n in recs then Count(recs[n]) else 0) <= MAX_ACTIVE
    requires live' == if Lively(r) then live + {n} else live - {n}
    requires Good(n, r, Said(log', n)) && forall m <- recs :: m != n ==> Said(log', m) == Said(log, m)
    ensures Sound(recs[n := r], live', count', log')
  {
    TotalUpdate(recs, n, r);
    var recs' := recs[n := r];
    forall m <- recs' ensures SoundAt(recs', live', log', m) {
      if m != n { assert SoundAt(recs, live, log, m); }
    }
  }

  lemma {:induction false} StopsCount(gs: seq<Generic>, now: int)
    ensures ActiveGenerics(StoppedAll(gs, now)) <= ActiveGenerics(gs)
  {
    if gs != [] {
      var all := StoppedAll(gs, now);
      assert all[..|all| - 1] == StoppedAll(gs[..|gs| - 1], now);
      StopsCount(gs[..|gs| - 1], now);
    }
  }

  lemma TickCounts(r: Rec, now: int)
    requires Timed(r)
    ensures Count(TickedRec(r, now)) <= Count(r)
  {
    StopsCount(r.generic, now);
  }

  lemma SoundTick(recs: map<Node, Rec>, live: set<Node>, count: int, log: seq<Event>, n: Node, now: int,
                  recs': map<Node, Rec>, live': set<Node>, count': int, log': seq<Event>)
    requires Sound(recs, live, count, log) && n in recs && Timed(recs[n]) && recs' == recs[n := TickedRec(recs[n], now)]
    requires live' == if Lively(recs'[n]) then live + {n} else live - {n}
    requires count' == count + Count(recs'[n]) - Count(recs[n])
    requires log' == log + TickLog(n, recs[n], now)
    ensures Sound(recs', live', count', log')
  {
    assert SoundAt(recs, live, log, n);
    TickCounts(recs[n], now);
    forall m <- recs ensures Said(log', m) == Said(log, m) + (if m == n then RunEvents(n, recs[n], now) else []) {
      SaidAfterTick(log, n, recs[n], now, m);
    }
    TickGood(n, recs[n], Said(log, n), now);
    SoundUpdate(recs, live, count, log, n, recs'[n], live', count', log');
  }
}
