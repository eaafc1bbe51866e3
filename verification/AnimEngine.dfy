/** The animation engine: observing styles, ticking, pruning and rebasing, with the active count,
    the tracked set and the events handed to the page. */
module AnimEngine {
  import opened Wrappers
  import opened AnimModel
  import opened Numbers
  import opened AnimStates
  import opened AnimStyles
  import opened AnimRuns

  method FindEntry(list: seq<Entry>, target: Target) returns (found: Option<Entry>)
    ensures found == EntryFor(list, target)
  {
    found := None;
    var i := 0;
    while i < |list|
      invariant 0 <= i <= |list|
      invariant FirstOf(list, target) == FirstOf(list[i..], target)
      invariant FirstOf(list, TargetAll) == if found.Some? then found else FirstOf(list[i..], TargetAll)
    {
      if list[i].target == target { return Some(list[i]); }
      if list[i].target.TargetAll? && found.None? { found := Some(list[i]); }
      i := i + 1;
    }
  }

  class State {
    const node: Node
    var lastOpacity: Option<real>
    var lastTransform: Option<seq<Op>>
    var lastColor: Option<Rgba>
    var lastBg: Option<Rgba>
    var opacity: Channel
    var transform: Channel
    var color: Channel
    var bg: Channel
    var anim: Run
    var generic: seq<Generic>
    ghost var clean: bool
    ghost var before: nat

    constructor (n: Node)
      ensures node == n && Snap() == UNTOUCHED
    {
      node := n;
      lastOpacity, lastTransform, lastColor, lastBg := None, None, None, None;
      opacity, transform, color, bg, anim, generic := IDLE, IDLE, IDLE, IDLE, NO_RUN, [];
      clean, before := false, 0;
    }

    ghost function Snap(): Rec
      reads this
    {
      Rec(opacity, transform, color, bg, generic, anim, clean, before,
          Last(lastOpacity, lastTransform, lastColor, lastBg))
    }

    method IsActive() returns (b: bool)
      ensures b == Lively(Snap())
    {
      if opacity.active || transform.active || color.active || bg.active || (anim.active && !anim.paused) {
        return true;
      }
      for i := 0 to |generic|
        invariant forall j :: 0 <= j < i ==> !generic[j].ch.active
      {
        if generic[i].ch.active { return true; }
      }
      return false;
    }
  }

  class Engine {
    var states: map<Node, State>
    /** The elements worth ticking. */
    var tracked: set<Node>
    var activeCount: int
    var events: seq<Event>
    /** The events drained so far. */
    ghost var past: seq<Event>

    /** Every event ever emitted. */
    ghost function Log(): seq<Event>
      reads this`past, this`events
    {
      past + events
    }

    /** The record of every element, kept in step with the states. */
    ghost var recs: map<Node, Rec>

    ghost predicate Linked()
      reads this`states, this`recs, states.Values
    {
      recs.Keys == states.Keys && forall n {:trigger LinkedAt(n)} :: n in recs ==> LinkedAt(n)
    }

    ghost predicate LinkedAt(n: Node)
      requires n in states && n in recs
      reads this`states, this`recs, states[n]
    {
      states[n].node == n && states[n].Snap() == recs[n]
    }

    ghost predicate Valid()
      reads this, states.Values
    {
      Linked() && Sound(recs, tracked, activeCount, Log())
    }

    /** The engine as a value. */
    ghost function View(): Scene
      reads this
    {
      Scene(recs, tracked, activeCount, Log())
    }

    constructor ()
      ensures Valid() && states == map[] && Log() == []
    {
      states, tracked, activeCount, events, past, recs := map[], {}, 0, [], [], map[];
    }

    /** At any time, what an element has told of a run of n iterations that began untold is a beginning
        of its story, and the whole story exactly when the run is over. */
    lemma Story(n: Node)
      requires Valid() && n in recs && recs[n].clean && recs[n].anim.count >= 1
      ensures recs[n].before <= |Said(Log(), n)|
      ensures IsPrefix(Said(Log(), n)[recs[n].before..], Full(n, recs[n].anim))
      ensures !recs[n].anim.active <==> Said(Log(), n)[recs[n].before..] == Full(n, recs[n].anim)
    {
      assert SoundAt(recs, tracked, Log(), n);
      StoryIsPrefix(n, recs[n].anim, recs[n].before, Said(Log(), n));
    }

    /** The active count is the number of active channels and within its cap, and the tracked elements
        are those worth ticking. */
    lemma CountsAndTracks()
      requires Valid()
      ensures activeCount == Total(recs) <= MAX_ACTIVE
      ensures tracked == set n | n in recs && Lively(recs[n])
    {
      forall n <- recs ensures n in tracked <==> Lively(recs[n]) {
        assert SoundAt(recs, tracked, Log(), n);
      }
    }

    // ---- Emission ----

    method Emit(e: Event)
      modifies this`events
      ensures events == old(events) + [e]
    {
      events := events + [e];
    }

    method Drain() returns (drained: seq<Event>)
      requires Valid()
      modifies this`events, this`past
      ensures Valid() && events == [] && drained == old(events)
      ensures Made(old(View()), Call.Drain, View())
    {
      drained := events;
      past := past + events;
      events := [];
      assert Log() == old(Log());
    }

    // ---- Ticking one element ----

    method Advance(ch: Channel, now: int) returns (r: Channel)
      requires ch.active && ch.duration > 0.0 && activeCount > 0
      modifies this`activeCount
      ensures r == Stopped(ch, now)
      ensures activeCount == old(activeCount) - Bit(ch.active) + Bit(r.active)
    {
      r := ch;
      var elapsed := Elapsed(ch.start, ch.delay, now);
      if elapsed < 0.0 { return; }
      if elapsed >= ch.duration {
        r := ch.(active := false);
        if activeCount > 0 { activeCount := activeCount - 1; }
      }
    }

    method AdvanceAnimation(s: State, now: int)
      requires s.anim.active && s.anim.duration > 0.0 && activeCount > 0
      modifies s`anim, this`activeCount
      ensures s.anim == old(s.anim).(active := !Finished(old(s.anim), now))
      ensures activeCount == old(activeCount) - 1 + Bit(s.anim.active)
    {
      var elapsed := if s.anim.paused then s.anim.base else Elapsed(s.anim.start, s.anim.delay, now);
      if elapsed < 0.0 { return; }
      var iterD := elapsed / s.anim.duration;
      if iterD > 1000000000.0 { iterD := 1000000000.0; }
      var iter := Trunc(iterD);
      if s.anim.count > 0 && iter >= s.anim.count {
        s.anim := s.anim.(active := false);
        if activeCount > 0 { activeCount := activeCount - 1; }
      }
    }

    method AdvanceTransitions(s: State, now: int)
      requires Timed(s.Snap()) && activeCount >= Count(s.Snap())
      modifies s`opacity, s`transform, s`color, s`bg, this`activeCount
      ensures s.opacity == Stopped(old(s.opacity), now) && s.transform == Stopped(old(s.transform), now)
      ensures s.color == Stopped(old(s.color), now) && s.bg == Stopped(old(s.bg), now)
      ensures activeCount - Count(s.Snap()) == old(activeCount - Count(s.Snap()))
    {
      if s.opacity.active { s.opacity := Advance(s.opacity, now); }
      if s.transform.active { s.transform := Advance(s.transform, now); }
      if s.color.active { s.color := Advance(s.color, now); }
      if s.bg.active { s.bg := Advance(s.bg, now); }
    }

    /** The block that tells the page about the run; `was` is the run before this tick. */
    method TellRun(s: State, was: Run, now: int)
      requires was.active && was.duration > 0.0 && s.anim == was.(active := !Finished(was, now))
      modifies s`anim, this`events
      ensures s.anim == Ticked(was, now)
      ensures events == old(events) + Due(s.node, was, now)
    {
      var el := if s.anim.paused then s.anim.base else Elapsed(s.anim.start, s.anim.delay, now);
      if !s.anim.started && el >= 0.0 {
        s.anim := s.anim.(started := true, emitted := 0);
        Emit(StartEvent(s.node, s.anim));
      }
      if s.anim.started {
        TellIterations(s, el);
      }
      if !s.anim.active {
        EndSame(s.node, was, s.anim);
        Emit(EndEvent(s.node, s.anim));
        s.anim := s.anim.(started := false, emitted := 0);
      }
    }

    method TellIterations(s: State, el: real)
      requires s.anim.duration > 0.0
      modifies s`anim, this`events
      ensures var r := old(s.anim);
        var k := Trunc(el / r.duration);
        var reached := if r.count > 0 && k > r.count - 1 then r.count - 1 else k;
        && s.anim == r.(emitted := Max(r.emitted, reached))
        && events == old(events) + Between(s.node, r, r.emitted, Max(r.emitted, reached))
    {
      var reached := Trunc(el / s.anim.duration);
      if s.anim.count > 0 && reached > s.anim.count - 1 { reached := s.anim.count - 1; }
      ghost var r := s.anim;
      while s.anim.emitted < reached
        invariant r.emitted <= s.anim.emitted <= Max(r.emitted, reached)
        invariant s.anim == r.(emitted := s.anim.emitted)
        invariant events == old(events) + Between(s.node, r, r.emitted, s.anim.emitted)
      {
        s.anim := s.anim.(emitted := s.anim.emitted + 1);
        Emit(IterationEvent(s.node, s.anim.name, s.anim.duration, s.anim.emitted));
      }
    }

    method AdvanceGenerics(s: State, now: int)
      requires activeCount >= ActiveGenerics(s.generic)
      modifies s`generic, this`activeCount, this`events
      ensures s.generic == StoppedAll(old(s.generic), now)
      ensures activeCount - ActiveGenerics(s.generic) == old(activeCount - ActiveGenerics(s.generic))
      ensures events == old(events) + EndsOf(s.node, old(s.generic), now)
    {
      ghost var gs := s.generic;
      PartlyEnds(gs, now);
      EndsEnds(events, s.node, gs, now);
      AdvanceEach(s, events, gs, now);
    }

    /** The loop over the generic channels. */
    method AdvanceEach(s: State, ghost start: seq<Event>, ghost gs: seq<Generic>, now: int)
      requires s.generic == Partly(gs, 0, now) && events == EndsUpTo(start, s.node, gs, 0, now)
      requires activeCount >= ActiveGenerics(s.generic)
      modifies s`generic, this`activeCount, this`events
      ensures s.generic == Partly(gs, |gs|, now) && events == EndsUpTo(start, s.node, gs, |gs|, now)
      ensures activeCount - ActiveGenerics(s.generic) == old(activeCount - ActiveGenerics(s.generic))
    {
      var i := 0;
      while i < |s.generic|
        invariant 0 <= i <= |gs| == |s.generic|
        invariant s.generic == Partly(gs, i, now) && events == EndsUpTo(start, s.node, gs, i, now)
        invariant activeCount - ActiveGenerics(s.generic) == old(activeCount - ActiveGenerics(s.generic))
      {
        AdvanceNext(s, start, gs, i, now);
        i := i + 1;
      }
    }

    /** One round of the loop above. */
    method AdvanceNext(s: State, ghost start: seq<Event>, ghost gs: seq<Generic>, i: nat, now: int)
      requires i < |gs| && s.generic == Partly(gs, i, now) && events == EndsUpTo(start, s.node, gs, i, now)
      requires activeCount >= ActiveGenerics(s.generic)
      modifies s`generic, this`activeCount, this`events
      ensures s.generic == Partly(gs, i + 1, now) && events == EndsUpTo(start, s.node, gs, i + 1, now)
      ensures activeCount - ActiveGenerics(s.generic) == old(activeCount - ActiveGenerics(s.generic))
    {
      PartlyStep(gs, i, now);
      EndsStep(start, s.node, gs, i, now);
      AdvanceGeneric(s, i, now);
    }

    method AdvanceGeneric(s: State, i: nat, now: int)
      requires i < |s.generic| && activeCount >= ActiveGenerics(s.generic)
      modifies s`generic, this`activeCount, this`events
      ensures var g := old(s.generic[i]);
        && s.generic == old(s.generic)[i := g.(ch := Stopped(g.ch, now))]
        && activeCount - ActiveGenerics(s.generic) == old(activeCount - ActiveGenerics(s.generic))
        && events == old(events) + EndOf(s.node, g.ch, g.prop, now)
    {
      var ch := s.generic[i].ch;
      UpdateCounts(s.generic, i, s.generic[i].(ch := Stopped(ch, now)));
      if !ch.active { return; }
      var el := Elapsed(ch.start, ch.delay, now);
      if el >= ch.duration {
        Emit(Event(s.node, TransitionEnd, s.generic[i].prop, ch.duration));
        s.generic := s.generic[i := s.generic[i].(ch := ch.(active := false))];
        if activeCount > 0 { activeCount := activeCount - 1; }
      }
    }

    method TellTransition(s: State, was: Channel, is_: Channel, prop: string, now: int)
      requires is_ == Stopped(was, now)
      modifies this`events
      ensures events == old(events) + EndOf(s.node, was, prop, now)
    {
      if was.active && !is_.active { Emit(Event(s.node, TransitionEnd, prop, is_.duration)); }
    }

    method TellTransitions(s: State, op0: Channel, tr0: Channel, co0: Channel, bg0: Channel, now: int)
      requires s.opacity == Stopped(op0, now) && s.transform == Stopped(tr0, now)
      requires s.color == Stopped(co0, now) && s.bg == Stopped(bg0, now)
      modifies this`events
      ensures events == old(events) +
        (EndOf(s.node, op0, "opacity", now) + EndOf(s.node, tr0, "transform", now)
         + EndOf(s.node, co0, "color", now) + EndOf(s.node, bg0, "background-color", now))
    {
      TellTransition(s, op0, s.opacity, "opacity", now);
      TellTransition(s, tr0, s.transform, "transform", now);
      TellTransition(s, co0, s.color, "color", now);
      TellTransition(s, bg0, s.bg, "background-color", now);
    }

    /** The first half of one element's tick: every channel but the generic ones, and the ends of
        their transitions. */
    method TickChannels(s: State, now: int)
      requires Timed(s.Snap()) && activeCount >= Count(s.Snap())
      modifies s`opacity, s`transform, s`color, s`bg, s`anim, this`activeCount, this`events
      ensures s.Snap() == old(s.Snap()).(
        opacity := Stopped(old(s.opacity), now), transform := Stopped(old(s.transform), now),
        color := Stopped(old(s.color), now), bg := Stopped(old(s.bg), now),
        anim := if old(s.anim).active then old(s.anim).(active := !Finished(old(s.anim), now)) else old(s.anim))
      ensures activeCount - Count(s.Snap()) == old(activeCount - Count(s.Snap()))
      ensures events == old(events) + TransitionEnds(s.node, old(s.Snap()), now)
    {
      var op0, tr0, co0, bg0 := s.opacity, s.transform, s.color, s.bg;
      AdvanceTransitions(s, now);
      if s.anim.active { AdvanceAnimation(s, now); }
      TellTransitions(s, op0, tr0, co0, bg0, now);
    }

    method TickState(s: State, now: int)
      requires Timed(s.Snap()) && activeCount >= Count(s.Snap())
      modifies s, this`activeCount, this`events
      ensures s.Snap() == TickedRec(old(s.Snap()), now)
      ensures activeCount - Count(s.Snap()) == old(activeCount - Count(s.Snap()))
      ensures events == old(events) + TickLog(s.node, old(s.Snap()), now)
    {
      ghost var r, start, c0 := s.Snap(), events, activeCount;
      var an0 := s.anim;
      TickChannels(s, now);
      ghost var mid, c1 := s.Snap(), activeCount;
      TellAndAdvance(s, an0, now);
      assert s.Snap() == mid.(anim := s.anim, generic := s.generic);
      TickedParts(r, mid, s.Snap(), c0, c1, activeCount, now);
      Joined(start, TransitionEnds(s.node, r, now), RunEvents(s.node, r, now), EndsOf(s.node, r.generic, now));
    }

    /** The second half: what the run tells, then the generic channels. */
    method TellAndAdvance(s: State, was: Run, now: int)
      requires activeCount >= ActiveGenerics(s.generic)
      requires was.active ==> was.duration > 0.0 && s.anim == was.(active := !Finished(was, now))
      requires !was.active ==> s.anim == was
      modifies s`anim, s`generic, this`activeCount, this`events
      ensures s.anim == if was.active then Ticked(was, now) else was
      ensures s.anim.active == old(s.anim.active)
      ensures s.generic == StoppedAll(old(s.generic), now)
      ensures activeCount - ActiveGenerics(s.generic) == old(activeCount - ActiveGenerics(s.generic))
      ensures events == (old(events) + (if was.active then Due(s.node, was, now) else []))
                        + EndsOf(s.node, old(s.generic), now)
    {
      if was.active { TellRun(s, was, now); }
      AdvanceGenerics(s, now);
    }

    /** The records follow a change of one state. */
    ghost method Note(n: Node, recs0: map<Node, Rec>)
      requires n in states && recs == recs0 && recs.Keys == states.Keys && states[n].node == n
      requires forall m {:trigger LinkedAt(m)} :: m in recs && m != n ==> LinkedAt(m)
      modifies this`recs
      ensures Linked() && recs == recs0[n := states[n].Snap()]
    {
      recs := recs[n := states[n].Snap()];
      assert forall m {:trigger LinkedAt(m)} :: m in recs && m != n ==> old(LinkedAt(m)) ==> LinkedAt(m);
    }

    /** One round of the tick: an element that has nothing left to do is no longer tracked. */
    method TickNode(n: Node, now: int)
      requires Linked() && n in recs && LinkedAt(n) && Timed(recs[n]) && activeCount >= Count(recs[n])
      modifies states[n], this`activeCount, this`events, this`tracked, this`recs
      ensures Linked()
      ensures recs == old(recs)[n := TickedRec(old(recs)[n], now)]
      ensures activeCount == old(activeCount) + Count(recs[n]) - Count(old(recs)[n])
      ensures events == old(events) + TickLog(n, old(recs)[n], now)
      ensures tracked == if Lively(recs[n]) then old(tracked) else old(tracked) - {n}
    {
      TickState(states[n], now);
      assert forall m {:trigger LinkedAt(m)} :: m in recs && m != n ==> old(LinkedAt(m)) ==> LinkedAt(m);
      Note(n, recs);
      var lively := states[n].IsActive();
      if !lively { tracked := tracked - {n}; }
    }

    /** That keeps the engine in good order; `recs0` and `log0` are from before the whole tick, and the
        elements of `done` have been ticked. */
    method TickOne(n: Node, now: int, ghost recs0: map<Node, Rec>, ghost log0: seq<Event>, ghost done: set<Node>)
      requires Valid() && n in tracked && n !in done
      requires AllTicked(recs0, log0, done, now, recs, Log())
      modifies states[n], this`activeCount, this`events, this`tracked, this`recs
      ensures Valid()
      ensures tracked == old(tracked) || tracked == old(tracked) - {n}
      ensures AllTicked(recs0, log0, done + {n}, now, recs, Log())
    {
      TickFacts(recs, tracked, activeCount, Log(), n, now, recs0, log0, done);
      LogMore(past, events, TickLog(n, recs[n], now));
      assert LinkedAt(n);
      TickNode(n, now);
    }

    /** Every tracked element is ticked once, in any order. */
    method Tick(now: int)
      requires Valid()
      modifies states.Values, this`activeCount, this`events, this`tracked, this`recs
      ensures Valid()
      ensures Made(old(View()), Call.Tick(now), View())
    {
      TickAll(now);
    }

    method TickAll(now: int)
      requires Valid()
      modifies states.Values, this`activeCount, this`events, this`tracked, this`recs
      ensures Valid()
      ensures AllTicked(old(recs), old(Log()), old(tracked), now, recs, Log())
    {
      NoneTicked(recs, tracked, activeCount, Log(), now);
      var todo := tracked;
      ghost var done: set<Node>, all := {}, tracked;
      while todo != {}
        invariant Valid()
        invariant todo <= tracked && todo <= all && done == all - todo
        invariant AllTicked(old(recs), old(Log()), done, now, recs, Log())
        decreases |todo|
      {
        var n :| n in todo;
        TickOne(n, now, old(recs), old(Log()), done);
        OneLess(all, todo, n);
        todo, done := todo - {n}, done + {n};
      }
      assert done == all;
    }

    // ---- Observing a style ----

    method Retarget(ch: Channel, wanted: bool, e: Option<Entry>, now: int) returns (r: Channel)
      modifies this`activeCount
      ensures r == Observed(ch, wanted, e, old(activeCount), now)
      ensures activeCount == old(activeCount) - Bit(ch.active) + Bit(r.active)
    {
      r := ch;
      if e.Some? && e.value.duration > 0.0 && wanted {
        if ch.active || activeCount < MAX_ACTIVE {
          if !ch.active { activeCount := activeCount + 1; }
          r := Channel(true, now, e.value.duration, e.value.delay);
        }
      }
    }

    method ObserveOpacity(s: State, list: seq<Entry>, style: Style, now: int)
      modifies s`opacity, s`lastOpacity, this`activeCount
      ensures Seen(s.Snap(), activeCount) == SeeOpacity(Seen(old(s.Snap()), old(activeCount)), list, style, now)
    {
      var cur := if style.opacity.Some? then style.opacity.value else 1.0;
      if cur < 0.0 { cur := 0.0; }
      if cur > 1.0 { cur := 1.0; }
      var e := FindEntry(list, TargetOpacity);
      s.opacity := Retarget(s.opacity, s.lastOpacity.Some? && Abs(cur - s.lastOpacity.value) > 0.001, e, now);
      s.lastOpacity := Some(cur);
    }

    method ObserveTransform(s: State, list: seq<Entry>, style: Style, now: int)
      modifies s`transform, s`lastTransform, this`activeCount
      ensures Seen(s.Snap(), activeCount) == SeeTransform(Seen(old(s.Snap()), old(activeCount)), list, style, now)
    {
      var e := FindEntry(list, TargetTransform);
      if s.lastTransform.Some? && style.transform.Some? && Compatible(s.lastTransform.value, style.transform.value) {
        var was, cur := s.lastTransform.value, style.transform.value;
        var differs := false;
        for i := 0 to |cur|
          invariant !differs && forall j :: 0 <= j < i ==> !OpMoved(was[j], cur[j])
        {
          if OpMoved(was[i], cur[i]) { differs := true; break; }
        }
        s.transform := Retarget(s.transform, differs, e, now);
      }
      if style.transform.Some? { s.lastTransform := style.transform; }
    }

    method ObserveColor(ch: Channel, last: Option<Rgba>, cur: Option<Rgba>, e: Option<Entry>, now: int)
      returns (ch': Channel, last': Option<Rgba>)
      modifies this`activeCount
      ensures ch' == Observed(ch, ColorChanged(last, cur), e, old(activeCount), now)
      ensures last' == if cur.Some? then cur else last
      ensures activeCount == old(activeCount) - Bit(ch.active) + Bit(ch'.active)
    {
      ch', last' := ch, last;
      if cur.None? { return; }
      ch' := Retarget(ch, last.Some? && last != cur, e, now);
      last' := cur;
    }

    method ObserveGeneric(s: State, style: Style, e: Entry, now: int)
      requires e.name.Some? && activeCount >= ActiveGenerics(s.generic)
      modifies s`generic, this`activeCount
      ensures s.generic == if e.name.value in style.values
                           then ObservedGenerics(old(s.generic), e, style.values[e.name.value], old(activeCount), now)
                           else old(s.generic)
      ensures activeCount - ActiveGenerics(s.generic) == old(activeCount - ActiveGenerics(s.generic))
      ensures activeCount <= Max(old(activeCount), MAX_ACTIVE)
    {
      if e.name.value !in style.values { return; }
      var cur := style.values[e.name.value];
      var i := 0;
      while i < |s.generic| && s.generic[i].prop != e.name.value
        invariant 0 <= i <= |s.generic|
        invariant PropAt(s.generic, e.name.value) == i + PropAt(s.generic[i..], e.name.value)
      {
        i := i + 1;
      }
      if i == |s.generic| {
        AddCounts(s.generic, Generic(e.name.value, cur, true, IDLE));
        s.generic := s.generic + [Generic(e.name.value, cur, true, IDLE)];
        return;
      }
      var g := s.generic[i];
      var ch := Retarget(g.ch, g.hasLast && g.last != cur, Some(e), now);
      UpdateCounts(s.generic, i, g.(last := cur, hasLast := true, ch := ch));
      s.generic := s.generic[i := g.(last := cur, hasLast := true, ch := ch)];
    }

    method ObserveTransition(s: State, style: Style, now: int, reduced: bool)
      requires Count(s.Snap()) <= activeCount <= MAX_ACTIVE
      modifies s`opacity, s`transform, s`color, s`bg, s`generic, this`activeCount
      modifies s`lastOpacity, s`lastTransform, s`lastColor, s`lastBg
      ensures Seen(s.Snap(), activeCount) == ObservedTransitions(old(s.Snap()), style, old(activeCount), now, reduced)
    {
      if style.transition.None? || reduced { return; }
      ChannelsCount(s.Snap(), style.transition.value, style, activeCount, now);
      ObserveKnown(s, style.transition.value, style, now);
      ObserveOthers(s, style.transition.value, style, now);
    }

    method ObserveTextColor(s: State, list: seq<Entry>, style: Style, now: int)
      modifies s`color, s`lastColor, this`activeCount
      ensures Seen(s.Snap(), activeCount) == SeeColor(Seen(old(s.Snap()), old(activeCount)), list, style, now)
    {
      var e := FindEntry(list, TargetColor);
      s.color, s.lastColor := ObserveColor(s.color, s.lastColor, style.color, e, now);
    }

    method ObserveBackground(s: State, list: seq<Entry>, style: Style, now: int)
      modifies s`bg, s`lastBg, this`activeCount
      ensures Seen(s.Snap(), activeCount) == SeeBackground(Seen(old(s.Snap()), old(activeCount)), list, style, now)
    {
      var e := FindEntry(list, TargetBackground);
      s.bg, s.lastBg := ObserveColor(s.bg, s.lastBg, style.background, e, now);
    }

    method ObserveKnown(s: State, list: seq<Entry>, style: Style, now: int)
      modifies s`opacity, s`transform, s`color, s`bg, this`activeCount
      modifies s`lastOpacity, s`lastTransform, s`lastColor, s`lastBg
      ensures Seen(s.Snap(), activeCount) == ObservedChannels(old(s.Snap()), list, style, old(activeCount), now)
    {
      ObserveOpacity(s, list, style, now);
      ObserveTransform(s, list, style, now);
      ObserveTextColor(s, list, style, now);
      ObserveBackground(s, list, style, now);
    }

    method ObserveOther(s: State, e: Entry, style: Style, now: int)
      requires ActiveGenerics(s.generic) <= activeCount <= MAX_ACTIVE
      modifies s`generic, this`activeCount
      ensures (s.generic, activeCount) == ObservedOther((old(s.generic), old(activeCount)), e, style, now)
      ensures ActiveGenerics(s.generic) <= activeCount <= MAX_ACTIVE
    {
      if e.target.TargetOther? && e.name.Some? { ObserveGeneric(s, style, e, now); }
    }

    method ObserveOthers(s: State, list: seq<Entry>, style: Style, now: int)
      requires ActiveGenerics(s.generic) <= activeCount <= MAX_ACTIVE
      modifies s`generic, this`activeCount
      ensures (s.generic, activeCount) == ObservedOthers(old(s.generic), list, style, old(activeCount), now)
    {
      for i := 0 to |list|
        invariant (s.generic, activeCount) == ObservedOthers(old(s.generic), list[..i], style, old(activeCount), now)
        invariant ActiveGenerics(s.generic) <= activeCount <= MAX_ACTIVE
      {
        OthersStep(old(s.generic), list, i, style, old(activeCount), now);
        ObserveOther(s, list[i], style, now);
      }
      assert list[..|list|] == list;
    }

    /** The animation of the style begins, goes on, is paused, resumed, replaced or removed. */
    method ObserveAnimation(s: State, style: Style, now: int, reduced: bool)
      requires (s.anim.active ==> s.anim.duration > 0.0 && activeCount > 0) && 0 <= activeCount <= MAX_ACTIVE
      modifies s`anim, s`clean, s`before, this`activeCount
      ensures s.anim == ObservedRun(old(s.anim), style, old(activeCount), now, reduced)
      ensures (s.clean, s.before) ==
        Account(old(s.Snap()), FateOf(old(s.anim), style, old(activeCount), reduced), |Said(Log(), s.node)|)
      ensures s.Snap() == old(s.Snap()).(anim := s.anim, clean := s.clean, before := s.before)
      ensures (s.anim.active ==> s.anim.duration > 0.0) && activeCount <= MAX_ACTIVE
      ensures activeCount - Bit(s.anim.active) == old(activeCount - Bit(s.anim.active))
    {
      if style.animation.None? || style.animation.value == [] {
        if s.anim.active {
          s.anim := s.anim.(active := false, name := "");
          s.clean := false;
          if activeCount > 0 { activeCount := activeCount - 1; }
        }
        return;
      }
      if reduced { return; }
      var e := style.animation.value[0];
      if e.name.None? || e.duration <= 0.0 { return; }
      var paused := e.paused;
      if style.playState.Some? { paused := style.playState.value; }
      if s.anim.active && s.anim.name == e.name.value && s.anim.duration == e.duration {
        if paused && !s.anim.paused {
          var el := Elapsed(s.anim.start, s.anim.delay, now);
          s.anim := s.anim.(base := if el > 0.0 then el else 0.0, paused := true);
        } else if !paused && s.anim.paused {
          s.anim := s.anim.(start := now - Trunc((s.anim.base + s.anim.delay) * 1000.0), paused := false);
        }
        return;
      }
      if !s.anim.active {
        if activeCount >= MAX_ACTIVE { return; }
        activeCount := activeCount + 1;
      }
      BeginAnimation(s, e, paused, now);
    }

    method BeginAnimation(s: State, e: Entry, paused: bool, now: int)
      requires e.name.Some? && e.duration > 0.0 && activeCount > 0
      modifies s`anim, s`clean, s`before, this`activeCount
      ensures s.anim == Run(true, paused, old(s.anim).started, old(s.anim).emitted, 0.0,
                            e.name.value, now, e.duration, e.delay, e.count)
      ensures s.clean == !old(s.anim).started && s.before == |Said(Log(), s.node)|
      ensures activeCount == old(activeCount)
    {
      s.clean := !s.anim.started;
      s.before := |Said(Log(), s.node)|;
      s.anim := Run(true, paused, s.anim.started, s.anim.emitted, 0.0, e.name.value, now, e.duration, e.delay, e.count);
      if paused { AdvanceAnimation(s, now); }
    }

    // ---- The public operations that change elements ----

    /** Tracks the element if it is worth ticking. */
    method Track(s: State)
      modifies this`tracked
      ensures tracked == if Lively(s.Snap()) then old(tracked) + {s.node} else old(tracked) - {s.node}
    {
      var lively := s.IsActive();
      if lively { tracked := tracked + {s.node}; } else { tracked := tracked - {s.node}; }
    }

    /** A state for an element that has none yet. */
    method StateFor(n: Node) returns (s: State)
      requires Valid() && n !in states
      modifies this`states, this`recs
      ensures Valid() && fresh(s) && states == old(states)[n := s] && s.node == n
      ensures recs == old(recs)[n := UNTOUCHED]
    {
      s := new State(n);
      states := states[n := s];
      recs := recs[n := UNTOUCHED];
      SoundAdd(old(recs), tracked, activeCount, Log(), n);
      assert forall m {:trigger LinkedAt(m)} :: m in recs && m != n ==> old(LinkedAt(m)) ==> LinkedAt(m);
    }

    /** Observes the style of one element: its transitions, then its animation. */
    method Observe(n: Node, style: Style, now: int, reduced: bool)
      requires Valid()
      modifies this`states, this`recs, this`tracked, this`activeCount, states.Values
      ensures Valid()
      ensures Made(old(View()), Call.Observe(n, style, now, reduced), View())
      ensures fresh(states.Values - old(states.Values))
    {
      ghost var recs0 := recs;
      if n !in states {
        if !Animatable(style) { return; }
        var _ := StateFor(n);
      }
      ObserveNode(n, style, now, reduced);
      Overwritten(recs0, n, UNTOUCHED, recs[n]);
    }

    method ObserveNode(n: Node, style: Style, now: int, reduced: bool)
      requires Valid() && n in states
      modifies states[n], this`recs, this`tracked, this`activeCount
      ensures Valid() && n in recs && recs == old(recs)[n := recs[n]]
      ensures Seen(recs[n], activeCount) ==
        ObservedStyle(old(recs)[n], style, old(activeCount), |Said(Log(), n)|, now, reduced)
    {
      ObserveFacts(recs, tracked, activeCount, Log(), n);
      assert LinkedAt(n);
      var s := states[n];
      ObserveState(s, style, now, reduced);
      assert forall m {:trigger LinkedAt(m)} :: m in recs && m != n ==> old(LinkedAt(m)) ==> LinkedAt(m);
      Note(n, recs);
      Track(s);
      SoundUpdate(old(recs), old(tracked), old(activeCount), Log(), n, recs[n], tracked, activeCount, Log());
    }

    method ObserveState(s: State, style: Style, now: int, reduced: bool)
      requires Good(s.node, s.Snap(), Said(Log(), s.node)) && Count(s.Snap()) <= activeCount <= MAX_ACTIVE
      modifies s, this`activeCount
      ensures Good(s.node, s.Snap(), Said(Log(), s.node))
      ensures activeCount - Count(s.Snap()) == old(activeCount - Count(s.Snap())) && activeCount <= MAX_ACTIVE
      ensures Seen(s.Snap(), activeCount) ==
        ObservedStyle(old(s.Snap()), style, old(activeCount), |Said(Log(), s.node)|, now, reduced)
    {
      ghost var r := s.Snap();
      TransitionsSound(r, style, activeCount, now, reduced);
      ObserveTransition(s, style, now, reduced);
      ghost var mid, count := s.Snap(), activeCount;
      ObserveAnimation(s, style, now, reduced);
      StyleKept(s.node, r, mid, s.Snap(), old(activeCount), count, activeCount, style, Said(Log(), s.node), now,
          reduced);
    }

    /** Forgets the elements that are no longer in the document. */
    method Prune(live: set<Node>)
      requires Valid()
      modifies this`states, this`recs, this`tracked, this`activeCount
      ensures Valid()
      ensures Made(old(View()), Call.Prune(live), View())
    {
      var todo := states.Keys;
      ghost var gone: set<Node> := {};
      ghost var recs0 := recs;
      NoneGone(recs0);
      while todo != {}
        invariant Valid() && todo <= recs.Keys
        invariant recs == recs0 - gone && gone == GoneOf(recs0.Keys, live, todo)
        decreases |todo|
      {
        var n :| n in todo;
        GoneOneMore(recs0, live, todo, n);
        todo := todo - {n};
        if n !in live {
          Forget(n);
          gone := gone + {n};
        }
      }
    }

    method Forget(n: Node)
      requires Valid() && n in states
      modifies this`states, this`recs, this`tracked, this`activeCount
      ensures Valid() && recs == old(recs) - {n}
    {
      ObserveFacts(recs, tracked, activeCount, Log(), n);
      SoundRemove(recs, tracked, activeCount, Log(), n);
      assert LinkedAt(n);
      CountOff(states[n]);
      tracked := tracked - {n};
      Unlink(n);
    }

    method Unlink(n: Node)
      requires Linked() && n in states
      modifies this`states, this`recs
      ensures Linked() && states == old(states) - {n} && recs == old(recs) - {n}
    {
      states := states - {n};
      recs := recs - {n};
      assert forall m {:trigger LinkedAt(m)} :: m in recs ==> old(LinkedAt(m)) ==> LinkedAt(m);
    }

    method CountOff(s: State)
      requires Count(s.Snap()) <= activeCount
      modifies this`activeCount
      ensures activeCount == old(activeCount) - Count(s.Snap())
    {
      if s.opacity.active && activeCount > 0 { activeCount := activeCount - 1; }
      if s.transform.active && activeCount > 0 { activeCount := activeCount - 1; }
      if s.color.active && activeCount > 0 { activeCount := activeCount - 1; }
      if s.bg.active && activeCount > 0 { activeCount := activeCount - 1; }
      if s.anim.active && activeCount > 0 { activeCount := activeCount - 1; }
      CountOffGenerics(s);
    }

    method CountOffGenerics(s: State)
      requires ActiveGenerics(s.generic) <= activeCount
      modifies this`activeCount
      ensures activeCount == old(activeCount) - ActiveGenerics(s.generic)
    {
      for i := 0 to |s.generic|
        invariant activeCount == old(activeCount) - ActiveGenerics(s.generic[..i])
      {
        assert s.generic[..i + 1][..i] == s.generic[..i];
        PrefixCounts(s.generic, i + 1);
        if s.generic[i].ch.active && activeCount > 0 { activeCount := activeCount - 1; }
      }
      assert s.generic[..|s.generic|] == s.generic;
    }

    /** Moves the start of everything but the generic transitions to the given time. */
    method Rebase(base: int)
      requires Valid()
      modifies states.Values, this`recs
      ensures Valid()
      ensures Made(old(View()), Call.Rebase(base), View())
    {
      RebaseAll(base);
    }

    method RebaseAll(base: int)
      requires Valid()
      modifies states.Values, this`recs
      ensures Valid()
      ensures AllRebased(old(recs), recs, old(recs).Keys, base)
    {
      var todo := states.Keys;
      ghost var done: set<Node>, all := {}, states.Keys;
      NoneRebased(recs, base);
      while todo != {}
        invariant Valid() && todo <= all && done == all - todo && all == states.Keys
        invariant AllRebased(old(recs), recs, done, base)
        decreases |todo|
      {
        var n :| n in todo;
        RebaseNode(n, base, old(recs), done);
        OneLess(all, todo, n);
        todo, done := todo - {n}, done + {n};
      }
      assert done == all;
    }

    method RebaseNode(n: Node, base: int, ghost recs0: map<Node, Rec>, ghost done: set<Node>)
      requires Valid() && n in states && n !in done && AllRebased(recs0, recs, done, base)
      modifies states[n], this`recs
      ensures Valid() && AllRebased(recs0, recs, done + {n}, base)
    {
      RebaseFacts(recs, tracked, activeCount, Log(), n, base, recs0, done);
      assert LinkedAt(n);
      RebaseState(states[n], base);
      assert forall m {:trigger LinkedAt(m)} :: m in recs && m != n ==> old(LinkedAt(m)) ==> LinkedAt(m);
      Note(n, recs);
    }

    method RebaseState(s: State, base: int)
      modifies s
      ensures s.Snap() == Rebased(old(s.Snap()), base)
    {
      s.opacity := s.opacity.(start := base);
      s.transform := s.transform.(start := base);
      s.color := s.color.(start := base);
      s.bg := s.bg.(start := base);
      s.anim := s.anim.(start := base);
    }
  }

  lemma OneLess(all: set<Node>, todo: set<Node>, n: Node)
    requires n in todo && todo <= all
    ensures all - (todo - {n}) == (all - todo) + {n} && |todo - {n}| == |todo| - 1
  {
  }

  /** The elements dealt with that are not live. */
  ghost function GoneOf(keys: set<Node>, live: set<Node>, todo: set<Node>): set<Node> {
    keys - live - todo
  }

  lemma NoneGone(recs: map<Node, Rec>)
    ensures recs - {} == recs && forall live :: GoneOf(recs.Keys, live, recs.Keys) == {}
    ensures forall live :: GoneOf(recs.Keys, live, {}) == recs.Keys - live
  {
  }

  lemma GoneOneMore(recs: map<Node, Rec>, live: set<Node>, todo: set<Node>, n: Node)
    requires n in recs && n in todo
    ensures var gone := GoneOf(recs.Keys, live, todo);
      && recs - gone - {n} == recs - (gone + {n})
      && GoneOf(recs.Keys, live, todo - {n}) == if n in live then gone else gone + {n}
  {
  }

  lemma {:induction false} PrefixCounts(gs: seq<Generic>, i: nat)
    requires i <= |gs|
    ensures ActiveGenerics(gs[..i]) <= ActiveGenerics(gs)
  {
    if i < |gs| {
      var most := gs[..|gs| - 1];
      assert most[..i] == gs[..i];
      PrefixCounts(most, i);
    } else {
      assert gs[..i] == gs;
    }
  }

  lemma SoundRemove(recs: map<Node, Rec>, live: set<Node>, count: int, log: seq<Event>, n: Node)
    requires Sound(recs, live, count, log) && n in recs
    ensures Sound(recs - {n}, live - {n}, count - Count(recs[n]), log)
  {
    TotalPick(recs, n);
    var rest := recs - {n};
    forall m <- rest ensures SoundAt(rest, live - {n}, log, m) {
      assert SoundAt(recs, live, log, m);
    }
  }

  lemma Overwritten(recs: map<Node, Rec>, n: Node, r: Rec, r': Rec)
    ensures recs[n := r][n := r'] == recs[n := r']
  {
  }

  lemma ObserveFacts(recs: map<Node, Rec>, live: set<Node>, count: int, log: seq<Event>, n: Node)
    requires Sound(recs, live, count, log) && n in recs
    ensures Good(n, recs[n], Said(log, n)) && Timed(recs[n]) && Count(recs[n]) <= count <= MAX_ACTIVE
  {
    assert SoundAt(recs, live, log, n);
    TotalPick(recs, n);
  }

  lemma SoundAdd(recs: map<Node, Rec>, live: set<Node>, count: int, log: seq<Event>, n: Node)
    requires Sound(recs, live, count, log) && n !in recs
    ensures Sound(recs[n := UNTOUCHED], live, count, log)
  {
    UntouchedIdle(n, Said(log, n));
    SoundAddIdle(recs, live, count, log, n, UNTOUCHED);
  }

  lemma SoundAddIdle(recs: map<Node, Rec>, live: set<Node>, count: int, log: seq<Event>, n: Node, r: Rec)
    requires Sound(recs, live, count, log) && n !in recs
    requires Count(r) == 0 && !Lively(r) && Good(n, r, Said(log, n))
    ensures Sound(recs[n := r], live, count, log)
  {
    AbsentFromSet(live, n);
    SoundUpdate(recs, live, count, log, n, r, live, count, log);
  }

  lemma LogMore(past: seq<Event>, events: seq<Event>, more: seq<Event>)
    ensures past + (events + more) == (past + events) + more
  {
  }

  lemma Joined(start: seq<Event>, a: seq<Event>, b: seq<Event>, c: seq<Event>)
    ensures ((start + a) + b) + c == start + (a + b + c)
  {
  }

  /** The list with its first elements already stopped. */
  ghost function Partly(gs: seq<Generic>, i: nat, now: int): (r: seq<Generic>)
    requires i <= |gs|
    ensures |r| == |gs|
  {
    StoppedAll(gs, now)[..i] + gs[i..]
  }

  lemma PartlyStep(gs: seq<Generic>, i: nat, now: int)
    requires i < |gs|
    ensures Partly(gs, i, now)[i] == gs[i]
    ensures Partly(gs, i + 1, now) == Partly(gs, i, now)[i := gs[i].(ch := Stopped(gs[i].ch, now))]
  {
  }

  lemma PartlyEnds(gs: seq<Generic>, now: int)
    ensures Partly(gs, 0, now) == gs && Partly(gs, |gs|, now) == StoppedAll(gs, now) && gs[..|gs|] == gs
  {
  }

  ghost function EndsUpTo(start: seq<Event>, n: Node, gs: seq<Generic>, i: nat, now: int): seq<Event>
    requires i <= |gs|
  {
    start + EndsOf(n, gs[..i], now)
  }

  lemma EndsStep(start: seq<Event>, n: Node, gs: seq<Generic>, i: nat, now: int)
    requires i < |gs|
    ensures EndsUpTo(start, n, gs, i + 1, now) ==
      EndsUpTo(start, n, gs, i, now) + EndOf(n, gs[i].ch, gs[i].prop, now)
  {
    assert gs[..i + 1][..i] == gs[..i];
  }

  lemma EndsEnds(start: seq<Event>, n: Node, gs: seq<Generic>, now: int)
    ensures EndsUpTo(start, n, gs, 0, now) == start
    ensures EndsUpTo(start, n, gs, |gs|, now) == start + EndsOf(n, gs, now)
  {
    assert gs[..|gs|] == gs;
  }

  /** A new engine sees two styles of one element and ticks after each. */
  method Replay(n: Node, first: Style, second: Style, now: int)
    returns (said: seq<Event>, ghost w0: Scene, ghost w1: Scene, ghost w2: Scene, ghost w3: Scene, ghost w4: Scene)
    ensures InOrder(w0) && w0.recs == map[] && w0.log == [] && said == w4.log
    ensures Made(w0, Call.Observe(n, first, 0, false), w1) && Made(w1, Call.Tick(0), w2)
    ensures Made(w2, Call.Observe(n, second, 0, false), w3) && Made(w3, Call.Tick(now), w4)
  {
    var a := new Engine();
    w0 := a.View();
    a.Observe(n, first, 0, false);
    w1 := a.View();
    a.Tick(0);
    w2 := a.View();
    a.Observe(n, second, 0, false);
    w3 := a.View();
    a.Tick(now);
    w4 := a.View();
    said := a.Drain();
  }

  /** An animation replaced after its start: the one that takes its place ends without ever being said
      to start. */
  method ReplacedRun() returns (said: seq<Event>)
    ensures said == [Event(1, AnimationStart, "a", 0.0), Event(1, AnimationEnd, "b", 1000.0)]
  {
    ghost var w0, w1, w2, w3, w4;
    said, w0, w1, w2, w3, w4 := Replay(1, Animating("a"), Animating("b"), 1000000);
    ReplacedLog(w0, w1, w2, w3, w4);
  }
}
