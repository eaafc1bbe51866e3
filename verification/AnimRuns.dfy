/** The engine as a value, its operations as steps between values, and what a run of an animation
    tells the page over any course of operations. */
module AnimRuns {
  import opened Wrappers
  import opened AnimModel
  import opened AnimStates
  import opened AnimStyles

  // ---- A tick of several elements ----

  /** The log has grown by events of these elements alone. */
  predicate Grown(log: seq<Event>, log': seq<Event>, done: set<Node>) {
    IsPrefix(log, log') && forall e <- log'[|log|..] :: e.node in done
  }

  /** The elements of a set have been ticked and have said exactly what was due, the
      others have neither changed nor said anything. */
  ghost predicate AllTicked(recs: map<Node, Rec>, log: seq<Event>, done: set<Node>, now: int,
                            recs': map<Node, Rec>, log': seq<Event>) {
    recs'.Keys == recs.Keys && Grown(log, log', done) &&
    forall n {:trigger TickedAt(recs, log, done, now, recs', log', n)} ::
      n in recs ==> TickedAt(recs, log, done, now, recs', log', n)
  }

  ghost predicate TickedAt(recs: map<Node, Rec>, log: seq<Event>, done: set<Node>, now: int,
                           recs': map<Node, Rec>, log': seq<Event>, n: Node)
    requires n in recs && n in recs'
  {
    && Timed(recs[n])
    && recs'[n] == (if n in done then TickedRec(recs[n], now) else recs[n])
    && Own(log', n) == Own(log, n) + (if n in done then TickLog(n, recs[n], now) else [])
  }

  lemma NoneTicked(recs: map<Node, Rec>, live: set<Node>, count: int, log: seq<Event>, now: int)
    requires Sound(recs, live, count, log)
    ensures AllTicked(recs, log, {}, now, recs, log)
  {
    forall n | n in recs ensures TickedAt(recs, log, {}, now, recs, log, n) {
      assert SoundAt(recs, live, log, n);
    }
  }

  lemma OneMoreTicked(recs: map<Node, Rec>, log: seq<Event>, done: set<Node>, now: int,
                      recs': map<Node, Rec>, log': seq<Event>, n: Node)
    requires AllTicked(recs, log, done, now, recs', log') && n in recs && n !in done
    requires Timed(recs'[n])
    ensures AllTicked(recs, log, done + {n}, now,
                      recs'[n := TickedRec(recs'[n], now)], log' + TickLog(n, recs'[n], now))
  {
    assert TickedAt(recs, log, done, now, recs', log', n);
    var r := TickedRec(recs'[n], now);
    MoreGrown(log, log', done, n, recs'[n], now);
    var recs2, log2 := recs'[n := r], log' + TickLog(n, recs'[n], now);
    forall m <- recs ensures TickedAt(recs, log, done + {n}, now, recs2, log2, m) {
      assert TickedAt(recs, log, done, now, recs', log', m);
      OwnAfterTick(log', n, recs'[n], now, m);
      if m == n {
        TickedSame(recs, log, done, now, recs', log', n, r, log2);
      } else {
        TickedOther(recs, log, done, now, recs', log', n, r, log2, m);
      }
    }
  }

  lemma TickedOther(recs: map<Node, Rec>, log: seq<Event>, done: set<Node>, now: int,
                    recs': map<Node, Rec>, log': seq<Event>, n: Node, r: Rec, log2: seq<Event>, m: Node)
    requires m in recs && m in recs' && m != n && TickedAt(recs, log, done, now, recs', log', m)
    requires Own(log2, m) == Own(log', m)
    ensures TickedAt(recs, log, done + {n}, now, recs'[n := r], log2, m)
  {
  }

  lemma TickedSame(recs: map<Node, Rec>, log: seq<Event>, done: set<Node>, now: int,
                   recs': map<Node, Rec>, log': seq<Event>, n: Node, r: Rec, log2: seq<Event>)
    requires n in recs && n in recs' && n !in done && TickedAt(recs, log, done, now, recs', log', n)
    requires r == TickedRec(recs[n], now) && Own(log2, n) == Own(log', n) + TickLog(n, recs[n], now)
    ensures TickedAt(recs, log, done + {n}, now, recs'[n := r], log2, n)
  {
    assert Own(log', n) == Own(log, n);
  }

  lemma OwnAfterTick(log: seq<Event>, n: Node, r: Rec, now: int, m: Node)
    requires Timed(r)
    ensures Own(log + TickLog(n, r, now), m) == Own(log, m) + if m == n then TickLog(n, r, now) else []
  {
    OwnConcat(log, TickLog(n, r, now), m);
    TickOwn(n, r, now, m);
  }

  lemma MoreGrown(log: seq<Event>, log': seq<Event>, done: set<Node>, n: Node, r: Rec, now: int)
    requires Timed(r) && Grown(log, log', done)
    ensures Grown(log, log' + TickLog(n, r, now), done + {n})
  {
    TickOwn(n, r, now, n);
    assert (log' + TickLog(n, r, now))[|log|..] == log'[|log|..] + TickLog(n, r, now);
  }

  /** What a tick adds to what one element has told of its run. */
  lemma TickedSaid(recs: map<Node, Rec>, log: seq<Event>, done: set<Node>, now: int,
                   recs': map<Node, Rec>, log': seq<Event>, n: Node)
    requires n in recs && n in recs' && TickedAt(recs, log, done, now, recs', log', n)
    ensures Said(log', n) == Said(log, n) + if n in done then RunEvents(n, recs[n], now) else []
  {
    var more := if n in done then TickLog(n, recs[n], now) else [];
    SaidOwn(log, n);
    SaidOwn(log', n);
    SaidConcat(Own(log, n), more, n);
    TickSays(n, recs[n], now, n);
  }

  /** Ticking one more element keeps the engine in good order and the account of the whole tick. */
  lemma TickFacts(recs: map<Node, Rec>, live: set<Node>, count: int, log: seq<Event>, n: Node, now: int,
                  recs0: map<Node, Rec>, log0: seq<Event>, done: set<Node>)
    requires Sound(recs, live, count, log) && n in live && n !in done
    requires AllTicked(recs0, log0, done, now, recs, log)
    ensures n in recs && Timed(recs[n]) && count >= Count(recs[n])
    ensures var r, log' := TickedRec(recs[n], now), log + TickLog(n, recs[n], now);
      Sound(recs[n := r], if Lively(r) then live else live - {n}, count + Count(r) - Count(recs[n]), log') &&
      AllTicked(recs0, log0, done + {n}, now, recs[n := r], log')
  {
    assert SoundAt(recs, live, log, n);
    TotalPick(recs, n);
    OneMoreTicked(recs0, log0, done, now, recs, log, n);
    var r := TickedRec(recs[n], now);
    assert live + {n} == live;
    SoundTick(recs, live, count, log, n, now, recs[n := r], if Lively(r) then live else live - {n},
              count + Count(r) - Count(recs[n]), log + TickLog(n, recs[n], now));
  }

  // ---- Rebasing several elements ----

  function Rebased(r: Rec, base: int): Rec {
    r.(opacity := r.opacity.(start := base), transform := r.transform.(start := base),
       color := r.color.(start := base), bg := r.bg.(start := base), anim := r.anim.(start := base))
  }

  ghost predicate AllRebased(recs: map<Node, Rec>, recs': map<Node, Rec>, done: set<Node>, base: int) {
    recs'.Keys == recs.Keys &&
    forall n {:trigger RebasedAt(recs, recs', done, base, n)} :: n in recs ==> RebasedAt(recs, recs', done, base, n)
  }

  ghost predicate RebasedAt(recs: map<Node, Rec>, recs': map<Node, Rec>, done: set<Node>, base: int, n: Node)
    requires n in recs && n in recs'
  {
    recs'[n] == if n in done then Rebased(recs[n], base) else recs[n]
  }

  lemma NoneRebased(recs: map<Node, Rec>, base: int)
    ensures AllRebased(recs, recs, {}, base)
  {
    forall n | n in recs ensures RebasedAt(recs, recs, {}, base, n) {}
  }

  /** Rebasing changes no count, nothing worth ticking, and no story. */
  lemma RebaseGood(n: Node, r: Rec, said: seq<Event>, base: int)
    requires Good(n, r, said)
    ensures Good(n, Rebased(r, base), said)
    ensures Count(Rebased(r, base)) == Count(r) && Lively(Rebased(r, base)) == Lively(r)
  {
    FullSame(n, r.anim, Rebased(r, base).anim);
  }

  lemma RebaseFacts(recs: map<Node, Rec>, live: set<Node>, count: int, log: seq<Event>, n: Node, base: int,
                    recs0: map<Node, Rec>, done: set<Node>)
    requires Sound(recs, live, count, log) && n in recs && n !in done && AllRebased(recs0, recs, done, base)
    ensures Sound(recs[n := Rebased(recs[n], base)], live, count, log)
    ensures AllRebased(recs0, recs[n := Rebased(recs[n], base)], done + {n}, base)
  {
    assert SoundAt(recs, live, log, n) && RebasedAt(recs0, recs, done, base, n);
    var r := Rebased(recs[n], base);
    RebaseGood(n, recs[n], Said(log, n), base);
    if n in live { AddPresent(live, n); } else { AbsentFromSet(live, n); }
    SoundUpdate(recs, live, count, log, n, r, live, count, log);
    forall m <- recs0 ensures RebasedAt(recs0, recs[n := r], done + {n}, base, m) {
      assert RebasedAt(recs0, recs, done, base, m);
    }
  }

  lemma AddPresent(live: set<Node>, n: Node)
    requires n in live
    ensures live + {n} == live
  {
  }

  lemma AbsentFromSet(live: set<Node>, n: Node)
    requires n !in live
    ensures live - {n} == live
  {
  }

  // ---- Courses of operations ----

  /** What the engine knows of its elements, and every event it ever emitted. */
  datatype Scene = Scene(recs: map<Node, Rec>, tracked: set<Node>, count: int, log: seq<Event>)

  datatype Call =
    | Tick(now: int)
    | Observe(node: Node, style: Style, now: int, reduced: bool)
    | Prune(live: set<Node>)
    | Rebase(base: int)
    | Drain

  ghost predicate InOrder(w: Scene) { Sound(w.recs, w.tracked, w.count, w.log) }

  /** The record of an element before a style of it is seen. */
  function RecOf(w: Scene, n: Node): Rec { if n in w.recs then w.recs[n] else UNTOUCHED }

  /** What seeing a style of one element makes of its record and the count. */
  function Watched(w: Scene, n: Node, style: Style, now: int, reduced: bool): Seen {
    ObservedStyle(RecOf(w, n), style, w.count, |Said(w.log, n)|, now, reduced)
  }

  /** The operation leads from one scene to another that is in order. */
  ghost predicate Made(w: Scene, call: Call, w': Scene) {
    InOrder(w') &&
    match call
    case Tick(now) => AllTicked(w.recs, w.log, w.tracked, now, w'.recs, w'.log)
    case Observe(n, style, now, reduced) =>
      var seen := Watched(w, n, style, now, reduced);
      w'.log == w.log &&
      if n in w.recs || Animatable(style) then w'.recs == w.recs[n := seen.r] && w'.count == seen.count
      else w'.recs == w.recs && w'.count == w.count
    case Prune(live) => w'.recs == w.recs - (w.recs.Keys - live) && w'.log == w.log
    case Rebase(base) => AllRebased(w.recs, w'.recs, w.recs.Keys, base) && w'.log == w.log
    case Drain => w' == w
  }

  /** Every operation leads on from where the one before left the engine. */
  ghost predicate Course(ws: seq<Scene>, calls: seq<Call>) {
    && |ws| == |calls| + 1 && InOrder(ws[0])
    && forall i {:trigger MadeAt(ws, calls, i)} :: 0 <= i < |calls| ==> MadeAt(ws, calls, i)
  }

  ghost predicate MadeAt(ws: seq<Scene>, calls: seq<Call>, i: nat)
    requires |ws| == |calls| + 1 && i < |calls|
  {
    Made(ws[i], calls[i], ws[i + 1])
  }

  // ---- One run ----

  /** What becomes of the run of an element when a style of it is seen. */
  function FateIn(w: Scene, n: Node, style: Style, now: int, reduced: bool): Fate {
    FateOf(RecOf(w, n).anim, style, ObservedTransitions(RecOf(w, n), style, w.count, now, reduced).count, reduced)
  }

  /** A run of the element begins. */
  predicate BeginsRun(w: Scene, call: Call, n: Node) {
    call.Observe? && call.node == n && FateIn(w, n, call.style, call.now, call.reduced).Begins?
  }

  /** The run of the element is neither replaced nor removed, nor the element forgotten. */
  predicate Spares(w: Scene, call: Call, n: Node) {
    match call
    case Observe(m, style, now, reduced) => m == n ==> FateIn(w, n, style, now, reduced).Stays?
    case Prune(live) => n in live
    case _ => true
  }

  /** A run begins with the first operation, and the others spare it. */
  ghost predicate CourseOfRun(ws: seq<Scene>, calls: seq<Call>, n: Node) {
    && Course(ws, calls) && calls != [] && BeginsRun(ws[0], calls[0], n)
    && forall i {:trigger SparesAt(ws, calls, n, i)} :: 1 <= i < |calls| ==> SparesAt(ws, calls, n, i)
  }

  predicate SparesAt(ws: seq<Scene>, calls: seq<Call>, n: Node, i: nat)
    requires |ws| == |calls| + 1 && i < |calls|
  {
    Spares(ws[i], calls[i], n)
  }

  /** What an element has told of its runs from one scene to a later one. */
  function ToldSince(w: Scene, w': Scene, n: Node): seq<Event> {
    if |Said(w.log, n)| <= |Said(w'.log, n)| then Said(w'.log, n)[|Said(w.log, n)|..] else []
  }

  /** The run an element has after a step that spares it: still the same one, ticked at most, and all
      that is told is what the tick brings. */
  lemma SparedStep(w: Scene, call: Call, w': Scene, n: Node)
    requires InOrder(w) && n in w.recs && Made(w, call, w') && Spares(w, call, n)
    ensures n in w'.recs
    ensures var r, r' := w.recs[n], w'.recs[n];
      && r'.clean == r.clean && r'.before == r.before && Same(r.anim, r'.anim)
      && (call.Tick? && n in w.tracked && r.anim.active ==>
            r.anim.duration > 0.0 && r'.anim == Ticked(r.anim, call.now) &&
            Said(w'.log, n) == Said(w.log, n) + Due(n, r.anim, call.now))
      && (!(call.Tick? && n in w.tracked && r.anim.active) ==>
            r'.anim.active == r.anim.active && r'.anim.started == r.anim.started && Said(w'.log, n) == Said(w.log, n))
  {
    assert SoundAt(w.recs, w.tracked, w.log, n);
    match call
    case Tick(now) =>
      assert TickedAt(w.recs, w.log, w.tracked, now, w'.recs, w'.log, n);
      TickedSaid(w.recs, w.log, w.tracked, now, w'.recs, w'.log, n);
    case Observe(m, style, now, reduced) =>
      if m == n {
        FateMeans(w.recs[n].anim, style, ObservedTransitions(w.recs[n], style, w.count, now, reduced).count, now,
            reduced);
        SeenCount(w, n);
        TransitionsSound(w.recs[n], style, w.count, now, reduced);
      }
    case Prune(live) =>
    case Rebase(base) =>
      assert RebasedAt(w.recs, w'.recs, w.recs.Keys, base, n);
    case Drain =>
  }

  lemma SeenCount(w: Scene, n: Node)
    requires InOrder(w) && n in w.recs
    ensures Timed(w.recs[n]) && Count(w.recs[n]) <= w.count <= MAX_ACTIVE
  {
    assert SoundAt(w.recs, w.tracked, w.log, n);
    TotalPick(w.recs, n);
  }

  /** Everything a run of this entry has to tell. */
  function StoryOf(n: Node, e: Entry): seq<Event>
    requires e.name.Some?
  {
    Full(n, FromEntry(e))
  }

  function FromEntry(e: Entry): Run
    requires e.name.Some?
  {
    NO_RUN.(name := e.name.value, duration := e.duration, count := e.count)
  }

  /** The entry of the run that begins. */
  function EntryBegun(w: Scene, call: Call, n: Node): (e: Entry)
    requires BeginsRun(w, call, n)
    ensures e.name.Some? && e.duration > 0.0
  {
    call.style.animation.value[0]
  }

  predicate NoStart(events: seq<Event>) {
    forall e <- events :: !e.kind.AnimationStart?
  }

  /** How the run of an element stands since it began; `late` tells that the one it replaced had started. */
  ghost predicate GoesOn(w0: Scene, late: bool, e: Entry, w: Scene, n: Node)
    requires e.name.Some?
  {
    && n in w.recs && Same(FromEntry(e), w.recs[n].anim)
    && w.recs[n].clean == !late && (!late ==> w.recs[n].before == |Said(w0.log, n)|)
    && IsPrefix(Said(w0.log, n), Said(w.log, n))
    && (late ==> NoStart(ToldSince(w0, w, n)) && (w.recs[n].anim.active ==> w.recs[n].anim.started))
  }

  lemma RunBegins(w: Scene, call: Call, w': Scene, n: Node)
    requires InOrder(w) && Made(w, call, w') && BeginsRun(w, call, n)
    ensures GoesOn(w, RecOf(w, n).anim.started, EntryBegun(w, call, n), w', n) && w'.recs[n].anim.active
  {
    var r := RecOf(w, n);
    var count := ObservedTransitions(r, call.style, w.count, call.now, call.reduced).count;
    FateMeans(r.anim, call.style, count, call.now, call.reduced);
    if n in w.recs {
      SeenCount(w, n);
      TransitionsSound(r, call.style, w.count, call.now, call.reduced);
    }
  }

  /** A run that had started says nothing of a start at a tick. */
  lemma {:induction false} NoStartAmong(n: Node, name: string, d: real, a: int, b: int)
    ensures NoStart(Iterations(n, name, d, a, b))
    decreases b - a
  {
    if a < b { NoStartAmong(n, name, d, a, b - 1); }
  }

  lemma NoStartDue(n: Node, r: Run, now: int)
    requires r.duration > 0.0 && r.started
    ensures NoStart(Due(n, r, now)) && (Ticked(r, now).active ==> Ticked(r, now).started || !r.active)
  {
    NoStartAmong(n, r.name, r.duration, r.emitted, if r.emitted > Reached(r, now) then r.emitted else Reached(r, now));
  }

  lemma GoesOnStep(w0: Scene, late: bool, e: Entry, w: Scene, call: Call, w': Scene, n: Node)
    requires e.name.Some? && GoesOn(w0, late, e, w, n) && InOrder(w) && Made(w, call, w') && Spares(w, call, n)
    ensures GoesOn(w0, late, e, w', n)
  {
    SparedStep(w, call, w', n);
    var r := w.recs[n].anim;
    if call.Tick? && n in w.tracked && r.active {
      var more := Due(n, r, call.now);
      assert ToldSince(w0, w', n) == ToldSince(w0, w, n) + more;
      if late { NoStartDue(n, r, call.now); }
    }
  }

  lemma {:induction false} RunGoesOn(ws: seq<Scene>, calls: seq<Call>, n: Node, i: nat)
    requires CourseOfRun(ws, calls, n) && 1 <= i <= |calls|
    ensures GoesOn(ws[0], RecOf(ws[0], n).anim.started, EntryBegun(ws[0], calls[0], n), ws[i], n) && InOrder(ws[i])
  {
    assert MadeAt(ws, calls, i - 1);
    if i == 1 {
      RunBegins(ws[0], calls[0], ws[1], n);
    } else {
      RunGoesOn(ws, calls, n, i - 1);
      assert SparesAt(ws, calls, n, i - 1);
      GoesOnStep(ws[0], RecOf(ws[0], n).anim.started, EntryBegun(ws[0], calls[0], n), ws[i - 1], calls[i - 1], ws[i],
          n);
    }
  }

  /** Seeing an entry of the same name and duration spares a run that is not over, whatever the play state. */
  lemma SameEntrySpares(ws: seq<Scene>, calls: seq<Call>, n: Node, i: nat, style: Style, now: int, reduced: bool)
    requires CourseOfRun(ws, calls, n) && 1 <= i <= |calls|
    requires n in ws[i].recs && ws[i].recs[n].anim.active && style.animation.Some? && style.animation.value != []
    requires var e, begun := style.animation.value[0], EntryBegun(ws[0], calls[0], n);
      e.name == begun.name && e.duration == begun.duration
    ensures Spares(ws[i], Observe(n, style, now, reduced), n)
  {
    RunGoesOn(ws, calls, n, i);
    SameEntryStays(ws[i].recs[n].anim, style,
                   ObservedTransitions(ws[i].recs[n], style, ws[i].count, now, reduced).count, reduced);
  }

  /** Whatever operations follow, as long as they spare the run: at any point of the course, what has
      been told since a run of n iterations began untold is a beginning of its story, and the whole of it
      exactly when it is over. */
  lemma RunStory(ws: seq<Scene>, calls: seq<Call>, n: Node, i: nat)
    requires CourseOfRun(ws, calls, n) && !RecOf(ws[0], n).anim.started && 1 <= i <= |calls|
    requires EntryBegun(ws[0], calls[0], n).count >= 1
    ensures var w, story := ws[i], StoryOf(n, EntryBegun(ws[0], calls[0], n));
      && n in w.recs && IsPrefix(ToldSince(ws[0], w, n), story)
      && (!w.recs[n].anim.active <==> ToldSince(ws[0], w, n) == story)
  {
    var w, e := ws[i], EntryBegun(ws[0], calls[0], n);
    RunGoesOn(ws, calls, n, i);
    assert SoundAt(w.recs, w.tracked, w.log, n);
    FullSame(n, FromEntry(e), w.recs[n].anim);
    StoryIsPrefix(n, w.recs[n].anim, w.recs[n].before, Said(w.log, n));
  }

  /** A run that takes over from one that had started and not ended is never said to start: it is over
      without its story told.  So a run tells its story exactly if it began untold. */
  lemma StoryToldExactly(ws: seq<Scene>, calls: seq<Call>, n: Node, i: nat)
    requires CourseOfRun(ws, calls, n) && EntryBegun(ws[0], calls[0], n).count >= 1 && 1 <= i <= |calls|
    requires n in ws[i].recs && !ws[i].recs[n].anim.active
    ensures ToldSince(ws[0], ws[i], n) == StoryOf(n, EntryBegun(ws[0], calls[0], n))
       <==> !RecOf(ws[0], n).anim.started
  {
    var e := EntryBegun(ws[0], calls[0], n);
    if RecOf(ws[0], n).anim.started {
      RunGoesOn(ws, calls, n, i);
      assert StoryOf(n, e)[0] == StartEvent(n, FromEntry(e));
    } else {
      RunStory(ws, calls, n, i);
    }
  }

  /** A tick ends a run that is not paused exactly when its last iteration is over. */
  lemma EndsExactly(w: Scene, now: int, w': Scene, n: Node)
    requires InOrder(w) && Made(w, Tick(now), w') && n in w.recs
    requires w.recs[n].anim.active && !w.recs[n].anim.paused && w.recs[n].anim.count <= MAX_ITERATIONS
    ensures n in w'.recs
    ensures !w'.recs[n].anim.active <==> Overdue(w.recs[n].anim, now)
  {
    assert SoundAt(w.recs, w.tracked, w.log, n);
    assert TickedAt(w.recs, w.log, w.tracked, now, w'.recs, w'.log, n);
    FinishedExactly(w.recs[n].anim, now);
  }

  // ---- One element with nothing but a run ----

  function Running(r: Run, clean: bool, before: nat): Rec {
    UNTOUCHED.(anim := r, clean := clean, before := before)
  }

  /** A style with one animation, of one second, and no transition. */
  function Animating(name: string): Style {
    Style(None, Some([Entry(TargetOther, Some(name), 1000.0, 0.0, 1, false)]), None, None, None, None, None, map[])
  }

  function RunAt(name: string, started: bool, now: int): Run {
    Run(true, false, started, 0, 0.0, name, now, 1000.0, 0.0, 1)
  }

  /** Another run begins, whatever there was before. */
  lemma LoneBegins(w: Scene, n: Node, name: string, now: int, w': Scene)
    requires InOrder(w) && Made(w, Observe(n, Animating(name), now, false), w') && w.recs.Keys <= {n}
    requires RecOf(w, n) == Running(RecOf(w, n).anim, RecOf(w, n).clean, RecOf(w, n).before)
    requires RecOf(w, n).anim.name != name && RecOf(w, n).anim.emitted == 0 && w.count < MAX_ACTIVE
    ensures n in w'.recs && w'.recs.Keys == {n} && w'.log == w.log
    ensures w'.recs[n] == Running(RunAt(name, RecOf(w, n).anim.started, now), w'.recs[n].clean, w'.recs[n].before)
  {
  }

  lemma LoneCount(w: Scene, n: Node)
    requires InOrder(w) && w.recs.Keys == {n} && Count(w.recs[n]) <= 1
    ensures w.count <= 1
  {
    TotalPick(w.recs, n);
    assert w.recs - {n} == map[];
  }

  /** The tick of the one element says what is due to its run. */
  lemma LoneTicks(w: Scene, n: Node, now: int, w': Scene)
    requires InOrder(w) && Made(w, Tick(now), w') && w.recs.Keys == {n} && (forall e <- w.log :: e.node == n)
    requires w.recs[n] == Running(w.recs[n].anim, w.recs[n].clean, w.recs[n].before)
    requires w.recs[n].anim.active && !w.recs[n].anim.paused && w.recs[n].anim.duration > 0.0
    ensures w'.recs.Keys == {n}
    ensures w'.recs[n] == Running(Ticked(w.recs[n].anim, now), w.recs[n].clean, w.recs[n].before)
    ensures w'.log == w.log + Due(n, w.recs[n].anim, now) && forall e <- w'.log :: e.node == n
  {
    var r := w.recs[n];
    LoneTicked(n, r.anim, r.clean, r.before, now);
    LoneLog(w, n, now, w');
  }

  lemma LoneTicked(n: Node, r: Run, clean: bool, before: nat, now: int)
    requires r.active && r.duration > 0.0
    ensures TickedRec(Running(r, clean, before), now) == Running(Ticked(r, now), clean, before)
    ensures TickLog(n, Running(r, clean, before), now) == Due(n, r, now)
  {
    assert StoppedAll([], now) == [];
  }

  lemma LoneLog(w: Scene, n: Node, now: int, w': Scene)
    requires InOrder(w) && Made(w, Tick(now), w') && w.recs.Keys == {n} && (forall e <- w.log :: e.node == n)
    requires Lively(w.recs[n])
    ensures w'.recs.Keys == {n} && Timed(w.recs[n]) && w'.recs[n] == TickedRec(w.recs[n], now)
    ensures w'.log == w.log + TickLog(n, w.recs[n], now) && forall e <- w'.log :: e.node == n
  {
    assert SoundAt(w.recs, w.tracked, w.log, n);
    assert TickedAt(w.recs, w.log, w.tracked, now, w'.recs, w'.log, n);
    GrownOf(w.log, w'.log, w.tracked, n);
    OwnOf(w.log, n, n);
    OwnOf(w'.log, n, n);
  }

  lemma GrownOf(log: seq<Event>, log': seq<Event>, done: set<Node>, n: Node)
    requires Grown(log, log', done) && done <= {n} && Of(n, log)
    ensures Of(n, log')
  {
    assert log' == log + log'[|log|..];
  }

  lemma FirstDue()
    ensures Due(1, RunAt("a", false, 0), 0) == [Event(1, AnimationStart, "a", 0.0)]
    ensures Ticked(RunAt("a", false, 0), 0) == RunAt("a", true, 0)
  {
  }

  lemma LastDue()
    ensures Due(1, RunAt("b", true, 0), 1000000) == [Event(1, AnimationEnd, "b", 1000.0)]
  {
    assert RunElapsed(RunAt("b", true, 0), 1000000) == 1000.0;
  }

  /** Two animations of one element, the second seen when the first has just started. */
  lemma ReplacedLog(w0: Scene, w1: Scene, w2: Scene, w3: Scene, w4: Scene)
    requires InOrder(w0) && w0.recs == map[] && w0.log == [] && Made(w0, Observe(1, Animating("a"), 0, false), w1)
    requires Made(w1, Tick(0), w2) && Made(w2, Observe(1, Animating("b"), 0, false), w3)
    requires Made(w3, Tick(1000000), w4)
    ensures w4.log == [Event(1, AnimationStart, "a", 0.0), Event(1, AnimationEnd, "b", 1000.0)]
  {
    LoneBegins(w0, 1, "a", 0, w1);
    LoneTicks(w1, 1, 0, w2);
    FirstDue();
    LoneCount(w2, 1);
    LoneBegins(w2, 1, "b", 0, w3);
    LoneTicks(w3, 1, 1000000, w4);
    LastDue();
  }
}
