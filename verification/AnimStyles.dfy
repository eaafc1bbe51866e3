/** What observing a style does to one element: its transitions, its animation, and the account of
    what its run has told. */
module AnimStyles {
  import opened Wrappers
  import opened AnimModel
  import opened Numbers
  import opened AnimStates

  datatype Target = TargetOpacity | TargetTransform | TargetColor | TargetBackground | TargetAll | TargetOther

  /** One entry of a transition or animation list. */
  datatype Entry = Entry(
    target: Target, name: Option<string>, duration: real, delay: real, count: int, paused: bool)

  /** What a computed style says to the engine; `values` are the serialized values of the properties
      it knows by name. */
  datatype Style = Style(
    transition: Option<seq<Entry>>, animation: Option<seq<Entry>>, playState: Option<bool>,
    opacity: Option<real>, transform: Option<seq<Op>>, color: Option<Rgba>, background: Option<Rgba>,
    values: map<string, string>)

  function FirstOf(list: seq<Entry>, target: Target): Option<Entry> {
    if list == [] then None
    else if list[0].target == target then Some(list[0])
    else FirstOf(list[1..], target)
  }

  /** The entry for a target: the first that names it, else the first for all properties. */
  function EntryFor(list: seq<Entry>, target: Target): Option<Entry> {
    if FirstOf(list, target).Some? then FirstOf(list, target) else FirstOf(list, TargetAll)
  }

  function Abs(x: real): real { if x < 0.0 then -x else x }

  predicate Compatible(a: seq<Op>, b: seq<Op>) {
    |a| == |b| && forall i :: 0 <= i < |a| ==> a[i].kind == b[i].kind
  }

  predicate OpMoved(a: Op, b: Op) { Abs(b.a - a.a) > 0.001 || Abs(b.b - a.b) > 0.001 }

  // ---- When a property has changed enough for a transition ----

  /** The opacity of a style, 1 when it has none, between 0 and 1. */
  function OpacityOf(style: Style): real {
    var v := if style.opacity.Some? then style.opacity.value else 1.0;
    if v < 0.0 then 0.0 else if v > 1.0 then 1.0 else v
  }

  predicate OpacityChanged(last: Option<real>, cur: real) {
    last.Some? && Abs(cur - last.value) > 0.001
  }

  predicate TransformChanged(last: Option<seq<Op>>, cur: Option<seq<Op>>) {
    last.Some? && cur.Some? && Compatible(last.value, cur.value) &&
    exists i :: 0 <= i < |cur.value| && OpMoved(last.value[i], cur.value[i])
  }

  predicate ColorChanged(last: Option<Rgba>, cur: Option<Rgba>) {
    last.Some? && cur.Some? && last != cur
  }

  /** A channel after a change, by its entry and the number of active channels. */
  function Observed(ch: Channel, changed: bool, e: Option<Entry>, count: int, now: int): (r: Channel)
    ensures r.active ==> r == ch || r.duration > 0.0
    ensures ch.active ==> r.active
    ensures count >= MAX_ACTIVE ==> r.active == ch.active
  {
    match e
    case None => ch
    case Some(x) => Retargeted(ch, changed, count < MAX_ACTIVE, x.duration, x.delay, now)
  }

  /** Where a property stands in the list of generic channels, or past its end. */
  function PropAt(gs: seq<Generic>, prop: string): (i: nat)
    ensures i <= |gs| && (i < |gs| ==> gs[i].prop == prop)
    ensures forall j :: 0 <= j < i ==> gs[j].prop != prop
  {
    if gs == [] || gs[0].prop == prop then 0 else 1 + PropAt(gs[1..], prop)
  }

  function ObservedGenerics(gs: seq<Generic>, e: Entry, cur: string, count: int, now: int): seq<Generic>
    requires e.name.Some?
  {
    var i := PropAt(gs, e.name.value);
    if i == |gs| then gs + [Generic(e.name.value, cur, true, IDLE)]
    else
      var g := gs[i];
      gs[i := g.(last := cur, hasLast := true,
                 ch := Observed(g.ch, g.hasLast && g.last != cur, Some(e), count, now))]
  }

  /** An element after its style has been seen, and the number of active channels then. */
  datatype Seen = Seen(r: Rec, count: int)

  function SeeOpacity(was: Seen, list: seq<Entry>, style: Style, now: int): Seen {
    var r := was.r;
    var ch := Observed(r.opacity, OpacityChanged(r.last.opacity, OpacityOf(style)),
                       EntryFor(list, TargetOpacity), was.count, now);
    Seen(r.(opacity := ch, last := r.last.(opacity := Some(OpacityOf(style)))),
         was.count - Bit(r.opacity.active) + Bit(ch.active))
  }

  function SeeTransform(was: Seen, list: seq<Entry>, style: Style, now: int): Seen {
    var r := was.r;
    var ch := Observed(r.transform, TransformChanged(r.last.transform, style.transform),
                       EntryFor(list, TargetTransform), was.count, now);
    Seen(r.(transform := ch,
            last := r.last.(transform := if style.transform.Some? then style.transform else r.last.transform)),
         was.count - Bit(r.transform.active) + Bit(ch.active))
  }

  function SeeColor(was: Seen, list: seq<Entry>, style: Style, now: int): Seen {
    var r := was.r;
    var ch := Observed(r.color, ColorChanged(r.last.color, style.color), EntryFor(list, TargetColor), was.count, now);
    Seen(r.(color := ch, last := r.last.(color := if style.color.Some? then style.color else r.last.color)),
         was.count - Bit(r.color.active) + Bit(ch.active))
  }

  function SeeBackground(was: Seen, list: seq<Entry>, style: Style, now: int): Seen {
    var r := was.r;
    var ch := Observed(r.bg, ColorChanged(r.last.bg, style.background), EntryFor(list, TargetBackground), was.count,
        now);
    Seen(r.(bg := ch, last := r.last.(bg := if style.background.Some? then style.background else r.last.bg)),
         was.count - Bit(r.bg.active) + Bit(ch.active))
  }

  /** The four channels in turn, each seeing the count the one before left. */
  function ObservedChannels(r: Rec, list: seq<Entry>, style: Style, count: int, now: int): Seen {
    var s1 := SeeOpacity(Seen(r, count), list, style, now);
    var s2 := SeeTransform(s1, list, style, now);
    var s3 := SeeColor(s2, list, style, now);
    SeeBackground(s3, list, style, now)
  }

  /** The generic channels of the listed properties in turn. */
  function ObservedOthers(gs: seq<Generic>, list: seq<Entry>, style: Style, count: int, now: int): (seq<Generic>, int) {
    if list == [] then (gs, count)
    else
      var before := ObservedOthers(gs, list[..|list| - 1], style, count, now);
      ObservedOther(before, list[|list| - 1], style, now)
  }

  function ObservedOther(before: (seq<Generic>, int), e: Entry, style: Style, now: int): (seq<Generic>, int) {
    if e.target.TargetOther? && e.name.Some? && e.name.value in style.values then
      var after := ObservedGenerics(before.0, e, style.values[e.name.value], before.1, now);
      (after, before.1 - ActiveGenerics(before.0) + ActiveGenerics(after))
    else before
  }

  function ObservedTransitions(r: Rec, style: Style, count: int, now: int, reduced: bool): Seen {
    if style.transition.None? || reduced then Seen(r, count)
    else
      var seen := ObservedChannels(r, style.transition.value, style, count, now);
      var others := ObservedOthers(r.generic, style.transition.value, style, seen.count, now);
      Seen(seen.r.(generic := others.0), others.1)
  }

  // ---- The animation ----

  /** What a style does to the run of an element: leaves it there, paused or not, removes it, or has
      another one begin. */
  datatype Fate = Stays | Removed | Begins

  /** An active run and the entry it came from. */
  predicate Matches(r: Run, e: Entry) {
    r.active && e.name == Some(r.name) && r.duration == e.duration
  }

  function FateOf(r: Run, style: Style, count: int, reduced: bool): Fate {
    if style.animation.None? || style.animation.value == [] then if r.active then Removed else Stays
    else
      var e := style.animation.value[0];
      if reduced || e.name.None? || e.duration <= 0.0 || Matches(r, e) || (!r.active && count >= MAX_ACTIVE)
      then Stays else Begins
  }

  /** The run after its element's style has been observed. */
  function ObservedRun(r: Run, style: Style, count: int, now: int, reduced: bool): Run {
    if style.animation.None? || style.animation.value == [] then
      if r.active then r.(active := false, name := "") else r
    else if reduced then r
    else
      var e := style.animation.value[0];
      if e.name.None? || e.duration <= 0.0 then r
      else
        var paused := if style.playState.Some? then style.playState.value else e.paused;
        if Matches(r, e) then
          if paused && !r.paused then Paused(r, now)
          else if !paused && r.paused then Resumed(r, now)
          else r
        else if !r.active && count >= MAX_ACTIVE then r
        else Run(true, paused, r.started, r.emitted, 0.0, e.name.value, now, e.duration, e.delay, e.count)
  }

  /** Whether the run has told its story from the beginning, and how much its element had said before:
      a run that begins tells it all unless the one before had started and not ended. */
  function Account(r: Rec, fate: Fate, said: nat): (bool, nat) {
    match fate
    case Stays => (r.clean, r.before)
    case Removed => (false, r.before)
    case Begins => (!r.anim.started, said)
  }

  /** The transitions of a style, then its animation; the element has said so many events. */
  function ObservedStyle(r: Rec, style: Style, count: int, said: nat, now: int, reduced: bool): Seen {
    var seen := ObservedTransitions(r, style, count, now, reduced);
    var run := ObservedRun(r.anim, style, seen.count, now, reduced);
    var (clean, before) := Account(r, FateOf(r.anim, style, seen.count, reduced), said);
    Seen(seen.r.(anim := run, clean := clean, before := before), seen.count - Bit(r.anim.active) + Bit(run.active))
  }

  /** What the fate says of the run afterwards. */
  lemma FateMeans(r: Run, style: Style, count: int, now: int, reduced: bool)
    ensures var q, fate := ObservedRun(r, style, count, now, reduced), FateOf(r, style, count, reduced);
      && q.started == r.started && q.emitted == r.emitted
      && (fate.Stays? ==> q.active == r.active && Same(r, q))
      && (fate.Removed? ==> !q.active)
      && (fate.Begins? ==> q.active && q.duration > 0.0)
      && (q.active && q.duration <= 0.0 ==> r.active && r.duration <= 0.0)
  {
  }

  /** Seeing the entry of an active run again leaves the run there, whatever the play state. */
  lemma SameEntryStays(r: Run, style: Style, count: int, reduced: bool)
    requires style.animation.Some? && style.animation.value != [] && Matches(r, style.animation.value[0])
    ensures FateOf(r, style, count, reduced).Stays?
  {
  }

  /** Observing keeps every account right. */
  lemma KeptGood(n: Node, r: Rec, r': Rec, said: seq<Event>, style: Style, count: int, now: int, reduced: bool)
    requires Good(n, r, said) && Timed(r') && r'.anim == ObservedRun(r.anim, style, count, now, reduced)
    requires (r'.clean, r'.before) == Account(r, FateOf(r.anim, style, count, reduced), |said|)
    ensures Good(n, r', said)
  {
    FateMeans(r.anim, style, count, now, reduced);
    assert said[|said|..] == [];
    if Same(r.anim, r'.anim) {
      FullSame(n, r.anim, r'.anim);
    }
  }

  // ---- Seeing a style keeps the counts in step ----

  /** The transitions, then the animation. */
  lemma ObservedParts(r: Rec, mid: Rec, after: Rec, c0: int, c1: int, c2: int, style: Style, said: nat, now: int,
                      reduced: bool)
    requires Seen(mid, c1) == ObservedTransitions(r, style, c0, now, reduced)
    requires after == mid.(anim := after.anim, clean := after.clean, before := after.before)
    requires mid.anim == r.anim && mid.clean == r.clean && mid.before == r.before
    requires (after.clean, after.before) == Account(r, FateOf(r.anim, style, c1, reduced), said)
    requires after.anim == ObservedRun(r.anim, style, c1, now, reduced)
    requires c2 - Bit(after.anim.active) == c1 - Bit(r.anim.active)
    ensures Seen(after, c2) == ObservedStyle(r, style, c0, said, now, reduced)
    ensures c2 - Count(after) == c1 - Count(mid)
    ensures Timed(mid) && (after.anim.active ==> after.anim.duration > 0.0) ==> Timed(after)
  {
  }

  /** Both, and what holds of the element. */
  lemma StyleKept(n: Node, r: Rec, mid: Rec, after: Rec, c0: int, c1: int, c2: int, style: Style, said: seq<Event>,
                  now: int, reduced: bool)
    requires Good(n, r, said) && Count(r) <= c0 <= MAX_ACTIVE
    requires Seen(mid, c1) == ObservedTransitions(r, style, c0, now, reduced)
    requires after == mid.(anim := after.anim, clean := after.clean, before := after.before)
    requires (after.clean, after.before) == Account(mid, FateOf(mid.anim, style, c1, reduced), |said|)
    requires after.anim == ObservedRun(mid.anim, style, c1, now, reduced)
    requires c2 - Bit(after.anim.active) == c1 - Bit(mid.anim.active)
    requires after.anim.active ==> after.anim.duration > 0.0
    ensures Good(n, after, said) && c2 - Count(after) == c0 - Count(r)
    ensures Seen(after, c2) == ObservedStyle(r, style, c0, |said|, now, reduced)
  {
    TransitionsSound(r, style, c0, now, reduced);
    ObservedParts(r, mid, after, c0, c1, c2, style, |said|, now, reduced);
    KeptGood(n, r, after, said, style, c1, now, reduced);
  }

  /** Seeing the four channels keeps the count in step, within its cap, and stops no transition. */
  lemma ChannelsCount(r: Rec, list: seq<Entry>, style: Style, count: int, now: int)
    requires count <= MAX_ACTIVE
    ensures var seen := ObservedChannels(r, list, style, count, now);
      && seen.count - Count(seen.r) == count - Count(r) && seen.count <= MAX_ACTIVE
      && seen.r.generic == r.generic && Count(r) <= Count(seen.r) && (Timed(r) ==> Timed(seen.r))
  {
  }

  lemma {:induction false} OthersCount(gs: seq<Generic>, list: seq<Entry>, style: Style, count: int, now: int)
    requires count <= MAX_ACTIVE
    ensures var others := ObservedOthers(gs, list, style, count, now);
      others.1 - ActiveGenerics(others.0) == count - ActiveGenerics(gs) && others.1 <= MAX_ACTIVE
    decreases |list|
  {
    if list != [] {
      var front, e := list[..|list| - 1], list[|list| - 1];
      OthersCount(gs, front, style, count, now);
      OtherCount(ObservedOthers(gs, front, style, count, now), e, style, now);
    }
  }

  lemma OthersStep(gs: seq<Generic>, list: seq<Entry>, i: nat, style: Style, count: int, now: int)
    requires i < |list|
    ensures ObservedOthers(gs, list[..i + 1], style, count, now) ==
      ObservedOther(ObservedOthers(gs, list[..i], style, count, now), list[i], style, now)
  {
    assert list[..i + 1][..i] == list[..i];
  }

  lemma OtherCount(before: (seq<Generic>, int), e: Entry, style: Style, now: int)
    requires before.1 <= MAX_ACTIVE
    ensures var after := ObservedOther(before, e, style, now);
      after.1 - ActiveGenerics(after.0) == before.1 - ActiveGenerics(before.0) && after.1 <= MAX_ACTIVE
  {
    if e.target.TargetOther? && e.name.Some? && e.name.value in style.values {
      var gs, i := before.0, PropAt(before.0, e.name.value);
      var after := ObservedGenerics(gs, e, style.values[e.name.value], before.1, now);
      if i == |gs| {
        AddCounts(gs, after[i]);
      } else {
        UpdateCounts(gs, i, after[i]);
      }
    }
  }

  lemma TransitionsSound(r: Rec, style: Style, count: int, now: int, reduced: bool)
    requires Timed(r) && Count(r) <= count <= MAX_ACTIVE
    ensures var seen := ObservedTransitions(r, style, count, now, reduced);
      && Timed(seen.r) && Count(seen.r) <= seen.count <= MAX_ACTIVE
      && seen.count - Count(seen.r) == count - Count(r)
      && seen.r.anim == r.anim && seen.r.clean == r.clean && seen.r.before == r.before
  {
    if style.transition.Some? && !reduced {
      ChannelsCount(r, style.transition.value, style, count, now);
      OthersCount(r.generic, style.transition.value, style,
                  ObservedChannels(r, style.transition.value, style, count, now).count, now);
    }
  }

  predicate Animatable(style: Style) {
    style.transition.Some? || (style.animation.Some? && style.animation.value != [])
  }

  const UNTOUCHED: Rec := Rec(IDLE, IDLE, IDLE, IDLE, [], NO_RUN, false, 0, NEVER_SEEN)

  lemma UntouchedIdle(n: Node, said: seq<Event>)
    ensures Count(UNTOUCHED) == 0 && !Lively(UNTOUCHED) && Good(n, UNTOUCHED, said)
  {
  }
}
