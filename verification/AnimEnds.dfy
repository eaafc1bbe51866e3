/** From the style that starts a transition to the event that tells of its end. */
module AnimEnds {
  import opened Wrappers
  import opened Numbers
  import opened AnimModel
  import opened AnimStates
  import opened AnimStyles
  import opened AnimRuns

  // ---- Properties ----

  /** Four properties have channels of their own, the others go by name. */
  datatype Property = Opacity | Transform | Color | Background | Named(name: string)

  const KNOWN: set<string> := {"opacity", "transform", "color", "background-color"}

  function NameOf(p: Property): string {
    match p
    case Opacity => "opacity"
    case Transform => "transform"
    case Color => "color"
    case Background => "background-color"
    case Named(name) => name
  }

  function TargetOf(p: Property): Target {
    match p
    case Opacity => TargetOpacity
    case Transform => TargetTransform
    case Color => TargetColor
    case Background => TargetBackground
    case Named(_) => TargetOther
  }

  function GenericOf(gs: seq<Generic>, name: string): Option<Generic> {
    var i := PropAt(gs, name);
    if i < |gs| then Some(gs[i]) else None
  }

  function ChannelOf(r: Rec, p: Property): Channel {
    match p
    case Opacity => r.opacity
    case Transform => r.transform
    case Color => r.color
    case Background => r.bg
    case Named(name) => NamedChannel(r.generic, name)
  }

  function NamedChannel(gs: seq<Generic>, name: string): Channel {
    match GenericOf(gs, name)
    case None => IDLE
    case Some(g) => g.ch
  }

  /** No two of the listed properties are the same, and none has a channel of its own. */
  predicate Apart(gs: seq<Generic>) {
    && (forall i, j :: 0 <= i < j < |gs| ==> gs[i].prop != gs[j].prop)
    && forall i :: 0 <= i < |gs| ==> gs[i].prop !in KNOWN
  }

  /** The property a transition entry names: those with a channel of their own have a target of their own. */
  predicate WellNamed(style: Style) {
    style.transition.Some? ==>
      forall e <- style.transition.value :: e.target.TargetOther? && e.name.Some? ==> e.name.value !in KNOWN
  }

  // ---- When a transition starts ----

  predicate ForName(e: Entry, name: string) { e.target.TargetOther? && e.name == Some(name) }

  /** This entry says how the property changes: the first for it, or else the first for all of those
      with a channel of their own. */
  predicate Governs(list: seq<Entry>, i: nat, p: Property) {
    i < |list| &&
    match p
    case Named(name) => ForName(list[i], name) && forall j :: 0 <= j < i ==> !ForName(list[j], name)
    case _ =>
      || (list[i].target == TargetOf(p) && forall j :: 0 <= j < i ==> list[j].target != TargetOf(p))
      || (list[i].target.TargetAll? && (forall j :: 0 <= j < |list| ==> list[j].target != TargetOf(p))
          && forall j :: 0 <= j < i ==> !list[j].target.TargetAll?)
  }

  /** The value of the property is another than the element was last seen with. */
  predicate Changed(r: Rec, p: Property, style: Style) {
    match p
    case Opacity => OpacityChanged(r.last.opacity, OpacityOf(style))
    case Transform => TransformChanged(r.last.transform, style.transform)
    case Color => ColorChanged(r.last.color, style.color)
    case Background => ColorChanged(r.last.bg, style.background)
    case Named(name) => NamedChanged(GenericOf(r.generic, name), name, style)
  }

  predicate NamedChanged(g: Option<Generic>, name: string, style: Style) {
    g.Some? && g.value.hasLast && name in style.values && g.value.last != style.values[name]
  }

  /** The style has the property change over some time, as this entry says. */
  predicate Moves(r: Rec, p: Property, style: Style, reduced: bool, i: nat) {
    && style.transition.Some? && !reduced && Changed(r, p, style)
    && Governs(style.transition.value, i, p) && style.transition.value[i].duration > 0.0
  }

  /** A channel that is retimed when its property moves, unless there is no place for it. */
  predicate Retimed(ch: Channel, e: Entry, now: int, ch': Channel) {
    ch' == Channel(true, now, e.duration, e.delay) || (ch' == ch && !ch.active)
  }

  /** An idle channel with a free place becomes active, and is over exactly when its delay and its
      duration have gone by. */
  lemma RetargetExactly(ch: Channel, e: Entry, count: int, now: int, later: int)
    requires e.duration > 0.0 && (ch.active || count < MAX_ACTIVE)
    ensures var r := Observed(ch, true, Some(e), count, now);
      r.active && (Over(r, later) <==> (later - now) as real / 1000.0 >= e.delay + e.duration)
  {
  }

  // ---- The entry of a property ----

  lemma {:induction false} FirstIs(list: seq<Entry>, i: nat, target: Target)
    requires i < |list| && list[i].target == target && forall j :: 0 <= j < i ==> list[j].target != target
    ensures FirstOf(list, target) == Some(list[i])
  {
    if i > 0 { FirstIs(list[1..], i - 1, target); }
  }

  lemma {:induction false} FirstNone(list: seq<Entry>, target: Target)
    ensures FirstOf(list, target).None? <==> forall j :: 0 <= j < |list| ==> list[j].target != target
  {
    if list != [] {
      FirstNone(list[1..], target);
      assert forall j :: 0 < j < |list| ==> list[j] == list[1..][j - 1];
    }
  }

  lemma {:induction false} FirstAt(list: seq<Entry>, target: Target) returns (i: nat)
    requires FirstOf(list, target).Some?
    ensures i < |list| && list[i].target == target && forall j :: 0 <= j < i ==> list[j].target != target
  {
    i := 0;
    if list[0].target != target {
      var k := FirstAt(list[1..], target);
      i := k + 1;
    }
  }

  lemma EntryIs(list: seq<Entry>, i: nat, p: Property)
    requires Governs(list, i, p) && !p.Named?
    ensures EntryFor(list, TargetOf(p)) == Some(list[i])
  {
    if list[i].target == TargetOf(p) {
      FirstIs(list, i, TargetOf(p));
    } else {
      FirstNone(list, TargetOf(p));
      FirstIs(list, i, TargetAll);
    }
  }

  lemma EntryAt(list: seq<Entry>, p: Property) returns (i: nat)
    requires !p.Named? && EntryFor(list, TargetOf(p)).Some?
    ensures Governs(list, i, p) && EntryFor(list, TargetOf(p)) == Some(list[i])
  {
    if FirstOf(list, TargetOf(p)).Some? {
      i := FirstAt(list, TargetOf(p));
    } else {
      FirstNone(list, TargetOf(p));
      i := FirstAt(list, TargetAll);
    }
    EntryIs(list, i, p);
  }

  // ---- What seeing a style does to one property ----

  /** The four channels: exactly the property that moves is retimed. */
  lemma KnownMoves(r: Rec, p: Property, list: seq<Entry>, style: Style, count: int, now: int, i: nat)
    requires !p.Named? && Changed(r, p, style) && Governs(list, i, p) && list[i].duration > 0.0
    ensures var r' := ObservedChannels(r, list, style, count, now).r;
      && Retimed(ChannelOf(r, p), list[i], now, ChannelOf(r', p))
      && (count + 3 < MAX_ACTIVE ==> ChannelOf(r', p).active)
  {
    EntryIs(list, i, p);
  }

  lemma KnownStays(r: Rec, p: Property, list: seq<Entry>, style: Style, count: int, now: int)
    requires !p.Named?
    requires !Changed(r, p, style) || forall i: nat :: Governs(list, i, p) ==> list[i].duration <= 0.0
    ensures ChannelOf(ObservedChannels(r, list, style, count, now).r, p) == ChannelOf(r, p)
  {
    if Changed(r, p, style) && EntryFor(list, TargetOf(p)).Some? {
      var i := EntryAt(list, p);
    }
  }

  lemma OwnGeneric(gs: seq<Generic>, e: Entry, cur: string, count: int, now: int)
    requires e.name.Some?
    ensures var name := e.name.value;
      var g, g' := GenericOf(gs, name), GenericOf(ObservedGenerics(gs, e, cur, count, now), name);
      if g.None? then g' == Some(Generic(name, cur, true, IDLE))
      else g' == Some(g.value.(last := cur, hasLast := true,
             ch := Observed(g.value.ch, g.value.hasLast && g.value.last != cur, Some(e), count, now)))
  {
    var i, gs' := PropAt(gs, e.name.value), ObservedGenerics(gs, e, cur, count, now);
    assert gs'[i].prop == e.name.value && forall j :: 0 <= j < i ==> gs'[j].prop == gs[j].prop;
    assert PropAt(gs', e.name.value) == i;
  }

  lemma OtherGeneric(gs: seq<Generic>, e: Entry, cur: string, count: int, now: int, name: string)
    requires e.name.Some? && e.name.value != name
    ensures GenericOf(ObservedGenerics(gs, e, cur, count, now), name) == GenericOf(gs, name)
  {
    var i, gs' := PropAt(gs, name), ObservedGenerics(gs, e, cur, count, now);
    assert forall j :: 0 <= j < |gs| ==> gs'[j].prop == gs[j].prop;
    if i < |gs| {
      assert PropAt(gs', name) == i;
    } else {
      assert PropAt(gs', name) == |gs'|;
    }
  }

  /** What seeing one entry does to the channel of a name. */
  lemma NamedStep(before: (seq<Generic>, int), e: Entry, style: Style, now: int, name: string)
    ensures NamedAfter(GenericOf(before.0, name), GenericOf(ObservedOther(before, e, style, now).0, name),
                       e, style, before.1, now, name)
  {
    if e.target.TargetOther? && e.name.Some? && e.name.value in style.values {
      if e.name.value == name {
        OwnGeneric(before.0, e, style.values[name], before.1, now);
      } else {
        OtherGeneric(before.0, e, style.values[e.name.value], before.1, now, name);
      }
    }
  }

  ghost predicate NamedAfter(g: Option<Generic>, g': Option<Generic>, e: Entry, style: Style, count: int, now: int,
                             name: string) {
    if ForName(e, name) && name in style.values then
      var cur := style.values[name];
      if g.None? then g' == Some(Generic(name, cur, true, IDLE))
      else g' == Some(g.value.(last := cur, hasLast := true,
             ch := Observed(g.value.ch, g.value.hasLast && g.value.last != cur, Some(e), count, now)))
    else g' == g
  }

  /** Each entry takes one place at most. */
  lemma {:induction false} OthersGrow(gs: seq<Generic>, list: seq<Entry>, style: Style, count: int, now: int)
    ensures ObservedOthers(gs, list, style, count, now).1 <= count + |list|
    decreases |list|
  {
    if list != [] {
      var front, e := list[..|list| - 1], list[|list| - 1];
      OthersGrow(gs, front, style, count, now);
      OtherGrows(ObservedOthers(gs, front, style, count, now), e, style, now);
    }
  }

  lemma OtherGrows(before: (seq<Generic>, int), e: Entry, style: Style, now: int)
    ensures ObservedOther(before, e, style, now).1 <= before.1 + 1
  {
    if e.target.TargetOther? && e.name.Some? && e.name.value in style.values {
      var gs, i := before.0, PropAt(before.0, e.name.value);
      var after := ObservedGenerics(gs, e, style.values[e.name.value], before.1, now);
      if i == |gs| {
        AddCounts(gs, after[i]);
      } else {
        UpdateCounts(gs, i, after[i]);
      }
    }
  }

  /** The channel of a name that no entry is for, or whose value is not known, is left alone. */
  lemma {:induction false} NamedUnlisted(gs: seq<Generic>, list: seq<Entry>, style: Style, count: int, now: int,
                                         name: string)
    requires name !in style.values || forall j :: 0 <= j < |list| ==> !ForName(list[j], name)
    ensures GenericOf(ObservedOthers(gs, list, style, count, now).0, name) == GenericOf(gs, name)
    decreases |list|
  {
    if list != [] {
      var front, e := list[..|list| - 1], list[|list| - 1];
      NamedUnlisted(gs, front, style, count, now, name);
      NamedStep(ObservedOthers(gs, front, style, count, now), e, style, now, name);
    }
  }

  /** The first entry for a name decides, for after it the value is the one last seen. */
  lemma {:induction false} NamedListed(gs: seq<Generic>, list: seq<Entry>, style: Style, count: int, now: int,
                                       name: string, i: nat)
    requires Governs(list, i, Named(name)) && name in style.values
    ensures var g, g' := GenericOf(gs, name), GenericOf(ObservedOthers(gs, list, style, count, now).0, name);
      && g'.Some? && g'.value.hasLast && g'.value.last == style.values[name]
      && NamedRetimed(g, g'.value.ch, list[i], style, count + i, now, name)
    decreases |list|
  {
    var front, e := list[..|list| - 1], list[|list| - 1];
    var before := ObservedOthers(gs, front, style, count, now);
    NamedStep(before, e, style, now, name);
    if i == |list| - 1 {
      NamedUnlisted(gs, front, style, count, now, name);
      OthersGrow(gs, front, style, count, now);
    } else {
      assert front[i] == list[i];
      NamedListed(gs, front, style, count, now, name, i);
    }
  }

  /** The channel afterwards; there is a place for it if there is one after so many are taken. */
  ghost predicate NamedRetimed(g: Option<Generic>, ch': Channel, e: Entry, style: Style, taken: int, now: int,
                               name: string) {
    if NamedChanged(g, name, style) && e.duration > 0.0 then
      Retimed(g.value.ch, e, now, ch') && (taken < MAX_ACTIVE ==> ch'.active)
    else ch' == if g.Some? then g.value.ch else IDLE
  }

  /** Exactly a property that moves has its channel retimed. */
  lemma MovedChannel(r: Rec, p: Property, style: Style, count: int, said: nat, now: int, reduced: bool, i: nat)
    requires Moves(r, p, style, reduced, i)
    ensures var ch, ch' := ChannelOf(r, p), ChannelOf(ObservedStyle(r, style, count, said, now, reduced).r, p);
      && Retimed(ch, style.transition.value[i], now, ch')
      && (count + 4 + i < MAX_ACTIVE ==> ch'.active)
  {
    var list := style.transition.value;
    var seen := ObservedChannels(r, list, style, count, now);
    if p.Named? {
      NamedListed(r.generic, list, style, seen.count, now, p.name, i);
    } else {
      KnownMoves(r, p, list, style, count, now, i);
    }
  }

  lemma FirstForName(list: seq<Entry>, name: string) returns (i: nat)
    ensures i <= |list| && (i < |list| ==> Governs(list, i, Named(name)))
    ensures i == |list| ==> forall j :: 0 <= j < |list| ==> !ForName(list[j], name)
  {
    i := 0;
    while i < |list| && !ForName(list[i], name)
      invariant i <= |list| && forall j :: 0 <= j < i ==> !ForName(list[j], name)
    {
      i := i + 1;
    }
  }

  lemma NamedKept(gs: seq<Generic>, list: seq<Entry>, style: Style, count: int, now: int, name: string)
    requires !NamedChanged(GenericOf(gs, name), name, style)
          || forall i: nat :: Governs(list, i, Named(name)) ==> list[i].duration <= 0.0
    ensures NamedChannel(ObservedOthers(gs, list, style, count, now).0, name) == NamedChannel(gs, name)
  {
    var i := FirstForName(list, name);
    if i < |list| && name in style.values {
      NamedListed(gs, list, style, count, now, name, i);
    } else {
      NamedUnlisted(gs, list, style, count, now, name);
    }
  }

  lemma KeptChannel(r: Rec, p: Property, style: Style, count: int, said: nat, now: int, reduced: bool)
    requires forall i: nat :: !Moves(r, p, style, reduced, i)
    ensures ChannelOf(ObservedStyle(r, style, count, said, now, reduced).r, p) == ChannelOf(r, p)
  {
    if style.transition.Some? && !reduced {
      var list := style.transition.value;
      var seen := ObservedChannels(r, list, style, count, now);
      forall i: nat | Changed(r, p, style) && Governs(list, i, p) ensures list[i].duration <= 0.0 {
        assert !Moves(r, p, style, reduced, i);
      }
      if p.Named? {
        NamedKept(r.generic, list, style, seen.count, now, p.name);
      } else {
        KnownStays(r, p, list, style, count, now);
      }
    }
  }

  // ---- The events of one property ----

  /** The ends of the transitions of one property. */
  function EndsNamed(events: seq<Event>, name: string): seq<Event> {
    if events == [] then []
    else
      var e := events[|events| - 1];
      EndsNamed(events[..|events| - 1], name) + if e.kind.TransitionEnd? && e.name == name then [e] else []
  }

  lemma {:induction false} EndsConcat(a: seq<Event>, b: seq<Event>, name: string)
    ensures EndsNamed(a + b, name) == EndsNamed(a, name) + EndsNamed(b, name)
    decreases |b|
  {
    if b == [] {
      assert a + b == a;
    } else {
      assert (a + b)[..|a + b| - 1] == a + b[..|b| - 1];
      EndsConcat(a, b[..|b| - 1], name);
    }
  }

  lemma {:induction false} NoEnds(events: seq<Event>, name: string)
    requires forall e <- events :: !e.kind.TransitionEnd?
    ensures EndsNamed(events, name) == []
  {
    if events != [] { NoEnds(events[..|events| - 1], name); }
  }

  /** The end of a transition, if it is one of this name. */
  function EndIf(n: Node, ch: Channel, prop: string, now: int, name: string): seq<Event> {
    if prop == name then EndOf(n, ch, prop, now) else []
  }

  lemma OneEnd(n: Node, ch: Channel, prop: string, now: int, name: string)
    ensures EndsNamed(EndOf(n, ch, prop, now), name) == EndIf(n, ch, prop, now, name)
  {
    if Over(ch, now) {
      var e := Event(n, TransitionEnd, prop, ch.duration);
      assert EndOf(n, ch, prop, now) == [e] && [e][..0] == [];
    }
  }

  lemma LastEnds(n: Node, gs: seq<Generic>, now: int, name: string)
    requires gs != []
    ensures var g := gs[|gs| - 1];
      EndsNamed(EndsOf(n, gs, now), name) ==
        EndsNamed(EndsOf(n, gs[..|gs| - 1], now), name) + EndIf(n, g.ch, g.prop, now, name)
  {
    var g := gs[|gs| - 1];
    EndsConcat(EndsOf(n, gs[..|gs| - 1], now), EndOf(n, g.ch, g.prop, now), name);
    OneEnd(n, g.ch, g.prop, now, name);
  }

  lemma {:induction false} NoneOfName(n: Node, gs: seq<Generic>, now: int, name: string)
    requires forall i :: 0 <= i < |gs| ==> gs[i].prop != name
    ensures EndsNamed(EndsOf(n, gs, now), name) == []
  {
    if gs != [] {
      NoneOfName(n, gs[..|gs| - 1], now, name);
      LastEnds(n, gs, now, name);
    }
  }

  /** Of channels of different names one has the name asked for. */
  lemma {:induction false} OneOfName(n: Node, gs: seq<Generic>, now: int, i: nat, name: string)
    requires Apart(gs) && i < |gs| && gs[i].prop == name
    ensures EndsNamed(EndsOf(n, gs, now), name) == EndOf(n, gs[i].ch, name, now)
  {
    LastEnds(n, gs, now, name);
    if i == |gs| - 1 {
      NoneOfName(n, gs[..|gs| - 1], now, name);
    } else {
      OneOfName(n, gs[..|gs| - 1], now, i, name);
    }
  }

  lemma GenericEnds(n: Node, gs: seq<Generic>, now: int, name: string)
    requires Apart(gs)
    ensures EndsNamed(EndsOf(n, gs, now), name) == EndOf(n, NamedChannel(gs, name), name, now)
  {
    var i := PropAt(gs, name);
    if i < |gs| {
      OneOfName(n, gs, now, i, name);
    } else {
      NoneOfName(n, gs, now, name);
    }
  }

  lemma NamesDiffer()
    ensures "opacity" != "transform" && "opacity" != "color" && "opacity" != "background-color"
    ensures "transform" != "color" && "transform" != "background-color" && "color" != "background-color"
  {
    assert |"opacity"| == 7 && |"transform"| == 9 && |"color"| == 5 && |"background-color"| == 16;
  }

  lemma KnownEnds(n: Node, r: Rec, now: int, name: string)
    ensures EndsNamed(TransitionEnds(n, r, now), name) ==
      EndIf(n, r.opacity, "opacity", now, name) + EndIf(n, r.transform, "transform", now, name)
      + EndIf(n, r.color, "color", now, name) + EndIf(n, r.bg, "background-color", now, name)
  {
    FourEnds(n, r.opacity, "opacity", r.transform, "transform", r.color, "color", r.bg, "background-color", now, name);
  }

  lemma FourEnds(n: Node, c1: Channel, p1: string, c2: Channel, p2: string, c3: Channel, p3: string,
                 c4: Channel, p4: string, now: int, name: string)
    ensures EndsNamed(EndOf(n, c1, p1, now) + EndOf(n, c2, p2, now) + EndOf(n, c3, p3, now) + EndOf(n, c4, p4, now),
                      name) ==
      EndIf(n, c1, p1, now, name) + EndIf(n, c2, p2, now, name) + EndIf(n, c3, p3, now, name)
      + EndIf(n, c4, p4, now, name)
  {
    var a, b, c, d := EndOf(n, c1, p1, now), EndOf(n, c2, p2, now), EndOf(n, c3, p3, now), EndOf(n, c4, p4, now);
    EndsConcat(a + b + c, d, name);
    EndsConcat(a + b, c, name);
    EndsConcat(a, b, name);
    OneEnd(n, c1, p1, now, name);
    OneEnd(n, c2, p2, now, name);
    OneEnd(n, c3, p3, now, name);
    OneEnd(n, c4, p4, now, name);
  }

  /** The end of the channel the property has of its own, if it has one. */
  function OwnEnd(n: Node, r: Rec, p: Property, now: int): seq<Event> {
    if p.Named? then [] else EndOf(n, ChannelOf(r, p), NameOf(p), now)
  }

  lemma OwnEnds(n: Node, r: Rec, now: int, p: Property)
    requires p.Named? ==> p.name !in KNOWN
    ensures EndsNamed(TransitionEnds(n, r, now), NameOf(p)) == OwnEnd(n, r, p, now)
  {
    KnownEnds(n, r, now, NameOf(p));
    OwnName(p);
  }

  lemma OwnName(p: Property)
    requires p.Named? ==> p.name !in KNOWN
    ensures NameOf(p) == "opacity" <==> p.Opacity?
    ensures NameOf(p) == "transform" <==> p.Transform?
    ensures NameOf(p) == "color" <==> p.Color?
    ensures NameOf(p) == "background-color" <==> p.Background?
  {
    NamesDiffer();
  }

  /** Of what a tick says of one element, the ends of one property are that of its channel alone. */
  lemma TickEnds(n: Node, r: Rec, now: int, p: Property)
    requires Timed(r) && Apart(r.generic) && (p.Named? ==> p.name !in KNOWN)
    ensures EndsNamed(TickLog(n, r, now), NameOf(p)) == EndOf(n, ChannelOf(r, p), NameOf(p), now)
  {
    var a, b, c := TransitionEnds(n, r, now), RunEvents(n, r, now), EndsOf(n, r.generic, now);
    EndsConcat(a + b, c, NameOf(p));
    EndsConcat(a, b, NameOf(p));
    OwnEnds(n, r, now, p);
    if r.anim.active { DueIsRunEvents(n, r.anim, now); }
    NoEnds(b, NameOf(p));
    GenericEnds(n, r.generic, now, NameOf(p));
    JoinedEnds(n, r, now, p);
  }

  lemma JoinedEnds(n: Node, r: Rec, now: int, p: Property)
    requires Apart(r.generic)
    ensures OwnEnd(n, r, p, now) + [] + EndOf(n, NamedChannel(r.generic, NameOf(p)), NameOf(p), now) ==
      EndOf(n, ChannelOf(r, p), NameOf(p), now)
  {
    if !p.Named? { NoKnownGeneric(r.generic, NameOf(p)); }
  }

  lemma NoKnownGeneric(gs: seq<Generic>, name: string)
    requires Apart(gs) && name in KNOWN
    ensures NamedChannel(gs, name) == IDLE
  {
  }

  /** A tick stops the channel of a name and keeps what its property was last seen with. */
  lemma StoppedNamed(gs: seq<Generic>, now: int, name: string)
    ensures NamedChannel(StoppedAll(gs, now), name) == Stopped(NamedChannel(gs, name), now)
    ensures var g, g' := GenericOf(gs, name), GenericOf(StoppedAll(gs, now), name);
      g'.Some? == g.Some? && (g.Some? ==> g'.value.last == g.value.last && g'.value.hasLast == g.value.hasLast)
  {
    var i, gs' := PropAt(gs, name), StoppedAll(gs, now);
    assert forall j :: 0 <= j < |gs| ==> gs'[j].prop == gs[j].prop;
    assert PropAt(gs', name) == i;
  }

  lemma {:induction false} ApartKept(gs: seq<Generic>, list: seq<Entry>, style: Style, count: int, now: int)
    requires Apart(gs)
    requires forall e <- list :: e.target.TargetOther? && e.name.Some? ==> e.name.value !in KNOWN
    ensures Apart(ObservedOthers(gs, list, style, count, now).0)
    decreases |list|
  {
    if list != [] {
      var front, e := list[..|list| - 1], list[|list| - 1];
      ApartKept(gs, front, style, count, now);
      assert e in list;
      ApartStep(ObservedOthers(gs, front, style, count, now), e, style, now);
    }
  }

  lemma ApartStep(before: (seq<Generic>, int), e: Entry, style: Style, now: int)
    requires Apart(before.0) && (e.target.TargetOther? && e.name.Some? ==> e.name.value !in KNOWN)
    ensures Apart(ObservedOther(before, e, style, now).0)
  {
    if e.target.TargetOther? && e.name.Some? && e.name.value in style.values {
      var gs, i := before.0, PropAt(before.0, e.name.value);
      var after := ObservedGenerics(gs, e, style.values[e.name.value], before.1, now);
      assert forall j :: 0 <= j < |gs| ==> after[j].prop == gs[j].prop;
      assert |after| == |gs| || (|after| == |gs| + 1 && i == |gs| && after[i].prop == e.name.value);
    }
  }

  lemma ApartSeen(r: Rec, style: Style, count: int, said: nat, now: int, reduced: bool)
    requires Apart(r.generic) && WellNamed(style)
    ensures Apart(ObservedStyle(r, style, count, said, now, reduced).r.generic)
  {
    if style.transition.Some? && !reduced {
      var list := style.transition.value;
      ApartKept(r.generic, list, style, ObservedChannels(r, list, style, count, now).count, now);
    }
  }

  // ---- Over a course of operations ----

  /** The ends of the transitions of one property of one element. */
  function Ended(w: Scene, n: Node, p: Property): seq<Event> {
    EndsNamed(Own(w.log, n), NameOf(p))
  }

  /** A style starts a transition of the property, as the i-th entry of its list says. */
  ghost predicate StartsTransition(w: Scene, call: Call, w': Scene, n: Node, p: Property, i: nat) {
    && call.Observe? && call.node == n && Moves(RecOf(w, n), p, call.style, call.reduced, i)
    && n in w'.recs && ChannelOf(w'.recs[n], p).active
  }

  /** Neither is the property moved again, nor its start, nor is the element forgotten. */
  ghost predicate LeavesTransition(w: Scene, call: Call, n: Node, p: Property) {
    match call
    case Observe(m, style, _, reduced) =>
      m == n ==> WellNamed(style) && forall i: nat :: !Moves(RecOf(w, n), p, style, reduced, i)
    case Prune(live) => n in live
    case Rebase(_) => p.Named?
    case _ => true
  }

  ghost predicate CourseOfTransition(ws: seq<Scene>, calls: seq<Call>, n: Node, p: Property, i: nat) {
    && Course(ws, calls) && calls != [] && StartsTransition(ws[0], calls[0], ws[1], n, p, i)
    && WellNamed(calls[0].style) && Apart(RecOf(ws[0], n).generic) && (p.Named? ==> p.name !in KNOWN)
    && forall k {:trigger LeftAt(ws, calls, n, p, k)} :: 1 <= k < |calls| ==> LeftAt(ws, calls, n, p, k)
  }

  ghost predicate LeftAt(ws: seq<Scene>, calls: seq<Call>, n: Node, p: Property, k: nat)
    requires |ws| == |calls| + 1 && k < |calls|
  {
    LeavesTransition(ws[k], calls[k], n, p)
  }

  /** The entry of the transition the course begins with. */
  function EntryOf(calls: seq<Call>, i: nat): Entry
    requires calls != [] && calls[0].Observe? && calls[0].style.transition.Some?
    requires i < |calls[0].style.transition.value|
  {
    calls[0].style.transition.value[i]
  }

  /** A tick when the delay and the duration of the entry have gone by since the first call. */
  predicate TickedLate(calls: seq<Call>, e: Entry, k: nat)
    requires k < |calls| && calls[0].Observe?
  {
    calls[k].Tick? && (calls[k].now - calls[0].now) as real / 1000.0 >= e.delay + e.duration
  }

  /** There has been such a tick among the calls after the first, before the k-th. */
  predicate LateBefore(calls: seq<Call>, e: Entry, k: nat)
    requires k <= |calls| && calls != [] && calls[0].Observe?
  {
    exists j :: 1 <= j < k && TickedLate(calls, e, j)
  }

  /** A call that leaves a transition alone ends it exactly if it is a tick that finds it over, and
      only then is anything told. */
  lemma LeftStep(w: Scene, call: Call, w': Scene, n: Node, p: Property)
    requires InOrder(w) && n in w.recs && Made(w, call, w') && LeavesTransition(w, call, n, p)
    requires Apart(w.recs[n].generic) && (p.Named? ==> p.name !in KNOWN)
    ensures n in w'.recs && Apart(w'.recs[n].generic)
    ensures var ch := ChannelOf(w.recs[n], p);
      && ChannelOf(w'.recs[n], p) == (if call.Tick? then Stopped(ch, call.now) else ch)
      && Ended(w', n, p) == Ended(w, n, p) + (if call.Tick? then EndOf(n, ch, NameOf(p), call.now) else [])
  {
    assert SoundAt(w.recs, w.tracked, w.log, n);
    match call
    case Tick(now) =>
      TickedStep(w, now, w', n, p);
    case Observe(m, style, now, reduced) =>
      if m == n {
        KeptChannel(w.recs[n], p, style, w.count, |Said(w.log, n)|, now, reduced);
        ApartSeen(w.recs[n], style, w.count, |Said(w.log, n)|, now, reduced);
      }
    case Prune(live) =>
    case Rebase(base) =>
      assert RebasedAt(w.recs, w'.recs, w.recs.Keys, base, n);
    case Drain =>
  }

  lemma TickedStep(w: Scene, now: int, w': Scene, n: Node, p: Property)
    requires InOrder(w) && n in w.recs && Made(w, Tick(now), w')
    requires Apart(w.recs[n].generic) && (p.Named? ==> p.name !in KNOWN)
    ensures n in w'.recs && Apart(w'.recs[n].generic)
    ensures var ch := ChannelOf(w.recs[n], p);
      && ChannelOf(w'.recs[n], p) == Stopped(ch, now)
      && Ended(w', n, p) == Ended(w, n, p) + EndOf(n, ch, NameOf(p), now)
  {
    var r := w.recs[n];
    assert SoundAt(w.recs, w.tracked, w.log, n);
    assert TickedAt(w.recs, w.log, w.tracked, now, w'.recs, w'.log, n);
    if n in w.tracked {
      TickEnds(n, r, now, p);
      EndsConcat(Own(w.log, n), TickLog(n, r, now), NameOf(p));
      if p.Named? { StoppedNamed(r.generic, now, p.name); }
    } else {
      assert !ChannelOf(r, p).active;
      assert Own(w.log, n) + [] == Own(w.log, n);
    }
  }

  /** How the transition stands before the k-th call. */
  ghost predicate Stands(w0: Scene, t0: int, e: Entry, late: bool, w: Scene, n: Node, p: Property) {
    && InOrder(w) && n in w.recs && Apart(w.recs[n].generic)
    && ChannelOf(w.recs[n], p) == Channel(!late, t0, e.duration, e.delay)
    && Ended(w, n, p) == Ended(w0, n, p) + if late then [Event(n, TransitionEnd, NameOf(p), e.duration)] else []
  }

  lemma TransitionStarts(w: Scene, call: Call, w': Scene, n: Node, p: Property, i: nat)
    requires Made(w, call, w') && StartsTransition(w, call, w', n, p, i)
    requires WellNamed(call.style) && Apart(RecOf(w, n).generic)
    ensures Stands(w, call.now, call.style.transition.value[i], false, w', n, p)
  {
    MovedChannel(RecOf(w, n), p, call.style, w.count, |Said(w.log, n)|, call.now, call.reduced, i);
    ApartSeen(RecOf(w, n), call.style, w.count, |Said(w.log, n)|, call.now, call.reduced);
  }

  lemma StandsOn(w0: Scene, t0: int, e: Entry, late: bool, w: Scene, call: Call, w': Scene, n: Node, p: Property)
    requires Stands(w0, t0, e, late, w, n, p) && Made(w, call, w') && LeavesTransition(w, call, n, p)
    requires p.Named? ==> p.name !in KNOWN
    ensures Stands(w0, t0, e, late || (call.Tick? && (call.now - t0) as real / 1000.0 >= e.delay + e.duration),
                   w', n, p)
  {
    LeftStep(w, call, w', n, p);
  }

  lemma {:induction false} TransitionStands(ws: seq<Scene>, calls: seq<Call>, n: Node, p: Property, i: nat, k: nat)
    requires CourseOfTransition(ws, calls, n, p, i) && 1 <= k <= |calls|
    ensures Stands(ws[0], calls[0].now, EntryOf(calls, i), LateBefore(calls, EntryOf(calls, i), k), ws[k], n, p)
  {
    assert MadeAt(ws, calls, k - 1);
    if k == 1 {
      TransitionStarts(ws[0], calls[0], ws[1], n, p, i);
    } else {
      TransitionStands(ws, calls, n, p, i, k - 1);
      assert LeftAt(ws, calls, n, p, k - 1);
      var e := EntryOf(calls, i);
      StandsOn(ws[0], calls[0].now, e, LateBefore(calls, e, k - 1), ws[k - 1], calls[k - 1], ws[k], n, p);
      assert LateBefore(calls, e, k) <==> LateBefore(calls, e, k - 1) || TickedLate(calls, e, k - 1);
    }
  }

  /** From the style that starts a transition, whatever calls follow that leave it alone: at any point
      its end has been told once if there has been a tick when its delay and its duration had gone by,
      and not at all otherwise. */
  lemma TransitionEndsOnce(ws: seq<Scene>, calls: seq<Call>, n: Node, p: Property, i: nat, k: nat)
    requires CourseOfTransition(ws, calls, n, p, i) && 1 <= k <= |calls|
    ensures n in ws[k].recs
    ensures ChannelOf(ws[k].recs[n], p).active <==> !LateBefore(calls, EntryOf(calls, i), k)
    ensures Ended(ws[k], n, p) == Ended(ws[0], n, p) +
      if LateBefore(calls, EntryOf(calls, i), k)
      then [Event(n, TransitionEnd, NameOf(p), EntryOf(calls, i).duration)] else []
  {
    TransitionStands(ws, calls, n, p, i, k);
  }

  // ---- What starts a transition ----

  /** A property that moves starts a transition if its channel is active or there is a place left. */
  lemma RoomStarts(w: Scene, n: Node, style: Style, now: int, reduced: bool, w': Scene, p: Property, i: nat)
    requires Made(w, Observe(n, style, now, reduced), w') && Moves(RecOf(w, n), p, style, reduced, i)
    requires ChannelOf(RecOf(w, n), p).active || w.count + 4 + i < MAX_ACTIVE
    ensures StartsTransition(w, Observe(n, style, now, reduced), w', n, p, i)
  {
    MovedChannel(RecOf(w, n), p, style, w.count, |Said(w.log, n)|, now, reduced, i);
  }

  predicate Differs(x: real, y: real) { y - x > 0.001 || x - y > 0.001 }

  /** The property has this value in one style and another in the second. */
  predicate ValuesDiffer(a: Style, b: Style, p: Property) {
    match p
    case Opacity =>
      a.opacity.Some? && b.opacity.Some? && Differs(a.opacity.value, b.opacity.value)
    case Transform =>
      && a.transform.Some? && b.transform.Some? && |a.transform.value| == |b.transform.value|
      && (forall i :: 0 <= i < |a.transform.value| ==> a.transform.value[i].kind == b.transform.value[i].kind)
      && exists i :: 0 <= i < |a.transform.value| &&
           (Differs(a.transform.value[i].a, b.transform.value[i].a)
            || Differs(a.transform.value[i].b, b.transform.value[i].b))
    case Color => a.color.Some? && b.color.Some? && a.color != b.color
    case Background => a.background.Some? && b.background.Some? && a.background != b.background
    case Named(name) => name in a.values && name in b.values && a.values[name] != b.values[name]
  }

  /** The style has a value for the property, an opacity from 0 to 1. */
  predicate HasValue(style: Style, p: Property) {
    match p
    case Opacity => style.opacity.Some? && 0.0 <= style.opacity.value <= 1.0
    case Transform => style.transform.Some?
    case Color => style.color.Some?
    case Background => style.background.Some?
    case Named(name) => name in style.values
  }

  predicate Listed(list: seq<Entry>, p: Property) {
    p.Named? ==> exists j :: 0 <= j < |list| && ForName(list[j], p.name)
  }

  /** What an element is seen with is what the next style is compared with. */
  lemma SeenThenChanged(w: Scene, n: Node, a: Style, now: int, w': Scene, p: Property, b: Style)
    requires Made(w, Observe(n, a, now, false), w') && a.transition.Some? && Listed(a.transition.value, p)
    requires HasValue(a, p) && HasValue(b, p)
    ensures n in w'.recs && (Changed(w'.recs[n], p, b) <==> ValuesDiffer(a, b, p))
  {
    SeenValues(RecOf(w, n), a, w.count, |Said(w.log, n)|, now, p, b);
  }

  lemma SeenValues(r: Rec, a: Style, count: int, said: nat, now: int, p: Property, b: Style)
    requires a.transition.Some? && Listed(a.transition.value, p) && HasValue(a, p) && HasValue(b, p)
    ensures Changed(ObservedStyle(r, a, count, said, now, false).r, p, b) <==> ValuesDiffer(a, b, p)
  {
    var list := a.transition.value;
    match p
    case Opacity =>
    case Transform =>
      MovedOps(a.transform.value, b.transform.value);
    case Color =>
    case Background =>
    case Named(name) =>
      var i := FirstForName(list, name);
      NamedListed(r.generic, list, a, ObservedChannels(r, list, a, count, now).count, now, name, i);
  }

  lemma MovedOps(a: seq<Op>, b: seq<Op>)
    ensures forall i :: 0 <= i < |a| && i < |b| ==>
        (OpMoved(a[i], b[i]) <==> Differs(a[i].a, b[i].a) || Differs(a[i].b, b[i].b))
  {
  }

  /** The element is kept and no style of it is looked at for transitions. */
  predicate Overlooks(call: Call, n: Node) {
    match call
    case Observe(m, style, _, reduced) => m == n ==> style.transition.None? || reduced
    case Prune(live) => n in live
    case _ => true
  }

  /** What an element was last seen with stays until a style of it is looked at again. */
  lemma ChangedKept(w: Scene, call: Call, w': Scene, n: Node, p: Property, style: Style)
    requires InOrder(w) && n in w.recs && Made(w, call, w') && Overlooks(call, n)
    ensures n in w'.recs && (Changed(w'.recs[n], p, style) <==> Changed(w.recs[n], p, style))
  {
    match call
    case Tick(now) =>
      assert TickedAt(w.recs, w.log, w.tracked, now, w'.recs, w'.log, n);
      if p.Named? { StoppedNamed(w.recs[n].generic, now, p.name); }
    case Observe(_, _, _, _) =>
    case Prune(_) =>
    case Rebase(base) =>
      assert RebasedAt(w.recs, w'.recs, w.recs.Keys, base, n);
    case Drain =>
  }
}
