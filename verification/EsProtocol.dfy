/** The two-thread life of an event source: the main thread owns it, a worker thread reads the
    network and posts dispatches to the main loop, and the object dies with its last reference.
    Every step below is one access to the shared object, so a run of steps is an interleaving. */
module EsProtocol {
  import opened Numbers

  const MAX_PENDING: nat := 256

  /** Where the worker stands.  Posted steps follow the order of the accesses of one post. */
  datatype Worker =
    | Reading       // in the transfer, between posts
    | NotDetached   // a post found the object attached
    | HasRoom       // a post found room for one more pending dispatch
    | Counted       // the pending counter has been raised
    | Referenced    // the dispatch holds its reference
    | Leaving       // out of the loop, about to drop the worker's reference
    | Dropped(last: bool)
    | Ended

  /** A call on the main thread's stack.  In `InBusy` and `InInvoke` foreign code is running, which
      may run the main loop again or free the object. */
  datatype Frame =
    | Start | AskBusy | InBusy | Recheck | Invoke | InInvoke | Uncount | Release | Released(last: bool)
    | Detach | AskExit | Join | Disown | Disowned(last: bool)

  /** The owner may free the object once. */
  datatype Owner = Owned | Freeing | Freed

  /** `stretch` is how often the worker gets at the object before it looks at the exit flag again: the
      rest of a chunk, of a header, or of an attempt to connect. */
  datatype State = State(
    refcount: int, pending: int, detached: bool, exitRequested: bool, destroyed: nat,
    worker: Worker, stretch: nat, stack: seq<Frame>, queue: nat, owner: Owner)

  datatype WorkerStep =
    | LookFlag(next: nat) | Access | PostAsk | PostDetached | PostRoom | PostFull | PostCount | PostRef | PostQueue
    | LeaveLoop | WorkerDrop | WorkerEnd

  datatype DispatchStep =
    | SeeDetached | SeeAttached | NoBusyHook | CallBusy | BusyYes | BusyNo
    | SkipInvoke | WillInvoke | NoEventHook | CallInvoke | InvokeReturns
    | DropPending | DropRef | EndDispatch

  datatype FreeStep = SetDetached | SetExit | Joined | OwnerDrop | EndFree

  datatype Step =
    | Work(w: WorkerStep)
    | RunDispatch | CallFree | Close
    | Dispatch(d: DispatchStep)
    | Free(f: FreeStep)

  function Init(): State {
    State(2, 0, false, false, 0, Reading, 0, [], 0, Owned)
  }

  // ---- What a step needs and does ----

  predicate Foreign(f: Frame) { f.InBusy? || f.InInvoke? }

  /** The main thread runs code that is not the event source's: the main loop, or a hook. */
  predicate Idle(s: State) { s.stack == [] || Foreign(Top(s.stack)) }

  function Top(stack: seq<Frame>): Frame requires stack != [] { stack[|stack| - 1] }

  predicate OnTop(s: State, f: Frame) { s.stack != [] && Top(s.stack) == f }

  predicate WorkerCan(s: State, w: WorkerStep) {
    match w
    case LookFlag(_) => s.worker.Reading? && s.stretch == 0
    case Access => s.worker.Reading? && s.stretch > 0
    case PostAsk => s.worker.Reading? && s.stretch > 0 && !s.detached
    case PostDetached => s.worker.Reading? && s.stretch > 0 && s.detached
    case PostRoom => s.worker.NotDetached? && s.pending < MAX_PENDING
    case PostFull => s.worker.NotDetached? && s.pending >= MAX_PENDING
    case PostCount => s.worker.HasRoom?
    case PostRef => s.worker.Counted?
    case PostQueue => s.worker.Referenced?
    case LeaveLoop => s.worker.Reading?
    case WorkerDrop => s.worker.Leaving?
    case WorkerEnd => s.worker.Dropped?
  }

  predicate DispatchCan(s: State, d: DispatchStep) {
    s.stack != [] &&
    match d
    case SeeDetached => Top(s.stack).Start? && s.detached
    case SeeAttached => Top(s.stack).Start? && !s.detached
    case NoBusyHook => Top(s.stack).AskBusy?
    case CallBusy => Top(s.stack).AskBusy?
    case BusyYes => Top(s.stack).InBusy?
    case BusyNo => Top(s.stack).InBusy?
    case SkipInvoke => Top(s.stack).Recheck? && s.detached
    case WillInvoke => Top(s.stack).Recheck? && !s.detached
    case NoEventHook => Top(s.stack).Invoke?
    case CallInvoke => Top(s.stack).Invoke?
    case InvokeReturns => Top(s.stack).InInvoke?
    case DropPending => Top(s.stack).Uncount?
    case DropRef => Top(s.stack).Release?
    case EndDispatch => Top(s.stack).Released?
  }

  predicate FreeCan(s: State, f: FreeStep) {
    s.stack != [] &&
    match f
    case SetDetached => Top(s.stack).Detach?
    case SetExit => Top(s.stack).AskExit?
    case Joined => Top(s.stack).Join? && s.worker.Ended?
    case OwnerDrop => Top(s.stack).Disown?
    case EndFree => Top(s.stack).Disowned?
  }

  predicate Enabled(s: State, e: Step) {
    match e
    case Work(w) => WorkerCan(s, w)
    case RunDispatch => Idle(s) && s.queue > 0
    case CallFree => Idle(s) && s.owner.Owned?
    case Close => Idle(s) && s.owner.Owned?
    case Dispatch(d) => DispatchCan(s, d)
    case Free(f) => FreeCan(s, f)
  }

  function Popped(s: State): (t: State)
    requires s.stack != []
    ensures t == s.(stack := t.stack) && |t.stack| == |s.stack| - 1
    ensures t.stack != [] ==> Top(t.stack) == s.stack[|s.stack| - 2]
  {
    s.(stack := s.stack[..|s.stack| - 1])
  }

  function To(s: State, f: Frame): (t: State)
    requires s.stack != []
    ensures t == s.(stack := t.stack) && |t.stack| == |s.stack| && Top(t.stack) == f
  {
    s.(stack := s.stack[..|s.stack| - 1] + [f])
  }

  function Pushed(s: State, f: Frame): (t: State)
    ensures t == s.(stack := t.stack) && |t.stack| == |s.stack| + 1 && Top(t.stack) == f
  { s.(stack := s.stack + [f]) }

  /** Frees the memory when the reference just dropped was the last one. */
  function Destroyed(s: State, last: bool): State {
    if last then s.(destroyed := s.destroyed + 1) else s
  }

  function AfterWork(s: State, w: WorkerStep): State
    requires WorkerCan(s, w)
  {
    match w
    case LookFlag(next) => if s.exitRequested then s.(worker := Leaving) else s.(stretch := next)
    case Access => s.(stretch := s.stretch - 1)
    case PostAsk => s.(worker := NotDetached, stretch := s.stretch - 1)
    case PostDetached => s.(stretch := s.stretch - 1)
    case PostRoom => s.(worker := HasRoom)
    case PostFull => s.(worker := Reading)
    case PostCount => s.(worker := Counted, pending := s.pending + 1)
    case PostRef => s.(worker := Referenced, refcount := s.refcount + 1)
    case PostQueue => s.(worker := Reading, queue := s.queue + 1)
    case LeaveLoop => s.(worker := Leaving)
    case WorkerDrop => s.(worker := Dropped(s.refcount == 1), refcount := s.refcount - 1)
    case WorkerEnd => Destroyed(s, s.worker.last).(worker := Ended)
  }

  function AfterDispatch(s: State, d: DispatchStep): State
    requires DispatchCan(s, d)
  {
    match d
    case SeeDetached => To(s, Recheck)
    case SeeAttached => To(s, AskBusy)
    case NoBusyHook => To(s, Recheck)
    case CallBusy => To(s, InBusy)
    case BusyYes => Popped(s).(queue := s.queue + 1)
    case BusyNo => To(s, Recheck)
    case SkipInvoke => To(s, Uncount)
    case WillInvoke => To(s, Invoke)
    case NoEventHook => To(s, Uncount)
    case CallInvoke => To(s, InInvoke)
    case InvokeReturns => To(s, Uncount)
    case DropPending => To(s, Release).(pending := s.pending - 1)
    case DropRef => To(s, Released(s.refcount == 1)).(refcount := s.refcount - 1)
    case EndDispatch => Popped(Destroyed(s, Top(s.stack).last))
  }

  function AfterFree(s: State, f: FreeStep): State
    requires FreeCan(s, f)
  {
    match f
    case SetDetached => To(s, AskExit).(detached := true)
    case SetExit => To(s, Join).(exitRequested := true)
    case Joined => To(s, Disown)
    case OwnerDrop => To(s, Disowned(s.refcount == 1)).(refcount := s.refcount - 1)
    case EndFree => Popped(Destroyed(s, Top(s.stack).last)).(owner := Freed)
  }

  function Next(s: State, e: Step): State
    requires Enabled(s, e)
  {
    match e
    case Work(w) => AfterWork(s, w)
    case RunDispatch => Pushed(s.(queue := s.queue - 1), Start)
    case CallFree => Pushed(s.(owner := Freeing), Detach)
    case Close => s.(exitRequested := true)
    case Dispatch(d) => AfterDispatch(s, d)
    case Free(f) => AfterFree(s, f)
  }

  /** The step reads or writes the object. */
  predicate Touches(e: Step) {
    match e
    case Work(w) => !w.PostQueue? && !w.WorkerEnd?
    case Dispatch(d) => !(d.InvokeReturns? || d.BusyYes? || d.BusyNo? || d.EndDispatch?)
    case Free(f) => !f.EndFree?
    case Close => true
    case _ => false
  }

  /** The step frees memory: it is the end of a release that found the last reference. */
  predicate Frees(s: State, e: Step) {
    match e
    case Work(WorkerEnd) => s.worker.Dropped? && s.worker.last
    case Dispatch(EndDispatch) => OnTop(s, Released(true))
    case Free(EndFree) => OnTop(s, Disowned(true))
    case _ => false
  }

  /** The step enters code of the page: the busy hook or an event callback. */
  predicate StartsCallback(e: Step) {
    e == Dispatch(CallBusy) || e == Dispatch(CallInvoke)
  }

  // ---- Runs ----

  ghost predicate Runs(s: State, steps: seq<Step>)
    decreases |steps|
  {
    steps == [] || (Enabled(s, steps[0]) && Runs(Next(s, steps[0]), steps[1..]))
  }

  ghost function After(s: State, steps: seq<Step>): State
    requires Runs(s, steps)
    decreases |steps|
  {
    if steps == [] then s else After(Next(s, steps[0]), steps[1..])
  }

  // ---- What is outstanding ----

  /** A dispatch frame that still holds its reference, or still counts as pending. */
  predicate HoldsRef(f: Frame) { IsDispatch(f) && !f.Released? }
  predicate HoldsPending(f: Frame) { HoldsRef(f) && !f.Release? }

  predicate IsDispatch(f: Frame) {
    f.Start? || f.AskBusy? || f.InBusy? || f.Recheck? || f.Invoke? || f.InInvoke? || f.Uncount? ||
    f.Release? || f.Released?
  }

  /** Dispatches that exist and hold a reference: queued, running, or just made by the worker. */
  function RefHolders(s: State): int {
    s.queue + Bit(s.worker.Referenced?) + CountTop(s.stack, HoldsRef)
  }

  /** Dispatches that exist or are being made and have not been counted off. */
  function PendingHolders(s: State): int {
    s.queue + Bit(s.worker.Counted? || s.worker.Referenced?) + CountTop(s.stack, HoldsPending)
  }

  /** Every frame below the top is a dispatch inside foreign code, so only the top needs looking at. */
  function CountTop(stack: seq<Frame>, holds: Frame -> bool): int {
    if stack == [] then 0 else |stack| - 1 + Bit(holds(Top(stack)))
  }

  /** How many frames of the whole stack satisfy a predicate. */
  function Count(stack: seq<Frame>, holds: Frame -> bool): nat {
    if stack == [] then 0 else Count(stack[..|stack| - 1], holds) + Bit(holds(Top(stack)))
  }

  predicate OwnerHolds(s: State) {
    !s.owner.Freed? && !(s.stack != [] && Top(s.stack).Disowned?)
  }

  predicate WorkerHolds(s: State) { !s.worker.Dropped? && !s.worker.Ended? }

  predicate InFree(f: Frame) {
    f.Detach? || f.AskExit? || f.Join? || f.Disown? || f.Disowned?
  }

  /** A release found the last reference and has not freed the memory yet. */
  predicate Dying(s: State) {
    s.stack != [] && (Top(s.stack) == Released(true) || Top(s.stack) == Disowned(true))
  }

  // ---- The invariant ----

  ghost predicate Inv(s: State) {
    && (forall i :: 0 <= i < |s.stack| - 1 ==> Foreign(s.stack[i]))
    && s.refcount == Bit(OwnerHolds(s)) + Bit(WorkerHolds(s)) + RefHolders(s)
    && s.pending == PendingHolders(s) <= MAX_PENDING
    && (s.worker.HasRoom? ==> s.pending < MAX_PENDING)
    && (s.worker.Dropped? ==> !s.worker.last)
    && (s.owner.Freeing? <==> s.stack != [] && InFree(Top(s.stack)))
    && (s.owner.Freed? ==> s.worker.Ended?)
    && (s.stack != [] && (Top(s.stack).Disown? || Top(s.stack).Disowned?) ==> s.worker.Ended?)
    && (s.detached <==> !s.owner.Owned? && !OnTop(s, Detach))
    && (OnTop(s, Join) ==> s.exitRequested)
    && (s.stack != [] && (Top(s.stack).AskBusy? || Top(s.stack).Invoke?) ==> !s.detached)
    && s.destroyed == Bit(s.refcount == 0 && !Dying(s))
    && (Dying(s) ==> s.refcount == 0)
    && (OnTop(s, Disowned(false)) ==> s.refcount > 0)
  }

  lemma InitInv()
    ensures Inv(Init())
  {
  }

  lemma WorkKeeps(s: State, w: WorkerStep)
    requires Inv(s) && WorkerCan(s, w)
    ensures Inv(AfterWork(s, w))
  {
  }

  predicate Looks(d: DispatchStep) { d.SeeDetached? || d.SeeAttached? || d.SkipInvoke? || d.WillInvoke? }

  lemma DispatchLooksKeeps(s: State, d: DispatchStep)
    requires Inv(s) && DispatchCan(s, d) && Looks(d)
    ensures Inv(AfterDispatch(s, d))
  {
  }

  predicate AsksBusy(d: DispatchStep) { d.NoBusyHook? || d.CallBusy? || d.BusyYes? || d.BusyNo? }

  lemma DispatchAsksKeeps(s: State, d: DispatchStep)
    requires Inv(s) && DispatchCan(s, d) && AsksBusy(d)
    ensures Inv(AfterDispatch(s, d))
  {
  }

  lemma DispatchInvokeKeeps(s: State, d: DispatchStep)
    requires Inv(s) && DispatchCan(s, d) && (d.NoEventHook? || d.CallInvoke? || d.InvokeReturns?)
    ensures Inv(AfterDispatch(s, d))
  {
  }

  lemma DispatchEndKeeps(s: State, d: DispatchStep)
    requires Inv(s) && DispatchCan(s, d) && (d.DropPending? || d.DropRef? || d.EndDispatch?)
    ensures Inv(AfterDispatch(s, d))
  {
  }

  lemma DispatchKeeps(s: State, d: DispatchStep)
    requires Inv(s) && DispatchCan(s, d)
    ensures Inv(AfterDispatch(s, d))
  {
    if Looks(d) {
      DispatchLooksKeeps(s, d);
    } else if AsksBusy(d) {
      DispatchAsksKeeps(s, d);
    } else if d.NoEventHook? || d.CallInvoke? || d.InvokeReturns? {
      DispatchInvokeKeeps(s, d);
    } else {
      DispatchEndKeeps(s, d);
    }
  }

  lemma FreeBeginKeeps(s: State, f: FreeStep)
    requires Inv(s) && FreeCan(s, f) && (f.SetDetached? || f.SetExit? || f.Joined?)
    ensures Inv(AfterFree(s, f))
  {
  }

  lemma FreeEndKeeps(s: State, f: FreeStep)
    requires Inv(s) && FreeCan(s, f) && (f.OwnerDrop? || f.EndFree?)
    ensures Inv(AfterFree(s, f))
  {
  }

  lemma FreeKeeps(s: State, f: FreeStep)
    requires Inv(s) && FreeCan(s, f)
    ensures Inv(AfterFree(s, f))
  {
    if f.OwnerDrop? || f.EndFree? { FreeEndKeeps(s, f); } else { FreeBeginKeeps(s, f); }
  }

  /** Every step keeps the invariant. */
  lemma StepKeeps(s: State, e: Step)
    requires Inv(s) && Enabled(s, e)
    ensures Inv(Next(s, e))
  {
    match e
    case Work(w) => WorkKeeps(s, w);
    case Dispatch(d) => DispatchKeeps(s, d);
    case Free(f) => FreeKeeps(s, f);
    case _ =>
  }

  /** The invariant holds after every interleaving. */
  lemma {:induction false} RunKeeps(s: State, steps: seq<Step>)
    requires Inv(s) && Runs(s, steps)
    ensures Inv(After(s, steps))
    decreases |steps|
  {
    if steps != [] {
      StepKeeps(s, steps[0]);
      RunKeeps(Next(s, steps[0]), steps[1..]);
    }
  }

  // ---- What every interleaving keeps ----

  lemma {:induction false} CountIsTop(stack: seq<Frame>, holds: Frame -> bool)
    requires forall i :: 0 <= i < |stack| - 1 ==> Foreign(stack[i])
    requires forall f :: Foreign(f) ==> holds(f)
    ensures Count(stack, holds) == CountTop(stack, holds)
    decreases |stack|
  {
    if stack != [] {
      CountIsTop(stack[..|stack| - 1], holds);
    }
  }

  /** The reference count is the owner's reference, the worker's, and one for every dispatch queued,
      running or being made; the pending counter is the number of those dispatches not yet counted
      off, and never passes its cap. */
  lemma Accounting(steps: seq<Step>)
    requires Runs(Init(), steps)
    ensures var s := After(Init(), steps);
      && s.refcount == Bit(OwnerHolds(s)) + Bit(WorkerHolds(s)) + s.queue
                       + Bit(s.worker.Referenced?) + Count(s.stack, HoldsRef)
      && s.pending == s.queue + Bit(s.worker.Counted? || s.worker.Referenced?)
                      + Count(s.stack, HoldsPending)
      && s.pending <= MAX_PENDING
  {
    InitInv();
    RunKeeps(Init(), steps);
    var s := After(Init(), steps);
    CountIsTop(s.stack, HoldsRef);
    CountIsTop(s.stack, HoldsPending);
  }

  /** Nothing touches the object once it is freed, and nothing frees it twice. */
  lemma NothingAfterDestruction(steps: seq<Step>, e: Step)
    requires Runs(Init(), steps) && Enabled(After(Init(), steps), e)
    ensures Touches(e) || Frees(After(Init(), steps), e) ==> After(Init(), steps).destroyed == 0
    ensures Next(After(Init(), steps), e).destroyed <= 1
  {
    InitInv();
    RunKeeps(Init(), steps);
    StepKeeps(After(Init(), steps), e);
  }

  /** The object is freed exactly when nobody holds it any more: no use after free and no leak. */
  lemma DestroyedWhenUnheld(steps: seq<Step>)
    requires Runs(Init(), steps)
    ensures var s := After(Init(), steps);
      s.destroyed == 1 <==>
        s.owner.Freed? && s.worker.Ended? && s.queue == 0 && Count(s.stack, HoldsRef) == 0 && !Dying(s)
  {
    InitInv();
    RunKeeps(Init(), steps);
    CountIsTop(After(Init(), steps).stack, HoldsRef);
  }

  lemma DetachedStep(s: State, e: Step)
    requires Inv(s) && Enabled(s, e)
    ensures s.detached ==> !StartsCallback(e) && Next(s, e).detached
    ensures e == Free(EndFree) ==> Next(s, e).detached
  {
  }

  /** Once the object is detached no hook of the page is entered any more. */
  lemma {:induction false} SilentOnceDetached(s: State, steps: seq<Step>, j: nat)
    requires Inv(s) && s.detached && Runs(s, steps) && j < |steps|
    ensures !StartsCallback(steps[j])
    decreases j
  {
    StepKeeps(s, steps[0]);
    DetachedStep(s, steps[0]);
    if j > 0 {
      SilentOnceDetached(Next(s, steps[0]), steps[1..], j - 1);
    }
  }

  /** No callback starts after the call of free has returned, whether it was made by the main loop
      or from inside a callback. */
  lemma {:induction false} SilentAfterFree(s: State, steps: seq<Step>, i: nat, j: nat)
    requires Inv(s) && Runs(s, steps) && i < j < |steps| && steps[i] == Free(EndFree)
    ensures !StartsCallback(steps[j])
    decreases i
  {
    StepKeeps(s, steps[0]);
    DetachedStep(s, steps[0]);
    if i > 0 {
      SilentAfterFree(Next(s, steps[0]), steps[1..], i - 1, j - 1);
    } else {
      SilentOnceDetached(Next(s, steps[0]), steps[1..], j - 1);
    }
  }

  // ---- The call of free returns ----

  /** How many steps are left at most until free returns, once it waits. */
  function Rank(s: State): nat {
    if s.owner.Freed? then 0
    else if s.stack != [] && Top(s.stack).Disowned? then 1
    else if OnTop(s, Disown) then 2
    else
      3 + match s.worker
          case NotDetached => 8 + s.stretch
          case HasRoom => 7 + s.stretch
          case Counted => 6 + s.stretch
          case Referenced => 5 + s.stretch
          case Reading => 3 + s.stretch
          case Leaving => 2
          case Dropped(_) => 1
          case Ended => 0
  }

  /** The owner waits for the worker, or has waited and is about to return. */
  predicate Waiting(s: State) {
    s.stack != [] && (Top(s.stack).Join? || Top(s.stack).Disown? || Top(s.stack).Disowned?)
  }

  /** Whatever is done while free waits brings it nearer to its return: only the worker can move, and it
      cannot read on for ever without seeing that it is to stop. */
  lemma EveryStepNearer(s: State, e: Step)
    requires Inv(s) && Waiting(s) && Enabled(s, e)
    ensures Rank(Next(s, e)) < Rank(s)
    ensures Waiting(Next(s, e)) || Next(s, e).owner.Freed?
  {
  }

  function NextStep(s: State): Step
    requires Waiting(s)
  {
    if Top(s.stack).Disown? then Free(OwnerDrop)
    else if Top(s.stack).Disowned? then Free(EndFree)
    else
      match s.worker
      case NotDetached => if s.pending < MAX_PENDING then Work(PostRoom) else Work(PostFull)
      case HasRoom => Work(PostCount)
      case Counted => Work(PostRef)
      case Referenced => Work(PostQueue)
      case Reading => if s.stretch == 0 then Work(LookFlag(0)) else Work(Access)
      case Leaving => Work(WorkerDrop)
      case Dropped(_) => Work(WorkerEnd)
      case Ended => Free(Joined)
  }

  /** There is always something that can be done: the worker never waits for the main thread. */
  lemma NeverStuck(s: State)
    requires Waiting(s)
    ensures Enabled(s, NextStep(s))
  {
  }

  /** Free has returned after so many steps. */
  ghost predicate ReturnedBy(s: State, steps: seq<Step>, i: nat)
    requires i <= |steps|
  {
    Runs(s, steps[..i]) && After(s, steps[..i]).owner.Freed?
  }

  ghost predicate ReturnedWithin(s: State, steps: seq<Step>, n: nat) {
    exists i | 0 <= i <= n && i <= |steps| :: ReturnedBy(s, steps, i)
  }

  /** A run from there sees free return, or is shorter than the rank by what is still left of it. */
  lemma {:induction false} ReturnedOrWaiting(s: State, steps: seq<Step>)
    requires Inv(s) && Waiting(s) && Runs(s, steps)
    ensures ReturnedWithin(s, steps, Rank(s)) ||
            (Waiting(After(s, steps)) && |steps| + Rank(After(s, steps)) <= Rank(s))
    decreases |steps|
  {
    if steps != [] {
      var e, t, rest := steps[0], Next(s, steps[0]), steps[1..];
      EveryStepNearer(s, e);
      StepKeeps(s, e);
      if t.owner.Freed? {
        ReturnedLater(s, steps, 0);
      } else {
        ReturnedOrWaiting(t, rest);
        if ReturnedWithin(t, rest, Rank(t)) {
          var i :| 0 <= i <= Rank(t) && i <= |rest| && ReturnedBy(t, rest, i);
          ReturnedLater(s, steps, i);
        }
      }
    }
  }

  lemma ReturnedLater(s: State, steps: seq<Step>, i: nat)
    requires Runs(s, steps) && steps != [] && i < |steps|
    requires if i == 0 then Next(s, steps[0]).owner.Freed? else ReturnedBy(Next(s, steps[0]), steps[1..], i)
    ensures ReturnedBy(s, steps, i + 1)
  {
    assert steps[..i + 1] == [steps[0]] + steps[1..][..i];
    Cons(s, steps[0], steps[1..][..i]);
  }

  lemma Cons(s: State, e: Step, rest: seq<Step>)
    ensures Enabled(s, e) ==> Runs(s, [e] + rest) == Runs(Next(s, e), rest)
    ensures Enabled(s, e) && Runs(Next(s, e), rest) ==> After(s, [e] + rest) == After(Next(s, e), rest)
  {
    assert ([e] + rest)[1..] == rest;
  }

  /** The call of free returns under every schedule: no more steps than the rank can be taken while it
      waits, and until it has returned some step can be taken. */
  lemma FreeReturns(steps: seq<Step>, more: seq<Step>)
    requires Runs(Init(), steps) && OnTop(After(Init(), steps), Join)
    requires Runs(After(Init(), steps), more)
    ensures var s := After(Init(), steps);
      && (|more| >= Rank(s) ==> ReturnedWithin(s, more, Rank(s)))
      && (!ReturnedWithin(s, more, |more|) ==> exists e :: Enabled(After(s, more), e))
  {
    InitInv();
    RunKeeps(Init(), steps);
    ReturnsFrom(After(Init(), steps), more);
  }

  lemma ReturnsFrom(s: State, more: seq<Step>)
    requires Inv(s) && Waiting(s) && Runs(s, more)
    ensures |more| >= Rank(s) ==> ReturnedWithin(s, more, Rank(s))
    ensures !ReturnedWithin(s, more, |more|) ==> exists e :: Enabled(After(s, more), e)
  {
    ReturnedOrWaiting(s, more);
    if !ReturnedWithin(s, more, Rank(s)) {
      RunKeeps(s, more);
      SomethingLeft(After(s, more));
      NeverStuck(After(s, more));
    }
  }

  lemma SomethingLeft(s: State)
    requires Inv(s) && Waiting(s)
    ensures Rank(s) > 0
  {
  }

  // ---- Every dispatch ends once ----

  function Posted(steps: seq<Step>): nat {
    if steps == [] then 0 else Posted(steps[1..]) + (if steps[0] == Work(PostQueue) then 1 else 0)
  }

  function Finished(steps: seq<Step>): nat {
    if steps == [] then 0 else Finished(steps[1..]) + (if steps[0] == Dispatch(DropRef) then 1 else 0)
  }

  lemma OneRun(s: State, d: DispatchStep)
    requires Inv(s) && DispatchCan(s, d)
    ensures var t := AfterDispatch(s, d);
      t.queue + CountTop(t.stack, HoldsRef)
      == s.queue + CountTop(s.stack, HoldsRef) - Bit(d == DropRef)
  {
  }

  lemma OneWork(s: State, w: WorkerStep)
    requires Inv(s) && WorkerCan(s, w)
    ensures var t := AfterWork(s, w);
      t.queue + CountTop(t.stack, HoldsRef) == s.queue + CountTop(s.stack, HoldsRef) + Bit(w == PostQueue)
  {
  }

  lemma OneFree(s: State, f: FreeStep)
    requires Inv(s) && FreeCan(s, f)
    ensures var t := AfterFree(s, f);
      t.queue + CountTop(t.stack, HoldsRef) == s.queue + CountTop(s.stack, HoldsRef)
  {
  }

  lemma OneDispatch(s: State, e: Step)
    requires Inv(s) && Enabled(s, e)
    ensures var t := Next(s, e);
      t.queue + CountTop(t.stack, HoldsRef)
      == s.queue + CountTop(s.stack, HoldsRef) + Bit(e == Work(PostQueue)) - Bit(e == Dispatch(DropRef))
  {
    match e
    case Work(w) => OneWork(s, w);
    case Free(f) => OneFree(s, f);
    case Dispatch(d) => OneRun(s, d);
    case _ =>
  }

  /** The dispatches posted are those finished and those still queued or running: postponing a
      dispatch because the page is busy neither loses nor doubles it. */
  lemma {:induction false} DispatchesConserved(s: State, steps: seq<Step>)
    requires Inv(s) && Runs(s, steps)
    ensures var t := After(s, steps);
      s.queue + Count(s.stack, HoldsRef) + Posted(steps)
      == Finished(steps) + t.queue + Count(t.stack, HoldsRef)
    decreases |steps|
  {
    if steps != [] {
      var t := Next(s, steps[0]);
      StepKeeps(s, steps[0]);
      OneDispatch(s, steps[0]);
      CountIsTop(s.stack, HoldsRef);
      CountIsTop(t.stack, HoldsRef);
      DispatchesConserved(t, steps[1..]);
    }
  }
}
