/** What stops the low-priority requests of a tick, and that nothing else does: lane 0 seeing the high-priority flag
    before a wide request that is not the first, or a lane seeing it when half of the thin ones are drawn. */
module LaneStop {
  import opened Basics
  import opened CacheState
  import P = CacheProtocol
  import CacheTheorems
  import opened LaneControl
  import opened LaneInvariant
  import opened LaneTick
  import opened LaneTheorems

  /** What has been heard of high-priority work since the last gathering: the wide request lane 0 was about to begin,
      and whether some lane heard of it in the second half of the thin ones. */
  datatype Heard = Heard(wide: Option<nat>, thin: bool)

  const CALM := Heard(None, false)

  /** `high` is the flag at the moment of the act. */
  function Hears(k: Control, a: Act, h: Heard): Heard {
    if a.Gather? then CALM
    else if a.Arrive? && a.i == 0 && a.high && WideAhead(k).Some? then h.(wide := WideAhead(k))
    else if a.ThinTop? && a.high && SecondHalf(k, a.i) then h.(thin := true)
    else h
  }

  /** The low wide request, not the first, that lane 0 is at. */
  function WideAhead(k: Control): Option<nat> {
    if 0 < |k.lanes| && k.lanes[0].at.WideTop? && k.lanes[0].at.t == 1 && k.lanes[0].at.idx > 0
    then Some(k.lanes[0].at.idx) else None
  }

  /** Lane `i` is among the low thin requests, and half of them are drawn. */
  predicate SecondHalf(k: Control, i: nat) {
    && i < |k.lanes| && k.lanes[i].at.TakeRead? && k.lanes[i].at.t == 1
    && 1 < |k.tasks| && k.counter >= |k.tasks[1].thin| / 2
  }

  // ---- what follows from it ----

  /** The wide requests from the one heard at on are put off, and so are all thin ones then; the wide ones before are
      executed, and all thin ones if nothing was heard. */
  predicate Told(ts: seq<Task>, h: Heard) {
    && |ts| == TASKS
    && (forall j | 0 <= j < |ts[1].wideFate| ::
          ts[1].wideFate[j] == if h.wide.Some? && j >= h.wide.value then Deferred else Executed)
    && (h.wide.Some? ==> forall j | 0 <= j < |ts[1].thinFate| :: ts[1].thinFate[j] == Deferred)
    && (h == CALM ==> forall j | 0 <= j < |ts[1].thinFate| :: ts[1].thinFate[j] == Executed)
  }

  predicate Cause(k: Control, h: Heard, i: nat) {
    !h.thin && if h.wide.Some? then h.wide.value == i && k.cancelled else !k.cancelled
  }

  /** Draws no ticket and holds none. */
  predicate Still(l: Lane) { l.pc == Working || l.pc == SetCancel || l.pc == TestCancel || l.pc.Waiting? }

  predicate InThin(k: Control, h: Heard, d: nat) {
    if h.wide.Some? then h.wide.value == d && k.counter == 0 && k.cancelled
    else d == WideCount(k, 1) && (k.cancelled ==> h.thin)
  }

  predicate Drawing(k: Control, h: Heard, d: nat) {
    && InThin(k, h, d)
    && if h.wide.Some? then forall i | 0 <= i < |k.lanes| :: Still(k.lanes[i])
       else forall i | 0 <= i < |k.lanes| && k.lanes[i].pc == SetCancel :: h.thin
  }

  predicate Follows(k: Control, h: Heard)
    requires 0 < |k.lanes|
  {
    match k.epoch
    case Begin => k.tasks == [] && h == CALM
    case LoopTop =>
      if k.lanes[0].pc == Working then (k.tasks == [] && h == CALM) || Told(k.tasks, h) else h == CALM
    case TaskTop(t) => h == CALM && (t == 1 && k.lanes[0].pc.Waiting? ==> !k.cancelled)
    case CancelSent(t) => h == CALM && (t == 1 ==> !k.cancelled)
    case CancelRead(t) => h == CALM && (t == 1 ==> !k.cancelled)
    case WideTop(t, i) => if t == 1 then Cause(k, h, i) && (k.lanes[0].pc == Working ==> h == CALM) else h == CALM
    case WideGo(t, i) => if t == 1 then Cause(k, h, i) else h == CALM
    case WideDone(t, i) => h == CALM && (t == 1 ==> !k.cancelled)
    case WideEnd(t, d) => if t == 1 then Cause(k, h, d) else h == CALM
    case TakeSent(t, d) => if t == 1 then Cause(k, h, d) else h == CALM
    case TakeRead(t, d) => if t == 1 then Drawing(k, h, d) else h == CALM
    case ThinEnd(t, d) => if t == 1 then InThin(k, h, d) else h == CALM
    case ThinCounted(t, d) =>
      if t == 1 then if k.lanes[0].pc == Working then InThin(k, h, d) else Told(k.tasks, h) else h == CALM
    case TaskEnd(t) => if t == 1 then Told(k.tasks, h) else h == CALM
    case TasksEnd => Told(k.tasks, h)
    case TickEnd => Told(k.tasks, h)
    case ExitSent => Told(k.tasks, h)
    case ExitRead => Told(k.tasks, h)
    case _ => h == CALM
  }

  ghost predicate StopOk(k: Control, h: Heard) { 0 < |k.lanes| && Follows(k, h) }

  // ---- acts ----

  lemma ArriveStops(k: Control, i: nat, high: bool, h: Heard)
    requires Aligned(k) && StopOk(k, h) && CanArrive(k, i)
    ensures StopOk(ArriveDo(k, i, high), Hears(k, Arrive(i, high), h))
  {
    assert PcOk(k, i, k.lanes[i]) && PcOk(k, 0, k.lanes[0]);
    hide PcOk, Locals, Sent, NextSite, Told;
  }

  predicate TaskInRange(k: Control) {
    TaskOf(k.epoch).Some? ==> TaskOf(k.epoch).value < |k.tasks| == TASKS
  }

  lemma ReleaseStops(k: Control, h: Heard)
    requires Aligned(k) && CancelOk(k) && TaskInRange(k) && StopOk(k, h) && CanAct(k, Release)
    ensures StopOk(ReleaseDo(k), h)
  {
    ReleaseEpoch(k);
    hide Aligned, Told, ReleaseDo;
  }

  lemma TopStops(k: Control, i: nat, high: bool, h: Heard)
    requires Aligned(k) && TaskInRange(k) && StopOk(k, h) && CanAct(k, ThinTop(i, high))
    ensures StopOk(Do(k, ThinTop(i, high)), Hears(k, ThinTop(i, high), h))
  {
    hide PcOk, Told;
  }

  lemma ThinStops(k: Control, a: Act, h: Heard)
    requires Aligned(k) && StopOk(k, h) && CanAct(k, a) && (a.ThinCancel? || a.ThinTest? || a.ThinTake?)
    ensures StopOk(Do(k, a), h)
  {
    hide PcOk, Told;
  }

  lemma DeferStops(k: Control, h: Heard)
    requires Aligned(k) && LocalsOk(k) && TasksOk(k) && StopOk(k, h) && CanDefer(k)
    ensures StopOk(DeferDo(k), h)
  {
    assert LocalOk(k.epoch, k.counter, 0, k.lanes[0], k.lanes[0]);
    var task := k.tasks[1];
    assert WideSplit(task, k.epoch.done) && ThinSplit(k, task, k.counter);
  }

  lemma GatherStops(k: Control, b: Batch, h: Heard)
    requires Aligned(k) && CanAct(k, Gather(b))
    ensures StopOk(GatherDo(k, b), CALM)
  {
  }

  lemma WideStops(k: Control, a: Act, h: Heard)
    requires Aligned(k) && StopOk(k, h) && CanAct(k, a) && (a.WideRetry? || WideAct(a))
    ensures StopOk(Do(k, a), h)
  {
    assert PcOk(k, 0, k.lanes[0]);
    hide PcOk, Told;
  }

  lemma ThinWorkStops(k: Control, a: Act, h: Heard)
    requires Aligned(k) && StopOk(k, h) && CanAct(k, a) && (a.ThinRetry? || ThinAct(a))
    ensures StopOk(Do(k, a), h)
  {
    hide PcOk, Told;
  }

  lemma RaiseStops(k: Control, i: nat, h: Heard)
    requires Aligned(k) && StopOk(k, h) && CanAct(k, Raise(i))
    ensures StopOk(Do(k, Raise(i)), h)
  {
    assert PcOk(k, i, k.lanes[i]);
    hide Holds, Told;
  }

  lemma RestStops(k: Control, a: Act, h: Heard)
    requires Aligned(k) && StopOk(k, h) && CanAct(k, a) && (a.Reset1? || a.Reset2? || a.Leave? || a.SetExit?)
    ensures StopOk(Do(k, a), h)
  {
    assert PcOk(k, 0, k.lanes[0]);
    hide Holds, Told;
  }

  lemma ActStops(k: Control, a: Act, h: Heard)
    requires KInv(k) && StopOk(k, h) && CanAct(k, a)
    ensures StopOk(Do(k, a), Hears(k, a, h))
  {
    Ranges(k);
    hide Aligned, LocalsOk, MemOk, TasksOk, CancelOk, StopOk, TaskInRange;
    match a {
      case Arrive(i, high) => ArriveStops(k, i, high, h);
      case Release => ReleaseStops(k, h);
      case ThinTop(i, high) => TopStops(k, i, high, h);
      case ThinCancel(_) => ThinStops(k, a, h);
      case ThinTest(_) => ThinStops(k, a, h);
      case ThinTake(_) => ThinStops(k, a, h);
      case DeferRest => DeferStops(k, h);
      case Gather(b) => GatherStops(k, b, h);
      case Raise(i) => RaiseStops(k, i, h);
      case WideFinish => WideStops(k, a, h);
      case WideRetry => WideStops(k, a, h);
      case WidePush => WideStops(k, a, h);
      case ThinFinish(_) => ThinWorkStops(k, a, h);
      case ThinRetry(_) => ThinWorkStops(k, a, h);
      case ThinPush(_) => ThinWorkStops(k, a, h);
      case _ => RestStops(k, a, h);
    }
  }

  lemma Ranges(k: Control)
    requires TasksOk(k)
    ensures TaskInRange(k) && CancelOk(k)
  {
    hide SizesOk, CancelOk, CurrentOk, AllDone, AllExecuted, Untouched;
  }

  // ---- runs ----

  /** What a step adds to what has been heard: the flag itself, at the step where a lane reads it. */
  function Listens(s: System, step: Tick, h: Heard): Heard {
    if step.GatherBatch? then CALM
    else if !step.Quiet? || !s.cache.high then h
    else if step.a.Arrive? && step.a.i == 0 && WideAhead(s.k).Some? then h.(wide := WideAhead(s.k))
    else if step.a.ThinTop? && SecondHalf(s.k, step.a.i) then h.(thin := true)
    else h
  }

  /** What is heard along a run. */
  ghost function HeardOf(s: System, steps: seq<Tick>, h: Heard): Heard
    decreases |steps|
  {
    if steps == [] || !Enabled(s, steps[0]) then h
    else HeardOf(Apply(s, steps[0]), steps[1..], Listens(s, steps[0], h))
  }

  lemma ListensIsHears(s: System, step: Tick, h: Heard)
    requires Enabled(s, step)
    ensures Listens(s, step, h) == if ActOf(s, step).Some? then Hears(s.k, ActOf(s, step).value, h) else h
  {
    hide CanAct, WideAhead, SecondHalf, P.Enabled;
  }

  lemma StepStops(s: System, step: Tick, h: Heard)
    requires KInv(s.k) && StopOk(s.k, h) && Enabled(s, step)
    ensures StopOk(Apply(s, step).k, Listens(s, step, h))
  {
    hide KInv, StopOk, Enabled, Apply, CanAct, Do, ActOf, Listens, Hears;
    Moves(s, step);
    ListensIsHears(s, step, h);
    if ActOf(s, step).Some? {
      ActStops(s.k, ActOf(s, step).value, h);
    }
  }

  lemma {:induction false} RunStops(s: System, steps: seq<Tick>, d: System, h: Heard)
    requires AllInv(s) && StopOk(s.k, h) && Runs(s, steps, d)
    ensures AllInv(d) && StopOk(d.k, HeardOf(s, steps, h))
    decreases |steps|
  {
    hide AllInv, StopOk, Enabled, Apply, Listens;
    if steps != [] {
      InvControl(s);
      StepStops(s, steps[0], h);
      OneStep(s, steps[0]);
      RunStops(Apply(s, steps[0]), steps[1..], d, Listens(s, steps[0], h));
    }
  }

  lemma InvControl(s: System)
    requires AllInv(s)
    ensures KInv(s.k)
  {
    hide KInv, PoolIs;
  }

  lemma InitStops(s: System)
    requires Init(s)
    ensures StopOk(s.k, CALM)
  {
    hide CacheTheorems.Init;
  }

  /** At the end of a tick's requests, whatever the run: the low wide requests from one on are deferred exactly if lane
      0 read the flag before it began that one, which is not the first; then all thin ones are deferred. Without that
      all wide ones are executed, and all thin ones unless some lane read the flag in their second half. */
  lemma DeferredExactly(s: System, steps: seq<Tick>, d: System, h: Heard)
    requires Init(s) && Runs(s, steps, d) && d.k.epoch == TasksEnd && h == HeardOf(s, steps, CALM)
    ensures |d.k.tasks| == TASKS
    ensures
      var low := d.k.tasks[1];
      && (forall j | 0 <= j < |low.wideFate| ::
            low.wideFate[j] == if h.wide.Some? && j >= h.wide.value then Deferred else Executed)
      && (h.wide.Some? ==> forall j | 0 <= j < |low.thinFate| :: low.thinFate[j] == Deferred)
      && (h == CALM ==> forall j | 0 <= j < |low.thinFate| :: low.thinFate[j] == Executed)
  {
    hide *;
    InitOk(s);
    InitStops(s);
    RunStops(s, steps, d, CALM);
    AllTold(d.k, h);
  }

  lemma AllTold(k: Control, h: Heard)
    requires StopOk(k, h) && k.epoch == TasksEnd
    ensures |k.tasks| == TASKS
    ensures
      var low := k.tasks[1];
      && (forall j | 0 <= j < |low.wideFate| ::
            low.wideFate[j] == if h.wide.Some? && j >= h.wide.value then Deferred else Executed)
      && (h.wide.Some? ==> forall j | 0 <= j < |low.thinFate| :: low.thinFate[j] == Deferred)
      && (h == CALM ==> forall j | 0 <= j < |low.thinFate| :: low.thinFate[j] == Executed)
  {
  }

  /** Nothing of the low batch from wide request `i` on is executed, and no lane has a thin ticket of it. */
  ghost predicate StoppedAt(k: Control, i: nat) {
    && |k.tasks| == TASKS
    && (forall j | i <= j < |k.tasks[1].wideFate| :: k.tasks[1].wideFate[j] != Executed)
    && (forall j | 0 <= j < |k.tasks[1].thinFate| :: k.tasks[1].thinFate[j] != Executed)
    && (forall l | 0 <= l < |k.lanes| && k.lanes[l].at.TakeRead? && k.lanes[l].at.t == 1 ::
          !k.lanes[l].pc.Running? && !k.lanes[l].pc.Returning? && k.lanes[l].pc != Take)
    && (k.epoch == TasksEnd ==>
          && (forall j | i <= j < |k.tasks[1].wideFate| :: k.tasks[1].wideFate[j] == Deferred)
          && (forall j | 0 <= j < |k.tasks[1].thinFate| :: k.tasks[1].thinFate[j] == Deferred))
  }

  lemma HeardStops(k: Control, h: Heard, i: nat)
    requires Aligned(k) && TasksOk(k) && StopOk(k, h) && h.wide == Some(i)
    ensures StoppedAt(k, i)
  {
    if TaskOf(k.epoch).Some? && !HasDeferred(k) {
      assert WideSplit(k.tasks[1], WideCursor(k)) && ThinSplit(k, k.tasks[1], ThinCursor(k));
    }
  }

  /** Lane 0 hears of it once: the wide loop is left then. */
  lemma HeardOnce(s: System, step: Tick, h: Heard)
    requires Aligned(s.k) && StopOk(s.k, h) && h.wide.Some? && Enabled(s, step) && !step.GatherBatch?
    ensures Listens(s, step, h).wide == h.wide
  {
    hide PcOk, Told, P.Enabled, SecondHalf;
  }

  lemma {:induction false} HeardKeeps(s: System, steps: seq<Tick>, d: System, h: Heard)
    requires AllInv(s) && StopOk(s.k, h) && h.wide.Some? && Runs(s, steps, d) && GatherBatch !in steps
    ensures HeardOf(s, steps, h).wide == h.wide
    decreases |steps|
  {
    hide KInv, Aligned, AllInv, StopOk, Enabled, Apply, Listens;
    if steps != [] {
      InvControl(s);
      InvAligned(s.k);
      HeardOnce(s, steps[0], h);
      StepStops(s, steps[0], h);
      OneStep(s, steps[0]);
      HeardKeeps(Apply(s, steps[0]), steps[1..], d, Listens(s, steps[0], h));
    }
  }

  lemma InvAligned(k: Control)
    requires KInv(k)
    ensures Aligned(k) && TasksOk(k)
  {
    hide Aligned, LocalsOk, MemOk, TasksOk;
  }

  /** Once lane 0 comes to low wide request `i`, not the first, while the flag is up, nothing of the batch from there on
      is executed and no thin ticket is drawn, in any run until the next gathering; all of it is deferred. */
  lemma StopsAtOnce(s: System, steps: seq<Tick>, c: System, x: bool, more: seq<Tick>, d: System, i: nat)
    requires Init(s) && Runs(s, steps, c) && c.cache.high && Enabled(c, Quiet(Arrive(0, x)))
    requires c.k.lanes[0].at == WideTop(1, i) && i > 0
    requires Runs(Apply(c, Quiet(Arrive(0, x))), more, d) && GatherBatch !in more
    ensures StoppedAt(d.k, i)
  {
    hide *;
    var step, h := Quiet(Arrive(0, x)), HeardOf(s, steps, CALM);
    InitOk(s);
    InitStops(s);
    RunStops(s, steps, c, CALM);
    ReadsFlag(c, x, i, h);
    StopsAfter(c, step, more, d, h, i);
  }

  lemma ReadsFlag(c: System, x: bool, i: nat, h: Heard)
    requires Enabled(c, Quiet(Arrive(0, x))) && c.cache.high && c.k.lanes[0].at == WideTop(1, i) && i > 0
    ensures Listens(c, Quiet(Arrive(0, x)), h).wide == Some(i)
  {
  }

  lemma StopsAfter(c: System, step: Tick, more: seq<Tick>, d: System, h: Heard, i: nat)
    requires AllInv(c) && StopOk(c.k, h) && Enabled(c, step) && Listens(c, step, h).wide == Some(i)
    requires Runs(Apply(c, step), more, d) && GatherBatch !in more
    ensures StoppedAt(d.k, i)
  {
    hide *;
    InvControl(c);
    OneStep(c, step);
    StepStops(c, step, h);
    HeardKeeps(Apply(c, step), more, d, Listens(c, step, h));
    RunStops(Apply(c, step), more, d, Listens(c, step, h));
    InvControl(d);
    InvAligned(d.k);
    HeardStops(d.k, HeardOf(Apply(c, step), more, Listens(c, step, h)), i);
  }

  // ---- a lane in the thin loop ----

  /** Lane `i` is on its way out of the low thin requests, or out of them, and the next gathering has not begun. */
  predicate OnItsWay(k: Control, i: nat) {
    && 0 < |k.lanes| && i < |k.lanes|
    && match k.epoch
       case TakeRead(t, _) =>
         && t == 1
         && (k.lanes[i].pc == SetCancel || (k.cancelled && (k.lanes[i].pc == TestCancel || k.lanes[i].pc.Waiting?)))
       case ThinEnd(t, _) => t == 1
       case ThinCounted(t, _) => t == 1
       case TaskEnd(t) => t == 1
       case LoopTop => k.lanes[0].pc == Working
       case _ => k.epoch == TasksEnd || k.epoch == TickEnd || k.epoch == ExitSent || k.epoch == ExitRead
  }

  lemma GoesOnReleased(k: Control, i: nat)
    requires Aligned(k) && OnItsWay(k, i) && CanAct(k, Release)
    ensures OnItsWay(Do(k, Release), i)
  {
    ReleaseEpoch(k);
    assert PcOk(k, 0, k.lanes[0]);
    hide Aligned, ReleaseDo;
  }

  lemma GoesOnThin(k: Control, a: Act, i: nat)
    requires Aligned(k) && OnItsWay(k, i) && CanAct(k, a)
    requires a.ThinTop? || a.ThinCancel? || a.ThinTest? || a.ThinTake?
    ensures OnItsWay(Do(k, a), i) && a != ThinTake(i)
  {
    hide PcOk;
  }

  lemma GoesOnWork(k: Control, a: Act, i: nat)
    requires Aligned(k) && OnItsWay(k, i) && CanAct(k, a) && (a.ThinRetry? || ThinAct(a))
    ensures OnItsWay(Do(k, a), i)
  {
    hide PcOk;
  }

  lemma GoesOnElse(k: Control, a: Act, i: nat)
    requires Aligned(k) && OnItsWay(k, i) && CanAct(k, a) && !a.Gather? && !a.Release?
    requires !a.ThinTop? && !a.ThinCancel? && !a.ThinTest? && !a.ThinTake? && !a.ThinRetry? && !ThinAct(a)
    ensures OnItsWay(Do(k, a), i)
  {
    assert PcOk(k, i, k.lanes[i]) && PcOk(k, 0, k.lanes[0]);
    hide PcOk, Locals, Sent, NextSite;
  }

  lemma GoesOn(k: Control, a: Act, i: nat)
    requires Aligned(k) && OnItsWay(k, i) && CanAct(k, a) && !a.Gather?
    ensures OnItsWay(Do(k, a), i) && a != ThinTake(i)
  {
    hide Aligned, OnItsWay, Do, CanAct;
    if a.Release? {
      GoesOnReleased(k, i);
    } else if a.ThinTop? || a.ThinCancel? || a.ThinTest? || a.ThinTake? {
      GoesOnThin(k, a, i);
    } else if a.ThinRetry? || ThinAct(a) {
      GoesOnWork(k, a, i);
    } else {
      GoesOnElse(k, a, i);
    }
  }

  lemma GoesOnStep(s: System, step: Tick, i: nat)
    requires KInv(s.k) && OnItsWay(s.k, i) && Enabled(s, step) && !step.GatherBatch?
    ensures OnItsWay(Apply(s, step).k, i) && step != Quiet(ThinTake(i))
  {
    InvAligned(s.k);
    hide KInv, OnItsWay, Enabled, Apply, CanAct, Do, Aligned;
    Moves(s, step);
    if ActOf(s, step).Some? {
      GoesOn(s.k, ActOf(s, step).value, i);
    }
  }

  lemma {:induction false} GoesOnRun(s: System, steps: seq<Tick>, d: System, i: nat)
    requires AllInv(s) && OnItsWay(s.k, i) && Runs(s, steps, d) && GatherBatch !in steps
    ensures Quiet(ThinTake(i)) !in steps
    decreases |steps|
  {
    hide AllInv, OnItsWay, Enabled, Apply;
    if steps != [] {
      assert steps == [steps[0]] + steps[1..];
      InvControl(s);
      GoesOnStep(s, steps[0], i);
      OneStep(s, steps[0]);
      GoesOnRun(Apply(s, steps[0]), steps[1..], d, i);
    }
  }

  /** A lane that comes to the low thin requests while the flag is up and half of them are drawn draws no more of that
      batch. */
  lemma LaneLeaves(s: System, steps: seq<Tick>, c: System, i: nat, x: bool, more: seq<Tick>, d: System)
    requires Init(s) && Runs(s, steps, c) && c.cache.high && Enabled(c, Quiet(ThinTop(i, x)))
    requires SecondHalf(c.k, i)
    requires Runs(Apply(c, Quiet(ThinTop(i, x))), more, d) && GatherBatch !in more
    ensures Quiet(ThinTake(i)) !in more
  {
    hide *;
    var step := Quiet(ThinTop(i, x));
    InitOk(s);
    RunKeeps(s, steps, c);
    InvControl(c);
    InvAligned(c.k);
    TurnsAway(c, i, x);
    OneStep(c, step);
    GoesOnRun(Apply(c, step), more, d, i);
  }

  lemma TurnsAway(c: System, i: nat, x: bool)
    requires Aligned(c.k) && c.cache.high && Enabled(c, Quiet(ThinTop(i, x))) && SecondHalf(c.k, i)
    ensures OnItsWay(Apply(c, Quiet(ThinTop(i, x))).k, i)
  {
    hide PcOk;
  }
}
