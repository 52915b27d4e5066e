/** How much a tick does of the low-priority requests, which it may be told to put off. */
module LaneLow {
  import opened Basics
  import opened CacheState
  import opened LaneControl
  import opened LaneInvariant
  import opened LaneTick
  import opened LaneTheorems

  /** The first request was executed, unless it is a lone thin one. */
  predicate Served(task: Task) {
    && (task.wide != [] ==> task.wideFate != [] && task.wideFate[0] == Executed)
    && (task.wide == [] && |task.thin| > 1 ==> task.thinFate != [] && task.thinFate[0] == Executed)
  }

  predicate Halfway(k: Control) { k.counter >= ThinCount(k, 1) / 2 }

  /** The low batch is cancelled only when a wide request of it is done, or half of its thin ones are drawn. */
  predicate CancelledLate(k: Control)
    requires 0 < |k.lanes|
  {
    match k.epoch
    case TaskTop(t) => t == 1 && k.lanes[0].pc.Waiting? ==> !k.cancelled
    case CancelSent(t) => t == 1 ==> !k.cancelled
    case CancelRead(t) => t == 1 ==> !k.cancelled
    case WideTop(t, idx) => t == 1 && idx == 0 ==> !k.cancelled
    case WideGo(t, idx) => t == 1 && idx == 0 ==> !k.cancelled
    case WideEnd(t, d) => t == 1 && d == 0 ==> WideCount(k, 1) == 0 && !k.cancelled
    case TakeSent(t, d) => t == 1 && d == 0 ==> WideCount(k, 1) == 0 && !k.cancelled
    case TakeRead(t, d) => t == 1 && d == 0 ==>
      && WideCount(k, 1) == 0 && (k.cancelled ==> Halfway(k))
      && forall i | 0 <= i < |k.lanes| && k.lanes[i].pc == SetCancel :: Halfway(k)
    case ThinEnd(t, d) => t == 1 && d == 0 ==> WideCount(k, 1) == 0 && Halfway(k)
    case ThinCounted(t, d) => t == 1 && d == 0 ==> WideCount(k, 1) == 0 && Halfway(k)
    case _ => true
  }

  /** The low batch is done with. */
  predicate AfterLow(k: Control)
    requires 0 < |k.lanes|
  {
    k.epoch == TaskEnd(1) || k.epoch == TasksEnd || (k.epoch.ThinCounted? && k.epoch.t == 1 && k.lanes[0].pc != Working)
  }

  ghost predicate LowOk(k: Control) {
    0 < |k.lanes| && CancelledLate(k) && (AfterLow(k) ==> |k.tasks| == TASKS && Served(k.tasks[1]))
  }

  // ---- acts ----

  lemma ArriveLow(k: Control, i: nat, high: bool)
    requires Aligned(k) && LowOk(k) && CanArrive(k, i)
    ensures LowOk(ArriveDo(k, i, high))
  {
    assert PcOk(k, i, k.lanes[i]) && PcOk(k, 0, k.lanes[0]);
    hide PcOk, Locals, Sent, NextSite, Served;
  }

  lemma ReleaseIs(k: Control)
    requires Aligned(k) && CanAct(k, Release)
    ensures
      var d := ReleaseDo(k);
      && 0 < |d.lanes| == |k.lanes| && d.epoch == Expected(k) && d.counter == k.counter && d.cancelled == k.cancelled
      && d.tasks == k.tasks && forall i | 0 <= i < |d.lanes| :: d.lanes[i].pc == Working
    ensures k.lanes[0].pc.Waiting? && (k.epoch.TakeRead? ==> k.cancelled || k.counter >= ThinCount(k, k.epoch.t))
  {
    assert PcOk(k, 0, k.lanes[0]);
    hide Expected;
  }

  lemma TaskBound(k: Control)
    requires TasksOk(k)
    ensures TaskOf(k.epoch).Some? ==> TaskOf(k.epoch).value < |k.tasks| == TASKS
  {
    hide SizesOk, CancelOk, CurrentOk, AllDone, AllExecuted, Untouched;
  }

  lemma ReleaseLow(k: Control)
    requires Aligned(k) && TasksOk(k) && LowOk(k) && CanAct(k, Release)
    ensures LowOk(ReleaseDo(k))
  {
    ReleaseIs(k);
    TaskBound(k);
    hide Aligned, TasksOk, Served, ReleaseDo;
  }

  /** Acts that leave epoch, counter and cancellation alone, and lane 0's pc where it matters. */
  predicate SameForLow(k: Control, d: Control) {
    && 0 < |k.lanes| == |d.lanes| && d.epoch == k.epoch && d.counter == k.counter && d.cancelled == k.cancelled
    && |d.tasks| == |k.tasks| && WideCount(d, 1) == WideCount(k, 1) && ThinCount(d, 1) == ThinCount(k, 1)
    && (forall i | 0 <= i < |k.lanes| && d.lanes[i].pc == SetCancel :: k.lanes[i].pc == SetCancel)
    && (k.epoch.TaskTop? && d.lanes[0].pc.Waiting? ==> k.lanes[0].pc.Waiting?)
    && (AfterLow(d) ==> AfterLow(k) && d.tasks == k.tasks)
  }

  lemma SameLow(k: Control, d: Control)
    requires LowOk(k) && SameForLow(k, d)
    ensures LowOk(d)
  {
    hide Served, AfterLow;
  }

  /** The acts of the thin loop. */
  lemma TopLow(k: Control, i: nat, high: bool)
    requires Aligned(k) && LowOk(k) && CanAct(k, ThinTop(i, high))
    ensures LowOk(Do(k, ThinTop(i, high)))
  {
  }

  lemma ThinCancelLow(k: Control, i: nat)
    requires Aligned(k) && LowOk(k) && CanAct(k, ThinCancel(i))
    ensures LowOk(Do(k, ThinCancel(i)))
  {
  }

  lemma TakeLow(k: Control, i: nat)
    requires Aligned(k) && LowOk(k) && CanAct(k, ThinTake(i))
    ensures LowOk(Do(k, ThinTake(i)))
  {
  }

  lemma DeferLow(k: Control)
    requires Aligned(k) && LocalsOk(k) && TasksOk(k) && LowOk(k) && CanAct(k, DeferRest)
    ensures LowOk(Do(k, DeferRest))
  {
    assert LocalOk(k.epoch, k.counter, 0, k.lanes[0], k.lanes[0]);
    DeferServes(k);
    hide Served, LocalOk;
  }

  lemma DeferServes(k: Control)
    requires Aligned(k) && TasksOk(k) && LowOk(k) && CanDefer(k) && k.lanes[0].thinDone == k.counter
    ensures k.epoch.ThinCounted? && k.epoch.t == 1 && |k.tasks| == TASKS && Served(DeferDo(k).tasks[1])
  {
    var task := k.tasks[1];
    assert WideSplit(task, k.epoch.done) && ThinSplit(k, task, k.counter);
    hide Aligned, TasksOk;
  }

  lemma WideLow(k: Control, a: Act)
    requires Aligned(k) && CanAct(k, a) && (a.WideFinish? || a.WideRetry? || a.WidePush?)
    ensures SameForLow(k, Do(k, a))
  {
    assert PcOk(k, 0, k.lanes[0]);
    hide PcOk;
  }

  lemma ThinLow(k: Control, a: Act)
    requires Aligned(k) && CanAct(k, a) && (a.ThinTest? || a.ThinFinish? || a.ThinRetry? || a.ThinPush?)
    ensures SameForLow(k, Do(k, a))
  {
    hide PcOk;
  }

  lemma RaiseLow(k: Control, i: nat)
    requires Aligned(k) && CanAct(k, Raise(i))
    ensures SameForLow(k, Do(k, Raise(i)))
  {
    assert PcOk(k, i, k.lanes[i]);
    hide Holds;
  }

  lemma RestLow(k: Control, a: Act)
    requires Aligned(k) && CanAct(k, a) && (a.Reset1? || a.Reset2? || a.Leave? || a.SetExit?)
    ensures SameForLow(k, Do(k, a))
  {
    assert PcOk(k, 0, k.lanes[0]);
    hide Holds;
  }

  lemma OtherLow(k: Control, a: Act)
    requires Aligned(k) && CanAct(k, a)
    requires !a.Arrive? && !a.Release? && !a.ThinTop? && !a.ThinCancel? && !a.ThinTake? && !a.DeferRest? && !a.Gather?
    ensures SameForLow(k, Do(k, a))
  {
    hide Aligned, CanAct, Do, SameForLow;
    match a {
      case Raise(i) => RaiseLow(k, i);
      case Reset1 => RestLow(k, a);
      case Reset2 => RestLow(k, a);
      case Leave(_) => RestLow(k, a);
      case SetExit => RestLow(k, a);
      case WideFinish => WideLow(k, a);
      case WideRetry => WideLow(k, a);
      case WidePush => WideLow(k, a);
      case _ => ThinLow(k, a);
    }
  }

  lemma ActLow(k: Control, a: Act)
    requires KInv(k) && LowOk(k) && CanAct(k, a)
    ensures LowOk(Do(k, a))
  {
    hide Aligned, LocalsOk, MemOk, TasksOk, LowOk, SameForLow;
    match a {
      case Arrive(i, high) => ArriveLow(k, i, high);
      case Release => ReleaseLow(k);
      case ThinTop(i, high) => TopLow(k, i, high);
      case ThinCancel(i) => ThinCancelLow(k, i);
      case ThinTake(i) => TakeLow(k, i);
      case DeferRest => DeferLow(k);
      case Gather(b) => GatherLow(k, b);
      case _ =>
        OtherLow(k, a);
        SameLow(k, Do(k, a));
    }
  }

  lemma GatherLow(k: Control, b: Batch)
    requires Aligned(k) && CanAct(k, Gather(b))
    ensures LowOk(Do(k, Gather(b)))
  {
  }

  // ---- runs ----

  lemma StepLow(s: System, step: Tick)
    requires KInv(s.k) && LowOk(s.k) && Enabled(s, step)
    ensures LowOk(Apply(s, step).k)
  {
    hide KInv, LowOk, Enabled, Apply, CanAct, Do, ActOf;
    Moves(s, step);
    if ActOf(s, step).Some? {
      ActLow(s.k, ActOf(s, step).value);
    }
  }

  lemma {:induction false} RunLow(s: System, steps: seq<Tick>, d: System)
    requires AllInv(s) && LowOk(s.k) && Runs(s, steps, d)
    ensures LowOk(d.k)
    decreases |steps|
  {
    hide AllInv, LowOk, Enabled, Apply;
    if steps != [] {
      LanesOk(s);
      StepLow(s, steps[0]);
      OneStep(s, steps[0]);
      RunLow(Apply(s, steps[0]), steps[1..], d);
    }
  }

  lemma LanesOk(s: System)
    requires AllInv(s)
    ensures KInv(s.k)
  {
    hide KInv, PoolIs;
  }

  /** Of a low-priority batch every tick executes the first wide request, or, when there is none, the first thin one of
      two or more, whenever it is told to stop. */
  lemma LowProgress(s: System, steps: seq<Tick>, d: System)
    requires Init(s) && Runs(s, steps, d) && d.k.epoch == TasksEnd
    ensures |d.k.tasks| == TASKS && Served(d.k.tasks[1])
  {
    InitLow(s);
    InitOk(s);
    hide Init, AllInv, Runs, Served;
    RunLow(s, steps, d);
  }

  lemma InitLow(s: System)
    requires Init(s)
    ensures LowOk(s.k)
  {
    hide CacheTheorems.Init;
  }
}
