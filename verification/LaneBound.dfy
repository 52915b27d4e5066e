/** Every schedule of a tick is finite: a measure that each lane step lowers. */
module LaneBound {
  import opened LaneControl
  import opened LaneInvariant
  import opened LaneTick

  /** Barriers still to pass from `e` to the end of the tick, with `w0` and `w1` wide requests in the tasks. */
  function AfterTask(t: nat, w1: nat): nat { if t == 0 then 3 * w1 + 11 else 2 }

  function ToWide(w: nat, idx: nat): nat { if idx < w then 3 * (w - idx) else 0 }

  function Wides(t: nat, w0: nat, w1: nat): nat { if t == 0 then w0 else w1 }

  function BarriersAt(e: Site, w0: nat, w1: nat): nat {
    match e
    case LoopTop => 3 * w1 + 3 * w0 + 25
    case TasksSent => 3 * w1 + 3 * w0 + 24
    case TasksRead => 3 * w1 + 3 * w0 + 23
    case CountSent => 3 * w1 + 3 * w0 + 22
    case CountRead => 3 * w1 + 3 * w0 + 21
    case Gathered => 3 * w1 + 3 * w0 + 20
    case TaskTop(t) => AfterTask(t, w1) + ToWide(Wides(t, w0, w1), 0) + 8
    case CancelSent(t) => AfterTask(t, w1) + ToWide(Wides(t, w0, w1), 0) + 7
    case CancelRead(t) => AfterTask(t, w1) + ToWide(Wides(t, w0, w1), 0) + 6
    case WideTop(t, idx) => AfterTask(t, w1) + ToWide(Wides(t, w0, w1), idx) + 5
    case WideGo(t, idx) => AfterTask(t, w1) + ToWide(Wides(t, w0, w1), idx) + 4
    case WideDone(t, idx) => AfterTask(t, w1) + ToWide(Wides(t, w0, w1), idx) + 3
    case WideEnd(t, _) => AfterTask(t, w1) + 5
    case TakeSent(t, _) => AfterTask(t, w1) + 4
    case TakeRead(t, _) => AfterTask(t, w1) + 3
    case ThinEnd(t, _) => AfterTask(t, w1) + 2
    case ThinCounted(t, _) => AfterTask(t, w1) + 1
    case TaskEnd(t) => AfterTask(t, w1)
    case TasksEnd => 1
    case _ => 0
  }

  function BarriersLeft(k: Control): nat { BarriersAt(k.epoch, WideCount(k, 0), WideCount(k, 1)) }

  /** Thin tickets nobody has drawn yet. */
  function TicketsLeft(k: Control): nat {
    if k.epoch.TakeRead? && k.counter < ThinCount(k, k.epoch.t) then ThinCount(k, k.epoch.t) - k.counter else 0
  }

  const RANKS: nat := 12

  /** How far a lane is from its next barrier, tickets aside. */
  function PcRank(l: Lane): (r: nat)
    ensures r <= RANKS
  {
    match l.pc
    case Working => if l.at.TakeRead? then 5 else 12
    case Resubmitting => 11
    case Running(_) => 9
    case Returning(_) => 8
    case Raising => 7
    case SetCancel => 4
    case TestCancel => 3
    case Take => 2
    case AfterReset => 1
    case SecondBatch => 12
    case Sending => 11
    case Waiting(_) => 0
    case Exited => 0
  }

  function RankSum(ls: seq<Lane>): nat {
    if ls == [] then 0 else RankSum(ls[..|ls| - 1]) + PcRank(ls[|ls| - 1])
  }

  lemma {:induction false} RankUpdate(ls: seq<Lane>, i: nat, l: Lane)
    requires i < |ls|
    ensures RankSum(ls[i := l]) == RankSum(ls) - PcRank(ls[i]) + PcRank(l)
  {
    var last := |ls| - 1;
    if i == last {
      assert ls[i := l][..last] == ls[..last];
    } else {
      assert ls[i := l][..last] == ls[..last][i := l];
      RankUpdate(ls[..last], i, l);
    }
  }

  lemma {:induction false} RankBound(ls: seq<Lane>)
    ensures RankSum(ls) <= RANKS * |ls|
  {
    if ls != [] {
      RankBound(ls[..|ls| - 1]);
    }
  }

  /** All tickets of a tick, whichever task they belong to. */
  function AllTickets(k: Control): nat { ThinCount(k, 0) + ThinCount(k, 1) }

  /** Two counters in one, the second at most `m`. */
  function Pair(b: nat, c: nat, m: nat): nat { b * (m + 1) + c }

  function Measure(k: Control): nat {
    Pair(Pair(BarriersLeft(k), TicketsLeft(k), AllTickets(k)), RankSum(k.lanes), RANKS * |k.lanes|)
  }

  /** Tasks and lanes of the same sizes. */
  predicate SameSizes(k: Control, d: Control) {
    && |d.lanes| == |k.lanes|
    && WideCount(d, 0) == WideCount(k, 0) && WideCount(d, 1) == WideCount(k, 1)
    && ThinCount(d, 0) == ThinCount(k, 0) && ThinCount(d, 1) == ThinCount(k, 1)
  }

  lemma PairLess(b: nat, c: nat, b': nat, c': nat, m: nat)
    requires c <= m && c' <= m && (b' < b || (b' == b && c' < c))
    ensures Pair(b', c', m) < Pair(b, c, m)
  {
    if b' < b {
      assert (b' + 1) * (m + 1) <= b * (m + 1);
    }
  }

  /** The three parts of the measure, compared in order. */
  predicate Lower(k: Control, d: Control) {
    || BarriersLeft(d) < BarriersLeft(k)
    || (BarriersLeft(d) == BarriersLeft(k) && TicketsLeft(d) < TicketsLeft(k))
    || (BarriersLeft(d) == BarriersLeft(k) && TicketsLeft(d) == TicketsLeft(k) && RankSum(d.lanes) < RankSum(k.lanes))
  }

  lemma LowerMeasure(k: Control, d: Control)
    requires SameSizes(k, d) && Lower(k, d) && TicketsLeft(k) <= AllTickets(k) && TicketsLeft(d) <= AllTickets(d)
    ensures Measure(d) < Measure(k)
  {
    hide Pair, BarriersLeft, TicketsLeft;
    RankBound(k.lanes);
    RankBound(d.lanes);
    var m, n := AllTickets(k), RANKS * |k.lanes|;
    if BarriersLeft(d) == BarriersLeft(k) && TicketsLeft(d) == TicketsLeft(k) {
      PairLess(Pair(BarriersLeft(k), TicketsLeft(k), m), RankSum(k.lanes),
               Pair(BarriersLeft(k), TicketsLeft(k), m), RankSum(d.lanes), n);
    } else {
      PairLess(BarriersLeft(k), TicketsLeft(k), BarriersLeft(d), TicketsLeft(d), m);
      PairLess(Pair(BarriersLeft(k), TicketsLeft(k), m), RankSum(k.lanes),
               Pair(BarriersLeft(d), TicketsLeft(d), m), RankSum(d.lanes), n);
    }
  }

  lemma TicketsBounded(k: Control)
    requires TasksOk(k)
    ensures TicketsLeft(k) <= AllTickets(k)
  {
  }

  // ---- every act of a lane lowers the measure ----

  /** A barrier inside a tick, of one of its two tasks. */
  predicate SiteOk(k: Control) {
    && (InTick(k.epoch) || k.epoch == TasksSent || k.epoch == LoopTop)
    && (TaskOf(k.epoch).Some? ==> TaskOf(k.epoch).value < TASKS)
    && (k.epoch.WideTop? || k.epoch.WideGo? || k.epoch.WideDone? ==> k.epoch.idx < WideCount(k, k.epoch.t))
  }

  lemma TickSite(k: Control)
    requires TasksOk(k) && HasTasks(k)
    ensures SiteOk(k)
  {
  }

  lemma WideLower(k: Control, d: Control)
    requires SiteOk(k) && d.tasks == k.tasks && d.epoch == Expected(k)
    requires k.epoch.CancelRead? || k.epoch.WideTop? || k.epoch.WideGo? || k.epoch.WideDone?
    ensures BarriersLeft(d) < BarriersLeft(k)
  {
    assert WideCount(k, k.epoch.t) == Wides(k.epoch.t, WideCount(k, 0), WideCount(k, 1));
  }

  /** Outside the wide loop the next barrier is given by this one alone. */
  lemma PlainLower(e: Site, n: Site, w0: nat, w1: nat, k: Control)
    requires e == k.epoch && n == Expected(k) && (TaskOf(e).Some? ==> TaskOf(e).value < TASKS)
    requires InTick(e) || e == TasksSent || e == LoopTop
    requires !e.CancelRead? && !e.WideTop? && !e.WideGo? && !e.WideDone?
    ensures BarriersAt(n, w0, w1) < BarriersAt(e, w0, w1)
  {
    hide NextWide;
  }

  lemma SiteLower(k: Control, d: Control)
    requires SiteOk(k) && d.tasks == k.tasks && d.epoch == Expected(k)
    ensures BarriersLeft(d) < BarriersLeft(k)
  {
    if k.epoch.CancelRead? || k.epoch.WideTop? || k.epoch.WideGo? || k.epoch.WideDone? {
      WideLower(k, d);
    } else {
      hide Expected, BarriersAt, InTick;
      PlainLower(k.epoch, d.epoch, WideCount(k, 0), WideCount(k, 1), k);
    }
  }

  lemma ReleaseLower(k: Control)
    requires Aligned(k) && TasksOk(k) && HasTasks(k) && CanAct(k, Release)
    ensures SameSizes(k, ReleaseDo(k)) && Lower(k, ReleaseDo(k))
  {
    hide Aligned, TasksOk, HasTasks, BarriersLeft, SiteOk;
    ReleaseEpoch(k);
    TickSite(k);
    SiteLower(k, ReleaseDo(k));
  }

  lemma OneLower(k: Control, d: Control, i: nat)
    requires i < |k.lanes| == |d.lanes| && d.lanes == k.lanes[i := d.lanes[i]]
    requires BarriersLeft(d) == BarriersLeft(k)
    requires TicketsLeft(d) < TicketsLeft(k)
             || (TicketsLeft(d) == TicketsLeft(k) && PcRank(d.lanes[i]) < PcRank(k.lanes[i]))
    ensures Lower(k, d)
  {
    RankUpdate(k.lanes, i, d.lanes[i]);
  }

  lemma ArriveLower(k: Control, i: nat, high: bool)
    requires Aligned(k) && TasksOk(k) && HasTasks(k) && CanArrive(k, i)
    ensures SameSizes(k, ArriveDo(k, i, high)) && Lower(k, ArriveDo(k, i, high))
  {
    hide Lower, BarriersAt;
    OneLower(k, ArriveDo(k, i, high), i);
  }

  lemma LeaderLower(k: Control, a: Act)
    requires Aligned(k) && TasksOk(k) && HasTasks(k) && CanAct(k, a)
    requires a.WideFinish? || a.WideRetry? || a.WidePush? || a.DeferRest?
    ensures SameSizes(k, Do(k, a)) && Lower(k, Do(k, a))
  {
    hide Lower, BarriersAt;
    OneLower(k, Do(k, a), 0);
  }

  predicate InThin(a: Act) {
    a.ThinTop? || a.ThinCancel? || a.ThinTest? || a.ThinTake? || a.ThinFinish? || a.ThinRetry? || a.ThinPush?
  }

  lemma ThinTask(k: Control)
    requires TasksOk(k) && k.epoch.TakeRead?
    ensures k.epoch.t < |k.tasks| && TaskOk(k.tasks[k.epoch.t])
  {
  }

  lemma TakeLower(k: Control, i: nat)
    requires k.epoch.TakeRead? && k.epoch.t < |k.tasks| && TaskOk(k.tasks[k.epoch.t])
    requires InThinLoop(k, i, Take) && k.lanes[i].at == k.epoch
    ensures SameSizes(k, TakeDo(k, i)) && Lower(k, TakeDo(k, i))
  {
    hide Lower, BarriersAt;
    OneLower(k, TakeDo(k, i), i);
  }

  lemma ThinLower(k: Control, a: Act)
    requires k.epoch.TakeRead? && k.epoch.t < |k.tasks| && TaskOk(k.tasks[k.epoch.t])
    requires CanAct(k, a) && InThin(a) && k.lanes[a.i].at == k.epoch
    ensures SameSizes(k, Do(k, a)) && Lower(k, Do(k, a))
  {
    hide Lower, BarriersAt, TakeDo, SameSizes;
    if a.ThinTake? {
      TakeLower(k, a.i);
    } else if a.ThinFinish? || a.ThinPush? {
      SettleLower(k, a);
    } else {
      MoveLower(k, a);
    }
  }

  lemma SettleLower(k: Control, a: Act)
    requires k.epoch.TakeRead? && CanAct(k, a) && (a.ThinFinish? || a.ThinPush?) && k.lanes[a.i].at == k.epoch
    ensures SameSizes(k, Do(k, a)) && Lower(k, Do(k, a))
  {
    hide Lower, BarriersAt;
    OneLower(k, Do(k, a), a.i);
  }

  lemma MoveLower(k: Control, a: Act)
    requires k.epoch.TakeRead? && CanAct(k, a) && (a.ThinTop? || a.ThinCancel? || a.ThinTest? || a.ThinRetry?)
    requires k.lanes[a.i].at == k.epoch
    ensures SameSizes(k, Do(k, a)) && Lower(k, Do(k, a))
  {
    hide Lower, BarriersAt;
    OneLower(k, Do(k, a), a.i);
  }

  lemma RaiseLower(k: Control, i: nat)
    requires CanAct(k, Raise(i)) && k.lanes[i].at == k.epoch && PcOk(k, i, k.lanes[i])
    ensures SameSizes(k, RaiseDo(k, i)) && Lower(k, RaiseDo(k, i))
  {
    hide Lower, BarriersAt;
    OneLower(k, RaiseDo(k, i), i);
  }

  lemma LoopLower(k: Control, a: Act)
    requires Aligned(k) && TasksOk(k) && CanAct(k, a) && (InThin(a) || a.Raise?)
    ensures SameSizes(k, Do(k, a)) && Lower(k, Do(k, a))
  {
    hide TasksOk, SameSizes, Lower;
    assert PcOk(k, a.i, k.lanes[a.i]);
    if a.Raise? {
      RaiseLower(k, a.i);
    } else {
      ThinTask(k);
      ThinLower(k, a);
    }
  }

  lemma ActLower(k: Control, a: Act)
    requires Aligned(k) && TasksOk(k) && HasTasks(k) && CanAct(k, a) && !a.SetExit?
    ensures SameSizes(k, Do(k, a)) && Lower(k, Do(k, a))
  {
    hide Aligned, TasksOk, Lower, SameSizes, HasTasks;
    NotBetween(k, a);
    match a {
      case Release => ReleaseLower(k);
      case Arrive(i, high) => ArriveLower(k, i, high);
      case WideFinish => LeaderLower(k, a);
      case WideRetry => LeaderLower(k, a);
      case WidePush => LeaderLower(k, a);
      case DeferRest => LeaderLower(k, a);
      case Raise(_) => LoopLower(k, a);
      case ThinTop(_, _) => LoopLower(k, a);
      case ThinCancel(_) => LoopLower(k, a);
      case ThinTest(_) => LoopLower(k, a);
      case ThinTake(_) => LoopLower(k, a);
      case ThinFinish(_) => LoopLower(k, a);
      case ThinRetry(_) => LoopLower(k, a);
      case ThinPush(_) => LoopLower(k, a);
    }
  }

  /** Between the gathering of the second batch and the end of the tick nobody gathers, resets or leaves. */
  lemma NotBetween(k: Control, a: Act)
    requires Aligned(k) && HasTasks(k) && CanAct(k, a)
    ensures !a.Gather? && !a.Reset1? && !a.Reset2? && !a.Leave?
  {
    assert PcOk(k, 0, k.lanes[0]);
  }

  // ---- a whole tick ----

  predicate OfLane(step: Tick) { !step.Env? && !step.EvictOne? && step != Quiet(SetExit) }

  function LaneSteps(steps: seq<Tick>): nat {
    if steps == [] then 0 else (if OfLane(steps[0]) then 1 else 0) + LaneSteps(steps[1..])
  }

  /** A run between the gathering of a tick's batches and the tick's end, clients and all. */
  ghost predicate Within(s: System, steps: seq<Tick>, d: System)
    decreases |steps|
  {
    if steps == [] then d == s
    else 0 < |s.k.lanes| && HasTasks(s.k) && Enabled(s, steps[0]) && Within(Apply(s, steps[0]), steps[1..], d)
  }

  lemma StepLower(s: System, step: Tick)
    requires SInv(s) && 0 < |s.k.lanes| && HasTasks(s.k) && Enabled(s, step)
    ensures
      var d := Apply(s, step);
      SameSizes(s.k, d.k) && if OfLane(step) then Lower(s.k, d.k) else d.k == s.k.(exiting := d.k.exiting)
  {
    hide Lower, SameSizes, Aligned, LocalsOk, TasksOk, MemOk, PoolIs, HasTasks, Region;
    if OfLane(step) {
      LaneActs(s, step);
      hide Do, CanAct, Region, RegionOf, ActOf, Enabled;
      ActLower(s.k, ActOf(s, step).value);
    } else {
      ExitSizes(s.k);
    }
  }

  lemma LaneActs(s: System, step: Tick)
    requires OfLane(step) && Enabled(s, step)
    ensures ActOf(s, step).Some? && !ActOf(s, step).value.SetExit? && CanAct(s.k, ActOf(s, step).value)
    ensures Apply(s, step).k == Do(s.k, ActOf(s, step).value)
  {
  }

  lemma ExitSizes(k: Control)
    ensures SameSizes(k, k) && SameSizes(k, k.(exiting := true))
  {
  }

  lemma ExitMeasure(k: Control, x: bool)
    ensures Measure(k.(exiting := x)) == Measure(k)
  {
    hide Pair, BarriersAt;
  }

  lemma StepMeasure(s: System, step: Tick)
    requires SInv(s) && 0 < |s.k.lanes| && HasTasks(s.k) && Enabled(s, step)
    ensures Measure(Apply(s, step).k) + (if OfLane(step) then 1 else 0) <= Measure(s.k)
  {
    hide Measure, Lower, PoolIs, HasTasks, Enabled, Apply, Aligned, LocalsOk, MemOk, TasksOk, BarriersAt, TicketsLeft;
    StepLower(s, step);
    var d := Apply(s, step);
    if OfLane(step) {
      TickKeeps(s, step);
      TicketsBounded(s.k);
      TicketsBounded(d.k);
      LowerMeasure(s.k, d.k);
    } else {
      ExitMeasure(s.k, d.k.exiting);
    }
  }

  /** However lanes, clients and the cancellation thread interleave, and whenever the tick is cancelled, the
      lanes take at most `Measure` steps before the tick is over. */
  lemma {:induction false} TicksEnd(s: System, steps: seq<Tick>, d: System)
    requires SInv(s) && Within(s, steps, d)
    ensures LaneSteps(steps) + Measure(d.k) <= Measure(s.k)
    decreases |steps|
  {
    hide SInv, Measure, HasTasks, Enabled, Apply, OfLane;
    if steps != [] {
      StepMeasure(s, steps[0]);
      TickKeeps(s, steps[0]);
      TicksEnd(Apply(s, steps[0]), steps[1..], d);
    }
  }
}
