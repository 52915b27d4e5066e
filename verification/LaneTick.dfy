/** The whole system: client threads, the cancellation thread and the lanes of the tick loop, over one cache. */
module LaneTick {
  import opened Basics
  import opened CacheState
  import P = CacheProtocol
  import CacheInvariant
  import CacheTheorems
  import opened LaneControl
  import opened LaneInvariant

  datatype System = System(cache: Cache, k: Control)

  /** One atomic step. Those of the lanes pair a control act with what it does to the cache. */
  datatype Tick =
    | Env(step: P.Step)
    | Quiet(a: Act)
    | ResetLoop | ResetPriority
    | EvictOne(i: nat, s: Slot, j: nat)
    | GatherBatch
    | FinishWide(val: Artifact, gen: int) | DropWide | PushWide
    | FinishThin(i: nat, val: Artifact, gen: int) | DropThin(i: nat) | PushThin(i: nat)
    | RaiseFlag(i: nat)
    | DeferTask

  // ---- the requests the lanes are on ----

  function WideRequest(k: Control, pc: Pc): Request
    requires WideTurn(k, pc)
  {
    k.tasks[k.lanes[0].at.t].wide[k.lanes[0].at.idx]
  }

  function ThinRequest(k: Control, i: nat): Request
    requires i < |k.lanes| && ThinTurn(k, i, k.lanes[i].pc)
  {
    k.tasks[k.lanes[i].at.t].thin[k.lanes[i].pc.j]
  }

  function RestWide(k: Control): seq<Request>
    requires CanDefer(k)
  {
    k.tasks[k.lanes[0].at.t].wide[k.lanes[0].at.done..]
  }

  function RestThin(k: Control): seq<Request>
    requires CanDefer(k)
  {
    var thin := k.tasks[k.lanes[0].at.t].thin;
    thin[Min(k.lanes[0].thinDone, |thin|)..]
  }

  function NextBatch(k: Control): nat { if 0 < |k.lanes| && k.lanes[0].pc == Working then 0 else 1 }

  predicate Signalled(c: Cache, r: Request) { r.signal in c.table.heap && c.table.heap[r.signal].cancelled }

  // ---- steps ----

  predicate IsEnv(step: P.Step) {
    step.Fast? || step.Acquire? || step.SetAgain? || step.SetHigh? || step.Check? || step.CloseTouch? || step.Cancel?
  }

  /** Acts that leave the cache alone; a retry first reads the request's cancel signal. */
  predicate IsQuiet(s: System, a: Act)
    requires CanAct(s.k, a)
  {
    match a
    case Arrive(_, high) => high == s.cache.high
    case Release => true
    case WideRetry => !Signalled(s.cache, WideRequest(s.k, Working))
    case ThinTop(_, high) => high == s.cache.high
    case ThinCancel(_) => true
    case ThinTest(_) => true
    case ThinTake(_) => true
    case ThinRetry(i) => !Signalled(s.cache, ThinRequest(s.k, i))
    case Leave(_) => true
    case SetExit => true
    case _ => false
  }

  function ActOf(s: System, step: Tick): Option<Act> {
    match step
    case Env(_) => None
    case Quiet(a) => Some(a)
    case ResetLoop => Some(Reset1)
    case ResetPriority => Some(Reset2)
    case EvictOne(_, _, _) => None
    case GatherBatch => Some(Gather(s.cache.batches[NextBatch(s.k)]))
    case FinishWide(_, _) => Some(WideFinish)
    case DropWide => Some(WideFinish)
    case PushWide => Some(WidePush)
    case FinishThin(i, _, _) => Some(ThinFinish(i))
    case DropThin(i) => Some(ThinFinish(i))
    case PushThin(i) => Some(ThinPush(i))
    case RaiseFlag(i) => Some(Raise(i))
    case DeferTask => Some(DeferRest)
  }

  /** Completions take the stripe's lock, so they wait for a client that holds it. */
  predicate Unlocked(c: Cache, r: Request) { KeyStripe(c.table.cfg, r.key) !in c.writer }

  ghost predicate Enabled(s: System, step: Tick) {
    && (ActOf(s, step).Some? ==> CanAct(s.k, ActOf(s, step).value))
    && match step
       case Env(e) => IsEnv(e) && P.Enabled(s.cache, e)
       case Quiet(a) => IsQuiet(s, a)
       case EvictOne(i, sl, j) =>
         i < |s.k.lanes| && s.k.lanes[i].at == LoopTop && s.k.lanes[i].pc == Working
           && P.Enabled(s.cache, P.Evict(sl, j))
       case FinishWide(_, _) => Unlocked(s.cache, WideRequest(s.k, Working))
       case DropWide => Signalled(s.cache, WideRequest(s.k, Working))
       case FinishThin(i, _, _) => Unlocked(s.cache, ThinRequest(s.k, i))
       case DropThin(i) => Signalled(s.cache, ThinRequest(s.k, i))
       case _ => true
  }

  /** The cache region a step runs, if it runs one. Nothing here says the region is enabled: that a lane only
      finishes, drops, queues or defers requests that are still its to handle is a theorem (Refines). */
  ghost function RegionOf(s: System, step: Tick): Option<P.Step>
    requires Enabled(s, step)
  {
    match step
    case Env(e) => Some(e)
    case Quiet(_) => None
    case ResetLoop => Some(P.ResetAgain)
    case ResetPriority => Some(P.ResetHigh)
    case EvictOne(_, sl, j) => Some(P.Evict(sl, j))
    case GatherBatch => Some(P.Gather(NextBatch(s.k)))
    case FinishWide(val, gen) => Some(P.Complete(WideRequest(s.k, Working), val, gen))
    case DropWide => Some(P.DropRetry(WideRequest(s.k, Working)))
    case PushWide => Some(P.Resubmit(WideRequest(s.k, Resubmitting), s.k.lanes[0].at.t, true))
    case FinishThin(i, val, gen) => Some(P.Complete(ThinRequest(s.k, i), val, gen))
    case DropThin(i) => Some(P.DropRetry(ThinRequest(s.k, i)))
    case PushThin(i) => Some(P.Resubmit(ThinRequest(s.k, i), s.k.lanes[i].at.t, false))
    case RaiseFlag(_) => Some(P.RaiseAgain)
    case DeferTask => Some(P.Defer(s.k.lanes[0].at.t, RestWide(s.k), RestThin(s.k)))
  }

  ghost function Region(c: Cache, step: Option<P.Step>): Cache {
    if step.Some? && P.Enabled(c, step.value) then P.Apply(c, step.value) else c
  }

  ghost function Apply(s: System, step: Tick): System
    requires Enabled(s, step)
  {
    System(Region(s.cache, RegionOf(s, step)),
           if ActOf(s, step).Some? then Do(s.k, ActOf(s, step).value) else s.k)
  }

  // ---- the pool is what the gathered tasks still have pending ----

  function LeftList(rs: seq<Request>, fs: seq<Fate>): seq<multiset<Request>> {
    seq(|rs|, i requires 0 <= i < |rs| => if i < |fs| && fs[i] == Pending then multiset{rs[i]} else multiset{})
  }

  function Left(rs: seq<Request>, fs: seq<Fate>): multiset<Request> { Sum(LeftList(rs, fs)) }

  function TaskLeft(t: Task): multiset<Request> { Left(t.wide, t.wideFate) + Left(t.thin, t.thinFate) }

  function LeftTasks(ts: seq<Task>): seq<multiset<Request>> {
    seq(|ts|, i requires 0 <= i < |ts| => TaskLeft(ts[i]))
  }

  function PoolOf(ts: seq<Task>): multiset<Request> { Sum(LeftTasks(ts)) }

  ghost predicate SInv(s: System) {
    KInv(s.k) && CacheInvariant.CacheInv(s.cache) && PoolIs(s)
  }

  lemma LeftSettle(rs: seq<Request>, fs: seq<Fate>, j: nat, f: Fate)
    requires j < |rs| == |fs| && fs[j] == Pending && f != Pending
    ensures rs[j] in Left(rs, fs) && Left(rs, fs[j := f]) == Left(rs, fs) - multiset{rs[j]}
  {
    var ms := LeftList(rs, fs);
    assert LeftList(rs, fs[j := f]) == ms[j := multiset{}];
    SumUpdate(ms, j, multiset{});
    assert ms[j] == multiset{rs[j]};
  }

  lemma TaskSettle(ts: seq<Task>, t: nat, task: Task, x: multiset<Request>)
    requires t < |ts| && x <= TaskLeft(ts[t]) && TaskLeft(task) == TaskLeft(ts[t]) - x
    ensures x <= PoolOf(ts) && PoolOf(ts[t := task]) == PoolOf(ts) - x
  {
    var ms := LeftTasks(ts);
    assert LeftTasks(ts[t := task]) == ms[t := TaskLeft(task)];
    SumUpdate(ms, t, TaskLeft(task));
    SwapPart(Sum(ms), ms[t], x);
  }

  lemma SwapPart<T>(a: multiset<T>, b: multiset<T>, x: multiset<T>)
    requires x <= b <= a
    ensures x <= a && a - b + (b - x) == a - x
  {
  }

  lemma PartOfLeft<T>(a: multiset<T>, b: multiset<T>, x: T)
    ensures x in a ==> multiset{x} <= a + b && (a - multiset{x}) + b == a + b - multiset{x}
    ensures x in b ==> multiset{x} <= a + b && a + (b - multiset{x}) == a + b - multiset{x}
  {
  }

  lemma WideSettles(ts: seq<Task>, t: nat, j: nat)
    requires t < |ts| && TaskOk(ts[t]) && j < |ts[t].wide| && ts[t].wideFate[j] == Pending
    ensures
      var r := ts[t].wide[j];
      r in PoolOf(ts) && PoolOf(ts[t := ts[t].(wideFate := ts[t].wideFate[j := Executed])]) == PoolOf(ts) - multiset{r}
  {
    var task := ts[t];
    LeftSettle(task.wide, task.wideFate, j, Executed);
    PartOfLeft(Left(task.wide, task.wideFate), Left(task.thin, task.thinFate), task.wide[j]);
    TaskSettle(ts, t, task.(wideFate := task.wideFate[j := Executed]), multiset{task.wide[j]});
  }

  lemma ThinSettles(ts: seq<Task>, t: nat, j: nat)
    requires t < |ts| && TaskOk(ts[t]) && j < |ts[t].thin| && ts[t].thinFate[j] == Pending
    ensures
      var r := ts[t].thin[j];
      r in PoolOf(ts) && PoolOf(ts[t := ts[t].(thinFate := ts[t].thinFate[j := Executed])]) == PoolOf(ts) - multiset{r}
  {
    var task := ts[t];
    LeftSettle(task.thin, task.thinFate, j, Executed);
    PartOfLeft(Left(task.wide, task.wideFate), Left(task.thin, task.thinFate), task.thin[j]);
    TaskSettle(ts, t, task.(thinFate := task.thinFate[j := Executed]), multiset{task.thin[j]});
  }

  lemma {:induction false} LeftIsRest(rs: seq<Request>, fs: seq<Fate>, w: nat)
    requires |fs| == |rs| && w <= |rs|
    requires forall j | 0 <= j < |fs| :: fs[j] == Pending <==> j >= w
    ensures Left(rs, fs) == multiset(rs[w..])
    decreases |rs|
  {
    hide *;
    if rs == [] {
      assert rs[w..] == [];
      LeftEmpty(fs);
    } else {
      var n := |rs| - 1;
      LeftLast(rs, fs);
      if w <= n {
        LeftIsRest(rs[..n], fs[..n], w);
        RestGrows(rs, w);
      } else {
        LeftIsRest(rs[..n], fs[..n], n);
        assert rs[..n][n..] == [] && rs[w..] == [];
      }
    }
  }

  lemma LeftEmpty(fs: seq<Fate>)
    requires fs == []
    ensures Left([], fs) == multiset{}
  {
  }

  lemma RestGrows(rs: seq<Request>, w: nat)
    requires w < |rs|
    ensures multiset(rs[w..]) == multiset(rs[..|rs| - 1][w..]) + multiset{rs[|rs| - 1]}
  {
    hide *;
    assert rs[w..] == rs[..|rs| - 1][w..] + [rs[|rs| - 1]];
  }

  lemma LeftLast(rs: seq<Request>, fs: seq<Fate>)
    requires |fs| == |rs| > 0
    ensures
      var n := |rs| - 1;
      Left(rs, fs) == Left(rs[..n], fs[..n]) + if fs[n] == Pending then multiset{rs[n]} else multiset{}
  {
    assert LeftList(rs, fs)[..|rs| - 1] == LeftList(rs[..|rs| - 1], fs[..|rs| - 1]);
  }

  lemma DoneIsEmpty(ts: seq<Task>)
    requires forall t | 0 <= t < |ts| :: TaskOk(ts[t]) && AllDone(ts[t])
    ensures PoolOf(ts) == multiset{}
  {
    forall t | 0 <= t < |ts| ensures LeftTasks(ts)[t] == multiset{} {
      LeftIsRest(ts[t].wide, ts[t].wideFate, |ts[t].wide|);
      LeftIsRest(ts[t].thin, ts[t].thinFate, |ts[t].thin|);
    }
    CacheTheorems.SumEmpty(LeftTasks(ts));
  }

  lemma NewTaskLeft(b: Batch)
    ensures TaskLeft(NewTask(b)) == Queued(b)
  {
    LeftIsRest(b.wide, NewTask(b).wideFate, 0);
    LeftIsRest(b.thin, NewTask(b).thinFate, 0);
    assert b.wide[0..] == b.wide && b.thin[0..] == b.thin;
  }

  lemma PoolAppend(ts: seq<Task>, t: Task)
    ensures PoolOf(ts + [t]) == PoolOf(ts) + TaskLeft(t)
  {
    var ms := LeftTasks(ts + [t]);
    assert ms[..|ms| - 1] == LeftTasks(ts);
  }

  // ---- the pending requests of the current task ----

  /** When lane 0 defers, what the task still has pending is exactly what it pushes back. */
  lemma RestIsLeft(k: Control)
    requires Aligned(k) && LocalsOk(k) && TasksOk(k) && CanDefer(k)
    ensures TaskLeft(k.tasks[k.lanes[0].at.t]) == multiset(RestWide(k)) + multiset(RestThin(k))
  {
    var task := k.tasks[k.lanes[0].at.t];
    assert LocalOk(k.epoch, k.counter, 0, k.lanes[0], k.lanes[0]);
    assert WideSplit(task, WideCursor(k)) && ThinSplit(k, task, ThinCursor(k));
    LeftIsRest(task.wide, task.wideFate, k.lanes[0].at.done);
    LeftIsRest(task.thin, task.thinFate, Min(k.lanes[0].thinDone, |task.thin|));
  }

  lemma DeferSettles(k: Control)
    requires Aligned(k) && LocalsOk(k) && TasksOk(k) && CanDefer(k)
    ensures
      var rest := multiset(RestWide(k)) + multiset(RestThin(k));
      k.lanes[0].at.t < TASKS && rest <= PoolOf(k.tasks) && PoolOf(DeferDo(k).tasks) == PoolOf(k.tasks) - rest
  {
    var t := k.lanes[0].at.t;
    RestIsLeft(k);
    DeferTasks(k);
    var task := DeferDo(k).tasks[t];
    DoneIsNothing(task);
    TaskSettle(k.tasks, t, task, TaskLeft(k.tasks[t]));
  }

  lemma DoneIsNothing(t: Task)
    requires TaskOk(t) && AllDone(t)
    ensures TaskLeft(t) == multiset{}
  {
    LeftIsRest(t.wide, t.wideFate, |t.wide|);
    LeftIsRest(t.thin, t.thinFate, |t.thin|);
  }

  lemma WideIsPending(k: Control, pc: Pc)
    requires Aligned(k) && TasksOk(k) && WideTurn(k, pc) && (pc == Resubmitting || (pc == Working && !k.cancelled))
    ensures WideRequest(k, pc) in PoolOf(k.tasks) && k.lanes[0].at.t < TASKS
    ensures
      var e := k.lanes[0].at;
      PoolOf(SetWideFate(k, e.t, e.idx, Executed).tasks) == PoolOf(k.tasks) - multiset{WideRequest(k, pc)}
  {
    WideTasks(k, if pc == Resubmitting then WidePush else WideFinish);
    WideSettles(k.tasks, k.lanes[0].at.t, k.lanes[0].at.idx);
  }

  lemma ThinIsPending(k: Control, i: nat)
    requires Aligned(k) && TasksOk(k) && i < |k.lanes| && ThinTurn(k, i, k.lanes[i].pc)
    ensures ThinRequest(k, i) in PoolOf(k.tasks) && k.lanes[i].at.t < TASKS
    ensures
      var t, j := k.lanes[i].at.t, k.lanes[i].pc.j;
      PoolOf(SetThinFate(k, t, j, Executed).tasks) == PoolOf(k.tasks) - multiset{ThinRequest(k, i)}
  {
    assert PcOk(k, i, k.lanes[i]);
    ThinSettles(k.tasks, k.lanes[i].at.t, k.lanes[i].pc.j);
  }

  ghost predicate RegionOk(s: System, step: Tick)
    requires Enabled(s, step)
  {
    RegionOf(s, step).Some? ==> P.Enabled(s.cache, RegionOf(s, step).value)
  }

  predicate IsWide(step: Tick) { step.FinishWide? || step.DropWide? || step.PushWide? }

  predicate IsThin(step: Tick) { step.FinishThin? || step.DropThin? || step.PushThin? }

  ghost predicate PoolIs(s: System) { s.cache.pool == PoolOf(s.k.tasks) }

  lemma WideRefines(s: System, step: Tick)
    requires Aligned(s.k) && TasksOk(s.k) && PoolIs(s) && IsWide(step) && Enabled(s, step)
    ensures RegionOk(s, step)
  {
    hide Aligned, TasksOk, LeftTasks, Sum;
    WideIsPending(s.k, if step.PushWide? then Resubmitting else Working);
  }

  lemma ThinRefines(s: System, step: Tick)
    requires Aligned(s.k) && TasksOk(s.k) && PoolIs(s) && IsThin(step) && Enabled(s, step)
    ensures RegionOk(s, step)
  {
    hide Aligned, TasksOk, LeftTasks, Sum;
    ThinIsPending(s.k, step.i);
  }

  lemma DeferRefines(s: System)
    requires Aligned(s.k) && LocalsOk(s.k) && TasksOk(s.k) && PoolIs(s) && Enabled(s, DeferTask)
    ensures RegionOk(s, DeferTask)
  {
    hide Aligned, LocalsOk, TasksOk, LeftTasks, Sum;
    DeferSettles(s.k);
  }

  lemma OtherRefines(s: System, step: Tick)
    requires Enabled(s, step) && !IsWide(step) && !IsThin(step) && !step.DeferTask?
    ensures RegionOk(s, step)
  {
  }

  /** Refinement: every step of the lanes is a step of the cache protocol. A lane finishes, drops, queues
      again or defers only requests that are still pending, each of them once. */
  lemma Refines(s: System, step: Tick)
    requires SInv(s) && Enabled(s, step)
    ensures RegionOf(s, step).Some? ==> P.Enabled(s.cache, RegionOf(s, step).value)
  {
    assert RegionOk(s, step) by {
      hide Enabled, RegionOk;
      if IsWide(step) {
        WideRefines(s, step);
      } else if IsThin(step) {
        ThinRefines(s, step);
      } else if step.DeferTask? {
        DeferRefines(s);
      } else {
        OtherRefines(s, step);
      }
    }
  }

  // ---- the pool follows the tasks ----

  lemma SettledPool(c: Cache, e: P.Step)
    requires P.Enabled(c, e) && (e.Complete? || e.DropRetry? || e.Resubmit?)
    ensures P.Apply(c, e).pool == c.pool - multiset{e.r}
  {
  }

  lemma WidePool(s: System, step: Tick)
    requires Aligned(s.k) && TasksOk(s.k) && PoolIs(s) && IsWide(step) && Enabled(s, step)
    ensures PoolIs(Apply(s, step))
  {
    hide Aligned, TasksOk, PoolOf, P.Apply, P.Enabled;
    WideRefines(s, step);
    SettledPool(s.cache, RegionOf(s, step).value);
    WideIsPending(s.k, if step.PushWide? then Resubmitting else Working);
  }

  lemma ThinPool(s: System, step: Tick)
    requires Aligned(s.k) && TasksOk(s.k) && PoolIs(s) && IsThin(step) && Enabled(s, step)
    ensures PoolIs(Apply(s, step))
  {
    hide Aligned, TasksOk, PoolOf, P.Apply, P.Enabled;
    ThinRefines(s, step);
    SettledPool(s.cache, RegionOf(s, step).value);
    ThinIsPending(s.k, step.i);
  }

  lemma DeferPool(s: System)
    requires Aligned(s.k) && LocalsOk(s.k) && TasksOk(s.k) && PoolIs(s) && Enabled(s, DeferTask)
    ensures PoolIs(Apply(s, DeferTask))
  {
    hide Aligned, LocalsOk, TasksOk, PoolOf, P.Apply, P.Enabled;
    DeferRefines(s);
    DeferredPool(s.cache, RegionOf(s, DeferTask).value);
    DeferSettles(s.k);
  }

  lemma DeferredPool(c: Cache, e: P.Step)
    requires P.Enabled(c, e) && e.Defer?
    ensures P.Apply(c, e).pool == c.pool - (multiset(e.restWide) + multiset(e.restThin))
  {
  }

  /** Before the first batch of a tick is gathered nothing of the last tick is pending. */
  lemma GatheredPool(k: Control, b: Batch)
    requires Aligned(k) && TasksOk(k) && CanAct(k, Gather(b))
    ensures PoolOf(GatherDo(k, b).tasks) == PoolOf(k.tasks) + Queued(b)
  {
    NewTaskLeft(b);
    if k.lanes[0].pc == Working {
      DoneIsEmpty(k.tasks);
      PoolAppend([], NewTask(b));
      assert [] + [NewTask(b)] == [NewTask(b)];
    } else {
      PoolAppend(k.tasks, NewTask(b));
    }
  }

  lemma GatherPool(s: System)
    requires Aligned(s.k) && TasksOk(s.k) && PoolIs(s) && Enabled(s, GatherBatch)
    ensures PoolIs(Apply(s, GatherBatch))
  {
    hide Aligned, TasksOk, LeftTasks, Sum;
    GatheredPool(s.k, s.cache.batches[NextBatch(s.k)]);
  }

  lemma TakePool(k: Control, i: nat)
    requires CanAct(k, ThinTake(i))
    ensures PoolOf(TakeDo(k, i).tasks) == PoolOf(k.tasks)
  {
    assert LeftTasks(TakeDo(k, i).tasks) == LeftTasks(k.tasks);
  }

  lemma QuietPool(s: System, a: Act)
    requires CanAct(s.k, a) && IsQuiet(s, a)
    ensures PoolOf(Do(s.k, a).tasks) == PoolOf(s.k.tasks)
  {
    hide PoolOf;
    match a {
      case ThinTake(i) => TakePool(s.k, i);
      case _ =>
    }
  }

  /** A step that works on no gathered request. */
  predicate IsOther(step: Tick) { !IsWide(step) && !IsThin(step) && !step.DeferTask? && !step.GatherBatch? }

  lemma RegionPool(c: Cache, e: P.Step)
    requires P.Enabled(c, e) && (IsEnv(e) || e.Evict? || e.RaiseAgain? || e.ResetAgain? || e.ResetHigh?)
    ensures P.Apply(c, e).pool == c.pool
  {
  }

  lemma OtherPool(s: System, step: Tick)
    requires PoolIs(s) && Enabled(s, step) && IsOther(step)
    ensures PoolIs(Apply(s, step))
  {
    hide PoolOf, P.Apply, CanAct, Do, IsQuiet;
    OtherRefines(s, step);
    match step {
      case Env(e) => RegionPool(s.cache, e);
      case Quiet(a) => QuietPool(s, a);
      case ResetLoop => RegionPool(s.cache, P.ResetAgain); ResetPool(s.k, Reset1);
      case ResetPriority => RegionPool(s.cache, P.ResetHigh); ResetPool(s.k, Reset2);
      case EvictOne(_, sl, j) => RegionPool(s.cache, P.Evict(sl, j));
      case RaiseFlag(i) => RegionPool(s.cache, P.RaiseAgain); ResetPool(s.k, Raise(i));
    }
  }

  lemma ResetPool(k: Control, a: Act)
    requires CanAct(k, a) && (a.Reset1? || a.Reset2? || a.Raise?)
    ensures Do(k, a).tasks == k.tasks
  {
  }

  lemma PoolKeeps(s: System, step: Tick)
    requires KInv(s.k) && PoolIs(s) && Enabled(s, step)
    ensures PoolIs(Apply(s, step))
  {
    hide PoolIs, Enabled, Apply, Aligned, LocalsOk, TasksOk, MemOk;
    if IsWide(step) {
      WidePool(s, step);
    } else if IsThin(step) {
      ThinPool(s, step);
    } else if step.DeferTask? {
      DeferPool(s);
    } else if step.GatherBatch? {
      GatherPool(s);
    } else {
      OtherPool(s, step);
    }
  }

  lemma CacheKeeps(c: Cache, step: Option<P.Step>)
    requires CacheInvariant.CacheInv(c)
    ensures CacheInvariant.CacheInv(Region(c, step))
  {
    if step.Some? && P.Enabled(c, step.value) {
      CacheInvariant.StepKeeps(c, step.value);
    }
  }

  /** Every step of anybody keeps the cache's invariant, the lanes' alignment and broadcasts, and the
      account of every gathered request. */
  lemma TickKeeps(s: System, step: Tick)
    requires SInv(s) && Enabled(s, step)
    ensures SInv(Apply(s, step))
  {
    hide KInv, PoolIs, CacheInvariant.CacheInv, Region, RegionOf, ActOf, CanAct, Do;
    PoolKeeps(s, step);
    CacheKeeps(s.cache, RegionOf(s, step));
    if ActOf(s, step).Some? {
      ActKeeps(s.k, ActOf(s, step).value);
    }
  }
}
