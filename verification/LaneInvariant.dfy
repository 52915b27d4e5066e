/** Every act of any lane keeps the lanes aligned, the broadcasts intact and every gathered request accounted for. */
module LaneInvariant {
  import opened Basics
  import opened CacheState
  import opened LaneControl

  /** The barrier that follows `k.epoch`, the same for every lane. */
  function Expected(k: Control): Site {
    match k.epoch
    case Begin => LoopTop
    case LoopTop => TasksSent
    case TasksSent => TasksRead
    case TasksRead => CountSent
    case CountSent => CountRead
    case CountRead => Gathered
    case Gathered => TaskTop(0)
    case TaskTop(t) => CancelSent(t)
    case CancelSent(t) => CancelRead(t)
    case CancelRead(t) => NextWide(k, t, 0)
    case WideTop(t, idx) => WideGo(t, idx)
    case WideGo(t, idx) => if k.cancelled then WideEnd(t, idx) else WideDone(t, idx)
    case WideDone(t, idx) => NextWide(k, t, idx + 1)
    case WideEnd(t, d) => TakeSent(t, d)
    case TakeSent(t, d) => TakeRead(t, d)
    case TakeRead(t, d) => ThinEnd(t, d)
    case ThinEnd(t, d) => ThinCounted(t, d)
    case ThinCounted(t, d) => TaskEnd(t)
    case TaskEnd(t) => if t + 1 < TASKS then TaskTop(t + 1) else TasksEnd
    case TasksEnd => TickEnd
    case TickEnd => ExitSent
    case ExitSent => ExitRead
    case ExitRead => LoopTop
  }

  /** Where in its segment lane `i` may be. */
  predicate PcOk(k: Control, i: nat, l: Lane) {
    match l.pc
    case Working => true
    case Waiting(n) =>
      && n == Expected(k)
      && (k.epoch == ExitRead ==> !l.exit)
      && (k.epoch.TakeRead? ==> k.cancelled || k.counter >= ThinCount(k, k.epoch.t))
    case AfterReset => i == 0 && (k.epoch == Begin || (k.epoch == ExitRead && !l.exit))
    case SecondBatch => i == 0 && k.epoch == LoopTop
    case Sending => i == 0 && k.epoch == LoopTop
    case Resubmitting => i == 0 && k.epoch.WideGo? && !k.cancelled
    case Raising =>
      || (i == 0 && k.epoch.WideGo? && !k.cancelled)
      || k.epoch.TakeRead?
      || (i == 0 && k.epoch.ThinCounted? && k.epoch.t > 0)
    case SetCancel => k.epoch.TakeRead? && k.epoch.t == 1
    case TestCancel => k.epoch.TakeRead?
    case Take => k.epoch.TakeRead?
    case Running(j) => Holds(k, i, j)
    case Returning(j) => Holds(k, i, j)
    case Exited => k.epoch == ExitRead && l.exit
  }

  predicate Holds(k: Control, i: nat, j: nat) {
    && k.epoch.TakeRead? && k.epoch.t < |k.tasks| && TaskOk(k.tasks[k.epoch.t])
    && j < |k.tasks[k.epoch.t].thin| && j < k.counter
    && k.tasks[k.epoch.t].thinFate[j] == Pending && k.tasks[k.epoch.t].holder[j] == i
  }

  predicate TaskOk(t: Task) {
    |t.wideFate| == |t.wide| && |t.thinFate| == |t.thin| && |t.holder| == |t.thin|
  }

  /** All lanes have passed the same barrier, and whoever waits, waits at the one that follows it. */
  ghost predicate Aligned(k: Control) {
    && 0 < |k.lanes|
    && forall i | 0 <= i < |k.lanes| :: k.lanes[i].at == k.epoch && PcOk(k, i, k.lanes[i])
  }

  // ---- what the broadcasts delivered ----

  function TaskOf(e: Site): Option<nat> {
    match e
    case TaskTop(t) => Some(t)
    case CancelSent(t) => Some(t)
    case CancelRead(t) => Some(t)
    case WideTop(t, _) => Some(t)
    case WideGo(t, _) => Some(t)
    case WideDone(t, _) => Some(t)
    case WideEnd(t, _) => Some(t)
    case TakeSent(t, _) => Some(t)
    case TakeRead(t, _) => Some(t)
    case ThinEnd(t, _) => Some(t)
    case ThinCounted(t, _) => Some(t)
    case TaskEnd(t) => Some(t)
    case _ => None
  }

  predicate InTick(e: Site) {
    TaskOf(e).Some? || e == TasksRead || e == CountSent || e == CountRead || e == Gathered || e == TasksEnd
  }

  /** When a lane has the value of a broadcast: the source lane from the start, the others on arrival. */
  predicate KnowsTasks(e: Site, i: nat, l: Lane) {
    InTick(e) || (e == TasksSent && (i == 0 || l.pc.Waiting?)) || (e == LoopTop && i == 0 && l.pc != Working)
  }

  predicate KnowsCount(e: Site, i: nat, l: Lane) {
    || (InTick(e) && e != TasksRead && e != CountSent)
    || (e == CountSent && (i == 0 || l.pc.Waiting?))
    || (i == 0 && (e == TasksSent || e == TasksRead || (e == LoopTop && l.pc != Working)))
  }

  predicate KnowsCancel(e: Site, i: nat, l: Lane) {
    || (TaskOf(e).Some? && !e.TaskTop? && !e.CancelSent? && !e.TaskEnd?)
    || (e.CancelSent? && (i == 0 || l.pc.Waiting?))
    || (e.TaskTop? && i == 0 && l.pc.Waiting?)
  }

  predicate KnowsTake(e: Site, i: nat, l: Lane) {
    || e.TakeRead? || e.ThinEnd? || e.ThinCounted?
    || (e.TakeSent? && (i == 0 || l.pc.Waiting?))
    || (e.WideEnd? && i == 0 && l.pc.Waiting?)
  }

  predicate KnowsExit(e: Site, i: nat, l: Lane) {
    e == ExitRead || (e == ExitSent && l.pc.Waiting?)
  }

  predicate LocalOk(e: Site, counter: nat, i: nat, l: Lane, leader: Lane) {
    && (KnowsTasks(e, i, l) ==> l.tasks == TasksPtr)
    && (KnowsCount(e, i, l) ==> l.count == TASKS)
    && (KnowsCancel(e, i, l) ==> l.cancelPtr == CancelPtr(TaskOf(e).value))
    && (KnowsTake(e, i, l) ==> l.takePtr == TakePtr(TaskOf(e).value))
    && (e.ThinCounted? || (e.ThinEnd? && l.pc.Waiting?) ==> l.thinDone == counter)
    && (KnowsExit(e, i, l) ==> l.exit == leader.exit)
  }

  ghost predicate LocalsOk(k: Control) {
    && 0 < |k.lanes|
    && forall i | 0 <= i < |k.lanes| :: LocalOk(k.epoch, k.counter, i, k.lanes[i], k.lanes[0])
  }

  /** Broadcast memory holds the source lane's value from its arrival until every lane has read it. */
  predicate MemOk(k: Control) {
    && 0 < |k.lanes|
    && var led := k.lanes[0].pc.Waiting?;
       && (k.epoch == TasksSent || (k.epoch == LoopTop && led) ==> k.mem == TasksPtr)
       && (k.epoch == CountSent || (k.epoch == TasksRead && led) ==> k.mem == Count(TASKS))
       && (k.epoch.CancelSent? || (k.epoch.TaskTop? && led) ==> k.mem == CancelPtr(k.epoch.t))
       && (k.epoch.TakeSent? || (k.epoch.WideEnd? && led) ==> k.mem == TakePtr(k.epoch.t))
       && (k.epoch == ExitSent || (k.epoch == TickEnd && led) ==> k.mem == ExitFlag(k.lanes[0].exit))
  }

  // ---- what became of the gathered requests ----

  /** How many wide requests of the current task are done with. */
  function WideCursor(k: Control): nat
    requires 0 < |k.lanes|
  {
    match k.epoch
    case WideTop(_, idx) => idx
    case WideGo(_, idx) => if k.cancelled || k.lanes[0].pc == Working || k.lanes[0].pc == Resubmitting then idx
      else idx + 1
    case WideDone(_, idx) => idx + 1
    case WideEnd(_, d) => d
    case TakeSent(_, d) => d
    case TakeRead(_, d) => d
    case ThinEnd(_, d) => d
    case ThinCounted(_, d) => d
    case _ => 0
  }

  /** How many thin tickets of the current task have been drawn. */
  function ThinCursor(k: Control): nat {
    match k.epoch
    case TakeSent(_, _) => k.counter
    case TakeRead(_, _) => k.counter
    case ThinEnd(_, _) => k.counter
    case ThinCounted(_, _) => k.counter
    case _ => 0
  }

  predicate AllDone(t: Task) {
    && (forall j | 0 <= j < |t.wideFate| :: t.wideFate[j] != Pending)
    && (forall j | 0 <= j < |t.thinFate| :: t.thinFate[j] != Pending)
  }

  predicate AllExecuted(t: Task) {
    && (forall j | 0 <= j < |t.wideFate| :: t.wideFate[j] == Executed)
    && (forall j | 0 <= j < |t.thinFate| :: t.thinFate[j] == Executed)
  }

  predicate Untouched(t: Task) {
    && (forall j | 0 <= j < |t.wideFate| :: t.wideFate[j] == Pending)
    && (forall j | 0 <= j < |t.thinFate| :: t.thinFate[j] == Pending)
  }

  /** Lane 0 is past the deferral of the current task. */
  predicate HasDeferred(k: Control)
    requires 0 < |k.lanes|
  {
    k.epoch.TaskEnd? || (k.epoch.ThinCounted? && k.lanes[0].pc != Working)
  }

  /** The wide requests before the cursor are executed, the others still pending. */
  predicate WideSplit(t: Task, w: nat) {
    w <= |t.wide| && |t.wideFate| == |t.wide| &&
    forall j | 0 <= j < |t.wideFate| :: t.wideFate[j] == if j < w then Executed else Pending
  }

  /** Undrawn tickets are pending; a drawn one is executed, or pending in the hands of the lane that drew it. */
  predicate ThinSplit(k: Control, t: Task, c: nat) {
    && TaskOk(t)
    && (forall j | 0 <= j < |t.thinFate| && j >= c :: t.thinFate[j] == Pending)
    && (forall j | 0 <= j < |t.thinFate| && j < c ::
        t.thinFate[j] == Executed || (t.thinFate[j] == Pending && InHand(k, t.holder[j], j)))
  }

  predicate InHand(k: Control, i: nat, j: nat) {
    k.epoch.TakeRead? && i < |k.lanes| && (k.lanes[i].pc == Running(j) || k.lanes[i].pc == Returning(j))
  }

  ghost predicate CurrentOk(k: Control, t: nat)
    requires 0 < |k.lanes| && t < |k.tasks|
  {
    if HasDeferred(k) then AllDone(k.tasks[t]) && (t == 0 ==> AllExecuted(k.tasks[t]))
    else WideSplit(k.tasks[t], WideCursor(k)) && ThinSplit(k, k.tasks[t], ThinCursor(k))
  }

  /** High-priority requests are never cancelled. */
  predicate CancelOk(k: Control)
    requires 0 < |k.lanes|
  {
    && (k.epoch == TaskTop(0) && k.lanes[0].pc.Waiting? ==> !k.cancelled)
    && (TaskOf(k.epoch) == Some(0) && !k.epoch.TaskTop? && !k.epoch.TaskEnd? ==> !k.cancelled)
    && (k.epoch.WideEnd? || k.epoch.TakeSent? || k.epoch.TakeRead? || k.epoch.ThinEnd? || k.epoch.ThinCounted? ==>
          k.cancelled || k.epoch.done == WideCount(k, k.epoch.t))
    && (k.epoch.ThinEnd? || k.epoch.ThinCounted? ==> k.cancelled || k.counter >= ThinCount(k, k.epoch.t))
    && (k.epoch.WideTop? || k.epoch.WideGo? || k.epoch.WideDone? ==> k.epoch.idx < WideCount(k, k.epoch.t))
    && (k.epoch.TakeSent? ==> k.counter == 0)
    && (k.epoch.WideEnd? && k.lanes[0].pc.Waiting? ==> k.counter == 0)
  }

  /** Both batches are gathered. */
  predicate HasTasks(k: Control)
    requires 0 < |k.lanes|
  {
    || InTick(k.epoch) || k.epoch == TasksSent
    || (k.epoch == LoopTop && (k.lanes[0].pc == Sending || k.lanes[0].pc.Waiting?))
  }

  /** Lane 0 has begun to gather and no task has begun. */
  predicate NothingStarted(k: Control)
    requires 0 < |k.lanes|
  {
    || (k.epoch == LoopTop && k.lanes[0].pc != Working)
    || k.epoch == TasksSent || k.epoch == TasksRead || k.epoch == CountSent || k.epoch == CountRead
       || k.epoch == Gathered
  }

  /** Tasks other than the current one. */
  ghost predicate OthersOk(k: Control) {
    match TaskOf(k.epoch)
    case Some(u) =>
      && u < |k.tasks| == TASKS
      && (forall t | 0 <= t < u :: AllDone(k.tasks[t]))
      && (forall t | u < t < |k.tasks| :: Untouched(k.tasks[t]))
      && (u > 0 ==> AllExecuted(k.tasks[0]))
    case None =>
      0 < |k.lanes| &&
      if NothingStarted(k) then forall t | 0 <= t < |k.tasks| :: Untouched(k.tasks[t])
      else (forall t | 0 <= t < |k.tasks| :: AllDone(k.tasks[t])) && (0 < |k.tasks| ==> AllExecuted(k.tasks[0]))
  }

  ghost predicate SizesOk(k: Control) {
    && 0 < |k.lanes|
    && (forall t | 0 <= t < |k.tasks| :: TaskOk(k.tasks[t]))
    && (k.epoch == LoopTop && k.lanes[0].pc == SecondBatch ==> |k.tasks| == 1)
    && (HasTasks(k) ==> |k.tasks| == TASKS)
  }

  ghost predicate TasksOk(k: Control) {
    && SizesOk(k) && CancelOk(k) && OthersOk(k)
    && (TaskOf(k.epoch).Some? ==> CurrentOk(k, TaskOf(k.epoch).value))
  }

  ghost predicate KInv(k: Control) {
    Aligned(k) && LocalsOk(k) && MemOk(k) && TasksOk(k)
  }

  // ---- Arrive ----

  lemma ArriveExpected(k: Control, i: nat, high: bool)
    requires Aligned(k) && LocalsOk(k) && CanArrive(k, i)
    ensures
      var d := ArriveDo(k, i, high);
      Expected(d) == Expected(k) == NextSite(k, k.lanes[i]) && (k.epoch.WideGo? ==> d.cancelled == k.cancelled)
  {
    hide PcOk, Locals, Sent;
    assert LocalOk(k.epoch, k.counter, i, k.lanes[i], k.lanes[0]);
  }

  lemma ArriveAligned(k: Control, i: nat, high: bool)
    requires Aligned(k) && LocalsOk(k) && CanArrive(k, i)
    ensures Aligned(ArriveDo(k, i, high))
  {
    var d := ArriveDo(k, i, high);
    ArriveExpected(k, i, high);
    forall j | 0 <= j < |d.lanes| ensures d.lanes[j].at == d.epoch && PcOk(d, j, d.lanes[j]) {
      assert PcOk(k, j, k.lanes[j]);
    }
  }

  lemma ArriveLocals(k: Control, i: nat, high: bool)
    requires Aligned(k) && LocalsOk(k) && MemOk(k) && CanArrive(k, i)
    ensures LocalsOk(ArriveDo(k, i, high))
  {
  }

  lemma ArriveMem(k: Control, i: nat, high: bool)
    requires Aligned(k) && LocalsOk(k) && MemOk(k) && CanArrive(k, i)
    ensures MemOk(ArriveDo(k, i, high))
  {
  }

  lemma ArriveTasks(k: Control, i: nat, high: bool)
    requires Aligned(k) && TasksOk(k) && CanArrive(k, i)
    ensures TasksOk(ArriveDo(k, i, high))
  {
  }

  // ---- Release ----

  lemma ReleaseEpoch(k: Control)
    requires Aligned(k) && CanAct(k, Release)
    ensures
      var d := ReleaseDo(k);
      && d.epoch == Expected(k)
      && (forall i | 0 <= i < |k.lanes| ::
            k.lanes[i].pc == Waiting(d.epoch) && d.lanes[i] == k.lanes[i].(at := d.epoch, pc := Working))
  {
    assert forall i | 0 <= i < |k.lanes| :: PcOk(k, i, k.lanes[i]);
  }

  lemma ReleaseAligned(k: Control)
    requires Aligned(k) && CanAct(k, Release)
    ensures Aligned(ReleaseDo(k))
  {
    ReleaseEpoch(k);
  }

  lemma ReleasedLocal(k: Control, i: nat, l: Lane, leader: Lane)
    requires l.pc == Waiting(Expected(k)) && LocalOk(k.epoch, k.counter, i, l, leader)
    ensures LocalOk(Expected(k), k.counter, i, l.(at := Expected(k), pc := Working),
                    leader.(at := Expected(k), pc := Working))
  {
  }

  lemma ReleaseLocals(k: Control)
    requires Aligned(k) && LocalsOk(k) && CanAct(k, Release)
    ensures LocalsOk(ReleaseDo(k))
  {
    hide LocalOk, Expected;
    ReleaseEpoch(k);
    var d := ReleaseDo(k);
    forall i | 0 <= i < |d.lanes| ensures LocalOk(d.epoch, d.counter, i, d.lanes[i], d.lanes[0]) {
      ReleasedLocal(k, i, k.lanes[i], k.lanes[0]);
    }
  }

  lemma ReleaseMem(k: Control)
    requires Aligned(k) && MemOk(k) && CanAct(k, Release)
    ensures MemOk(ReleaseDo(k))
  {
    ReleaseEpoch(k);
  }

  lemma ReleaseCancel(k: Control)
    requires Aligned(k) && TasksOk(k) && CanAct(k, Release)
    ensures CancelOk(ReleaseDo(k))
  {
    ReleaseEpoch(k);
  }

  lemma ReleaseCurrent(k: Control, t: nat)
    requires Aligned(k) && TasksOk(k) && CanAct(k, Release)
    requires TaskOf(k.epoch) == Some(t) == TaskOf(ReleaseDo(k).epoch)
    ensures t < |k.tasks| && CurrentOk(ReleaseDo(k), t)
  {
    ReleaseEpoch(k);
    NoneInHand(k);
    InTasks(k);
    hide Aligned, CanAct, ReleaseDo, SizesOk, OthersOk;
  }

  /** Lanes that all wait hold no tickets. */
  lemma NoneInHand(k: Control)
    requires CanAct(k, Release)
    ensures forall i, j :: !InHand(k, i, j)
  {
  }

  lemma ReleaseStart(k: Control, t: nat)
    requires Aligned(k) && TasksOk(k) && CanAct(k, Release)
    requires TaskOf(k.epoch) != Some(t) == TaskOf(ReleaseDo(k).epoch)
    ensures t < |k.tasks| && CurrentOk(ReleaseDo(k), t)
    ensures ReleaseDo(k).epoch == TaskTop(t) && (if t == 0 then k.epoch == Gathered else k.epoch == TaskEnd(t - 1))
  {
    ReleaseEpoch(k);
  }

  /** The account of the tasks at the next barrier, lane 0 having waited at this one. */
  lemma OthersMove(k: Control, d: Control)
    requires TasksOk(k) && k.lanes[0].pc == Waiting(Expected(k))
    requires d.tasks == k.tasks && d.epoch == Expected(k) && 0 < |d.lanes| && d.lanes[0].pc == Working
    ensures OthersOk(d)
  {
    hide *;
    if k.epoch.TaskEnd? {
      TaskEndMoves(k, d);
    } else if TaskOf(k.epoch).Some? {
      TaskMoves(k, d);
    } else {
      NoTaskMoves(k, d);
    }
  }

  lemma TaskEndMoves(k: Control, d: Control)
    requires TasksOk(k) && k.epoch.TaskEnd? && d.tasks == k.tasks && d.epoch == Expected(k) && 0 < |d.lanes|
    ensures OthersOk(d)
  {
    assert AllDone(k.tasks[k.epoch.t]);
    hide TaskOk, CancelOk, WideSplit, ThinSplit, AllDone, AllExecuted, Untouched, SizesOk;
  }

  lemma SameTask(k: Control)
    requires TaskOf(k.epoch).Some? && !k.epoch.TaskEnd?
    ensures TaskOf(Expected(k)) == TaskOf(k.epoch)
  {
  }

  lemma TaskMoves(k: Control, d: Control)
    requires TasksOk(k) && TaskOf(k.epoch).Some? && !k.epoch.TaskEnd? && d.tasks == k.tasks && d.epoch == Expected(k)
    ensures OthersOk(d)
  {
    SameTask(k);
    hide TaskOk, CancelOk, CurrentOk, AllDone, AllExecuted, Untouched, SizesOk, Expected, TaskOf;
  }

  lemma NoTaskMoves(k: Control, d: Control)
    requires TasksOk(k) && TaskOf(k.epoch).None? && k.lanes[0].pc == Waiting(Expected(k))
    requires d.tasks == k.tasks && d.epoch == Expected(k) && 0 < |d.lanes| && d.lanes[0].pc == Working
    ensures OthersOk(d)
  {
    hide TaskOk, CancelOk, CurrentOk, AllDone, AllExecuted, Untouched;
  }

  lemma ReleaseOthers(k: Control)
    requires Aligned(k) && TasksOk(k) && CanAct(k, Release)
    ensures OthersOk(ReleaseDo(k))
  {
    ReleaseEpoch(k);
    hide Aligned, TasksOk, OthersOk, Expected;
    OthersMove(k, ReleaseDo(k));
  }

  lemma ReleaseTasks(k: Control)
    requires Aligned(k) && TasksOk(k) && CanAct(k, Release)
    ensures TasksOk(ReleaseDo(k))
  {
    ReleaseCancel(k);
    ReleaseOthers(k);
    ReleaseSizes(k);
    match TaskOf(ReleaseDo(k).epoch)
    case Some(t) =>
      if TaskOf(k.epoch) == Some(t) {
        ReleaseCurrent(k, t);
      } else {
        ReleaseStart(k, t);
      }
    case None =>
  }

  lemma ReleaseSizes(k: Control)
    requires Aligned(k) && TasksOk(k) && CanAct(k, Release)
    ensures SizesOk(ReleaseDo(k))
  {
    ReleaseEpoch(k);
  }

  // ---- acts that only move a program counter ----

  /** Where a lane may be depends on what the lanes share, not on the other lanes. */
  lemma PcShared(k: Control, d: Control, i: nat, l: Lane)
    requires d.epoch == k.epoch && d.cancelled == k.cancelled && d.counter == k.counter && d.tasks == k.tasks
    ensures PcOk(d, i, l) == PcOk(k, i, l)
  {
  }

  lemma PcAligned(k: Control, i: nat, pc: Pc)
    requires Aligned(k) && i < |k.lanes| && PcOk(k, i, k.lanes[i].(pc := pc))
    ensures Aligned(SetPc(k, i, pc))
  {
    hide PcOk;
    var d := SetPc(k, i, pc);
    forall j | 0 <= j < |d.lanes| ensures d.lanes[j].at == d.epoch && PcOk(d, j, d.lanes[j]) {
      assert PcOk(k, j, k.lanes[j]);
      PcShared(k, d, j, d.lanes[j]);
    }
  }

  predicate MovesPc(a: Act) {
    a.Reset1? || a.Reset2? || a.WideRetry? || a.Raise? || a.ThinTop? || a.ThinTest? || a.ThinRetry? || a.Leave?
  }

  function Mover(a: Act): nat
    requires MovesPc(a)
  {
    if a.Reset1? || a.Reset2? || a.WideRetry? then 0 else a.i
  }

  lemma MovedPc(k: Control, a: Act)
    requires Aligned(k) && CanAct(k, a) && MovesPc(a)
    ensures Mover(a) < |k.lanes| && Do(k, a) == SetPc(k, Mover(a), Do(k, a).lanes[Mover(a)].pc)
    ensures PcOk(k, Mover(a), Do(k, a).lanes[Mover(a)])
  {
    if a.ThinTop? || a.ThinTest? || a.ThinRetry? {
      ThinMovedPc(k, a);
    } else {
      LoopMovedPc(k, a);
    }
  }

  lemma ThinMovedPc(k: Control, a: Act)
    requires Aligned(k) && CanAct(k, a) && (a.ThinTop? || a.ThinTest? || a.ThinRetry?)
    ensures Do(k, a) == SetPc(k, Mover(a), Do(k, a).lanes[Mover(a)].pc) && PcOk(k, Mover(a), Do(k, a).lanes[Mover(a)])
  {
    if a.ThinRetry? {
      RetriedPc(k, a);
    } else {
      LoopPc(k, a);
    }
  }

  lemma RetriedPc(k: Control, a: Act)
    requires Aligned(k) && CanAct(k, a) && a.ThinRetry?
    ensures Do(k, a) == SetPc(k, a.i, Do(k, a).lanes[a.i].pc) && PcOk(k, a.i, Do(k, a).lanes[a.i])
  {
    assert PcOk(k, a.i, k.lanes[a.i]);
  }

  lemma LoopPc(k: Control, a: Act)
    requires Aligned(k) && CanAct(k, a) && (a.ThinTop? || a.ThinTest?)
    ensures Do(k, a) == SetPc(k, a.i, Do(k, a).lanes[a.i].pc) && PcOk(k, a.i, Do(k, a).lanes[a.i])
  {
    assert PcOk(k, a.i, k.lanes[a.i]);
    hide Holds;
  }

  lemma LoopMovedPc(k: Control, a: Act)
    requires Aligned(k) && CanAct(k, a) && (a.Reset1? || a.Reset2? || a.WideRetry? || a.Raise? || a.Leave?)
    ensures Mover(a) < |k.lanes|
    ensures Do(k, a) == SetPc(k, Mover(a), Do(k, a).lanes[Mover(a)].pc) && PcOk(k, Mover(a), Do(k, a).lanes[Mover(a)])
  {
    if a.Reset1? || a.Reset2? {
      ResetPc(k, a);
    } else if a.Raise? {
      RaisedPc(k, a);
    } else {
      LeavingPc(k, a);
    }
  }

  lemma ResetPc(k: Control, a: Act)
    requires Aligned(k) && CanAct(k, a) && (a.Reset1? || a.Reset2?)
    ensures Do(k, a) == SetPc(k, 0, Do(k, a).lanes[0].pc) && PcOk(k, 0, Do(k, a).lanes[0])
  {
    assert PcOk(k, 0, k.lanes[0]);
  }

  lemma RaisedPc(k: Control, a: Act)
    requires Aligned(k) && CanAct(k, a) && a.Raise?
    ensures Do(k, a) == SetPc(k, a.i, Do(k, a).lanes[a.i].pc) && PcOk(k, a.i, Do(k, a).lanes[a.i])
  {
    assert PcOk(k, a.i, k.lanes[a.i]);
  }

  lemma LeavingPc(k: Control, a: Act)
    requires Aligned(k) && CanAct(k, a) && (a.WideRetry? || a.Leave?)
    ensures Mover(a) < |k.lanes|
    ensures Do(k, a) == SetPc(k, Mover(a), Do(k, a).lanes[Mover(a)].pc) && PcOk(k, Mover(a), Do(k, a).lanes[Mover(a)])
  {
    assert PcOk(k, Mover(a), k.lanes[Mover(a)]);
  }

  lemma MovesLocals(k: Control, a: Act)
    requires Aligned(k) && LocalsOk(k) && CanAct(k, a) && MovesPc(a)
    ensures LocalsOk(Do(k, a))
  {
    var d := Do(k, a);
    assert LocalOk(k.epoch, k.counter, 0, k.lanes[0], k.lanes[0]);
    forall j | 0 <= j < |d.lanes| ensures LocalOk(d.epoch, d.counter, j, d.lanes[j], d.lanes[0]) {
      assert LocalOk(k.epoch, k.counter, j, k.lanes[j], k.lanes[0]);
    }
  }

  lemma MovesCursor(k: Control, a: Act)
    requires Aligned(k) && CanAct(k, a) && MovesPc(a)
    ensures
      var d := Do(k, a);
      && HasDeferred(d) == HasDeferred(k) && WideCursor(d) == WideCursor(k)
      && (HasTasks(k) <==> HasTasks(d)) && NothingStarted(d) == NothingStarted(k)
      && (forall i, j | InHand(k, i, j) :: InHand(d, i, j))
  {
    assert PcOk(k, Mover(a), k.lanes[Mover(a)]);
    assert PcOk(k, 0, k.lanes[0]);
  }

  lemma MovesCancel(k: Control, a: Act)
    requires Aligned(k) && TasksOk(k) && CanAct(k, a) && MovesPc(a)
    ensures CancelOk(Do(k, a))
  {
    assert PcOk(k, Mover(a), k.lanes[Mover(a)]);
    hide SizesOk, OthersOk, CurrentOk;
  }

  /** What the acts that only move a program counter leave as it is. */
  lemma MovesFrame(k: Control, a: Act)
    requires Aligned(k) && CanAct(k, a) && MovesPc(a)
    ensures
      var d := Do(k, a);
      && d.tasks == k.tasks && d.epoch == k.epoch && d.counter == k.counter && |d.lanes| == |k.lanes| > 0
         && k.epoch != LoopTop
  {
    assert PcOk(k, Mover(a), k.lanes[Mover(a)]);
  }

  lemma SameSizes(k: Control, d: Control)
    requires SizesOk(k) && OthersOk(k) && d.tasks == k.tasks && d.epoch == k.epoch != LoopTop && 0 < |d.lanes|
    requires HasTasks(k) <==> HasTasks(d)
    requires NothingStarted(d) == NothingStarted(k)
    ensures SizesOk(d) && OthersOk(d)
  {
    hide HasTasks, NothingStarted, TaskOk, AllDone, AllExecuted, Untouched;
  }

  lemma SameCurrent(k: Control, d: Control, t: nat)
    requires 0 < |k.lanes| && 0 < |d.lanes| && t < |k.tasks| && d.tasks == k.tasks && CurrentOk(k, t)
    requires HasDeferred(d) == HasDeferred(k) && WideCursor(d) == WideCursor(k) && ThinCursor(d) == ThinCursor(k)
    requires forall i, j | InHand(k, i, j) :: InHand(d, i, j)
    ensures CurrentOk(d, t)
  {
    hide HasDeferred, WideCursor, ThinCursor, InHand, WideSplit;
  }

  lemma MovesTasks(k: Control, a: Act)
    requires Aligned(k) && TasksOk(k) && CanAct(k, a) && MovesPc(a)
    ensures TasksOk(Do(k, a))
  {
    var d := Do(k, a);
    MovesCancel(k, a);
    MovesCursor(k, a);
    MovesFrame(k, a);
    assert ThinCursor(d) == ThinCursor(k);
    hide Do, CanAct, MovesPc, Aligned, CancelOk, SizesOk, OthersOk, CurrentOk, HasDeferred, WideCursor, ThinCursor,
         InHand;
    hide HasTasks, NothingStarted;
    SameSizes(k, d);
    if TaskOf(k.epoch).Some? {
      InTasks(k);
      SameCurrent(k, d, TaskOf(k.epoch).value);
    }
  }

  lemma InTasks(k: Control)
    requires OthersOk(k) && TaskOf(k.epoch).Some?
    ensures TaskOf(k.epoch).value < |k.tasks|
  {
    hide AllDone, AllExecuted, Untouched;
  }

  // ---- a wide request finished or queued again ----

  predicate WideAct(a: Act) { a.WideFinish? || a.WidePush? }

  lemma WideAligned(k: Control, a: Act)
    requires Aligned(k) && CanAct(k, a) && WideAct(a)
    ensures Aligned(Do(k, a))
  {
    var d := Do(k, a);
    forall j | 0 <= j < |d.lanes| ensures d.lanes[j].at == d.epoch && PcOk(d, j, d.lanes[j]) {
      assert PcOk(k, j, k.lanes[j]);
    }
  }

  lemma WideLocals(k: Control, a: Act)
    requires Aligned(k) && LocalsOk(k) && CanAct(k, a) && WideAct(a)
    ensures LocalsOk(Do(k, a))
  {
    var d := Do(k, a);
    forall j | 0 <= j < |d.lanes| ensures LocalOk(d.epoch, d.counter, j, d.lanes[j], d.lanes[0]) {
      assert LocalOk(k.epoch, k.counter, j, k.lanes[j], k.lanes[0]);
    }
  }

  /** The request lane 0 is on is the first one pending. */
  lemma WideIsNext(k: Control, a: Act)
    requires Aligned(k) && TasksOk(k) && CanAct(k, a) && WideAct(a)
    ensures k.epoch.WideGo? && k.epoch.t < |k.tasks| && k.epoch.idx < |k.tasks[k.epoch.t].wideFate| && !k.cancelled
    ensures WideCursor(k) == k.epoch.idx && WideSplit(k.tasks[k.epoch.t], k.epoch.idx)
    ensures k.tasks[k.epoch.t].wideFate[k.epoch.idx] == Pending
  {
    assert PcOk(k, 0, k.lanes[0]);
    hide CancelOk, OthersOk, SizesOk, ThinSplit;
  }

  lemma WideParts(k: Control, a: Act)
    requires Aligned(k) && TasksOk(k) && CanAct(k, a) && WideAct(a)
    ensures SizesOk(Do(k, a)) && CancelOk(Do(k, a)) && OthersOk(Do(k, a))
  {
    WideIsNext(k, a);
    hide CurrentOk, Aligned;
  }

  lemma WideCurrent(k: Control, a: Act)
    requires Aligned(k) && TasksOk(k) && CanAct(k, a) && WideAct(a)
    ensures k.epoch.WideGo? && k.epoch.t < |Do(k, a).tasks| && CurrentOk(Do(k, a), k.epoch.t)
  {
    WideIsNext(k, a);
    hide CancelOk, OthersOk, SizesOk, Aligned;
  }

  lemma WideTasks(k: Control, a: Act)
    requires Aligned(k) && TasksOk(k) && CanAct(k, a) && WideAct(a)
    ensures TasksOk(Do(k, a))
    ensures k.epoch.WideGo? && k.epoch.t < |k.tasks| && k.epoch.idx < |k.tasks[k.epoch.t].wideFate|
    ensures k.tasks[k.epoch.t].wideFate[k.epoch.idx] == Pending
  {
    WideIsNext(k, a);
    WideParts(k, a);
    WideCurrent(k, a);
    hide SizesOk, CancelOk, OthersOk, CurrentOk, TasksOk, Aligned;
    Parts(Do(k, a), k.epoch.t);
  }

  // ---- the thin loop ----

  predicate ThinAct(a: Act) { a.ThinFinish? || a.ThinPush? }

  lemma ThinAligned(k: Control, a: Act)
    requires Aligned(k) && CanAct(k, a) && ThinAct(a)
    ensures Aligned(Do(k, a))
    ensures Holds(k, a.i, k.lanes[a.i].pc.j)
  {
    var d := Do(k, a);
    assert PcOk(k, a.i, k.lanes[a.i]);
    forall j | 0 <= j < |d.lanes| ensures d.lanes[j].at == d.epoch && PcOk(d, j, d.lanes[j]) {
      assert PcOk(k, j, k.lanes[j]);
    }
  }

  /** In the thin loop the local variables do not depend on the program counter. */
  lemma LoopLocals(k: Control, d: Control)
    requires Aligned(k) && LocalsOk(k) && k.epoch.TakeRead? && d.epoch == k.epoch && |d.lanes| == |k.lanes|
    requires forall j | 0 <= j < |k.lanes| :: d.lanes[j] == k.lanes[j].(pc := d.lanes[j].pc)
    ensures LocalsOk(d)
  {
    forall j | 0 <= j < |d.lanes| ensures LocalOk(d.epoch, d.counter, j, d.lanes[j], d.lanes[0]) {
      assert LocalOk(k.epoch, k.counter, j, k.lanes[j], k.lanes[0]);
    }
  }

  lemma ThinLocals(k: Control, a: Act)
    requires Aligned(k) && LocalsOk(k) && CanAct(k, a) && (ThinAct(a) || a.ThinTake? || a.ThinCancel?)
    ensures LocalsOk(Do(k, a))
  {
    hide LocalOk, PcOk;
    LoopLocals(k, Do(k, a));
  }

  lemma ThinParts(k: Control, a: Act)
    requires Aligned(k) && TasksOk(k) && CanAct(k, a) && ThinAct(a)
    ensures SizesOk(Do(k, a)) && CancelOk(Do(k, a)) && OthersOk(Do(k, a))
  {
    assert PcOk(k, a.i, k.lanes[a.i]);
  }

  /** The task, with the ticket's fate set. */
  lemma ThinDone(k: Control, a: Act)
    requires Aligned(k) && TasksOk(k) && CanAct(k, a) && ThinAct(a)
    ensures
      var d := Do(k, a);
      var t := k.epoch.t;
      var j := k.lanes[a.i].pc.j;
      && k.epoch.TakeRead? && t < |k.tasks| == |d.tasks| && d.epoch == k.epoch && d.counter == k.counter
         && |d.lanes| == |k.lanes|
      && j < |k.tasks[t].thinFate| && j < k.counter
      && d.tasks[t] == k.tasks[t].(thinFate := k.tasks[t].thinFate[j := Executed])
      && (forall i | 0 <= i < |k.lanes| && i != a.i :: d.lanes[i] == k.lanes[i])
      && k.tasks[t].thinFate[j] == Pending && k.tasks[t].holder[j] == a.i
  {
    assert PcOk(k, a.i, k.lanes[a.i]);
    hide CancelOk, OthersOk, CurrentOk, SizesOk;
  }

  lemma ThinSplitKept(k: Control, d: Control, i: nat, t: nat, j: nat)
    requires t < |k.tasks| == |d.tasks| && j < |k.tasks[t].thinFate| && j < k.counter && i < |k.lanes| == |d.lanes|
    requires ThinSplit(k, k.tasks[t], k.counter) && k.epoch.TakeRead? && d.epoch == k.epoch
    requires d.tasks[t] == k.tasks[t].(thinFate := k.tasks[t].thinFate[j := Executed])
    requires forall x | 0 <= x < |k.lanes| && x != i :: d.lanes[x] == k.lanes[x]
    requires k.lanes[i].pc == Running(j) || k.lanes[i].pc == Returning(j)
    ensures ThinSplit(d, d.tasks[t], k.counter)
  {
  }

  lemma ThinCurrent(k: Control, a: Act)
    requires Aligned(k) && TasksOk(k) && CanAct(k, a) && ThinAct(a)
    ensures k.epoch.t < |Do(k, a).tasks| && CurrentOk(Do(k, a), k.epoch.t)
  {
    ThinDone(k, a);
    var d := Do(k, a);
    hide CancelOk, OthersOk, SizesOk, Aligned, ThinSplit, Do;
    ThinSplitKept(k, d, a.i, k.epoch.t, k.lanes[a.i].pc.j);
  }

  lemma ThinTasks(k: Control, a: Act)
    requires Aligned(k) && TasksOk(k) && CanAct(k, a) && ThinAct(a)
    ensures TasksOk(Do(k, a))
  {
    ThinParts(k, a);
    ThinCurrent(k, a);
    assert PcOk(k, a.i, k.lanes[a.i]);
    hide SizesOk, CancelOk, OthersOk, CurrentOk, TasksOk;
    Parts(Do(k, a), k.epoch.t);
  }

  lemma Parts(k: Control, t: nat)
    requires SizesOk(k) && CancelOk(k) && OthersOk(k) && TaskOf(k.epoch) == Some(t) && t < |k.tasks| && CurrentOk(k, t)
    ensures TasksOk(k)
  {
  }

  lemma TakeOthers(k: Control, i: nat, j: nat)
    requires Aligned(k) && CanAct(k, ThinTake(i)) && j < |k.lanes| && j != i
    ensures PcOk(TakeDo(k, i), j, k.lanes[j])
  {
    assert PcOk(k, j, k.lanes[j]);
  }

  lemma TakeOwn(k: Control, i: nat)
    requires Aligned(k) && TasksOk(k) && CanAct(k, ThinTake(i))
    ensures PcOk(TakeDo(k, i), i, TakeDo(k, i).lanes[i])
  {
    TakeIs(k, i);
    hide TasksOk, Aligned;
  }

  /** A ticket that is drawn is pending. */
  lemma TakeIs(k: Control, i: nat)
    requires Aligned(k) && TasksOk(k) && CanAct(k, ThinTake(i))
    ensures k.epoch.TakeRead? && k.lanes[i].at == k.epoch && k.epoch.t < |k.tasks| && TaskOk(k.tasks[k.epoch.t])
    ensures k.counter < |k.tasks[k.epoch.t].thin| ==> k.tasks[k.epoch.t].thinFate[k.counter] == Pending
  {
    hide CancelOk, WideSplit, AllDone, AllExecuted, Untouched, PcOk;
  }

  lemma TakeAligned(k: Control, i: nat)
    requires Aligned(k) && TasksOk(k) && CanAct(k, ThinTake(i))
    ensures Aligned(TakeDo(k, i))
  {
    var d := TakeDo(k, i);
    TakeOwn(k, i);
    forall j | 0 <= j < |d.lanes| ensures d.lanes[j].at == d.epoch && PcOk(d, j, d.lanes[j]) {
      if j != i { TakeOthers(k, i, j); }
    }
  }

  lemma TakeParts(k: Control, i: nat)
    requires Aligned(k) && TasksOk(k) && CanAct(k, ThinTake(i))
    ensures SizesOk(TakeDo(k, i)) && CancelOk(TakeDo(k, i)) && OthersOk(TakeDo(k, i))
  {
    assert PcOk(k, i, k.lanes[i]);
  }

  lemma TakeSplits(k: Control, i: nat)
    requires Aligned(k) && TasksOk(k) && CanAct(k, ThinTake(i))
    ensures k.epoch.TakeRead? && k.epoch.t < |k.tasks| && i < |k.lanes| && k.lanes[i].pc == Take
    ensures WideSplit(k.tasks[k.epoch.t], k.epoch.done) && ThinSplit(k, k.tasks[k.epoch.t], k.counter)
  {
    assert PcOk(k, i, k.lanes[i]);
    hide CancelOk, OthersOk, WideSplit, ThinSplit;
  }

  lemma TakeEpoch(k: Control, i: nat)
    requires Aligned(k) && TasksOk(k) && CanAct(k, ThinTake(i))
    ensures
      var d, j, t := TakeDo(k, i), k.counter, k.epoch.t;
      && d.epoch == k.epoch && |d.lanes| == |k.lanes| && |d.tasks| == |k.tasks| && d.counter == j + 1
      && (forall x | 0 <= x < |k.lanes| && x != i :: d.lanes[x] == k.lanes[x])
      && if j < |k.tasks[t].thin|
         then d.lanes[i].pc == Running(j) && d.tasks[t] == k.tasks[t].(holder := k.tasks[t].holder[j := i])
         else d.tasks == k.tasks
  {
    TakeSplits(k, i);
    hide TasksOk, Aligned, WideSplit;
  }

  /** The next ticket passes into the hands of the lane that drew it. */
  lemma ThinSplitTakes(k: Control, d: Control, i: nat, t: nat)
    requires t < |k.tasks| == |d.tasks| && i < |k.lanes| == |d.lanes| && k.lanes[i].pc == Take
    requires k.epoch.TakeRead? && d.epoch == k.epoch && ThinSplit(k, k.tasks[t], k.counter)
    requires forall x | 0 <= x < |k.lanes| && x != i :: d.lanes[x] == k.lanes[x]
    requires if k.counter < |k.tasks[t].thin|
             then d.lanes[i].pc == Running(k.counter)
               && d.tasks[t] == k.tasks[t].(holder := k.tasks[t].holder[k.counter := i])
             else d.tasks[t] == k.tasks[t]
    ensures ThinSplit(d, d.tasks[t], k.counter + 1)
  {
  }

  lemma TakeCurrent(k: Control, i: nat)
    requires Aligned(k) && TasksOk(k) && CanAct(k, ThinTake(i))
    ensures k.epoch.t < |TakeDo(k, i).tasks| && CurrentOk(TakeDo(k, i), k.epoch.t)
  {
    hide Aligned, TasksOk, ThinSplit, TakeDo, InThinLoop;
    TakeSplits(k, i);
    TakeEpoch(k, i);
    ThinSplitTakes(k, TakeDo(k, i), i, k.epoch.t);
  }

  lemma TakeTasks(k: Control, i: nat)
    requires Aligned(k) && TasksOk(k) && CanAct(k, ThinTake(i))
    ensures TasksOk(TakeDo(k, i))
  {
    TakeParts(k, i);
    TakeCurrent(k, i);
    assert PcOk(k, i, k.lanes[i]);
    hide SizesOk, CancelOk, OthersOk, CurrentOk, TasksOk;
    Parts(TakeDo(k, i), k.epoch.t);
  }

  lemma CancelAligned(k: Control, i: nat)
    requires Aligned(k) && CanAct(k, ThinCancel(i))
    ensures Aligned(Do(k, ThinCancel(i)))
  {
    var d := Do(k, ThinCancel(i));
    forall j | 0 <= j < |d.lanes| ensures d.lanes[j].at == d.epoch && PcOk(d, j, d.lanes[j]) {
      assert PcOk(k, j, k.lanes[j]);
    }
  }

  lemma CancelTasks(k: Control, i: nat)
    requires Aligned(k) && TasksOk(k) && CanAct(k, ThinCancel(i))
    ensures TasksOk(Do(k, ThinCancel(i)))
  {
    assert PcOk(k, i, k.lanes[i]);
  }

  // ---- gathering and deferring ----

  lemma GatherAligned(k: Control, b: Batch)
    requires Aligned(k) && CanAct(k, Gather(b))
    ensures Aligned(GatherDo(k, b))
  {
    var d := GatherDo(k, b);
    forall j | 0 <= j < |d.lanes| ensures d.lanes[j].at == d.epoch && PcOk(d, j, d.lanes[j]) {
      assert PcOk(k, j, k.lanes[j]);
    }
  }

  lemma GatherLocals(k: Control, b: Batch)
    requires Aligned(k) && LocalsOk(k) && CanAct(k, Gather(b))
    ensures LocalsOk(GatherDo(k, b))
  {
    var d := GatherDo(k, b);
    forall j | 0 <= j < |d.lanes| ensures LocalOk(d.epoch, d.counter, j, d.lanes[j], d.lanes[0]) {
      assert LocalOk(k.epoch, k.counter, j, k.lanes[j], k.lanes[0]);
    }
  }

  lemma GatherTasks(k: Control, b: Batch)
    requires Aligned(k) && TasksOk(k) && CanAct(k, Gather(b))
    ensures TasksOk(GatherDo(k, b))
  {
  }

  lemma DeferAligned(k: Control)
    requires Aligned(k) && CanDefer(k)
    ensures Aligned(DeferDo(k))
  {
    var d := DeferDo(k);
    forall j | 0 <= j < |d.lanes| ensures d.lanes[j].at == d.epoch && PcOk(d, j, d.lanes[j]) {
      assert PcOk(k, j, k.lanes[j]);
    }
  }

  lemma DeferLocals(k: Control)
    requires Aligned(k) && LocalsOk(k) && CanDefer(k)
    ensures LocalsOk(DeferDo(k))
  {
    var d := DeferDo(k);
    forall j | 0 <= j < |d.lanes| ensures LocalOk(d.epoch, d.counter, j, d.lanes[j], d.lanes[0]) {
      assert LocalOk(k.epoch, k.counter, j, k.lanes[j], k.lanes[0]);
    }
  }

  lemma DeferTasks(k: Control)
    requires Aligned(k) && LocalsOk(k) && TasksOk(k) && CanDefer(k)
    ensures TasksOk(DeferDo(k))
  {
    assert LocalOk(k.epoch, k.counter, 0, k.lanes[0], k.lanes[0]);
  }

  // ---- every act ----

  lemma QuietShares(k: Control, a: Act)
    requires Aligned(k) && CanAct(k, a) && !a.Arrive? && !a.Release?
    ensures
      var d := Do(k, a);
      d.mem == k.mem && d.epoch == k.epoch && 0 < |d.lanes| && d.lanes[0].exit == k.lanes[0].exit
  {
    hide PcOk, NewTask, DeferFrom, Unfinished, ThinCount;
    if MovesPc(a) {
      MovedPc(k, a);
      hide Do, CanAct;
    }
  }

  /** Neither the memory nor the values lane 0 sends change, and lane 0 does not begin to wait for a broadcast. */
  lemma QuietFrame(k: Control, a: Act)
    requires Aligned(k) && CanAct(k, a) && !a.Arrive? && !a.Release?
    ensures
      var d := Do(k, a);
      && d.mem == k.mem && d.epoch == k.epoch && 0 < |d.lanes| && d.lanes[0].exit == k.lanes[0].exit
      && (Sends(k.epoch) ==> d.lanes[0].pc.Waiting? == k.lanes[0].pc.Waiting?)
  {
    QuietShares(k, a);
    assert PcOk(k, 0, k.lanes[0]);
    hide Aligned;
  }

  /** Barriers at which lane 0 arrives with a value to send. */
  predicate Sends(e: Site) { e == LoopTop || e == TasksRead || e.TaskTop? || e.WideEnd? || e == TickEnd }

  lemma QuietMem(k: Control, a: Act)
    requires Aligned(k) && MemOk(k) && CanAct(k, a) && !a.Arrive? && !a.Release?
    ensures MemOk(Do(k, a))
  {
    QuietFrame(k, a);
    hide Aligned, CanAct, Do;
  }

  lemma MovesKeeps(k: Control, a: Act)
    requires KInv(k) && CanAct(k, a) && MovesPc(a)
    ensures KInv(Do(k, a))
  {
    hide TasksOk, MemOk;
    MovedPc(k, a);
    PcAligned(k, Mover(a), Do(k, a).lanes[Mover(a)].pc);
    MovesLocals(k, a);
    MovesTasks(k, a);
    QuietMem(k, a);
  }

  lemma ArriveKeeps(k: Control, a: Act)
    requires KInv(k) && CanAct(k, a) && a.Arrive?
    ensures KInv(Do(k, a))
  {
    hide Aligned, LocalsOk, TasksOk, MemOk;
    ArriveAligned(k, a.i, a.high);
    ArriveLocals(k, a.i, a.high);
    ArriveMem(k, a.i, a.high);
    ArriveTasks(k, a.i, a.high);
  }

  lemma ReleaseKeeps(k: Control, a: Act)
    requires KInv(k) && CanAct(k, a) && a.Release?
    ensures KInv(Do(k, a))
  {
    hide Aligned, LocalsOk, TasksOk, MemOk;
    ReleaseAligned(k);
    ReleaseLocals(k);
    ReleaseMem(k);
    ReleaseTasks(k);
  }

  lemma GatherKeeps(k: Control, a: Act)
    requires KInv(k) && CanAct(k, a) && a.Gather?
    ensures KInv(Do(k, a))
  {
    hide Aligned, LocalsOk, TasksOk, MemOk;
    GatherAligned(k, a.batch);
    GatherLocals(k, a.batch);
    GatherTasks(k, a.batch);
    QuietMem(k, a);
  }

  lemma WideKeeps(k: Control, a: Act)
    requires KInv(k) && CanAct(k, a) && WideAct(a)
    ensures KInv(Do(k, a))
  {
    hide Aligned, LocalsOk, TasksOk, MemOk;
    WideAligned(k, a);
    WideLocals(k, a);
    WideTasks(k, a);
    QuietMem(k, a);
  }

  lemma ThinKeeps(k: Control, a: Act)
    requires KInv(k) && CanAct(k, a) && ThinAct(a)
    ensures KInv(Do(k, a))
  {
    hide Aligned, LocalsOk, TasksOk, MemOk;
    ThinAligned(k, a);
    ThinLocals(k, a);
    ThinTasks(k, a);
    QuietMem(k, a);
  }

  lemma TakeKeeps(k: Control, a: Act)
    requires KInv(k) && CanAct(k, a) && a.ThinTake?
    ensures KInv(Do(k, a))
  {
    hide Aligned, LocalsOk, TasksOk, MemOk;
    TakeAligned(k, a.i);
    ThinLocals(k, a);
    TakeTasks(k, a.i);
    QuietMem(k, a);
  }

  lemma CancelKeeps(k: Control, a: Act)
    requires KInv(k) && CanAct(k, a) && a.ThinCancel?
    ensures KInv(Do(k, a))
  {
    hide Aligned, LocalsOk, TasksOk, MemOk;
    CancelAligned(k, a.i);
    ThinLocals(k, a);
    CancelTasks(k, a.i);
    QuietMem(k, a);
  }

  lemma DeferKeeps(k: Control, a: Act)
    requires KInv(k) && CanAct(k, a) && a.DeferRest?
    ensures KInv(Do(k, a))
  {
    hide Aligned, LocalsOk, TasksOk, MemOk;
    DeferAligned(k);
    DeferLocals(k);
    DeferTasks(k);
    QuietMem(k, a);
  }

  lemma ExitAligned(k: Control)
    requires Aligned(k)
    ensures Aligned(k.(exiting := true))
  {
    var d := k.(exiting := true);
    forall j | 0 <= j < |d.lanes| ensures d.lanes[j].at == d.epoch && PcOk(d, j, d.lanes[j]) {
      assert PcOk(k, j, k.lanes[j]);
    }
  }

  lemma ExitTasks(k: Control)
    requires TasksOk(k)
    ensures TasksOk(k.(exiting := true))
  {
    var d := k.(exiting := true);
    assert forall i, j :: InHand(d, i, j) == InHand(k, i, j);
  }

  lemma ExitKeeps(k: Control)
    requires KInv(k)
    ensures KInv(k.(exiting := true))
  {
    hide Aligned, TasksOk;
    ExitAligned(k);
    ExitTasks(k);
  }

  /** Whatever a lane does next, the lanes stay aligned and the gathered requests accounted for. */
  lemma ActKeeps(k: Control, a: Act)
    requires KInv(k) && CanAct(k, a)
    ensures KInv(Do(k, a))
  {
    hide KInv;
    if a.SetExit? {
      ExitKeeps(k);
    } else {
      hide Do, CanAct;
      if MovesPc(a) {
        MovesKeeps(k, a);
      } else {
        match a {
          case Arrive(_, _) => ArriveKeeps(k, a);
          case Release => ReleaseKeeps(k, a);
          case Gather(_) => GatherKeeps(k, a);
          case ThinCancel(_) => CancelKeeps(k, a);
          case ThinTake(_) => TakeKeeps(k, a);
          case DeferRest => DeferKeeps(k, a);
          case WideFinish => WideKeeps(k, a);
          case WidePush => WideKeeps(k, a);
          case ThinFinish(_) => ThinKeeps(k, a);
          case ThinPush(_) => ThinKeeps(k, a);
        }
      }
    }
  }
}
