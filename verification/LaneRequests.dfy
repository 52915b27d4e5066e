/** What the lanes take from the two batches and what they put back, to the place and the order; and when they leave. */
module LaneRequests {
  import opened Basics
  import opened CacheState
  import P = CacheProtocol
  import CacheInvariant
  import CacheTheorems
  import opened LaneControl
  import opened LaneInvariant
  import opened LaneTick
  import opened LaneTheorems

  // ---- taken ----

  /** Task `t` is batch `t`, in its order, nothing of it done; the batch is empty and the other one untouched. */
  ghost predicate Taken(before: System, after: System, t: nat) {
    && t < 2 && |after.k.tasks| == t + 1 && |before.k.tasks| >= t && after.k.tasks[..t] == before.k.tasks[..t]
    && after.k.tasks[t].wide == before.cache.batches[t].wide && after.k.tasks[t].thin == before.cache.batches[t].thin
    && Untouched(after.k.tasks[t]) && TaskOk(after.k.tasks[t])
    && after.cache.batches[t].wide == [] && after.cache.batches[t].thin == []
    && after.cache.batches[1 - t] == before.cache.batches[1 - t]
  }

  /** Lane 0 takes the high-priority batch first, as task 0, then the low one, as task 1. */
  lemma TakesInOrder(s: System, steps: seq<Tick>, d: System)
    requires Init(s) && Runs(s, steps, d) && Enabled(d, GatherBatch)
    ensures Taken(d, Apply(d, GatherBatch), if d.k.lanes[0].pc == Working then 0 else 1)
  {
    hide *;
    Reachable(s, steps, d);
    ControlParts(d);
    TakesOne(d);
  }

  lemma TakesOne(d: System)
    requires Aligned(d.k) && SizesOk(d.k) && Enabled(d, GatherBatch)
    ensures Taken(d, Apply(d, GatherBatch), if d.k.lanes[0].pc == Working then 0 else 1)
  {
    hide PcOk;
  }

  lemma ControlParts(d: System)
    requires AllInv(d)
    ensures SInv(d) && Aligned(d.k) && LocalsOk(d.k) && SizesOk(d.k) && TasksOk(d.k)
    ensures TaskOf(d.k.epoch).Some? ==> TaskOf(d.k.epoch).value < TASKS
  {
    hide Aligned, LocalsOk, SizesOk, CancelOk, CurrentOk, MemOk, PoolIs, CacheInvariant.CacheInv, AllDone, AllExecuted,
         Untouched;
  }

  // ---- put back ----

  /** `wide` and `thin` are put at the ends of the queues of batch `t`, and the other batch is untouched. */
  predicate PutBack(a: Batches, b: Batches, t: nat, wide: seq<Request>, thin: seq<Request>) {
    t < 2 && b[t].wide == a[t].wide + wide && b[t].thin == a[t].thin + thin && b[1 - t] == a[1 - t]
  }

  /** A request that is to be tried again returns to the batch of its priority, behind the others of its kind. */
  lemma WideReturns(s: System, steps: seq<Tick>, d: System)
    requires Init(s) && Runs(s, steps, d) && Enabled(d, PushWide)
    ensures
      var at := d.k.lanes[0].at;
      PutBack(d.cache.batches, Apply(d, PushWide).cache.batches, at.t, [d.k.tasks[at.t].wide[at.idx]], [])
  {
    hide *;
    Reachable(s, steps, d);
    ControlParts(d);
    Refines(d, PushWide);
    WidePutBack(d);
  }

  lemma WidePutBack(d: System)
    requires Aligned(d.k) && Enabled(d, PushWide)
    requires RegionOf(d, PushWide).Some? ==> P.Enabled(d.cache, RegionOf(d, PushWide).value)
    requires TaskOf(d.k.epoch).Some? ==> TaskOf(d.k.epoch).value < TASKS
    ensures
      var at := d.k.lanes[0].at;
      PutBack(d.cache.batches, Apply(d, PushWide).cache.batches, at.t, [d.k.tasks[at.t].wide[at.idx]], [])
  {
    hide PcOk;
  }

  lemma ThinReturns(s: System, steps: seq<Tick>, d: System, i: nat)
    requires Init(s) && Runs(s, steps, d) && Enabled(d, PushThin(i))
    ensures
      var t, j := d.k.lanes[i].at.t, d.k.lanes[i].pc.j;
      PutBack(d.cache.batches, Apply(d, PushThin(i)).cache.batches, t, [], [d.k.tasks[t].thin[j]])
  {
    hide *;
    Reachable(s, steps, d);
    ControlParts(d);
    Refines(d, PushThin(i));
    ThinPutBack(d, i);
  }

  lemma ThinPutBack(d: System, i: nat)
    requires Aligned(d.k) && Enabled(d, PushThin(i))
    requires RegionOf(d, PushThin(i)).Some? ==> P.Enabled(d.cache, RegionOf(d, PushThin(i)).value)
    requires TaskOf(d.k.epoch).Some? ==> TaskOf(d.k.epoch).value < TASKS
    ensures
      var t, j := d.k.lanes[i].at.t, d.k.lanes[i].pc.j;
      PutBack(d.cache.batches, Apply(d, PushThin(i)).cache.batches, t, [], [d.k.tasks[t].thin[j]])
  {
    hide PcOk;
  }

  /** The requests of a task that were not begun return to its batch in their order: the wide ones from the first that
      is pending on, the thin ones from the first ticket that nobody drew on. */
  lemma RestReturns(s: System, steps: seq<Tick>, d: System) returns (w: nat, j: nat)
    requires Init(s) && Runs(s, steps, d) && Enabled(d, DeferTask)
    ensures
      var task := d.k.tasks[d.k.lanes[0].at.t];
      && w <= |task.wide| && j <= |task.thin| && |task.wideFate| == |task.wide| && |task.thinFate| == |task.thin|
      && (forall x | 0 <= x < |task.wideFate| :: task.wideFate[x] == Pending <==> x >= w)
      && (forall x | 0 <= x < |task.thinFate| :: task.thinFate[x] == Pending <==> x >= j)
      && PutBack(d.cache.batches, Apply(d, DeferTask).cache.batches, d.k.lanes[0].at.t, task.wide[w..], task.thin[j..])
  {
    hide *;
    Reachable(s, steps, d);
    ControlParts(d);
    Refines(d, DeferTask);
    DeferTurn(d);
    w, j := RestCut(d.k);
    RestPutBack(d, w, j);
  }

  lemma RestCut(k: Control) returns (w: nat, j: nat)
    requires Aligned(k) && LocalsOk(k) && TasksOk(k) && CanDefer(k)
    ensures
      var task := k.tasks[k.lanes[0].at.t];
      && w <= |task.wide| && j <= |task.thin| && |task.wideFate| == |task.wide| && |task.thinFate| == |task.thin|
      && RestWide(k) == task.wide[w..] && RestThin(k) == task.thin[j..]
      && (forall x | 0 <= x < |task.wideFate| :: task.wideFate[x] == Pending <==> x >= w)
      && (forall x | 0 <= x < |task.thinFate| :: task.thinFate[x] == Pending <==> x >= j)
  {
    var task := k.tasks[k.lanes[0].at.t];
    w, j := k.lanes[0].at.done, Min(k.lanes[0].thinDone, |task.thin|);
    assert LocalOk(k.epoch, k.counter, 0, k.lanes[0], k.lanes[0]);
    assert WideSplit(task, WideCursor(k)) && ThinSplit(k, task, ThinCursor(k));
  }

  lemma DeferTurn(d: System)
    requires Enabled(d, DeferTask)
    ensures CanDefer(d.k)
  {
  }

  lemma RestPutBack(d: System, w: nat, j: nat)
    requires Aligned(d.k) && Enabled(d, DeferTask)
    requires RegionOf(d, DeferTask).Some? ==> P.Enabled(d.cache, RegionOf(d, DeferTask).value)
    requires TaskOf(d.k.epoch).Some? ==> TaskOf(d.k.epoch).value < TASKS
    requires
      var task := d.k.tasks[d.k.lanes[0].at.t];
      w <= |task.wide| && j <= |task.thin| && RestWide(d.k) == task.wide[w..] && RestThin(d.k) == task.thin[j..]
    ensures
      var task := d.k.tasks[d.k.lanes[0].at.t];
      PutBack(d.cache.batches, Apply(d, DeferTask).cache.batches, d.k.lanes[0].at.t, task.wide[w..], task.thin[j..])
  {
    hide PcOk, RestWide, RestThin;
  }

  // ---- the flags and the exit ----

  /** Before a tick lane 0 lowers the loop flag, then the one for high priority. */
  lemma FlagsFall(d: System)
    ensures Enabled(d, ResetLoop) ==> Apply(d, ResetLoop).cache == d.cache.(again := false)
    ensures Enabled(d, ResetPriority) ==> Apply(d, ResetPriority).cache == d.cache.(high := false)
  {
  }

  /** Lane 0 looks for the exit signal. */
  predicate Looks(s: System, step: Tick) {
    step.Quiet? && step.a.Arrive? && step.a.i == 0 && 0 < |s.k.lanes| && s.k.lanes[0].at == TickEnd
  }

  /** Whether the exit signal was up when lane 0 last looked for it, after a tick. */
  ghost function Signal(s: System, steps: seq<Tick>, last: bool): bool
    decreases |steps|
  {
    if steps == [] || !Enabled(s, steps[0]) then last
    else Signal(Apply(s, steps[0]), steps[1..], if Looks(s, steps[0]) then s.k.exiting else last)
  }

  predicate SignalKept(k: Control, last: bool) {
    && 0 < |k.lanes|
    && (k.epoch == ExitSent || k.epoch == ExitRead || (k.epoch == TickEnd && k.lanes[0].pc.Waiting?) ==>
          k.lanes[0].exit == last)
  }

  lemma ArriveSignal(k: Control, i: nat, high: bool, last: bool)
    requires Aligned(k) && CanArrive(k, i) && SignalKept(k, last)
    ensures SignalKept(ArriveDo(k, i, high), if i == 0 && k.lanes[0].at == TickEnd then k.exiting else last)
  {
    hide PcOk, Sent, NextSite, CancelledAfter, CounterAfter;
  }

  lemma ReleaseSignal(k: Control, last: bool)
    requires Aligned(k) && CanAct(k, Release) && SignalKept(k, last)
    ensures SignalKept(ReleaseDo(k), last)
  {
    ReleaseEpoch(k);
    hide Aligned;
  }

  lemma RestSignal(k: Control, a: Act, last: bool)
    requires Aligned(k) && CanAct(k, a) && SignalKept(k, last) && !a.Arrive? && !a.Release?
    ensures SignalKept(Do(k, a), last)
  {
    hide Holds, DeferFrom, NewTask;
  }

  lemma ActSignal(k: Control, a: Act, last: bool)
    requires Aligned(k) && CanAct(k, a) && SignalKept(k, last)
    ensures 0 < |k.lanes|
    ensures SignalKept(Do(k, a), if a.Arrive? && a.i == 0 && k.lanes[0].at == TickEnd then k.exiting else last)
  {
    hide PcOk, SignalKept;
    match a {
      case Arrive(i, high) => ArriveSignal(k, i, high, last);
      case Release => ReleaseSignal(k, last);
      case _ => RestSignal(k, a, last);
    }
  }

  lemma StepSignal(s: System, step: Tick, last: bool)
    requires Aligned(s.k) && SignalKept(s.k, last) && Enabled(s, step)
    ensures SignalKept(Apply(s, step).k, if Looks(s, step) then s.k.exiting else last)
  {
    hide Aligned, SignalKept, Enabled, Apply, CanAct, Do;
    Moves(s, step);
    if ActOf(s, step).Some? {
      ActSignal(s.k, ActOf(s, step).value, last);
    }
  }

  lemma {:induction false} RunSignal(s: System, steps: seq<Tick>, d: System, last: bool)
    requires AllInv(s) && SignalKept(s.k, last) && Runs(s, steps, d)
    ensures AllInv(d) && SignalKept(d.k, Signal(s, steps, last))
    decreases |steps|
  {
    hide AllInv, SignalKept, Enabled, Apply, Looks, Aligned, SInv, TasksOk, SizesOk, LocalsOk;
    if steps != [] {
      ControlParts(s);
      StepSignal(s, steps[0], last);
      OneStep(s, steps[0]);
      RunSignal(Apply(s, steps[0]), steps[1..], d, if Looks(s, steps[0]) then s.k.exiting else last);
    }
  }

  /** Whichever lane it is, it leaves the loop exactly if the exit signal was up when lane 0 looked for it after the
      tick; then none goes on to another tick. */
  lemma LeavesExactly(s: System, steps: seq<Tick>, d: System, i: nat)
    requires Init(s) && Runs(s, steps, d) && i < |d.k.lanes| && d.k.lanes[i].at == ExitRead
    ensures
      var up := Signal(s, steps, false);
      && (Enabled(d, Quiet(Leave(i))) ==> up) && (up && d.k.lanes[i].pc == Working ==> Enabled(d, Quiet(Leave(i))))
      && (up ==> !Enabled(d, ResetLoop) && !Enabled(d, Quiet(Arrive(i, d.cache.high))))
  {
    hide *;
    InitOk(s);
    InitSignal(s);
    RunSignal(s, steps, d, false);
    ControlParts(d);
    ExitsTogether(d.k, i);
    ExitsTogether(d.k, 0);
    SignalDecides(d, i, Signal(s, steps, false));
  }

  lemma InitSignal(s: System)
    requires Init(s)
    ensures SignalKept(s.k, false)
  {
    hide CacheTheorems.Init;
  }

  lemma SignalDecides(d: System, i: nat, up: bool)
    requires SignalKept(d.k, up) && i < |d.k.lanes| && d.k.lanes[i].at == ExitRead == d.k.epoch
    requires d.k.lanes[0].at == ExitRead && d.k.lanes[i].exit == d.k.lanes[0].exit
    ensures (Enabled(d, Quiet(Leave(i))) ==> up) && (up && d.k.lanes[i].pc == Working ==> Enabled(d, Quiet(Leave(i))))
    ensures up ==> !Enabled(d, ResetLoop) && !Enabled(d, Quiet(Arrive(i, d.cache.high)))
  {
  }
}
