/** What holds in every state any interleaving of lanes, clients and the cancellation thread can reach. */
module LaneTheorems {
  import opened Basics
  import opened CacheState
  import CacheProtocol
  import CacheTheorems
  import CacheDepartures
  import opened LaneControl
  import opened LaneInvariant
  import opened LaneTick
  import opened LaneWakeup

  ghost predicate Init(s: System) {
    && CacheTheorems.Init(s.cache)
    && 0 < |s.k.lanes| && s.k.epoch == Begin && s.k.tasks == []
    && forall i | 0 <= i < |s.k.lanes| :: s.k.lanes[i].at == Begin && s.k.lanes[i].pc == Working
  }

  ghost predicate Runs(s: System, steps: seq<Tick>, d: System)
    decreases |steps|
  {
    if steps == [] then d == s else Enabled(s, steps[0]) && Runs(Apply(s, steps[0]), steps[1..], d)
  }

  ghost predicate AllInv(s: System) { SInv(s) && Awake(s, 0) && Awake(s, 1) }

  lemma InitOk(s: System)
    requires Init(s)
    ensures AllInv(s)
  {
    CacheTheorems.InitOk(s.cache);
    InitControl(s.k);
    assert PoolOf([]) == multiset{};
  }

  lemma InitControl(k: Control)
    requires 0 < |k.lanes| && k.epoch == Begin && k.tasks == []
    requires forall i | 0 <= i < |k.lanes| :: k.lanes[i].at == Begin && k.lanes[i].pc == Working
    ensures KInv(k)
  {
  }

  lemma {:induction false} RunKeeps(s: System, steps: seq<Tick>, d: System)
    requires AllInv(s) && Runs(s, steps, d)
    ensures AllInv(d)
    decreases |steps|
  {
    hide SInv, Awake, Enabled, Apply;
    if steps != [] {
      OneStep(s, steps[0]);
      RunKeeps(Apply(s, steps[0]), steps[1..], d);
    }
  }

  lemma OneStep(s: System, step: Tick)
    requires AllInv(s) && Enabled(s, step)
    ensures AllInv(Apply(s, step))
  {
    hide Awake, Enabled, Apply, Aligned;
    TickKeeps(s, step);
    StepAwake(s, step, 0);
    StepAwake(s, step, 1);
  }

  lemma Reachable(s: System, steps: seq<Tick>, d: System)
    requires Init(s) && Runs(s, steps, d)
    ensures AllInv(d)
  {
    InitOk(s);
    RunKeeps(s, steps, d);
  }

  // ---- barriers and broadcasts ----

  /** All lanes perform the same sequence of barriers: they have passed the same one, those that wait do so
      at the same next one, and either all of them leave the loop or none. */
  lemma BarriersAlign(s: System, steps: seq<Tick>, d: System, i: nat, j: nat)
    requires Init(s) && Runs(s, steps, d) && i < |d.k.lanes| && j < |d.k.lanes|
    ensures
      var a, b := d.k.lanes[i], d.k.lanes[j];
      && a.at == b.at
      && (a.pc.Waiting? && b.pc.Waiting? ==> a.pc.next == b.pc.next)
      && !(a.pc.Exited? && b.pc.Waiting?)
  {
    Reachable(s, steps, d);
    ExitsTogether(d.k, i);
    ExitsTogether(d.k, j);
  }

  lemma ExitsTogether(k: Control, i: nat)
    requires Aligned(k) && LocalsOk(k) && i < |k.lanes|
    ensures k.lanes[i].at == k.epoch && PcOk(k, i, k.lanes[i])
    ensures k.epoch == ExitRead ==> k.lanes[i].exit == k.lanes[0].exit
  {
    assert LocalOk(k.epoch, k.counter, i, k.lanes[i], k.lanes[0]);
  }

  ghost predicate Delivered(l: Lane, leader: Lane, counter: nat) {
    && (InTick(l.at) ==> l.tasks == leader.tasks == TasksPtr)
    && (InTick(l.at) && l.at != TasksRead && l.at != CountSent ==> l.count == leader.count == TASKS)
    && (l.at.CancelRead? || l.at.WideTop? || l.at.WideGo? || l.at.WideDone? || l.at.WideEnd? ==>
          l.cancelPtr == leader.cancelPtr == CancelPtr(l.at.t))
    && (l.at.TakeRead? || l.at.ThinEnd? ==> l.takePtr == leader.takePtr == TakePtr(l.at.t))
    && (l.at.ThinCounted? ==> l.thinDone == leader.thinDone == counter)
    && (l.at == ExitRead ==> l.exit == leader.exit)
  }

  lemma LocalsDelivered(k: Control, i: nat)
    requires Aligned(k) && LocalsOk(k) && i < |k.lanes|
    ensures Delivered(k.lanes[i], k.lanes[0], k.counter)
  {
    assert LocalOk(k.epoch, k.counter, i, k.lanes[i], k.lanes[0]);
    assert LocalOk(k.epoch, k.counter, 0, k.lanes[0], k.lanes[0]);
  }

  /** A lane that has passed the second barrier of a broadcast has the source lane's value. */
  lemma BroadcastsDeliver(s: System, steps: seq<Tick>, d: System, i: nat)
    requires Init(s) && Runs(s, steps, d) && i < |d.k.lanes|
    ensures Delivered(d.k.lanes[i], d.k.lanes[0], d.k.counter)
  {
    hide Init, Runs, Aligned, LocalsOk, TasksOk, MemOk, Awake, PoolIs, Delivered;
    Reachable(s, steps, d);
    LocalsDelivered(d.k, i);
  }

  // ---- gathered requests ----

  lemma OneHolder(k: Control, i: nat, j: nat)
    requires Aligned(k) && i < |k.lanes| && j < |k.lanes|
    requires ThinTurn(k, i, k.lanes[i].pc) && ThinTurn(k, j, k.lanes[j].pc) && k.lanes[i].pc.j == k.lanes[j].pc.j
    ensures i == j
  {
    assert PcOk(k, i, k.lanes[i]) && PcOk(k, j, k.lanes[j]);
  }

  /** No thin ticket is in the hands of two lanes. */
  lemma TicketsAreOwned(s: System, steps: seq<Tick>, d: System, i: nat, j: nat)
    requires Init(s) && Runs(s, steps, d) && i < |d.k.lanes| && j < |d.k.lanes|
    requires ThinTurn(d.k, i, d.k.lanes[i].pc) && ThinTurn(d.k, j, d.k.lanes[j].pc)
    requires d.k.lanes[i].pc.j == d.k.lanes[j].pc.j
    ensures i == j
  {
    hide Init, Runs, Aligned, LocalsOk, TasksOk, MemOk, Awake, PoolIs;
    Reachable(s, steps, d);
    OneHolder(d.k, i, j);
  }

  lemma TasksAreDone(k: Control)
    requires TasksOk(k) && k.epoch == TasksEnd
    ensures |k.tasks| == TASKS && AllExecuted(k.tasks[0]) && AllDone(k.tasks[0]) && AllDone(k.tasks[1])
    ensures forall t | 0 <= t < |k.tasks| :: TaskOk(k.tasks[t]) && AllDone(k.tasks[t])
  {
  }

  /** When the lanes have passed the last task of a tick, whatever was cancelled and whenever, no gathered
      request is left over: each was executed or deferred, and those of high priority were executed. */
  lemma TickConserves(s: System, steps: seq<Tick>, d: System)
    requires Init(s) && Runs(s, steps, d) && d.k.epoch == TasksEnd
    ensures |d.k.tasks| == TASKS && AllExecuted(d.k.tasks[0]) && AllDone(d.k.tasks[1])
    ensures d.cache.pool == multiset{}
  {
    hide Init, Runs, Aligned, LocalsOk, TasksOk, MemOk, Awake, PoolOf, AllExecuted, AllDone;
    Reachable(s, steps, d);
    TasksAreDone(d.k);
    DoneIsEmpty(d.k.tasks);
  }

  predicate SettledAs(ts: seq<Task>, t: nat, wide: bool, j: nat, f: Fate) {
    && t < |ts| && f != Pending
    && if wide then j < |ts[t].wideFate| && ts[t].wideFate[j] == f else j < |ts[t].thinFate| && ts[t].thinFate[j] == f
  }

  /** What a request came to is final: only gathering the next tick's batches replaces it. */
  lemma FatesAreFinal(s: System, steps: seq<Tick>, d: System, step: Tick, t: nat, wide: bool, j: nat, f: Fate)
    requires Init(s) && Runs(s, steps, d) && Enabled(d, step) && SettledAs(d.k.tasks, t, wide, j, f)
    ensures SettledAs(Apply(d, step).k.tasks, t, wide, j, f) || step.GatherBatch?
  {
    hide Init, Runs, Aligned, LocalsOk, TasksOk, MemOk, Awake, PoolIs, Enabled, Apply, ActOf, CanAct, Do, SettledAs;
    Reachable(s, steps, d);
    if !step.GatherBatch? {
      Moves(d, step);
      if ActOf(d, step).Some? {
        ActFinal(d.k, ActOf(d, step).value, t, wide, j, f);
      }
    }
  }

  /** The lanes move as the act of a step says. */
  lemma Moves(d: System, step: Tick)
    requires Enabled(d, step)
    ensures ActOf(d, step).None? ==> Apply(d, step).k == d.k
    ensures ActOf(d, step).Some? ==>
              && CanAct(d.k, ActOf(d, step).value) && Apply(d, step).k == Do(d.k, ActOf(d, step).value)
              && (ActOf(d, step).value.Gather? ==> step.GatherBatch?)
  {
    hide CanAct, Do, Region, CacheProtocol.Enabled;
  }

  lemma DeferFinal(k: Control, t: nat, wide: bool, j: nat, f: Fate)
    requires Aligned(k) && LocalsOk(k) && TasksOk(k) && CanDefer(k) && SettledAs(k.tasks, t, wide, j, f)
    ensures SettledAs(DeferDo(k).tasks, t, wide, j, f)
  {
    assert LocalOk(k.epoch, k.counter, 0, k.lanes[0], k.lanes[0]);
    var e := k.lanes[0].at;
    assert WideSplit(k.tasks[e.t], WideCursor(k)) && ThinSplit(k, k.tasks[e.t], ThinCursor(k));
  }

  lemma WideFinal(k: Control, a: Act, t: nat, wide: bool, j: nat, f: Fate)
    requires Aligned(k) && TasksOk(k) && CanAct(k, a) && WideAct(a) && SettledAs(k.tasks, t, wide, j, f)
    ensures SettledAs(Do(k, a).tasks, t, wide, j, f)
  {
    hide TasksOk;
    WideTasks(k, a);
  }

  lemma ThinFinal(k: Control, a: Act, t: nat, wide: bool, j: nat, f: Fate)
    requires Aligned(k) && CanAct(k, a) && ThinAct(a) && SettledAs(k.tasks, t, wide, j, f)
    ensures SettledAs(Do(k, a).tasks, t, wide, j, f)
  {
    assert PcOk(k, a.i, k.lanes[a.i]);
  }

  lemma QuietFinal(k: Control, a: Act, t: nat, wide: bool, j: nat, f: Fate)
    requires CanAct(k, a) && SettledAs(k.tasks, t, wide, j, f)
    requires !a.Gather? && !a.DeferRest? && !WideAct(a) && !ThinAct(a)
    ensures SettledAs(Do(k, a).tasks, t, wide, j, f)
  {
  }

  lemma ActFinal(k: Control, a: Act, t: nat, wide: bool, j: nat, f: Fate)
    requires Aligned(k) && LocalsOk(k) && TasksOk(k) && CanAct(k, a) && !a.Gather? && SettledAs(k.tasks, t, wide, j, f)
    ensures SettledAs(Do(k, a).tasks, t, wide, j, f)
  {
    hide Aligned, LocalsOk, TasksOk, SettledAs;
    if WideAct(a) {
      WideFinal(k, a, t, wide, j, f);
    } else if ThinAct(a) {
      ThinFinal(k, a, t, wide, j, f);
    } else if a.DeferRest? {
      DeferFinal(k, t, wide, j, f);
    } else {
      QuietFinal(k, a, t, wide, j, f);
    }
  }

  ghost predicate WasClaimed(c: Cache, r: Request) {
    && r in c.pool && Live(c.table, r.signal)
    && c.table.heap[r.signal].key == r.key && c.table.heap[r.signal].working == 1
    && Lookup(c.table, r.key) == Some(r.signal)
  }

  lemma CompletesClaimed(c: Cache, r: Request, val: Artifact, gen: int)
    requires Inv(c) && CacheProtocol.Enabled(c, CacheProtocol.Complete(r, val, gen))
    ensures WasClaimed(c, r)
  {
    CacheTheorems.CompletedWasClaimed(c, r, val, gen);
    LiveIsFound(c.table, r.signal);
  }

  /** The request a lane completes. */
  function Finished(s: System, step: Tick): Option<Request> {
    match step
    case FinishWide(_, _) => if WideTurn(s.k, Working) then Some(WideRequest(s.k, Working)) else None
    case FinishThin(i, _, _) =>
      if i < |s.k.lanes| && ThinTurn(s.k, i, s.k.lanes[i].pc) then Some(ThinRequest(s.k, i)) else None
    case _ => None
  }

  lemma FinishRegion(d: System, step: Tick)
    requires Enabled(d, step) && (step.FinishWide? || step.FinishThin?)
    ensures Finished(d, step).Some?
            && RegionOf(d, step) == Some(CacheProtocol.Complete(Finished(d, step).value, step.val, step.gen))
  {
  }

  /** Whatever the interleaving, a lane that completes a request completes a linked node that was claimed for
      it exactly once, and the claim is gone afterwards. */
  lemma CompletionsAreClaimed(s: System, steps: seq<Tick>, d: System, step: Tick)
    requires Init(s) && Runs(s, steps, d) && Enabled(d, step) && (step.FinishWide? || step.FinishThin?)
    ensures Finished(d, step).Some? && WasClaimed(d.cache, Finished(d, step).value)
  {
    hide *;
    Reachable(s, steps, d);
    InvParts(d);
    FinishRegion(d, step);
    Refines(d, step);
    CompletesClaimed(d.cache, Finished(d, step).value, step.val, step.gen);
  }

  lemma InvParts(d: System)
    requires AllInv(d)
    ensures SInv(d) && Inv(d.cache)
  {
    hide KInv, PoolIs, Awake;
  }

  // ---- no request waits for a sleeping loop ----

  lemma NobodyRaises(k: Control)
    requires Aligned(k) && (k.epoch == Begin || k.epoch == ExitRead)
    ensures !LaneRaising(k)
  {
    forall i | 0 <= i < |k.lanes| ensures k.lanes[i].pc != Raising {
      assert PcOk(k, i, k.lanes[i]);
    }
  }

  lemma InvIsAwake(d: System, b: nat)
    requires AllInv(d) && b < 2
    ensures Aligned(d.k) && Awake(d, b)
  {
    hide Aligned, LocalsOk, TasksOk, MemOk, PoolIs, Awake, CacheInvariant.CacheInv, Waits, Submitting, LaneRaising,
         PreGather;
  }

  lemma AwakeAtRest(d: System, b: nat)
    requires Aligned(d.k) && b < 2 && Awake(d, b) && Waits(d.cache, b) && !Submitting(d.cache, b)
    requires d.k.lanes[0].pc == Working && (d.k.lanes[0].at == Begin || d.k.lanes[0].at == ExitRead)
    ensures d.cache.again
  {
    NobodyRaises(d.k);
    hide Aligned, LaneRaising, Waits, Submitting;
  }

  /** A request is queued, no submitter is between its push and its flag, and lane 0 decides whether to
      sleep: then the loop flag is up, so it does not. */
  lemma NoLostWakeup(s: System, steps: seq<Tick>, d: System, b: nat)
    requires Init(s) && Runs(s, steps, d) && b < 2 && Waits(d.cache, b) && !Submitting(d.cache, b)
    requires |d.k.lanes| > 0 && d.k.lanes[0].pc == Working && (d.k.lanes[0].at == Begin || d.k.lanes[0].at == ExitRead)
    ensures d.cache.again
  {
    hide *;
    Reachable(s, steps, d);
    InvIsAwake(d, b);
    AwakeAtRest(d, b);
  }

  // ---- cancelled nodes ----

  /** A run during which node `n` stays linked. */
  ghost predicate RunsLinked(s: System, steps: seq<Tick>, d: System, n: NodeId)
    decreases |steps|
  {
    && Live(s.cache.table, n)
    && if steps == [] then d == s
       else Enabled(s, steps[0]) && RunsLinked(Apply(s, steps[0]), steps[1..], d, n)
  }

  ghost predicate IsCancelled(s: System, n: NodeId) { Live(s.cache.table, n) && s.cache.table.heap[n].cancelled }

  lemma TickCancelled(s: System, step: Tick, n: NodeId)
    requires SInv(s) && Enabled(s, step) && IsCancelled(s, n) && Live(Apply(s, step).cache.table, n)
    ensures IsCancelled(Apply(s, step), n)
  {
    Refines(s, step);
    hide KInv, PoolIs, Enabled, ActOf, Do, Live;
    if RegionOf(s, step).Some? {
      CacheDepartures.CancelledStays(s.cache, RegionOf(s, step).value, n);
    }
  }

  lemma {:induction false} RunsCancelled(s: System, steps: seq<Tick>, d: System, n: NodeId)
    requires SInv(s) && IsCancelled(s, n) && RunsLinked(s, steps, d, n)
    ensures IsCancelled(d, n)
    decreases |steps|
  {
    hide SInv, Enabled, Apply, IsCancelled, Live;
    if steps != [] {
      LinkedNext(s, steps, d, n);
      TickCancelled(s, steps[0], n);
      TickKeeps(s, steps[0]);
      RunsCancelled(Apply(s, steps[0]), steps[1..], d, n);
    }
  }

  lemma LinkedNext(s: System, steps: seq<Tick>, d: System, n: NodeId)
    requires RunsLinked(s, steps, d, n) && steps != []
    ensures Enabled(s, steps[0]) && Live(Apply(s, steps[0]).cache.table, n)
  {
    hide Enabled, Apply, Live;
  }

  /** If lane 0 is on a wide request for `n`, the request can be dropped and cannot be set aside to be queued again. */
  ghost predicate WideDrops(d: System, n: NodeId) {
    WideTurn(d.k, Working) && !d.k.cancelled && WideRequest(d.k, Working).signal == n ==>
      !Enabled(d, Quiet(WideRetry)) && Enabled(d, DropWide)
  }

  ghost predicate ThinDrops(d: System, i: nat, n: NodeId) {
    CanAct(d.k, ThinRetry(i)) && ThinRequest(d.k, i).signal == n ==>
      !Enabled(d, Quiet(ThinRetry(i))) && Enabled(d, DropThin(i))
  }

  lemma CancelledDrops(d: System, n: NodeId, i: nat)
    requires n in d.cache.table.heap && d.cache.table.heap[n].cancelled
    ensures WideDrops(d, n) && ThinDrops(d, i, n)
  {
  }

  /** Once a node is cancelled, and as long as it stays linked, a retry for it is never queued again: the lane that
      has the request can only drop it (or finish it after all). */
  lemma CancelledRetriesDrop(s: System, steps: seq<Tick>, c: System, more: seq<Tick>, d: System, n: NodeId, i: nat)
    requires Init(s) && Runs(s, steps, c) && IsCancelled(c, n) && RunsLinked(c, more, d, n)
    ensures WideDrops(d, n) && ThinDrops(d, i, n)
  {
    Reachable(s, steps, c);
    hide Init, Runs, RunsLinked, WideDrops, ThinDrops, SInv, Awake;
    RunsCancelled(c, more, d, n);
    CancelledDrops(d, n, i);
  }
}
