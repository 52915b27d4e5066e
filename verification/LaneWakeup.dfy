/** No request waits for a loop that sleeps. Lane 0 clears the loop flag before it gathers, submitters raise it
    after they have queued, and so do the lanes that queue a request again. */
module LaneWakeup {
  import opened Basics
  import opened CacheState
  import P = CacheProtocol
  import opened LaneControl
  import opened LaneInvariant
  import opened LaneTick

  predicate Waits(c: Cache, b: nat)
    requires b < 2
  {
    c.batches[b].wide != [] || c.batches[b].thin != []
  }

  /** A client has queued a request on batch `b` and not raised the flag yet. */
  predicate Submitter(cl: Client, b: nat) { cl.Pushed? && (cl.q.high <==> b == 0) }

  ghost predicate Submitting(c: Cache, b: nat) { exists i | 0 <= i < |c.clients| :: Submitter(c.clients[i], b) }

  ghost predicate LaneRaising(k: Control) { exists i | 0 <= i < |k.lanes| :: k.lanes[i].pc == Raising }

  /** Lane 0 has cleared the flag and has yet to gather batch `b`. */
  predicate PreGather(k: Control, b: nat) {
    && 0 < |k.lanes|
    && var l := k.lanes[0];
       || ((l.at == Begin || l.at == ExitRead) && (l.pc == AfterReset || l.pc == Waiting(LoopTop)))
       || (l.at == LoopTop && (l.pc == Working || (l.pc == SecondBatch && b == 1)))
  }

  ghost predicate Awake(s: System, b: nat)
    requires b < 2
  {
    Waits(s.cache, b) ==> s.cache.again || PreGather(s.k, b) || Submitting(s.cache, b) || LaneRaising(s.k)
  }

  /** What a step that neither gathers nor clears the flag does to the cache's part of Awake. */
  ghost predicate Steady(c: Cache, d: Cache, b: nat)
    requires b < 2
  {
    && (c.again ==> d.again)
    && (Submitting(c, b) ==> d.again || Submitting(d, b))
    && (Waits(d, b) ==> Waits(c, b) || Submitting(d, b))
  }

  lemma ClientMoves(c: Cache, d: Cache, i: nat, b: nat)
    requires b < 2 && i < |c.clients| && |d.clients| == |c.clients|
    requires forall j | 0 <= j < |c.clients| && j != i :: d.clients[j] == c.clients[j]
    requires c.again ==> d.again
    requires Submitter(c.clients[i], b) ==> d.again || Submitter(d.clients[i], b)
    requires Waits(d, b) ==> Waits(c, b) || Submitter(d.clients[i], b)
    ensures Steady(c, d, b)
  {
    if Submitting(c, b) {
      var j :| 0 <= j < |c.clients| && Submitter(c.clients[j], b);
      assert j != i ==> Submitter(d.clients[j], b);
    }
  }

  lemma EnvSteady(c: Cache, e: P.Step, b: nat)
    requires b < 2 && P.Enabled(c, e) && IsEnv(e)
    ensures Steady(c, P.Apply(c, e), b)
  {
    if e.Fast? || e.Acquire? {
      LookupSteady(c, e, b);
    } else if e.CloseTouch? || e.Cancel? {
      hide Submitting, Steady;
      Still(c, P.Apply(c, e), b);
    } else {
      FlagSteady(c, e, b);
    }
  }

  lemma LookupSteady(c: Cache, e: P.Step, b: nat)
    requires b < 2 && P.Enabled(c, e) && (e.Fast? || e.Acquire?)
    ensures Steady(c, P.Apply(c, e), b)
  {
    hide Submitting, Steady;
    ClientMoves(c, P.Apply(c, e), e.i, b);
  }

  lemma FlagSteady(c: Cache, e: P.Step, b: nat)
    requires b < 2 && P.Enabled(c, e) && (e.SetAgain? || e.SetHigh? || e.Check?)
    ensures Steady(c, P.Apply(c, e), b)
  {
    hide Submitting, Steady;
    ClientMoves(c, P.Apply(c, e), e.i, b);
  }

  lemma Still(c: Cache, d: Cache, b: nat)
    requires b < 2 && d.clients == c.clients && d.batches == c.batches && (c.again ==> d.again)
    ensures Steady(c, d, b)
  {
  }

  /** What an act that neither gathers nor raises does to the lanes' part of Awake. */
  ghost predicate Forward(k: Control, d: Control, b: nat) {
    (PreGather(k, b) ==> PreGather(d, b)) && (LaneRaising(k) ==> LaneRaising(d))
  }

  lemma LaneMoves(k: Control, d: Control, i: nat, b: nat)
    requires i < |k.lanes| == |d.lanes| && k.lanes[i].pc != Raising
    requires forall j | 0 <= j < |k.lanes| && j != i :: d.lanes[j] == k.lanes[j]
    requires i == 0 && PreGather(k, b) ==> PreGather(d, b)
    ensures Forward(k, d, b)
  {
    if LaneRaising(k) {
      var j :| 0 <= j < |k.lanes| && k.lanes[j].pc == Raising;
      assert d.lanes[j].pc == Raising;
    }
  }

  lemma LeaderForward(k: Control, a: Act, b: nat)
    requires CanAct(k, a) && (a.Reset1? || a.Reset2? || a.WideFinish? || a.WideRetry? || a.WidePush? || a.DeferRest?)
    ensures Forward(k, Do(k, a), b)
  {
    hide LaneRaising, Forward;
    LaneMoves(k, Do(k, a), 0, b);
  }

  lemma ThinForward(k: Control, a: Act, b: nat)
    requires CanAct(k, a)
    requires a.ThinTop? || a.ThinCancel? || a.ThinTest? || a.ThinTake? || a.ThinFinish? || a.ThinRetry? || a.ThinPush?
    ensures Forward(k, Do(k, a), b)
  {
    hide LaneRaising, Forward;
    LaneMoves(k, Do(k, a), a.i, b);
  }

  lemma ActForward(k: Control, a: Act, b: nat)
    requires CanAct(k, a) && !a.Gather? && !a.Raise?
    ensures Forward(k, Do(k, a), b)
  {
    hide LaneRaising, Forward;
    if a.Release? {
      ReleaseForward(k, b);
    } else if a.SetExit? {
      ExitForward(k, b);
    } else if a.Arrive? || a.Leave? {
      LaneMoves(k, Do(k, a), a.i, b);
    } else {
      hide Do, CanAct;
      match a {
        case Reset1 => LeaderForward(k, a, b);
        case Reset2 => LeaderForward(k, a, b);
        case WideFinish => LeaderForward(k, a, b);
        case WideRetry => LeaderForward(k, a, b);
        case WidePush => LeaderForward(k, a, b);
        case DeferRest => LeaderForward(k, a, b);
        case ThinTop(_, _) => ThinForward(k, a, b);
        case ThinCancel(_) => ThinForward(k, a, b);
        case ThinTest(_) => ThinForward(k, a, b);
        case ThinTake(_) => ThinForward(k, a, b);
        case ThinFinish(_) => ThinForward(k, a, b);
        case ThinRetry(_) => ThinForward(k, a, b);
        case ThinPush(_) => ThinForward(k, a, b);
      }
    }
  }

  lemma ReleaseForward(k: Control, b: nat)
    requires CanAct(k, Release)
    ensures Forward(k, ReleaseDo(k), b)
  {
  }

  lemma ExitForward(k: Control, b: nat)
    ensures Forward(k, k.(exiting := true), b)
  {
    var d := k.(exiting := true);
    assert d.lanes == k.lanes;
  }

  lemma SteadyAwake(s: System, d: System, b: nat)
    requires b < 2 && Awake(s, b) && Steady(s.cache, d.cache, b) && Forward(s.k, d.k, b)
    ensures Awake(d, b)
  {
  }

  predicate Passive(step: Tick) {
    step.Env? || step.Quiet? || step.EvictOne? || step.FinishWide? || step.DropWide? || step.FinishThin?
      || step.DropThin?
  }

  lemma RegionSteady(c: Cache, step: Option<P.Step>, b: nat)
    requires b < 2
    requires step.Some? ==> IsEnv(step.value) || step.value.Evict? || step.value.Complete? || step.value.DropRetry?
    ensures Steady(c, Region(c, step), b)
  {
    hide Submitting, Steady;
    if step.Some? && P.Enabled(c, step.value) && IsEnv(step.value) {
      EnvSteady(c, step.value, b);
    } else {
      Still(c, Region(c, step), b);
    }
  }

  lemma PassiveAwake(s: System, step: Tick, b: nat)
    requires b < 2 && Awake(s, b) && Enabled(s, step) && Passive(step)
    ensures Awake(Apply(s, step), b)
  {
    hide Awake, Steady, Forward, Region, Do, CanAct;
    var d := Apply(s, step);
    RegionSteady(s.cache, RegionOf(s, step), b);
    if ActOf(s, step).Some? {
      ActForward(s.k, ActOf(s, step).value, b);
    } else {
      SameForward(s.k, b);
    }
    SteadyAwake(s, d, b);
  }

  lemma SameForward(k: Control, b: nat)
    ensures Forward(k, k, b)
  {
  }

  lemma ResetAwake(s: System, step: Tick, b: nat)
    requires b < 2 && Aligned(s.k) && Enabled(s, step) && (step.ResetLoop? || step.ResetPriority?)
    ensures Awake(Apply(s, step), b)
  {
    assert PcOk(s.k, 0, s.k.lanes[0]);
    assert PreGather(Apply(s, step).k, b);
  }

  lemma RaiseAwake(s: System, i: nat, b: nat)
    requires b < 2 && Enabled(s, RaiseFlag(i))
    ensures Awake(Apply(s, RaiseFlag(i)), b)
  {
  }

  lemma GatherAwake(s: System, b: nat)
    requires b < 2 && Awake(s, b) && Enabled(s, GatherBatch)
    ensures Awake(Apply(s, GatherBatch), b)
  {
    if b != NextBatch(s.k) {
      OtherGathered(s, b);
    }
  }

  /** Gathering one batch leaves the other as it was, and a lane about to raise the flag. */
  lemma OtherGathered(s: System, b: nat)
    requires b < 2 && Awake(s, b) && Enabled(s, GatherBatch) && b != NextBatch(s.k)
    ensures Awake(Apply(s, GatherBatch), b)
  {
    var d := Apply(s, GatherBatch);
    Still2(s.cache, d.cache, b);
    if LaneRaising(s.k) {
      var j :| 0 <= j < |s.k.lanes| && s.k.lanes[j].pc == Raising;
      assert d.k.lanes[j].pc == Raising;
    }
  }

  lemma Still2(c: Cache, d: Cache, b: nat)
    requires b < 2 && d.clients == c.clients && d.batches[b] == c.batches[b] && d.again == c.again
    ensures Waits(d, b) == Waits(c, b) && Submitting(d, b) == Submitting(c, b)
  {
  }

  lemma PushAwake(s: System, step: Tick, b: nat)
    requires b < 2 && Enabled(s, step) && (step.PushWide? || step.PushThin?)
    ensures Awake(Apply(s, step), b)
  {
    var d := Apply(s, step);
    var i := if step.PushWide? then 0 else step.i;
    assert d.k.lanes[i].pc == Raising;
  }

  lemma DeferAwake(s: System, b: nat)
    requires b < 2 && Awake(s, b) && Enabled(s, DeferTask)
    ensures Awake(Apply(s, DeferTask), b)
  {
    var d := Apply(s, DeferTask);
    var l := s.k.lanes[0];
    if Unfinished(s.k, l.at.t, l.at.done, l.thinDone) {
      assert d.k.lanes[0].pc == Raising;
    } else {
      assert RestWide(s.k) == [] && RestThin(s.k) == [];
      Still2(s.cache, d.cache, b);
      ActForward(s.k, DeferRest, b);
    }
  }

  lemma StepAwake(s: System, step: Tick, b: nat)
    requires b < 2 && Aligned(s.k) && Awake(s, b) && Enabled(s, step)
    ensures Awake(Apply(s, step), b)
  {
    hide Awake, Enabled, Apply, Aligned;
    match step {
      case ResetLoop => ResetAwake(s, step, b);
      case ResetPriority => ResetAwake(s, step, b);
      case RaiseFlag(i) => RaiseAwake(s, i, b);
      case GatherBatch => GatherAwake(s, b);
      case PushWide => PushAwake(s, step, b);
      case PushThin(_) => PushAwake(s, step, b);
      case DeferTask => DeferAwake(s, b);
      case _ => PassiveAwake(s, step, b);
    }
  }
}
