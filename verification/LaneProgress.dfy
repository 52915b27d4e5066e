/** A tick ends. Some lane can always go on, and every schedule reaches the end of the tick within a number of
    lane steps fixed when the batches were gathered. */
module LaneProgress {
  import opened CacheState
  import P = CacheProtocol
  import opened LaneControl
  import opened LaneInvariant
  import opened LaneTick
  import opened LaneWakeup
  import LaneTheorems

  // ---- some step is always possible ----

  /** A step of a lane other than a retry, or a client going on in a region it holds a stripe for. */
  predicate Advances(step: Tick) {
    match step
    case Env(e) => e.SetAgain? || e.SetHigh? || e.Check?
    case Quiet(a) => !a.WideRetry? && !a.ThinRetry? && !a.SetExit?
    case EvictOne(_, _, _) => false
    case DropWide => false
    case DropThin(_) => false
    case _ => true
  }

  ghost predicate CanGo(s: System) { exists step :: Enabled(s, step) && Advances(step) }

  lemma Goes(s: System, step: Tick)
    requires Enabled(s, step) && Advances(step)
    ensures CanGo(s)
  {
  }

  /** Whoever holds a stripe can go on until it lets go. */
  lemma HolderGoes(s: System, st: Stripe)
    requires ClientsOk(s.cache) && st in s.cache.writer
    ensures CanGo(s)
  {
    var i := s.cache.writer[st];
    var cl := s.cache.clients[i];
    assert ClientOk(s.cache, i, cl);
    match cl {
      case Pushed(_, _, _) => Goes(s, Env(P.SetAgain(i)));
      case Flagged(_, _, _) => Goes(s, Env(P.SetHigh(i)));
      case Checking(_, _, _) => Goes(s, Env(P.Check(i, false, false)));
    }
  }

  lemma WideGoes(s: System)
    requires ClientsOk(s.cache) && WideTurn(s.k, Working) && !s.k.cancelled
    ensures CanGo(s)
  {
    hide ClientsOk, CanGo;
    var st := KeyStripe(s.cache.table.cfg, WideRequest(s.k, Working).key);
    if st in s.cache.writer {
      HolderGoes(s, st);
    } else {
      Goes(s, FinishWide(0, 0));
    }
  }

  lemma ThinGoes(s: System, i: nat)
    requires ClientsOk(s.cache) && i < |s.k.lanes| && s.k.lanes[i].pc.Running? && ThinTurn(s.k, i, s.k.lanes[i].pc)
    ensures CanGo(s)
  {
    hide ClientsOk, CanGo;
    var st := KeyStripe(s.cache.table.cfg, ThinRequest(s.k, i).key);
    if st in s.cache.writer {
      HolderGoes(s, st);
    } else {
      Goes(s, FinishThin(i, 0, 0));
    }
  }

  lemma QuietGoes(s: System, a: Act)
    requires CanAct(s.k, a) && !a.WideRetry? && !a.ThinRetry? && !a.SetExit? && IsQuiet(s, a)
    ensures CanGo(s)
  {
    assert Enabled(s, Quiet(a));
    Goes(s, Quiet(a));
  }

  lemma DeferGoes(s: System)
    requires Aligned(s.k) && TasksOk(s.k) && s.k.epoch.ThinCounted? && s.k.epoch.t > 0 && s.k.lanes[0].pc == Working
    ensures CanGo(s)
  {
    assert WideSplit(s.k.tasks[s.k.epoch.t], WideCursor(s.k));
    Goes(s, DeferTask);
  }

  lemma WorkingWide(k: Control)
    requires Aligned(k) && TasksOk(k) && k.epoch.WideGo? && k.lanes[0].pc == Working
    ensures WideTurn(k, Working)
  {
  }

  /** Lane `i`, working between two barriers, is not stuck. */
  lemma WorkingGoes(s: System, i: nat)
    requires Aligned(s.k) && TasksOk(s.k) && ClientsOk(s.cache)
    requires i < |s.k.lanes| && s.k.lanes[i].pc == Working
    ensures CanGo(s)
  {
    hide TasksOk, ClientsOk, CanGo, Enabled;
    var k := s.k;
    var high := s.cache.high;
    if CanArrive(k, i) {
      QuietGoes(s, Arrive(i, high));
    } else if k.epoch.TakeRead? {
      QuietGoes(s, ThinTop(i, high));
    } else if k.epoch.WideGo? {
      WorkingWide(k);
      WideGoes(s);
    } else if k.epoch.ThinCounted? {
      DeferGoes(s);
    } else if k.epoch == ExitRead && k.lanes[i].exit {
      QuietGoes(s, Leave(i));
    } else {
      LeaderGoes(s);
    }
  }

  /** Lane 0 has to reset the loop flags or gather. */
  lemma LeaderGoes(s: System)
    requires CanAct(s.k, Reset1) || CanAct(s.k, Reset2) || CanAct(s.k, Gather(Batch([], [])))
    ensures CanGo(s)
  {
    hide CanGo;
    if CanAct(s.k, Reset1) {
      Goes(s, ResetLoop);
    } else if CanAct(s.k, Reset2) {
      Goes(s, ResetPriority);
    } else {
      Goes(s, GatherBatch);
    }
  }

  /** A lane inside one of its segments. */
  lemma InsideGoes(s: System, i: nat)
    requires i < |s.k.lanes| && s.k.lanes[i].at == s.k.epoch && PcOk(s.k, i, s.k.lanes[i])
    requires s.k.lanes[i].pc.AfterReset? || s.k.lanes[i].pc.SecondBatch? || s.k.lanes[i].pc.Sending?
             || s.k.lanes[i].pc.Raising?
    ensures CanGo(s)
  {
    hide CanGo, Enabled;
    match s.k.lanes[i].pc {
      case AfterReset => LeaderGoes(s);
      case SecondBatch => LeaderGoes(s);
      case Sending => QuietGoes(s, Arrive(0, s.cache.high));
      case Raising => RaiseGoes(s, i);
    }
  }

  lemma RaiseGoes(s: System, i: nat)
    requires i < |s.k.lanes| && s.k.lanes[i].pc.Raising?
    ensures CanGo(s)
  {
    Goes(s, RaiseFlag(i));
  }

  /** A lane in the thin loop. */
  lemma ThinLoopGoes(s: System, i: nat)
    requires ClientsOk(s.cache) && i < |s.k.lanes| && s.k.lanes[i].at == s.k.epoch && PcOk(s.k, i, s.k.lanes[i])
    requires
      var pc := s.k.lanes[i].pc;
      pc.SetCancel? || pc.TestCancel? || pc.Take? || pc.Running? || pc.Returning?
    ensures CanGo(s)
  {
    hide CanGo, Enabled, ClientsOk;
    match s.k.lanes[i].pc {
      case SetCancel => QuietGoes(s, ThinCancel(i));
      case TestCancel => QuietGoes(s, ThinTest(i));
      case Take => QuietGoes(s, ThinTake(i));
      case Running(_) => ThinGoes(s, i);
      case Returning(_) => ReturnGoes(s, i);
    }
  }

  lemma ReturnGoes(s: System, i: nat)
    requires CanAct(s.k, ThinPush(i))
    ensures CanGo(s)
  {
    Goes(s, PushThin(i));
  }

  lemma PushGoes(s: System)
    requires Aligned(s.k) && TasksOk(s.k) && s.k.lanes[0].pc == Resubmitting
    ensures CanGo(s)
  {
    assert PcOk(s.k, 0, s.k.lanes[0]);
    Goes(s, PushWide);
  }

  lemma LaneGoes(s: System, i: nat)
    requires Aligned(s.k) && TasksOk(s.k) && ClientsOk(s.cache)
    requires i < |s.k.lanes| && !s.k.lanes[i].pc.Waiting? && !s.k.lanes[i].pc.Exited?
    ensures CanGo(s)
  {
    hide TasksOk, ClientsOk, CanGo;
    var pc := s.k.lanes[i].pc;
    assert PcOk(s.k, i, s.k.lanes[i]);
    if pc == Working {
      WorkingGoes(s, i);
    } else if pc == Resubmitting {
      PushGoes(s);
    } else if pc.SetCancel? || pc.TestCancel? || pc.Take? || pc.Running? || pc.Returning? {
      ThinLoopGoes(s, i);
    } else {
      InsideGoes(s, i);
    }
  }

  lemma BarrierOpens(s: System)
    requires Aligned(s.k) && LocalsOk(s.k)
    requires forall i | 0 <= i < |s.k.lanes| :: s.k.lanes[i].pc.Waiting? || s.k.lanes[i].pc.Exited?
    ensures CanGo(s) || forall i | 0 <= i < |s.k.lanes| :: s.k.lanes[i].pc.Exited?
  {
    if j :| 0 <= j < |s.k.lanes| && s.k.lanes[j].pc.Exited? {
      LaneTheorems.ExitsTogether(s.k, j);
      forall i | 0 <= i < |s.k.lanes| ensures s.k.lanes[i].pc.Exited? {
        LaneTheorems.ExitsTogether(s.k, i);
      }
    } else {
      Goes(s, Quiet(Release));
    }
  }

  /** Deadlock freedom: until every lane has left the loop, some lane or the holder of a stripe can go on. */
  lemma NeverStuck(s: System, steps: seq<Tick>, d: System)
    requires LaneTheorems.Init(s) && LaneTheorems.Runs(s, steps, d)
    ensures CanGo(d) || forall i | 0 <= i < |d.k.lanes| :: d.k.lanes[i].pc.Exited?
  {
    LaneTheorems.Reachable(s, steps, d);
    hide Aligned, LocalsOk, TasksOk, MemOk, ClientsOk, Awake, PoolIs, CanGo, LaneTheorems.Init, LaneTheorems.Runs;
    if i :| 0 <= i < |d.k.lanes| && !d.k.lanes[i].pc.Waiting? && !d.k.lanes[i].pc.Exited? {
      LaneGoes(d, i);
    } else {
      BarrierOpens(d);
    }
  }
}
