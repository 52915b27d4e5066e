/** A lone thin request of low priority that a whole tick puts off. */
module LaneWaits {
  import opened Basics
  import opened CacheState
  import P = CacheProtocol
  import CacheTheorems
  import CacheDepartures
  import opened LaneControl
  import opened LaneInvariant
  import opened LaneTick
  import opened LaneTheorems
  import opened LaneLow

  // ---- runs by their ends ----

  ghost predicate Gets(s: System, d: System) { exists steps :: Runs(s, steps, d) }

  lemma {:induction false} RunsThrough(s: System, a: seq<Tick>, c: System, b: seq<Tick>, d: System)
    requires Runs(s, a, c) && Runs(c, b, d)
    ensures Runs(s, a + b, d)
    decreases |a|
  {
    hide Enabled, Apply;
    if a == [] {
      assert a + b == b;
    } else {
      RunsThrough(Apply(s, a[0]), a[1..], c, b, d);
      assert (a + b)[1..] == a[1..] + b;
    }
  }

  lemma GetsOn(s: System, c: System, d: System)
    requires Gets(s, c) && Gets(c, d)
    ensures Gets(s, d)
  {
    hide Runs;
    var a :| Runs(s, a, c);
    var b :| Runs(c, b, d);
    RunsThrough(s, a, c, b, d);
  }

  lemma GetsStep(s: System, step: Tick)
    requires Enabled(s, step)
    ensures Gets(s, Apply(s, step))
  {
    hide Enabled, Apply;
    assert Runs(Apply(s, step), [], Apply(s, step));
    assert Runs(s, [step], Apply(s, step));
  }

  /** Client steps alone. */
  lemma {:induction false} GetsCache(s: System, steps: seq<P.Step>, c: Cache)
    requires CacheTheorems.Runs(s.cache, steps, c) && forall step | step in steps :: IsEnv(step)
    ensures Gets(s, System(c, s.k))
    decreases |steps|
  {
    hide P.Enabled, P.Apply, IsEnv;
    if steps == [] {
      assert Runs(s, [], s);
    } else {
      var d := ClientStep(s, steps[0]);
      GetsCache(d, steps[1..], c);
      GetsOn(s, d, System(c, s.k));
    }
  }

  lemma ClientStep(s: System, e: P.Step) returns (d: System)
    requires IsEnv(e) && P.Enabled(s.cache, e)
    ensures Gets(s, d) && d == System(P.Apply(s.cache, e), s.k)
  {
    hide P.Enabled, P.Apply;
    GetsStep(s, Env(e));
    d := Apply(s, Env(e));
  }

  // ---- one lane from barrier to barrier ----

  /** The only lane has passed a barrier. */
  predicate At(k: Control, site: Site, ts: seq<Task>, cancelled: bool, counter: nat) {
    && |k.lanes| == 1 && k.epoch == site && k.lanes[0].at == site && k.lanes[0].count == TASKS
    && k.tasks == ts && k.cancelled == cancelled && k.counter == counter
  }

  /** It has done nothing since. */
  predicate Free(k: Control, site: Site, ts: seq<Task>, cancelled: bool, counter: nat) {
    At(k, site, ts, cancelled, counter) && k.lanes[0].pc == Working
  }

  /** It waits, and goes on. */
  lemma Goes(o: System, s: System, site: Site, next: Site, ts: seq<Task>, c: bool, n: nat) returns (d: System)
    requires Gets(o, s) && At(s.k, site, ts, c, n) && s.k.lanes[0].pc == Waiting(next)
    ensures Gets(o, d) && d.cache == s.cache && Free(d.k, next, ts, c, n)
    ensures d.k.lanes[0].thinDone == s.k.lanes[0].thinDone
  {
    var step := Quiet(Release);
    GetsStep(s, step);
    d := Apply(s, step);
    hide Enabled, Apply;
    GetsOn(o, s, d);
  }

  /** Barriers with nothing to do before them. */
  predicate Plain(site: Site) {
    && site != Begin && site != LoopTop && site != ExitRead && site != TickEnd && !site.WideTop? && !site.WideGo?
    && !site.TakeRead? && (site.ThinCounted? ==> site.t == 0)
  }

  function NextFree(site: Site, ts: seq<Task>): Site {
    NextSite(Control(site, [], Unset, ts, false, 0, false), Lane(site, Working, Unset, TASKS, Unset, Unset, 0, false))
  }

  /** From one barrier to the next. */
  lemma Hop(o: System, s: System, site: Site, next: Site, ts: seq<Task>, c: bool, n: nat) returns (d: System)
    requires Gets(o, s) && Free(s.k, site, ts, c, n) && Plain(site) && next == NextFree(site, ts)
    ensures Gets(o, d) && d.cache == s.cache
    ensures Free(d.k, next, ts, if site.TaskTop? then false else c, if site.WideEnd? then 0 else n)
    ensures site.ThinEnd? ==> d.k.lanes[0].thinDone == n
  {
    var m := Arrives(o, s, site, next, ts, c, n);
    d := Goes(o, m, site, next, ts, if site.TaskTop? then false else c, if site.WideEnd? then 0 else n);
  }

  lemma Arrives(o: System, s: System, site: Site, next: Site, ts: seq<Task>, c: bool, n: nat) returns (d: System)
    requires Gets(o, s) && At(s.k, site, ts, c, n) && next == NextFree(site, ts)
    requires (Plain(site) && s.k.lanes[0].pc == Working) || (site == LoopTop && s.k.lanes[0].pc == Sending)
    ensures Gets(o, d) && d.cache == s.cache
    ensures At(d.k, site, ts, if site.TaskTop? then false else c, if site.WideEnd? then 0 else n)
    ensures d.k.lanes[0].pc == Waiting(next) && (site.ThinEnd? ==> d.k.lanes[0].thinDone == n)
  {
    var step := Quiet(Arrive(0, s.cache.high));
    ArriveIs(s.k, site, next, ts, c, n, s.cache.high);
    hide ArriveDo, CanArrive, Gets;
    OneMore(o, s, step);
    d := Apply(s, step);
  }

  lemma ArriveIs(k: Control, site: Site, next: Site, ts: seq<Task>, c: bool, n: nat, high: bool)
    requires At(k, site, ts, c, n) && next == NextFree(site, ts)
    requires (Plain(site) && k.lanes[0].pc == Working) || (site == LoopTop && k.lanes[0].pc == Sending)
    ensures CanArrive(k, 0)
    ensures
      var d := ArriveDo(k, 0, high);
      && At(d, site, ts, if site.TaskTop? then false else c, if site.WideEnd? then 0 else n)
      && d.lanes[0].pc == Waiting(next) && (site.ThinEnd? ==> d.lanes[0].thinDone == n)
  {
  }

  lemma OneMore(o: System, s: System, step: Tick)
    requires Gets(o, s) && Enabled(s, step)
    ensures Gets(o, Apply(s, step))
  {
    hide Enabled, Apply, Gets;
    GetsStep(s, step);
    GetsOn(o, s, Apply(s, step));
  }

  // ---- a tick with a lone thin request of low priority ----

  function Tasks(r: Request): seq<Task> { [NewTask(Batch([], [])), NewTask(Batch([], [r]))] }

  lemma TaskCounts(r: Request)
    ensures
      var ts := Tasks(r);
      && |ts| == TASKS && ts[0].wide == [] && ts[1].wide == [] && ts[0].thin == [] && ts[1].thin == [r]
      && ts[1].thinFate == [Pending] && ts[1].wideFate == [] && |ts[1].holder| == 1
  {
  }

  /** From the gathering to the thin requests of the first task. */
  lemma ToFirstThin(o: System, s: System, r: Request, c: bool, n: nat) returns (d: System)
    requires Gets(o, s) && At(s.k, LoopTop, Tasks(r), c, n) && s.k.lanes[0].pc == Sending
    ensures Gets(o, d) && d.cache == s.cache && Free(d.k, TakeRead(0, 0), Tasks(r), false, 0)
  {
    var ts := Tasks(r);
    TaskCounts(r);
    hide At, Free, Gets, Tasks;
    d := Arrives(o, s, LoopTop, TasksSent, ts, c, n);
    d := Goes(o, d, LoopTop, TasksSent, ts, c, n);
    d := ToFirstTask(o, d, ts, c, n);
    d := ToThin(o, d, 0, r, c, n);
  }

  lemma ToFirstTask(o: System, s: System, ts: seq<Task>, c: bool, n: nat) returns (d: System)
    requires Gets(o, s) && Free(s.k, TasksSent, ts, c, n)
    ensures Gets(o, d) && d.cache == s.cache && Free(d.k, TaskTop(0), ts, c, n)
  {
    hide At, Free, Gets;
    d := Hop(o, s, TasksSent, TasksRead, ts, c, n);
    d := Hop(o, d, TasksRead, CountSent, ts, c, n);
    d := Hop(o, d, CountSent, CountRead, ts, c, n);
    d := Hop(o, d, CountRead, Gathered, ts, c, n);
    d := Hop(o, d, Gathered, TaskTop(0), ts, c, n);
  }

  /** From the top of a task without wide requests to its thin ones. */
  lemma ToThin(o: System, s: System, t: nat, r: Request, c: bool, n: nat) returns (d: System)
    requires Gets(o, s) && Free(s.k, TaskTop(t), Tasks(r), c, n) && t < 2
    ensures Gets(o, d) && d.cache == s.cache && Free(d.k, TakeRead(t, 0), Tasks(r), false, 0)
  {
    var ts := Tasks(r);
    TaskCounts(r);
    hide At, Free, Gets, Tasks;
    d := Hop(o, s, TaskTop(t), CancelSent(t), ts, c, n);
    d := Hop(o, d, CancelSent(t), CancelRead(t), ts, false, n);
    d := Hop(o, d, CancelRead(t), WideEnd(t, 0), ts, false, n);
    d := Hop(o, d, WideEnd(t, 0), TakeSent(t, 0), ts, false, n);
    d := Hop(o, d, TakeSent(t, 0), TakeRead(t, 0), ts, false, 0);
  }

  /** There is no thin request of high priority: the ticket drawn is past the end. */
  lemma NoFirstThin(o: System, s: System, r: Request) returns (d: System)
    requires Gets(o, s) && Free(s.k, TakeRead(0, 0), Tasks(r), false, 0)
    ensures Gets(o, d) && d.cache == s.cache && Free(d.k, TaskTop(1), Tasks(r), false, 1)
  {
    var ts := Tasks(r);
    TaskCounts(r);
    d := DrawsNone(o, s, r);
    hide At, Free, Gets, Tasks;
    d := Goes(o, d, TakeRead(0, 0), ThinEnd(0, 0), ts, false, 1);
    d := ToSecondTask(o, d, ts);
  }

  lemma ToSecondTask(o: System, s: System, ts: seq<Task>) returns (d: System)
    requires Gets(o, s) && Free(s.k, ThinEnd(0, 0), ts, false, 1)
    ensures Gets(o, d) && d.cache == s.cache && Free(d.k, TaskTop(1), ts, false, 1)
  {
    hide Gets, At, Free;
    d := Hop(o, s, ThinEnd(0, 0), ThinCounted(0, 0), ts, false, 1);
    d := Hop(o, d, ThinCounted(0, 0), TaskEnd(0), ts, false, 1);
    d := Hop(o, d, TaskEnd(0), TaskTop(1), ts, false, 1);
  }

  lemma DrawsNone(o: System, s: System, r: Request) returns (d: System)
    requires Gets(o, s) && Free(s.k, TakeRead(0, 0), Tasks(r), false, 0)
    ensures Gets(o, d) && d.cache == s.cache && At(d.k, TakeRead(0, 0), Tasks(r), false, 1)
    ensures d.k.lanes[0].pc == Waiting(ThinEnd(0, 0))
  {
    hide Gets, Tasks;
    OneMore(o, s, Quiet(ThinTop(0, s.cache.high)));
    var s1 := Apply(s, Quiet(ThinTop(0, s.cache.high)));
    OneMore(o, s1, Quiet(ThinTest(0)));
    d := PastTheEnd(o, Apply(s1, Quiet(ThinTest(0))), r);
  }

  lemma PastTheEnd(o: System, s: System, r: Request) returns (d: System)
    requires Gets(o, s) && At(s.k, TakeRead(0, 0), Tasks(r), false, 0) && s.k.lanes[0].pc == Take
    ensures Gets(o, d) && d.cache == s.cache && At(d.k, TakeRead(0, 0), Tasks(r), false, 1)
    ensures d.k.lanes[0].pc == Waiting(ThinEnd(0, 0))
  {
    TaskCounts(r);
    hide Gets, Tasks;
    OneMore(o, s, Quiet(ThinTake(0)));
    d := Apply(s, Quiet(ThinTake(0)));
  }

  /** While a high-priority request waits, half of one request is no request: the batch is cancelled at once. */
  lemma Stops(o: System, s: System, r: Request) returns (d: System)
    requires Gets(o, s) && Free(s.k, TakeRead(1, 0), Tasks(r), false, 0) && s.cache.high
    ensures Gets(o, d) && d.cache == s.cache && At(d.k, TakeRead(1, 0), Tasks(r), true, 0)
    ensures d.k.lanes[0].pc == Waiting(ThinEnd(1, 0))
  {
    hide Gets;
    OneMore(o, s, Quiet(ThinTop(0, true)));
    var s1 := Apply(s, Quiet(ThinTop(0, true)));
    assert s1.k.lanes[0].pc == SetCancel;
    OneMore(o, s1, Quiet(ThinCancel(0)));
    var s2 := Apply(s1, Quiet(ThinCancel(0)));
    OneMore(o, s2, Quiet(ThinTest(0)));
    d := Apply(s2, Quiet(ThinTest(0)));
  }

  /** What the cache has of the request while the tick has it. */
  predicate Taken(c: Cache, r: Request) { c.pool == multiset{r} && c.batches[1] == Batch([], []) }

  /** The tasks after the request was put off. */
  predicate PutOff(ts: seq<Task>, r: Request) {
    |ts| == TASKS && ts[1].wide == [] && ts[1].thin == [r] && ts[1].wideFate == [] && ts[1].thinFate == [Deferred]
  }

  lemma DeferControl(k: Control, r: Request)
    requires Free(k, ThinCounted(1, 0), Tasks(r), true, 0) && k.lanes[0].thinDone == 0
    ensures CanDefer(k) && k.lanes[0].at.t == 1 && RestWide(k) == [] && RestThin(k) == [r]
    ensures
      var d := DeferDo(k);
      PutOff(d.tasks, r) && At(d, ThinCounted(1, 0), d.tasks, true, 0) && d.lanes[0].pc == Raising
  {
    TaskCounts(r);
    hide Tasks;
    assert DeferFrom([Pending], 0) == [Deferred];
  }

  lemma DeferCache(c: Cache, r: Request)
    requires Taken(c, r)
    ensures P.Enabled(c, P.Defer(1, [], [r])) && P.Apply(c, P.Defer(1, [], [r])).batches[1] == Batch([], [r])
  {
    assert multiset([]) + multiset([r]) == multiset{r};
    assert [] + [r] == [r];
  }

  lemma DeferIs(s: System)
    requires CanDefer(s.k) && s.k.lanes[0].at.t == 1 && P.Enabled(s.cache, P.Defer(1, RestWide(s.k), RestThin(s.k)))
    ensures Enabled(s, DeferTask)
    ensures Apply(s, DeferTask) == System(P.Apply(s.cache, P.Defer(1, RestWide(s.k), RestThin(s.k))), DeferDo(s.k))
  {
    hide P.Enabled, P.Apply, RestWide, RestThin, DeferDo;
  }

  lemma Defers(o: System, s: System, r: Request) returns (d: System)
    requires Gets(o, s) && Free(s.k, ThinCounted(1, 0), Tasks(r), true, 0) && s.k.lanes[0].thinDone == 0
    requires Taken(s.cache, r)
    ensures Gets(o, d) && d.cache.batches[1] == Batch([], [r]) && PutOff(d.k.tasks, r)
    ensures At(d.k, ThinCounted(1, 0), d.k.tasks, true, 0) && d.k.lanes[0].pc == Raising
  {
    DeferControl(s.k, r);
    DeferCache(s.cache, r);
    DeferIs(s);
    hide *;
    OneMore(o, s, DeferTask);
    d := Apply(s, DeferTask);
  }

  lemma Raised(o: System, s: System, ts: seq<Task>) returns (d: System)
    requires Gets(o, s) && At(s.k, ThinCounted(1, 0), ts, true, 0) && s.k.lanes[0].pc == Raising
    ensures Gets(o, d) && d.cache.batches == s.cache.batches && At(d.k, ThinCounted(1, 0), ts, true, 0)
    ensures d.k.lanes[0].pc == Waiting(TaskEnd(1))
  {
    hide Gets;
    OneMore(o, s, RaiseFlag(0));
    d := Apply(s, RaiseFlag(0));
  }

  /** From the cancellation to the end of the tasks. */
  lemma ToTasksEnd(o: System, s: System, r: Request) returns (d: System)
    requires Gets(o, s) && At(s.k, TakeRead(1, 0), Tasks(r), true, 0) && s.k.lanes[0].pc == Waiting(ThinEnd(1, 0))
    requires Taken(s.cache, r)
    ensures Gets(o, d) && d.cache.batches[1] == Batch([], [r]) && PutOff(d.k.tasks, r) && d.k.epoch == TasksEnd
  {
    hide Gets, Tasks, Taken, PutOff;
    d := Goes(o, s, TakeRead(1, 0), ThinEnd(1, 0), Tasks(r), true, 0);
    d := Hop(o, d, ThinEnd(1, 0), ThinCounted(1, 0), Tasks(r), true, 0);
    d := Defers(o, d, r);
    var ts := d.k.tasks;
    d := Raised(o, d, ts);
    d := Goes(o, d, ThinCounted(1, 0), TaskEnd(1), ts, true, 0);
    d := Hop(o, d, TaskEnd(1), TasksEnd, ts, true, 0);
  }

  // ---- the gathering, and the lookups around it ----

  /** The only lane has the loop before it. */
  predicate Idles(k: Control) {
    |k.lanes| == 1 && k.epoch == Begin && k.lanes[0].at == Begin && k.lanes[0].pc == Working
  }

  /** What a client needs for another lookup. */
  predicate LookedUp(c: Cache, q: Query) {
    && c.table.heap == map[0 := P.NewNode(q.key)] && c.table.slots == map[SlotOf(c.table.cfg, q.key) := [0]]
    && c.table.free == map[] && c.writer == map[] && |c.clients| > 0 && c.clients[0].Idle?
  }

  lemma ToLoop(o: System, s: System) returns (d: System)
    requires Gets(o, s) && Idles(s.k)
    ensures Gets(o, d) && d.cache == s.cache.(again := false, high := false)
    ensures |d.k.lanes| == 1 && d.k.epoch == d.k.lanes[0].at == LoopTop && d.k.lanes[0].pc == Working
  {
    hide Gets;
    OneMore(o, s, ResetLoop);
    var s1 := Apply(s, ResetLoop);
    OneMore(o, s1, ResetPriority);
    var s2 := Apply(s1, ResetPriority);
    OneMore(o, s2, Quiet(Release));
    d := Apply(s2, Quiet(Release));
  }

  lemma OneQueued(r: Request)
    ensures Queued(Batch([], [])) == multiset{} && Queued(Batch([], [r])) == multiset{r}
  {
  }

  lemma GatherOnce(o: System, s: System) returns (d: System)
    requires Gets(o, s) && |s.k.lanes| == 1 && s.k.lanes[0].at == LoopTop
    requires s.k.lanes[0].pc == Working || s.k.lanes[0].pc == SecondBatch
    ensures
      var b := if s.k.lanes[0].pc == Working then 0 else 1;
      && Gets(o, d) && d.k == GatherDo(s.k, s.cache.batches[b])
      && d.cache == s.cache.(pool := s.cache.pool + Queued(s.cache.batches[b]),
                             batches := s.cache.batches[b := Batch([], [])])
  {
    hide Gets, Queued;
    OneMore(o, s, GatherBatch);
    d := Apply(s, GatherBatch);
  }

  lemma Gathers(o: System, s: System, r: Request) returns (d: System)
    requires Gets(o, s)
    requires |s.k.lanes| == 1 && s.k.epoch == s.k.lanes[0].at == LoopTop && s.k.lanes[0].pc == Working
    requires s.cache.batches == [Batch([], []), Batch([], [r])] && s.cache.pool == multiset{}
    ensures Gets(o, d) && At(d.k, LoopTop, Tasks(r), d.k.cancelled, d.k.counter) && d.k.lanes[0].pc == Sending
    ensures Taken(d.cache, r)
    ensures d.cache == s.cache.(pool := d.cache.pool, batches := d.cache.batches)
  {
    OneQueued(r);
    hide Gets, Queued, NewTask;
    var m := GatherOnce(o, s);
    d := GatherOnce(o, m);
  }

  /** Another client's lookup of high priority, up to the flag. */
  lemma HighLookup(o: System, s: System, q: Query, p: Query, r: Request) returns (d: System)
    requires Gets(o, s) && LookedUp(s.cache, q) && p.key != q.key && p.high && p.access < |s.cache.touches|
    requires Taken(s.cache, r)
    ensures Gets(o, d) && d.k == s.k && Taken(d.cache, r) && d.cache.high
  {
    hide Gets;
    var e1 := P.Fast(0, p);
    assert Lookup(s.cache.table, p.key) == None;
    var c1 := P.Apply(s.cache, e1);
    var e2 := P.Acquire(0, 1);
    var c2 := P.Apply(c1, e2);
    var c3 := P.Apply(c2, P.SetAgain(0));
    var c4 := P.Apply(c3, P.SetHigh(0));
    var d1 := ClientStep(s, e1);
    GetsOn(o, s, d1);
    var d2 := ClientStep(d1, e2);
    GetsOn(o, d1, d2);
    var d3 := ClientStep(d2, P.SetAgain(0));
    GetsOn(o, d2, d3);
    d := ClientStep(d3, P.SetHigh(0));
    GetsOn(o, d3, d);
  }

  lemma OnePushed(r: Request)
    ensures P.PushRequest(Batch([], []), r, false) == Batch([], [r])
  {
  }

  lemma LowLookup(s: System, q: Query) returns (d: System)
    requires Init(s) && |s.cache.clients| > 0 && q.access < |s.cache.touches| && !q.high && !q.wide
    ensures Gets(s, d) && d.k == s.k && LookedUp(d.cache, q) && |d.cache.touches| == |s.cache.touches|
    ensures d.cache.batches == [Batch([], []), Batch([], [Request(q.key, q.gen, 0)])] && d.cache.pool == multiset{}
  {
    var steps, c := CacheDepartures.FirstLookup(s.cache, q, true);
    OnePushed(Request(q.key, q.gen, 0));
    assert c.batches == [c.batches[0], c.batches[1]];
    hide Gets, CacheTheorems.Runs, P.PushRequest;
    GetsCache(s, steps, c);
    d := System(c, s.k);
  }

  /** A request of low priority, alone in its batch and not wide, is put off for a whole tick if a high-priority one
      comes in after the gathering: not even it is executed, and it is back in the queue. */
  lemma LoneWaits(s: System, q: Query, p: Query) returns (d: System)
    requires Init(s) && |s.k.lanes| == 1 && |s.cache.clients| > 0
    requires q.access < |s.cache.touches| && !q.high && !q.wide
    requires p.access < |s.cache.touches| && p.high && p.key != q.key
    ensures Gets(s, d) && d.k.epoch == TasksEnd && PutOff(d.k.tasks, Request(q.key, q.gen, 0))
    ensures d.cache.batches[1] == Batch([], [Request(q.key, q.gen, 0)])
  {
    var r := Request(q.key, q.gen, 0);
    d := LowLookup(s, q);
    InitIdles(s);
    hide Init, Gets, Tasks, Taken, PutOff, At, Free;
    d := ToLoop(s, d);
    d := Gathers(s, d, r);
    d := HighLookup(s, d, q, p, r);
    d := WholeTick(s, d, r);
  }

  lemma InitIdles(s: System)
    requires Init(s) && |s.k.lanes| == 1
    ensures Idles(s.k)
  {
  }

  lemma WholeTick(o: System, s: System, r: Request) returns (d: System)
    requires Gets(o, s) && At(s.k, LoopTop, Tasks(r), s.k.cancelled, s.k.counter) && s.k.lanes[0].pc == Sending
    requires Taken(s.cache, r) && s.cache.high
    ensures Gets(o, d) && d.cache.batches[1] == Batch([], [r]) && PutOff(d.k.tasks, r) && d.k.epoch == TasksEnd
  {
    hide *;
    d := ToFirstThin(o, s, r, s.k.cancelled, s.k.counter);
    d := NoFirstThin(o, d, r);
    d := ToThin(o, d, 1, r, false, 1);
    d := Stops(o, d, r);
    d := ToTasksEnd(o, d, r);
  }

  // ---- exactly ----

  /** Some run ends a tick that gathered `wide` and `thin` requests of low priority and executed none of them. */
  ghost predicate CanStarve(wide: nat, thin: nat) {
    exists s: System, d: System :: Init(s) && Gets(s, d) && Starved(d.k, wide, thin)
  }

  predicate Starved(k: Control, wide: nat, thin: nat) {
    && k.epoch == TasksEnd && |k.tasks| == TASKS && |k.tasks[1].wide| == wide && |k.tasks[1].thin| == thin
    && (forall j | 0 <= j < |k.tasks[1].wideFate| :: k.tasks[1].wideFate[j] != Executed)
    && (forall j | 0 <= j < |k.tasks[1].thinFate| :: k.tasks[1].thinFate[j] != Executed)
  }

  /** A tick can pass over a low-priority batch entirely exactly when that is one thin request. */
  lemma StarvesExactly(wide: nat, thin: nat)
    requires wide + thin > 0
    ensures CanStarve(wide, thin) <==> wide == 0 && thin == 1
  {
    hide Init, Gets, Starved;
    if wide == 0 && thin == 1 {
      var s, d := OneStarves();
    } else {
      forall s: System, d: System | Init(s) && Gets(s, d) ensures !Starved(d.k, wide, thin) {
        NotStarved(s, d, wide, thin);
      }
    }
  }

  lemma NotStarved(s: System, d: System, wide: nat, thin: nat)
    requires Init(s) && Gets(s, d) && wide + thin > 0 && (wide > 0 || thin > 1)
    ensures !Starved(d.k, wide, thin)
  {
    var steps :| Runs(s, steps, d);
    hide Init, Runs;
    if d.k.epoch == TasksEnd {
      LowProgress(s, steps, d);
    }
  }

  lemma OneStarves() returns (s: System, d: System)
    ensures Init(s) && Gets(s, d) && Starved(d.k, 0, 1)
  {
    var q := Query(Key(0, "low"), 1, false, false, false, 0);
    var p := Query(Key(0, "high"), 1, false, true, false, 0);
    s := Start();
    assert p.key.name != q.key.name;
    d := LoneWaits(s, q, p);
  }

  lemma Start() returns (s: System)
    ensures Init(s) && |s.k.lanes| == 1 && |s.cache.clients| > 0 && |s.cache.touches| > 0
  {
    var table := Table(Config(_ => 0, _ => 0), map[], map[], map[]);
    var lane := Lane(Begin, Working, Unset, 0, Unset, Unset, 0, false);
    var cache := Cache(table, map[], [Batch([], []), Batch([], [])], multiset{}, [Idle(None, Nothing)], [[]],
                       false, false, multiset{}, multiset{}, multiset{});
    s := System(cache, Control(Begin, [lane], Unset, [], false, 0, false));
  }
}
