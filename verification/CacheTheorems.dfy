/** What holds in every state that any interleaving of lookups, ticks and cancellation can reach. */
module CacheTheorems {
  import opened Basics
  import opened CacheState
  import opened CacheProtocol
  import opened CacheInvariant

  ghost predicate Init(c: Cache) {
    && c.table.heap == map[] && c.table.slots == map[] && c.table.free == map[]
    && c.writer == map[] && c.batches == [Batch([], []), Batch([], [])] && c.pool == multiset{}
    && (forall i | 0 <= i < |c.clients| :: c.clients[i] == Idle(None, Nothing))
    && (forall a | 0 <= a < |c.touches| :: c.touches[a] == [])
    && !c.again && !c.high && c.dropped == multiset{} && c.created == multiset{} && c.destroyed == multiset{}
  }

  lemma {:induction false} SumEmpty<T>(ms: seq<multiset<T>>)
    requires forall i | 0 <= i < |ms| :: ms[i] == multiset{}
    ensures Sum(ms) == multiset{}
  {
    if ms != [] {
      SumEmpty(ms[..|ms| - 1]);
    }
  }

  lemma InitCounts(c: Cache)
    requires Init(c)
    ensures Work(c) == multiset{} && Tokens(c) == multiset{} && OpenTouches(c.touches) == multiset{}
  {
    SumEmpty(ClaimList(c.clients));
    SumEmpty(TouchList(c.touches));
  }

  lemma InitTable(c: Cache)
    requires Init(c)
    ensures TableOk(c.table, c.created) && ClientsOk(c)
  {
  }

  lemma InitOk(c: Cache)
    requires Init(c)
    ensures Inv(c)
  {
    InitCounts(c);
    InitTable(c);
    hide Work, Tokens, OpenTouches, TableOk, ClientsOk;
  }

  ghost predicate Runs(c: Cache, steps: seq<Step>, d: Cache)
    decreases |steps|
  {
    if steps == [] then d == c else Enabled(c, steps[0]) && Runs(Apply(c, steps[0]), steps[1..], d)
  }

  /** One more step at the end of a run. */
  lemma {:induction false} RunsOn(c: Cache, steps: seq<Step>, d: Cache, step: Step)
    requires Runs(c, steps, d) && Enabled(d, step)
    ensures Runs(c, steps + [step], Apply(d, step))
    decreases |steps|
  {
    hide Enabled, Apply;
    if steps == [] {
      assert steps + [step] == [step];
    } else {
      RunsOn(Apply(c, steps[0]), steps[1..], d, step);
      assert (steps + [step])[1..] == steps[1..] + [step];
    }
  }

  lemma {:induction false} RunsAppend(c: Cache, a: seq<Step>, d: Cache, b: seq<Step>, e: Cache)
    requires Runs(c, a, d) && Runs(d, b, e)
    ensures Runs(c, a + b, e)
    decreases |a|
  {
    hide Enabled, Apply;
    if a == [] {
      assert a + b == b;
    } else {
      RunsAppend(Apply(c, a[0]), a[1..], d, b, e);
      assert (a + b)[1..] == a[1..] + b;
    }
  }

  lemma {:induction false} RunKeeps(c: Cache, steps: seq<Step>, d: Cache)
    requires Inv(c) && Runs(c, steps, d)
    ensures Inv(d)
    decreases |steps|
  {
    hide Inv, Enabled, Apply;
    if steps != [] {
      StepKeeps(c, steps[0]);
      RunKeeps(Apply(c, steps[0]), steps[1..], d);
    }
  }

  /** In every reachable state the invariant holds. */
  lemma Reachable(c: Cache, steps: seq<Step>, d: Cache)
    requires Init(c) && Runs(c, steps, d)
    ensures Inv(d)
  {
    InitOk(c);
    RunKeeps(c, steps, d);
  }

  /** One key is never claimed, queued or computed twice at once. */
  lemma SingleComputation(c: Cache, steps: seq<Step>, d: Cache, k: Key)
    requires Init(c) && Runs(c, steps, d)
    ensures Claims(d.clients)[k] + KeysOf(Work(d))[k] + d.dropped[k] <= 1
  {
    Reachable(c, steps, d);
    AtMostOneToken(d, k);
  }

  lemma AtMostOneToken(c: Cache, k: Key)
    requires Inv(c)
    ensures Tokens(c)[k] <= 1
  {
    if k in Tokens(c) {
      FoundIsLive(c.table, k);
    }
  }

  /** Whoever evicts a node takes it from nobody: it is untouched, no request names it or its key, no
      thread works under its stripe, and its value is one that a create call returned for its key. */
  lemma EvictionIsSafe(c: Cache, steps: seq<Step>, d: Cache, s: Slot, j: nat)
    requires Init(c) && Runs(c, steps, d) && Enabled(d, Evict(s, j))
    ensures
      var n := List(d.table, s)[j];
      var nd := d.table.heap[n];
      && (forall a | 0 <= a < |d.touches| :: n !in d.touches[a])
      && (forall r | r in Work(d) :: r.signal != n && r.key != nd.key)
      && (forall i | 0 <= i < |d.clients| && Holding(d.clients[i]) :: d.clients[i].node != n)
      && nd.completions >= 1 && (nd.key, nd.val) in d.created
  {
    Reachable(c, steps, d);
    EvictedTouches(d, s, j);
    EvictedWork(d, s, j, List(d.table, s)[j]);
    EvictedClients(d, s, j);
    EvictIdle(d.table, s, j, d.created, Tokens(d));
  }

  lemma EvictedTouches(d: Cache, s: Slot, j: nat)
    requires TouchesAre(d.table, OpenTouches(d.touches)) && Enabled(d, Evict(s, j))
    ensures forall a | 0 <= a < |d.touches| :: List(d.table, s)[j] !in d.touches[a]
  {
    var n := List(d.table, s)[j];
    forall a | 0 <= a < |d.touches| ensures n !in d.touches[a] {
      TouchesUpdate(d.touches, a, []);
      assert multiset(d.touches[a])[n] <= OpenTouches(d.touches)[n];
    }
  }

  /** No request is for a node or its key. */
  ghost predicate NoWork(work: multiset<Request>, n: NodeId, k: Key) {
    forall r | r in work :: r.signal != n && r.key != k
  }

  lemma EvictedWork(d: Cache, s: Slot, j: nat, n: NodeId)
    requires ListsOk(d.table) && ValuesOk(d.table, d.created) && j < |List(d.table, s)| && List(d.table, s)[j] == n
    requires TokensAre(d.table, Tokens(d)) && RequestsAre(d.table, Work(d)) && n in d.table.heap
             && d.table.heap[n].working == 0
    ensures NoWork(Work(d), n, d.table.heap[n].key)
  {
    EvictIdle(d.table, s, j, d.created, Tokens(d));
    WorkIsTokens(d);
    var work, tokens := Work(d), Tokens(d);
    hide Work, Tokens, KeysOf;
    forall r | r in work ensures r.signal != n && r.key != d.table.heap[n].key {
      WorkHasTokens(work, r);
      assert KeysOf(work)[r.key] <= tokens[r.key];
    }
  }

  lemma EvictedClients(d: Cache, s: Slot, j: nat)
    requires ClientsOk(d) && ListsOk(d.table) && Enabled(d, Evict(s, j))
    ensures forall i | 0 <= i < |d.clients| && Holding(d.clients[i]) :: d.clients[i].node != List(d.table, s)[j]
  {
    ListHome(d.table, s, List(d.table, s)[j]);
    forall i | 0 <= i < |d.clients| && Holding(d.clients[i]) ensures d.clients[i].node != List(d.table, s)[j] {
      assert ClientOk(d, i, d.clients[i]);
    }
  }

  predicate HasWorking(t: Table, n: NodeId, count: nat) { n in t.heap && t.heap[n].working == count }

  /** The unsigned counters never wrap: a closed touch was counted and a completed request was claimed. */
  lemma CountersNeverWrap(c: Cache, steps: seq<Step>, d: Cache, step: Step)
    requires Init(c) && Runs(c, steps, d) && Enabled(d, step)
    ensures step.CloseTouch? ==> d.table.heap[d.touches[step.access][0]].refcount >= 1
    ensures step.Complete? ==>
      && Live(d.table, step.r.signal)
      && d.table.heap[step.r.signal].key == step.r.key && d.table.heap[step.r.signal].working == 1
      && HasWorking(Apply(d, step).table, step.r.signal, 0)
  {
    Reachable(c, steps, d);
    match step {
      case CloseTouch(a) => ClosedWasOpen(d, a);
      case Complete(r, val, gen) => CompletedWasClaimed(d, r, val, gen);
      case _ =>
    }
  }

  lemma ClosedWasOpen(d: Cache, a: nat)
    requires TouchesAre(d.table, OpenTouches(d.touches)) && Enabled(d, CloseTouch(a))
    ensures d.table.heap[d.touches[a][0]].refcount >= 1
  {
    TouchPopped(d.touches, a);
  }

  lemma CompletedWasClaimed(d: Cache, r: Request, val: Artifact, gen: int)
    requires ListsOk(d.table) && TokensAre(d.table, Tokens(d)) && RequestsAre(d.table, Work(d))
    requires Enabled(d, Complete(r, val, gen))
    ensures Live(d.table, r.signal) && d.table.heap[r.signal].key == r.key && d.table.heap[r.signal].working == 1
    ensures HasWorking(Apply(d, Complete(r, val, gen)).table, r.signal, 0)
  {
    CompleteTokens(d, r, val, gen);
    hide Tokens, Work, Enabled, Apply, CompleteNodes, ListsOk;
    WorkIsClaimed(d.table, Tokens(d), Work(d), r);
    CompleteIs(d, r, val, gen);
    CompletedFrees(d.table, r.signal, val, gen);
  }

  lemma WorkIsClaimed(t: Table, tokens: multiset<Key>, work: multiset<Request>, r: Request)
    requires TokensAre(t, tokens) && RequestsAre(t, work) && r in work && r.key in tokens
    ensures Live(t, r.signal) && t.heap[r.signal].key == r.key && t.heap[r.signal].working == 1
  {
    hide Live;
  }

  lemma CompletedFrees(t: Table, n: NodeId, val: Artifact, gen: int)
    requires ListsOk(t) && Live(t, n) && t.heap[n].working == 1
    ensures HasWorking(CompleteNodes(t, t.heap[n].key, val, gen), n, 0)
  {
    CompleteIsEdit(t, n, val, gen);
    hide ListsOk, Live, CompleteNodes;
  }

  /** The key's node, with its value, is exactly what it was. */
  ghost predicate Unmoved(c: Cache, d: Cache, k: Key) {
    && Lookup(c.table, k).Some? && Lookup(d.table, k) == Lookup(c.table, k)
    && var n := Lookup(c.table, k).value;
       d.table.heap[n].working == 1 && d.table.heap[n].val == c.table.heap[n].val
       && d.table.heap[n].completions == c.table.heap[n].completions
  }

  lemma DroppedNode(c: Cache, k: Key)
    requires Inv(c) && k in c.dropped
    ensures Lookup(c.table, k).Some? && Live(c.table, Lookup(c.table, k).value)
    ensures c.table.heap[Lookup(c.table, k).value].working == 1 && c.table.heap[Lookup(c.table, k).value].key == k
    ensures k !in KeysOf(Work(c)) && k !in Claims(c.clients)
  {
    DroppedToken(c, k);
    AtMostOneToken(c, k);
    FoundIsLive(c.table, k);
    hide Tokens, Work, KeysOf, Claims;
  }

  lemma DroppedToken(c: Cache, k: Key)
    requires k in c.dropped
    ensures Tokens(c)[k] == Claims(c.clients)[k] + KeysOf(Work(c))[k] + c.dropped[k] && k in Tokens(c)
  {
    hide Work, KeysOf, Claims;
  }

  lemma DroppedStep(c: Cache, step: Step, k: Key)
    requires Inv(c) && Enabled(c, step) && k in c.dropped
    ensures k in Apply(c, step).dropped && Unmoved(c, Apply(c, step), k)
  {
    hide Enabled, Apply;
    DroppedNode(c, k);
    DroppedFrame(c, step, k);
    StepKeeps(c, step);
    DroppedStays(c, step, k);
    DroppedNode(Apply(c, step), k);
  }

  lemma DroppedStays(c: Cache, step: Step, k: Key)
    requires Enabled(c, step) && k in c.dropped
    ensures k in Apply(c, step).dropped
  {
  }

  /** The same lists, and the same value in node `n`. */
  ghost predicate Kept(t: Table, u: Table, n: NodeId) {
    SameShape(t, u) && n in t.heap && u.heap[n].val == t.heap[n].val && u.heap[n].completions == t.heap[n].completions
  }

  lemma EditKept(t: Table, m: NodeId, nd: Node, n: NodeId)
    requires m in t.heap && n in t.heap
    requires nd.key == t.heap[m].key && nd.val == t.heap[m].val && nd.completions == t.heap[m].completions
    ensures Kept(t, Edit(t, m, nd), n)
  {
  }

  lemma CompleteKept(t: Table, k: Key, val: Artifact, gen: int, n: NodeId)
    requires n in t.heap && t.heap[n].key != k
    ensures Kept(t, CompleteNodes(t, k, val, gen), n)
  {
  }

  /** Only Acquire and Evict relink nodes, and only Complete changes what a node holds. */
  lemma InPlaceSteps(c: Cache, step: Step, n: NodeId)
    requires Enabled(c, step) && !step.Acquire? && !step.Evict? && n in c.table.heap
    requires step.Complete? ==> c.table.heap[n].key != step.r.key
    ensures Kept(c.table, Apply(c, step).table, n)
  {
    match step {
      case Fast(i, q) => FastKept(c, i, q, n);
      case Check(i, outOfTime, isAsync) =>
        EditKept(c.table, c.clients[i].node, Touch(c.table.heap[c.clients[i].node]), n);
      case CloseTouch(a) =>
        var m := c.touches[a][0];
        EditKept(c.table, m, c.table.heap[m].(refcount := Dec(c.table.heap[m].refcount)), n);
      case Cancel(s, j) =>
        var m := List(c.table, s)[j];
        EditKept(c.table, m, c.table.heap[m].(cancelled := true), n);
      case Complete(r, val, gen) => CompleteKept(c.table, r.key, val, gen, n);
      case _ =>
    }
  }

  lemma FastKept(c: Cache, i: nat, q: Query, n: NodeId)
    requires Enabled(c, Fast(i, q)) && n in c.table.heap
    ensures Kept(c.table, FastApply(c, i, q).table, n)
  {
    if Lookup(c.table, q.key).Some? {
      var m := Lookup(c.table, q.key).value;
      EditKept(c.table, m, FastNode(c.table.heap[m], q), n);
    }
  }

  lemma RelinkSteps(c: Cache, step: Step, n: NodeId)
    requires ListsOk(c.table) && FreeOk(c.table) && Enabled(c, step) && (step.Acquire? || step.Evict?)
    requires Live(c.table, n) && c.table.heap[n].working == 1
    ensures
      var d := Apply(c, step);
      && Lookup(d.table, c.table.heap[n].key) == Some(n) && n in d.table.heap && d.table.heap[n] == c.table.heap[n]
  {
    var d := Apply(c, step);
    match step {
      case Acquire(i, id) =>
        if Lookup(c.table, c.clients[i].q.key).None? {
          AllocLive(c.table, c.clients[i].q.key, id);
          AllocShape(c.table, c.clients[i].q.key, id);
        }
      case Evict(s, j) =>
        UnlinkLive(c.table, s, j);
        UnlinkShape(c.table, s, j);
    }
    LiveIsFound(d.table, n);
  }

  lemma DroppedFrame(c: Cache, step: Step, k: Key)
    requires ListsOk(c.table) && FreeOk(c.table) && Enabled(c, step) && k !in KeysOf(Work(c))
    requires Lookup(c.table, k).Some? && c.table.heap[Lookup(c.table, k).value].working == 1
    ensures
      var d := Apply(c, step);
      var n := Lookup(c.table, k).value;
      && Lookup(d.table, k) == Some(n) && n in d.table.heap
      && d.table.heap[n].val == c.table.heap[n].val && d.table.heap[n].completions == c.table.heap[n].completions
  {
    var n := Lookup(c.table, k).value;
    FoundIsLive(c.table, k);
    if step.Acquire? || step.Evict? {
      RelinkSteps(c, step, n);
    } else {
      if step.Complete? {
        WorkHasTokens(Work(c), step.r);
      }
      InPlaceSteps(c, step, n);
      ShapeKeeps(c.table, Apply(c, step).table);
    }
  }

  /** A retry that finds its request cancelled is dropped without releasing `working_count`
      (lines 378 and 487). From then on the key is stuck: through any further run its node stays linked with
      working count 1 and its old value, and no request for the key is ever claimed, queued or computed. */
  lemma {:induction false} DroppedIsForever(c: Cache, steps: seq<Step>, d: Cache, k: Key)
    requires Inv(c) && Runs(c, steps, d) && k in c.dropped
    ensures Unmoved(c, d, k) && k in d.dropped && k !in KeysOf(Work(d)) && k !in Claims(d.clients)
    decreases |steps|
  {
    hide Inv, Enabled, Apply;
    DroppedNode(c, k);
    if steps != [] {
      DroppedStep(c, steps[0], k);
      StepKeeps(c, steps[0]);
      DroppedIsForever(Apply(c, steps[0]), steps[1..], d, k);
    }
  }

  /** What a lookup hands out: a value some create call returned for its own key; of the wanted generation
      when the caller waits for fresh values and did not run out of time. */
  lemma LookupResult(c: Cache, steps: seq<Step>, d: Cache, i: nat, q: Query)
    requires Init(c) && Runs(c, steps, d)
    requires i < |d.clients| && d.clients[i].Idle? && d.clients[i].last == Some(q) && d.clients[i].outcome.Got?
    ensures
      var o := d.clients[i].outcome;
      && (q.key, o.val) in d.created
      && (q.waitFresh && !o.timedOut ==> !o.stale)
  {
    Reachable(c, steps, d);
    assert ClientOk(d, i, d.clients[i]);
  }
}
