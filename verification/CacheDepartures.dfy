/** Where the cache does something else than it seems to mean: a staleness flag with the opposite sense, and keys
    that are never computed again. Each with the guard that decides it and a run that reaches it. */
module CacheDepartures {
  import opened Basics
  import opened CacheState
  import opened CacheProtocol
  import opened CacheInvariant
  import opened CacheTheorems

  // ---- the staleness flag ----

  /** Whether the read region of a lookup finds the value it wants: a computed one, fresh or allowed to be stale. */
  predicate FoundAtRead(c: Cache, q: Query) {
    && Lookup(c.table, q.key).Some?
    && var nd := c.table.heap[Lookup(c.table, q.key).value];
       nd.completions > 0 && (nd.completedGen == q.gen || !q.waitFresh)
  }

  /** What the read region leaves of outcome: a value rightly flagged, or nothing. */
  predicate RightOrNothing(o: Outcome, found: bool) {
    if found then o.Got? && o.reported == o.stale else o.Nothing?
  }

  /** Client `i` is in the lookup that began with `found`, or has just returned from it. */
  predicate InLookup(cl: Client, q: Query, found: bool) {
    match cl
    case Idle(last, o) => last == Some(q) && (o.Got? ==> (o.reported == o.stale <==> found))
    case Slow(q', o, _) => q' == q && RightOrNothing(o, found)
    case _ => cl.q == q && RightOrNothing(cl.outcome, found)
  }

  lemma ReadBegins(c: Cache, i: nat, q: Query)
    requires Enabled(c, Fast(i, q))
    ensures i < |Apply(c, Fast(i, q)).clients| && InLookup(Apply(c, Fast(i, q)).clients[i], q, FoundAtRead(c, q))
  {
  }

  lemma LookupGoesOn(c: Cache, step: Step, i: nat, q: Query, found: bool)
    requires i < |c.clients| && InLookup(c.clients[i], q, found) && Enabled(c, step) && !(step.Fast? && step.i == i)
    ensures i < |Apply(c, step).clients| && InLookup(Apply(c, step).clients[i], q, found)
  {
    hide Lookup, KeyStripe, Alloc, Unlink, CompleteNodes, Queued;
  }

  lemma {:induction false} LookupRuns(c: Cache, steps: seq<Step>, d: Cache, i: nat, q: Query, found: bool)
    requires i < |c.clients| && InLookup(c.clients[i], q, found) && Runs(c, steps, d)
    requires forall step | step in steps :: !(step.Fast? && step.i == i)
    ensures i < |d.clients| && InLookup(d.clients[i], q, found)
    decreases |steps|
  {
    hide InLookup, Enabled, Apply;
    if steps != [] {
      LookupGoesOn(c, steps[0], i, q, found);
      LookupRuns(Apply(c, steps[0]), steps[1..], d, i, q, found);
    }
  }

  /** From a lookup's read region on, whatever anybody else does, until the lookup has returned: the flag it hands
      out is right exactly when the read region found the value; a value found later comes with the opposite flag
      (line 181 against line 92). */
  lemma StalenessExact(c: Cache, i: nat, q: Query, steps: seq<Step>, d: Cache)
    requires Enabled(c, Fast(i, q)) && Runs(Apply(c, Fast(i, q)), steps, d)
    requires forall step | step in steps :: !(step.Fast? && step.i == i)
    requires i < |d.clients| && d.clients[i].Idle? && d.clients[i].outcome.Got?
    ensures
      var o := d.clients[i].outcome;
      d.clients[i].last == Some(q) && (o.reported == o.stale <==> FoundAtRead(c, q))
  {
    ReadBegins(c, i, q);
    hide Enabled, Apply, Runs, FoundAtRead;
    LookupRuns(Apply(c, Fast(i, q)), steps, d, i, q, FoundAtRead(c, q));
  }

  // ---- runs from the empty cache ----

  /** One node, one key, nobody holding a stripe. */
  ghost predicate OneNode(c: Cache, q: Query, nd: Node) {
    && c.table.heap == map[0 := nd] && c.table.slots == map[SlotOf(c.table.cfg, q.key) := [0]]
    && nd.key == q.key && nd.refcount == 0 && c.writer == map[] && |c.clients| > 0 && q.access < |c.touches|
  }

  lemma OneNodeFound(c: Cache, q: Query, nd: Node)
    requires OneNode(c, q, nd)
    ensures Lookup(c.table, q.key) == Some(0) && List(c.table, SlotOf(c.table.cfg, q.key)) == [0]
  {
  }

  predicate First(c: Cache, cl: Client) { |c.clients| > 0 && c.clients[0] == cl }

  /** The first lookup of a key claims a new node and queues a request. */
  lemma Claimed(c: Cache, q: Query) returns (steps: seq<Step>, d: Cache)
    requires Init(c) && |c.clients| > 0 && q.access < |c.touches|
    ensures Runs(c, steps, d) && First(d, Pushed(q, Nothing, 0))
    ensures d.table.heap == map[0 := NewNode(q.key)] && d.table.slots == map[SlotOf(d.table.cfg, q.key) := [0]]
    ensures d.writer == map[KeyStripe(d.table.cfg, q.key) := 0] && |d.touches| == |c.touches|
    ensures d.batches[if q.high then 0 else 1] == PushRequest(Batch([], []), Request(q.key, q.gen, 0), q.wide)
    ensures d.batches[if q.high then 1 else 0] == Batch([], [])
    ensures d.pool == multiset{} && d.dropped == multiset{} && |d.clients| == |c.clients| && d.table.free == map[]
    ensures steps == [Fast(0, q), Acquire(0, 0)]
  {
    var s1 := Fast(0, q);
    var c1 := Apply(c, s1);
    assert c1.clients[0] == Slow(q, Nothing, false);
    RunsOn(c, [], c, s1);
    assert [] + [s1] == [s1];
    var s2 := Acquire(0, 0);
    d := Apply(c1, s2);
    RunsOn(c, [s1], c1, s2);
    steps := [s1] + [s2];
    assert List(c1.table, SlotOf(c1.table.cfg, q.key)) + [0] == [0];
    assert d.table.slots == map[SlotOf(d.table.cfg, q.key) := [0]];
    assert d.table.heap == map[0 := NewNode(q.key)];
  }

  lemma Asked(c: Cache, q: Query, isAsync: bool) returns (steps: seq<Step>, d: Cache)
    requires First(c, Pushed(q, Nothing, 0)) && q.access < |c.touches| && !q.high
    requires c.table.heap == map[0 := NewNode(q.key)] && c.table.slots == map[SlotOf(c.table.cfg, q.key) := [0]]
    requires c.writer == map[KeyStripe(c.table.cfg, q.key) := 0]
    ensures Runs(c, steps, d) && OneNode(d, q, NewNode(q.key))
    ensures d == c.(again := true, writer := map[], clients := d.clients)
    ensures d.clients[0] == if isAsync then Idle(Some(q), Nothing) else Slow(q, Nothing, false)
    ensures steps == [SetAgain(0), Check(0, false, isAsync)]
  {
    var s3 := SetAgain(0);
    var c3 := Apply(c, s3);
    RunsOn(c, [], c, s3);
    assert [] + [s3] == [s3];
    assert c3.clients[0] == Checking(q, Nothing, 0);
    var s4 := Check(0, false, isAsync);
    d := Apply(c3, s4);
    assert d.writer == map[];
    RunsOn(c, [s3], c3, s4);
    steps := [s3] + [s4];
  }

  lemma FirstLookup(c: Cache, q: Query, isAsync: bool) returns (steps: seq<Step>, d: Cache)
    requires Init(c) && |c.clients| > 0 && q.access < |c.touches| && !q.high
    ensures Runs(c, steps, d) && OneNode(d, q, NewNode(q.key))
    ensures d.batches[1] == PushRequest(Batch([], []), Request(q.key, q.gen, 0), q.wide)
    ensures d.pool == multiset{} && d.dropped == multiset{}
    ensures d.clients[0] == if isAsync then Idle(Some(q), Nothing) else Slow(q, Nothing, false)
    ensures d.batches[0] == Batch([], []) && |d.touches| == |c.touches| && d.table.free == map[]
    ensures steps == [Fast(0, q), Acquire(0, 0), SetAgain(0), Check(0, false, isAsync)]
  {
    var a, e := Claimed(c, q);
    var b;
    b, d := Asked(e, q, isAsync);
    hide Runs, Init;
    RunsAppend(c, a, e, b, d);
    steps := a + b;
  }

  lemma OneQueued(b: Batch, r: Request, wide: bool)
    requires b == PushRequest(Batch([], []), r, wide)
    ensures Queued(b) == multiset{r}
  {
  }

  /** The request is gathered; its node is as it was. */
  lemma GatheredOne(c: Cache, q: Query, nd: Node, r: Request) returns (steps: seq<Step>, d: Cache)
    requires OneNode(c, q, nd) && c.batches[1] == PushRequest(Batch([], []), r, q.wide) && c.pool == multiset{}
    ensures Runs(c, steps, d) && OneNode(d, q, nd) && d.pool == multiset{r} && d.dropped == c.dropped
            && d.clients == c.clients
  {
    OneQueued(c.batches[1], r, q.wide);
    hide Queued;
    var s := Gather(1);
    d := Apply(c, s);
    RunsOn(c, [], c, s);
    steps := [] + [s];
  }

  /** A caller is handed a value of the very generation it asked for, flagged stale. */
  lemma FreshFlaggedStale(c: Cache, q: Query, val: Artifact) returns (steps: seq<Step>, d: Cache)
    requires Init(c) && |c.clients| > 0 && q.access < |c.touches| && !q.high
    ensures Runs(c, steps, d) && First(d, Idle(Some(q), Got(val, true, false, false)))
  {
    var a, c1 := FirstLookup(c, q, false);
    var r := Request(q.key, q.gen, 0);
    var b, c2 := GatheredOne(c1, q, NewNode(q.key), r);
    var e;
    e, d := Answered(c2, q, r, val);
    hide Runs, Init, OneNode;
    RunsAppend(c, a, c1, b, c2);
    RunsAppend(c, a + b, c2, e, d);
    steps := a + b + e;
  }

  /** The request is completed, and the lookup that waited takes the value. */
  lemma Answered(c: Cache, q: Query, r: Request, val: Artifact) returns (steps: seq<Step>, d: Cache)
    requires OneNode(c, q, NewNode(q.key)) && r == Request(q.key, q.gen, 0) && r in c.pool
    requires c.clients[0] == Slow(q, Nothing, false)
    ensures Runs(c, steps, d) && First(d, Idle(Some(q), Got(val, true, false, false)))
  {
    var s1 := Complete(r, val, q.gen);
    var c1 := Apply(c, s1);
    OneNodeFound(c, q, NewNode(q.key));
    var nd := CompleteNode(NewNode(q.key), val, q.gen);
    assert c1.table.heap == map[0 := nd];
    assert OneNode(c1, q, nd);
    RunsOn(c, [], c, s1);
    assert [] + [s1] == [s1];
    var rest;
    rest, d := Taken(c1, q, nd);
    RunsAppend(c, [s1], c1, rest, d);
    steps := [s1] + rest;
  }

  lemma Taken(c: Cache, q: Query, nd: Node) returns (steps: seq<Step>, d: Cache)
    requires OneNode(c, q, nd) && c.clients[0] == Slow(q, Nothing, false) && nd.completions != 0
             && nd.completedGen == q.gen
    ensures Runs(c, steps, d) && First(d, Idle(Some(q), Got(nd.val, true, false, false)))
  {
    OneNodeFound(c, q, nd);
    var s1 := Acquire(0, 1);
    var c1 := Apply(c, s1);
    assert c1.clients[0] == Checking(q, Nothing, 0);
    RunsOn(c, [], c, s1);
    assert [] + [s1] == [s1];
    var s2 := Check(0, false, false);
    d := Apply(c1, s2);
    RunsOn(c, [s1], c1, s2);
    steps := [s1] + [s2];
  }

  // ---- keys that are stuck ----

  /** A key whose retry was cancelled: claimed for good although nobody works on it. */
  lemma StuckExactly(c: Cache, n: NodeId)
    requires Inv(c) && Live(c.table, n)
    ensures
      var k := c.table.heap[n].key;
      k in c.dropped <==> c.table.heap[n].working == 1 && k !in Claims(c.clients) && k !in KeysOf(Work(c))
  {
    var k := c.table.heap[n].key;
    LiveIsFound(c.table, n);
    AtMostOneToken(c, k);
    assert Tokens(c)[k] == Claims(c.clients)[k] + KeysOf(Work(c))[k] + c.dropped[k];
    assert c.table.heap[n].working == Tokens(c)[k];
  }

  /** A run that gets a key stuck: looked up once, gathered, cancelled while it is computed, and asked to retry. */
  lemma GetsStuck(c: Cache, q: Query) returns (steps: seq<Step>, d: Cache)
    requires Init(c) && |c.clients| > 0 && q.access < |c.touches| && !q.high
    ensures Runs(c, steps, d) && q.key in d.dropped
  {
    var a, c1 := FirstLookup(c, q, true);
    var r := Request(q.key, q.gen, 0);
    var b, c2 := GatheredOne(c1, q, NewNode(q.key), r);
    var e;
    e, d := CancelledRetry(c2, q, r);
    hide Runs, Init, OneNode;
    RunsAppend(c, a, c1, b, c2);
    RunsAppend(c, a + b, c2, e, d);
    steps := a + b + e;
  }

  lemma CancelledRetry(c: Cache, q: Query, r: Request) returns (steps: seq<Step>, d: Cache)
    requires OneNode(c, q, NewNode(q.key)) && r == Request(q.key, q.gen, 0) && r in c.pool
    ensures Runs(c, steps, d) && q.key in d.dropped
  {
    OneNodeFound(c, q, NewNode(q.key));
    var s1 := Cancel(SlotOf(c.table.cfg, q.key), 0);
    var c1 := Apply(c, s1);
    RunsOn(c, [], c, s1);
    assert [] + [s1] == [s1];
    var s2 := DropRetry(r);
    d := Apply(c1, s2);
    RunsOn(c, [s1], c1, s2);
    steps := [s1] + [s2];
  }

  /** A cancelled node stays cancelled as long as it stays linked, and it stays linked as long as it has work. */
  lemma CancelledStays(c: Cache, step: Step, n: NodeId)
    requires Inv(c) && Enabled(c, step) && Live(c.table, n) && c.table.heap[n].cancelled
    ensures
      var d := Apply(c, step);
      && (Live(d.table, n) ==> d.table.heap[n].cancelled && d.table.heap[n].key == c.table.heap[n].key)
      && (c.table.heap[n].working > 0 ==> Live(d.table, n))
  {
    if step.Acquire? {
      CancelAcquire(c, step.i, step.id, n);
    } else if step.Evict? {
      CancelEvict(c, step.s, step.j, n);
    } else {
      hide Inv;
      CancelKept(c, step, n);
      ShapeKeeps(c.table, Apply(c, step).table);
    }
  }

  lemma CancelAcquire(c: Cache, i: nat, id: NodeId, n: NodeId)
    requires ListsOk(c.table) && FreeOk(c.table) && Enabled(c, Acquire(i, id)) && Live(c.table, n)
    ensures
      var d := Apply(c, Acquire(i, id));
      Live(d.table, n) && d.table.heap[n] == c.table.heap[n]
  {
    if Lookup(c.table, c.clients[i].q.key).None? {
      AllocLive(c.table, c.clients[i].q.key, id);
    }
  }

  lemma CancelEvict(c: Cache, s: Slot, j: nat, n: NodeId)
    requires ListsOk(c.table) && Enabled(c, Evict(s, j)) && Live(c.table, n)
    ensures
      var d := Apply(c, Evict(s, j));
      && (Live(d.table, n) ==> d.table.heap[n] == c.table.heap[n])
      && (c.table.heap[n].working > 0 ==> Live(d.table, n))
  {
    UnlinkLive(c.table, s, j);
  }

  lemma CancelKept(c: Cache, step: Step, n: NodeId)
    requires Enabled(c, step) && !step.Acquire? && !step.Evict? && n in c.table.heap && c.table.heap[n].cancelled
    ensures SameShape(c.table, Apply(c, step).table) && Apply(c, step).table.heap[n].cancelled
  {
    match step {
      case Fast(i, q) =>
        if Lookup(c.table, q.key).Some? {
          var m := Lookup(c.table, q.key).value;
          EditCancelled(c.table, m, FastNode(c.table.heap[m], q), n);
        }
      case Check(i, outOfTime, isAsync) =>
        EditCancelled(c.table, c.clients[i].node, Touch(c.table.heap[c.clients[i].node]), n);
      case CloseTouch(a) =>
        var m := c.touches[a][0];
        EditCancelled(c.table, m, c.table.heap[m].(refcount := Dec(c.table.heap[m].refcount)), n);
      case Cancel(s, j) =>
        var m := List(c.table, s)[j];
        EditCancelled(c.table, m, c.table.heap[m].(cancelled := true), n);
      case Complete(r, val, gen) => CompleteCancelled(c.table, r.key, val, gen, n);
      case _ =>
    }
  }

  lemma EditCancelled(t: Table, m: NodeId, nd: Node, n: NodeId)
    requires m in t.heap && n in t.heap && nd.key == t.heap[m].key
    requires t.heap[n].cancelled && (t.heap[m].cancelled ==> nd.cancelled)
    ensures SameShape(t, Edit(t, m, nd)) && Edit(t, m, nd).heap[n].cancelled
  {
  }

  lemma CompleteCancelled(t: Table, k: Key, val: Artifact, gen: int, n: NodeId)
    requires n in t.heap && t.heap[n].cancelled
    ensures SameShape(t, CompleteNodes(t, k, val, gen)) && CompleteNodes(t, k, val, gen).heap[n].cancelled
  {
  }
}
