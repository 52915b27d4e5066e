/** Which lookups ask for a computation, what they queue for it, and what they hand out. */
module CacheLookup {
  import opened Basics
  import opened CacheState
  import opened CacheProtocol
  import opened CacheInvariant
  import opened CacheTheorems

  // ---- the read region ----

  /** How the read region leaves the node it finds, and its caller: the value is handed out, with a touch, when there
      is one and it is fresh or may be stale; a stale node nobody works on is claimed; a caller that claimed, or has
      nothing, goes on. */
  predicate ReadsAs(nd: Node, md: Node, was: seq<NodeId>, now: seq<NodeId>, cl: Client, q: Query, n: NodeId) {
    var stale := nd.completedGen != q.gen;
    var claims := stale && nd.working == 0;
    && md == nd.(requestedGen := q.gen, working := md.working, refcount := md.refcount)
    && md.working == (if claims then 1 else nd.working)
    && if nd.completions > 0 && !(stale && q.waitFresh) then
         && md.refcount == nd.refcount + 1 && now == [n] + was
         && cl == if claims then Slow(q, Got(nd.val, true, true, false), true)
                  else Idle(Some(q), Got(nd.val, stale, stale, false))
       else md.refcount == nd.refcount && now == was && cl == Slow(q, Nothing, claims)
  }

  lemma ReadHands(c: Cache, i: nat, q: Query, n: NodeId)
    requires Enabled(c, Fast(i, q)) && Lookup(c.table, q.key) == Some(n)
    ensures
      var d := Apply(c, Fast(i, q));
      && Lookup(d.table, q.key) == Some(n) && n in d.table.heap && d.batches == c.batches
      && i < |d.clients| && q.access < |d.touches|
      && ReadsAs(c.table.heap[n], d.table.heap[n], c.touches[q.access], d.touches[q.access], d.clients[i], q, n)
  {
    ReadShape(c, i, q, n);
    hide Lookup;
  }

  lemma ReadShape(c: Cache, i: nat, q: Query, n: NodeId)
    requires Enabled(c, Fast(i, q)) && Lookup(c.table, q.key) == Some(n)
    ensures Lookup(FastApply(c, i, q).table, q.key) == Some(n)
  {
    FoundIsLive(c.table, q.key);
    ShapeKeeps(c.table, FastApply(c, i, q).table);
  }

  /** A lookup of a stale node leaves its key with a token, which the lookup itself holds if there was none before;
      a lookup of a fresh node asks for nothing. Either way nothing is queued yet. */
  lemma ReadClaims(c: Cache, i: nat, q: Query, n: NodeId)
    requires Inv(c) && Enabled(c, Fast(i, q)) && Lookup(c.table, q.key) == Some(n)
    ensures
      var nd, d := c.table.heap[n], Apply(c, Fast(i, q));
      && (nd.completedGen != q.gen ==> q.key in Tokens(d))
      && (nd.completedGen != q.gen && nd.working == 0 ==>
            q.key !in Tokens(c) && d.clients[i].Slow? && d.clients[i].q == q && d.clients[i].need)
      && (nd.completedGen == q.gen || nd.working > 0 ==> Tokens(d) == Tokens(c))
      && Work(d) == Work(c)
  {
    ReadHands(c, i, q, n);
    FastCounts(c, i, q);
    NodeTokens(c, q.key, n);
    hide Inv, Tokens, Work, FastApply, Apply, Lookup, Enabled;
  }

  lemma NodeTokens(c: Cache, k: Key, n: NodeId)
    requires Inv(c) && Lookup(c.table, k) == Some(n)
    ensures Tokens(c)[k] == c.table.heap[n].working
  {
    FoundIsLive(c.table, k);
    hide Tokens, Work, TableOk, ClientsOk;
  }

  // ---- the queued request ----

  /** `r` is put at the end of one queue: of the high batch for a high request, of the wide queue for a wide one. */
  predicate Queues(a: Batches, b: Batches, r: Request, high: bool, wide: bool) {
    && b[0].wide == (if high && wide then a[0].wide + [r] else a[0].wide)
    && b[0].thin == (if high && !wide then a[0].thin + [r] else a[0].thin)
    && b[1].wide == (if !high && wide then a[1].wide + [r] else a[1].wide)
    && b[1].thin == (if !high && !wide then a[1].thin + [r] else a[1].thin)
  }

  /** The write region leaves the key with a linked node, a new one if there was none, and queues one request for it if
      the lookup holds the claim or linked the node, and none otherwise. */
  ghost predicate WritesAs(c: Cache, d: Cache, cl: Client, n: NodeId)
    requires cl.Slow?
  {
    && Lookup(d.table, cl.q.key) == Some(n) && n in d.table.heap
    && (if Lookup(c.table, cl.q.key).Some? then d.table == c.table else FreshNode(d.table.heap[n]))
    && if cl.need || Lookup(c.table, cl.q.key).None?
       then Queues(c.batches, d.batches, Request(cl.q.key, cl.q.gen, n), cl.q.high, cl.q.wide)
       else d.batches == c.batches
  }

  predicate FreshNode(nd: Node) {
    nd.working == 1 && nd.completions == 0 && nd.refcount == 0 && nd.completedGen == 0 && !nd.cancelled
  }

  lemma WriteQueues(c: Cache, i: nat, id: NodeId) returns (n: NodeId)
    requires ListsOk(c.table) && FreeOk(c.table) && Enabled(c, Acquire(i, id))
    ensures WritesAs(c, Apply(c, Acquire(i, id)), c.clients[i], n)
  {
    var k := c.clients[i].q.key;
    if Lookup(c.table, k).Some? {
      n := Lookup(c.table, k).value;
      FoundIsLive(c.table, k);
    } else {
      n := AllocId(c.table, KeyStripe(c.table.cfg, k), id);
      WriteLinks(c.table, k, id);
    }
    hide ListsOk, FreeOk, Lookup, Alloc, AllocId;
  }

  lemma WriteLinks(t: Table, k: Key, id: NodeId)
    requires ListsOk(t) && FreeOk(t) && Lookup(t, k).None? && id !in t.heap
    ensures
      var u, n := Alloc(t, k, id), AllocId(t, KeyStripe(t.cfg, k), id);
      Lookup(u, k) == Some(n) && n in u.heap && u.heap[n] == NewNode(k)
  {
    AllocLive(t, k, id);
    AllocShape(t, k, id);
    LiveIsFound(Alloc(t, k, id), AllocId(t, KeyStripe(t.cfg, k), id));
  }

  // ---- from the claim to the request ----

  /** Client `i` has claimed the linked node `n`. */
  ghost predicate HasClaim(c: Cache, i: nat, q: Query, n: NodeId) {
    && i < |c.clients| && c.clients[i].Slow? && c.clients[i].need && c.clients[i].q == q
    && Lookup(c.table, q.key) == Some(n)
  }

  lemma ClaimedNode(c: Cache, i: nat, q: Query, n: NodeId)
    requires Inv(c) && HasClaim(c, i, q, n)
    ensures Live(c.table, n) && c.table.heap[n].key == q.key && c.table.heap[n].working == 1
    ensures q.key !in KeysOf(Work(c))
  {
    ClaimsUpdate(c.clients, i, c.clients[i]);
    assert ClaimOf(c.clients[i]) == multiset{q.key};
    AtMostOneToken(c, q.key);
    FoundIsLive(c.table, q.key);
    OnlyClaim(Claims(c.clients), KeysOf(Work(c)), c.dropped, q.key);
    hide Claims, KeysOf, Work;
  }

  lemma OnlyClaim(a: multiset<Key>, b: multiset<Key>, c: multiset<Key>, k: Key)
    requires multiset{k} <= a && (a + b + c)[k] <= 1
    ensures (a + b + c)[k] == 1 && k !in b
  {
    assert a[k] >= multiset{k}[k];
  }

  predicate StepOf(step: Step, i: nat) {
    (step.Fast? || step.Acquire? || step.SetAgain? || step.SetHigh? || step.Check?) && step.i == i
  }

  lemma OthersStep(c: Cache, step: Step, i: nat)
    requires Enabled(c, step) && i < |c.clients| && !StepOf(step, i)
    ensures |Apply(c, step).clients| == |c.clients| && Apply(c, step).clients[i] == c.clients[i]
  {
    hide Lookup, KeyStripe, Alloc, Unlink, CompleteNodes, Queued, FastClient, CheckOutcome, Edit, CheckTakes;
  }

  /** Until the client takes the stripe, nobody unlinks its node or takes its claim. */
  lemma ClaimStays(c: Cache, step: Step, i: nat, q: Query, n: NodeId)
    requires Inv(c) && Enabled(c, step) && HasClaim(c, i, q, n) && !(step.Acquire? && step.i == i)
    ensures HasClaim(Apply(c, step), i, q, n)
  {
    ClaimedNode(c, i, q, n);
    DroppedFrame(c, step, q.key);
    OthersStep(c, step, i);
  }

  lemma ClaimQueues(c: Cache, i: nat, id: NodeId, q: Query, n: NodeId)
    requires Inv(c) && HasClaim(c, i, q, n) && Enabled(c, Acquire(i, id))
    ensures Queues(c.batches, Apply(c, Acquire(i, id)).batches, Request(q.key, q.gen, n), q.high, q.wide)
  {
    var m := WriteQueues(c, i, id);
    hide ListsOk, FreeOk, Queues, Lookup, Apply;
  }

  /** Step `j` of the run is the one by which client `i` queues its request. */
  ghost predicate QueuesAt(c: Cache, steps: seq<Step>, d: Cache, j: nat, mid: Cache, i: nat, q: Query, n: NodeId) {
    && j < |steps| && Runs(c, steps[..j], mid) && steps[j].Acquire? && steps[j].i == i && Enabled(mid, steps[j])
    && Runs(Apply(mid, steps[j]), steps[j + 1..], d)
    && Lookup(mid.table, q.key) == Some(n)
    && Queues(mid.batches, Apply(mid, steps[j]).batches, Request(q.key, q.gen, n), q.high, q.wide)
  }

  lemma {:induction false} ClaimRuns(c: Cache, steps: seq<Step>, d: Cache, i: nat, q: Query, n: NodeId)
    returns (j: nat, mid: Cache)
    requires Inv(c) && HasClaim(c, i, q, n) && Runs(c, steps, d) && i < |d.clients| && !d.clients[i].Slow?
    ensures QueuesAt(c, steps, d, j, mid, i, q, n)
    decreases |steps|
  {
    hide Inv, Enabled, Apply, Lookup;
    if steps[0].Acquire? && steps[0].i == i {
      j, mid := 0, c;
      ClaimQueues(c, i, steps[0].id, q, n);
      assert steps[..0] == [] && steps[1..] == steps[0 + 1..];
    } else {
      ClaimStays(c, steps[0], i, q, n);
      StepKeeps(c, steps[0]);
      j, mid := ClaimRuns(Apply(c, steps[0]), steps[1..], d, i, q, n);
      QueuesLater(c, steps, d, j, mid, i, q, n);
      j := j + 1;
    }
  }

  lemma QueuesLater(c: Cache, steps: seq<Step>, d: Cache, j: nat, mid: Cache, i: nat, q: Query, n: NodeId)
    requires steps != [] && Enabled(c, steps[0]) && QueuesAt(Apply(c, steps[0]), steps[1..], d, j, mid, i, q, n)
    ensures QueuesAt(c, steps, d, j + 1, mid, i, q, n)
  {
    hide Enabled, Apply, Lookup, Queues;
    assert steps[..j + 1][1..] == steps[1..][..j];
    assert steps[1..][j + 1..] == steps[j + 1 + 1..];
  }

  /** A lookup that finds its key's node stale and unclaimed has, when it returns, queued one request for it, of the
      generation it asked for: in the batch of its priority, in the queue of its kind. */
  lemma StaleIsRequested(c: Cache, i: nat, q: Query, n: NodeId, steps: seq<Step>, d: Cache) returns (j: nat, mid: Cache)
    requires Inv(c) && Enabled(c, Fast(i, q)) && Lookup(c.table, q.key) == Some(n)
    requires c.table.heap[n].completedGen != q.gen && c.table.heap[n].working == 0
    requires Runs(Apply(c, Fast(i, q)), steps, d) && i < |d.clients| && d.clients[i].Idle?
    ensures QueuesAt(Apply(c, Fast(i, q)), steps, d, j, mid, i, q, n)
  {
    ReadMakesClaim(c, i, q, n);
    StepKeeps(c, Fast(i, q));
    hide Inv, Enabled, Apply, Lookup, Runs, HasClaim, QueuesAt;
    j, mid := ClaimRuns(Apply(c, Fast(i, q)), steps, d, i, q, n);
  }

  lemma ReadMakesClaim(c: Cache, i: nat, q: Query, n: NodeId)
    requires Enabled(c, Fast(i, q)) && Lookup(c.table, q.key) == Some(n)
    requires c.table.heap[n].completedGen != q.gen && c.table.heap[n].working == 0
    ensures HasClaim(Apply(c, Fast(i, q)), i, q, n)
  {
    ReadHands(c, i, q, n);
    hide Lookup, Apply;
  }

  // ---- the flags of the loop ----

  /** After one of the steps the loop flag, or the one for high priority, is up. */
  ghost predicate Rises(c: Cache, steps: seq<Step>, high: bool)
    decreases |steps|
  {
    && steps != [] && Enabled(c, steps[0])
    && var d := Apply(c, steps[0]);
       (if high then d.high else d.again) || Rises(d, steps[1..], high)
  }

  predicate Between(cl: Client) { cl.Pushed? || cl.Flagged? }

  lemma OwnStep(c: Cache, step: Step, i: nat)
    requires Enabled(c, step) && StepOf(step, i) && !step.Acquire?
    ensures
      var cl, d := c.clients[i], Apply(c, step);
      && |d.clients| == |c.clients|
      && (cl.Pushed? ==> step == SetAgain(i) && d.again && (Between(d.clients[i]) <==> cl.q.high)
                         && !d.clients[i].Pushed?)
      && (cl.Flagged? ==> step == SetHigh(i) && d.high && !Between(d.clients[i]))
      && (!Between(cl) ==> step != SetHigh(i) && !Between(d.clients[i]))
  {
    hide Lookup, KeyStripe, CheckTakes, FastGot, FastNeed, Edit;
  }

  lemma FlagStep(c: Cache, step: Step, i: nat)
    requires Enabled(c, step) && i < |c.clients| && !(step.Acquire? && step.i == i)
    ensures
      var cl, d := c.clients[i], Apply(c, step);
      && i < |d.clients|
      && (!StepOf(step, i) ==> d.clients[i] == cl && step != SetHigh(i))
      && (StepOf(step, i) ==>
            && (cl.Pushed? ==> d.again && (Between(d.clients[i]) <==> cl.q.high) && !d.clients[i].Pushed?
                               && step != SetHigh(i))
            && (cl.Flagged? ==> step == SetHigh(i) && d.high && !Between(d.clients[i]))
            && (!Between(cl) ==> step != SetHigh(i) && !Between(d.clients[i])))
  {
    hide Enabled, Apply, Between;
    if StepOf(step, i) {
      OwnStep(c, step, i);
    } else {
      OthersStep(c, step, i);
    }
  }

  /** A lookup that is not between its push and its flags does not raise them until it has pushed again. */
  lemma {:induction false} NeverFlags(c: Cache, steps: seq<Step>, d: Cache, i: nat)
    requires Runs(c, steps, d) && i < |c.clients| && (c.clients[i].Pushed? ==> !c.clients[i].q.high)
    requires !c.clients[i].Flagged? && forall step | step in steps :: !(step.Acquire? && step.i == i)
    ensures SetHigh(i) !in steps
    decreases |steps|
  {
    hide Enabled, Apply;
    if steps != [] {
      FlagStep(c, steps[0], i);
      NeverFlags(Apply(c, steps[0]), steps[1..], d, i);
      assert steps == [steps[0]] + steps[1..];
    }
  }

  /** A lookup that has queued a request is past its flags only when the loop flag was raised, and by itself the one
      for high priority exactly if its priority is high. */
  lemma {:induction false} FlagsRise(c: Cache, steps: seq<Step>, d: Cache, i: nat)
    requires Runs(c, steps, d) && i < |c.clients| && i < |d.clients| && Between(c.clients[i]) && !Between(d.clients[i])
    requires forall step | step in steps :: !(step.Acquire? && step.i == i)
    ensures c.clients[i].Pushed? ==> Rises(c, steps, false) && (c.clients[i].q.high <==> SetHigh(i) in steps)
    ensures c.clients[i].Flagged? || c.clients[i].q.high ==> Rises(c, steps, true) && SetHigh(i) in steps
    decreases |steps|
  {
    hide Enabled, Apply;
    FlagStep(c, steps[0], i);
    assert steps == [steps[0]] + steps[1..];
    var e := Apply(c, steps[0]);
    if Between(e.clients[i]) {
      FlagsRise(e, steps[1..], d, i);
    } else if c.clients[i].Pushed? && !c.clients[i].q.high {
      NeverFlags(e, steps[1..], d, i);
    }
  }

  // ---- the end of the write region ----

  /** A pass of the write region ends the lookup exactly when it has a value, is out of time or may not wait. It has no
      value exactly when it had none and the node's was never computed, or is stale and neither time nor the caller
      allows that; a value it takes is the node's of that moment. */
  lemma CheckReturns(c: Cache, i: nat, outOfTime: bool, isAsync: bool)
    requires Enabled(c, Check(i, outOfTime, isAsync))
    ensures
      var cl, nd, d := c.clients[i], c.table.heap[c.clients[i].node], Apply(c, Check(i, outOfTime, isAsync));
      var stale := nd.completedGen != cl.q.gen;
      var r := if d.clients[i].Idle? then d.clients[i].outcome else Nothing;
      && (d.clients[i].Idle? <==> outOfTime || isAsync || r.Got?)
      && (d.clients[i].Idle? ==> d.clients[i].last == Some(cl.q))
      && (!d.clients[i].Idle? ==> d.clients[i] == Slow(cl.q, Nothing, false))
      && (r.Nothing? <==> cl.outcome.Nothing? && (nd.completions == 0 || (stale && cl.q.waitFresh && !outOfTime)))
      && (cl.outcome.Got? ==> r == cl.outcome && d.table == c.table && d.touches == c.touches)
      && (cl.outcome.Nothing? && r.Got? ==>
            && r.val == nd.val && r.stale == stale && r.timedOut == outOfTime
            && d.touches[cl.q.access] == [cl.node] + c.touches[cl.q.access])
  {
  }

  // ---- the value ----

  /** A completion puts value and generation in the node the request was made for, counts itself, and releases the
      claim; it changes nothing else in the table. */
  lemma CompletionServes(c: Cache, r: Request, val: Artifact, gen: int)
    requires Inv(c) && Enabled(c, Complete(r, val, gen))
    ensures r.signal in c.table.heap && Lookup(c.table, r.key) == Some(r.signal)
    ensures
      var nd := c.table.heap[r.signal];
      Apply(c, Complete(r, val, gen)).table
      == c.table.(heap := c.table.heap[r.signal := nd.(val := val, completedGen := gen, working := 0,
                                                       completions := nd.completions + 1)])
  {
    CompletedWasClaimed(c, r, val, gen);
    LiveIsFound(c.table, r.signal);
    CompleteIsEdit(c.table, r.signal, val, gen);
    CompleteIs(c, r, val, gen);
    hide Inv, ListsOk, Lookup, CompleteNodes, Apply;
  }
}
