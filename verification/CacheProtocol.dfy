/** The steps of the cache protocol and what every interleaving of them keeps. */
module CacheProtocol {
  import opened Basics
  import opened CacheState

  datatype Step =
    | Fast(i: nat, q: Query)                                // read region of a lookup
    | Acquire(i: nat, id: NodeId)                           // take the stripe for writing, find or create, request
    | SetAgain(i: nat)
    | SetHigh(i: nat)
    | Check(i: nat, outOfTime: bool, isAsync: bool)         // read the value, then return or wait
    | CloseTouch(access: nat)                               // one iteration of access_close
    | Evict(s: Slot, j: nat)                                // one node, under the write lock
    | Cancel(s: Slot, j: nat)                               // one node, under the write lock
    | Gather(b: nat)
    | Complete(r: Request, val: Artifact, gen: int)
    | DropRetry(r: Request)
    | Resubmit(r: Request, b: nat, wide: bool)
    | Defer(b: nat, restWide: seq<Request>, restThin: seq<Request>)
    | RaiseAgain
    | ResetAgain
    | ResetHigh

  function Dec(x: nat): nat { if x == 0 then U64_MAX else x - 1 }

  // ---- what the regions do to the table ----

  function Edit(t: Table, n: NodeId, nd: Node): Table { t.(heap := t.heap[n := nd]) }

  function Touch(nd: Node): Node { nd.(refcount := nd.refcount + 1) }

  function NewNode(k: Key): Node { Node(k, 0, 0, 0, 0, 1, 0, false) }

  /** The address a new node gets: the head of the stripe's free list, or freshly pushed memory. */
  function AllocId(t: Table, st: Stripe, id: NodeId): NodeId {
    if ListAt(t.free, st) != [] then t.free[st][0] else id
  }

  function Alloc(t: Table, k: Key, id: NodeId): Table {
    var s := SlotOf(t.cfg, k);
    var st := StripeOf(t.cfg, s);
    var n := AllocId(t, st, id);
    t.(heap := t.heap[n := NewNode(k)],
       slots := t.slots[s := List(t, s) + [n]],
       free := if ListAt(t.free, st) != [] then t.free[st := t.free[st][1..]] else t.free)
  }

  /** Unlink node `j` of a slot and push it on its stripe's free list. */
  function Unlink(t: Table, s: Slot, j: nat): Table
    requires j < |List(t, s)|
  {
    var l := List(t, s);
    var st := StripeOf(t.cfg, s);
    t.(slots := t.slots[s := l[..j] + l[j + 1..]], free := t.free[st := [l[j]] + ListAt(t.free, st)])
  }

  function CompleteNode(nd: Node, val: Artifact, gen: int): Node {
    nd.(completedGen := gen, val := val, working := Dec(nd.working), completions := nd.completions + 1)
  }

  /** The loop of a completion: every node of the slot with the request's key. */
  function CompleteNodes(t: Table, k: Key, val: Artifact, gen: int): Table {
    var l := List(t, SlotOf(t.cfg, k));
    t.(heap := map n | n in t.heap ::
         if n in l && t.heap[n].key == k then CompleteNode(t.heap[n], val, gen) else t.heap[n])
  }

  function PushRequest(b: Batch, r: Request, wide: bool): Batch {
    if wide then b.(wide := b.wide + [r]) else b.(thin := b.thin + [r])
  }

  // ---- the read region of a lookup ----

  predicate FastGot(nd: Node, q: Query) { nd.completions != 0 && (nd.completedGen == q.gen || !q.waitFresh) }

  predicate FastNeed(nd: Node, q: Query) { nd.completedGen != q.gen && nd.working == 0 }

  function FastOutcome(nd: Node, q: Query): Outcome {
    if FastGot(nd, q) then Got(nd.val, nd.completedGen != q.gen, nd.completedGen != q.gen, false) else Nothing
  }

  function FastNode(nd: Node, q: Query): Node {
    nd.(requestedGen := q.gen,
        working := if FastNeed(nd, q) then 1 else nd.working,
        refcount := if FastGot(nd, q) then nd.refcount + 1 else nd.refcount)
  }

  function FastClient(nd: Node, q: Query): Client {
    if !FastGot(nd, q) || FastNeed(nd, q) then Slow(q, FastOutcome(nd, q), FastNeed(nd, q))
    else Idle(Some(q), FastOutcome(nd, q))
  }

  function FastApply(c: Cache, i: nat, q: Query): Cache
    requires i < |c.clients| && q.access < |c.touches|
  {
    match Lookup(c.table, q.key)
    case None => c.(clients := c.clients[i := Slow(q, Nothing, false)])
    case Some(n) =>
      var nd := c.table.heap[n];
      c.(table := Edit(c.table, n, FastNode(nd, q)),
         touches := if FastGot(nd, q) then c.touches[q.access := [n] + c.touches[q.access]] else c.touches,
         clients := c.clients[i := FastClient(nd, q)])
  }

  // ---- the write region of a lookup, up to the queued request ----

  function AcquireApply(c: Cache, i: nat, id: NodeId): Cache
    requires i < |c.clients| && c.clients[i].Slow?
  {
    var cl := c.clients[i];
    var q := cl.q;
    var st := KeyStripe(c.table.cfg, q.key);
    var found := Lookup(c.table, q.key);
    var n := if found.Some? then found.value else AllocId(c.table, st, id);
    var need := cl.need || found.None?;
    var b := if q.high then 0 else 1;
    c.(table := if found.Some? then c.table else Alloc(c.table, q.key, id),
       batches := if need then c.batches[b := PushRequest(c.batches[b], Request(q.key, q.gen, n), q.wide)]
         else c.batches,
       clients := c.clients[i := if need then Pushed(q, cl.outcome, n) else Checking(q, cl.outcome, n)],
       writer := c.writer[st := i])
  }

  // ---- the end of the write region: take the value if possible, then return or wait ----

  predicate CheckTakes(nd: Node, q: Query, o: Outcome, outOfTime: bool) {
    o.Nothing? && nd.completions != 0 && (nd.completedGen == q.gen || !q.waitFresh || outOfTime)
  }

  /** Line 181 assigns the staleness flag with the opposite sense of line 92. */
  function CheckOutcome(nd: Node, q: Query, o: Outcome, outOfTime: bool): Outcome {
    if CheckTakes(nd, q, o, outOfTime)
    then Got(nd.val, nd.completedGen == q.gen, nd.completedGen != q.gen, outOfTime)
    else o
  }

  predicate CanCheck(c: Cache, i: nat) {
    && i < |c.clients| && c.clients[i].Checking? && c.clients[i].q.access < |c.touches|
    && c.clients[i].node in c.table.heap
  }

  function CheckApply(c: Cache, i: nat, outOfTime: bool, isAsync: bool): Cache
    requires CanCheck(c, i)
  {
    var cl := c.clients[i];
    var q := cl.q;
    var nd := c.table.heap[cl.node];
    var takes := CheckTakes(nd, q, cl.outcome, outOfTime);
    var o := CheckOutcome(nd, q, cl.outcome, outOfTime);
    c.(table := if takes then Edit(c.table, cl.node, Touch(nd)) else c.table,
       touches := if takes then c.touches[q.access := [cl.node] + c.touches[q.access]] else c.touches,
       clients := c.clients[i := if outOfTime || o.Got? || isAsync then Idle(Some(q), o) else Slow(q, Nothing, false)],
       writer := c.writer - {KeyStripe(c.table.cfg, q.key)})
  }

  function CloseApply(c: Cache, a: nat): Cache
    requires a < |c.touches| && c.touches[a] != [] && c.touches[a][0] in c.table.heap
  {
    var n := c.touches[a][0];
    var nd := c.table.heap[n];
    c.(touches := c.touches[a := c.touches[a][1..]],
       table := Edit(c.table, n, nd.(refcount := Dec(nd.refcount))))
  }

  /** Node `j` of slot `s`, in a slot whose stripe nobody holds, expired and without readers. */
  predicate Expired(c: Cache, s: Slot, j: nat) {
    && StripeOf(c.table.cfg, s) !in c.writer && j < |List(c.table, s)| && List(c.table, s)[j] in c.table.heap
    && c.table.heap[List(c.table, s)[j]].refcount == 0
  }

  ghost predicate Enabled(c: Cache, step: Step) {
    match step
    case Fast(i, q) =>
         i < |c.clients| && c.clients[i].Idle? && q.access < |c.touches| && KeyStripe(c.table.cfg, q.key) !in c.writer
    case Acquire(i, id) =>
         i < |c.clients| && c.clients[i].Slow? && KeyStripe(c.table.cfg, c.clients[i].q.key) !in c.writer
         && id !in c.table.heap
    case SetAgain(i) => i < |c.clients| && c.clients[i].Pushed?
    case SetHigh(i) => i < |c.clients| && c.clients[i].Flagged?
    case Check(i, _, _) => CanCheck(c, i)
    case CloseTouch(a) => a < |c.touches| && c.touches[a] != [] && c.touches[a][0] in c.table.heap
    case Evict(s, j) => Expired(c, s, j) && c.table.heap[List(c.table, s)[j]].working == 0
    case Cancel(s, j) => Expired(c, s, j) && c.table.heap[List(c.table, s)[j]].working > 0
    case Gather(b) => b < 2
    case Complete(r, _, _) => r in c.pool && KeyStripe(c.table.cfg, r.key) !in c.writer
    case DropRetry(r) => r in c.pool && r.signal in c.table.heap && c.table.heap[r.signal].cancelled
    case Resubmit(r, b, _) => r in c.pool && b < 2
    case Defer(b, w, t) => b < 2 && multiset(w) + multiset(t) <= c.pool
    case _ => true
  }

  ghost function Apply(c: Cache, step: Step): Cache
    requires Enabled(c, step)
  {
    match step
    case Fast(i, q) => FastApply(c, i, q)
    case Acquire(i, id) => AcquireApply(c, i, id)
    case SetAgain(i) =>
      var cl := c.clients[i];
      c.(again := true, clients := c.clients[i :=
           if cl.q.high then Flagged(cl.q, cl.outcome, cl.node) else Checking(cl.q, cl.outcome, cl.node)])
    case SetHigh(i) =>
      var cl := c.clients[i];
      c.(high := true, clients := c.clients[i := Checking(cl.q, cl.outcome, cl.node)])
    case Check(i, outOfTime, isAsync) => CheckApply(c, i, outOfTime, isAsync)
    case CloseTouch(a) => CloseApply(c, a)
    case Evict(s, j) =>
      var nd := c.table.heap[List(c.table, s)[j]];
      c.(table := Unlink(c.table, s, j), destroyed := c.destroyed + multiset{(nd.key, nd.val)})
    case Cancel(s, j) =>
      var n := List(c.table, s)[j];
      c.(table := Edit(c.table, n, c.table.heap[n].(cancelled := true)))
    case Gather(b) => c.(pool := c.pool + Queued(c.batches[b]), batches := c.batches[b := Batch([], [])])
    case Complete(r, val, gen) =>
      c.(table := CompleteNodes(c.table, r.key, val, gen),
         pool := c.pool - multiset{r},
         created := c.created + multiset{(r.key, val)})
    case DropRetry(r) => c.(pool := c.pool - multiset{r}, dropped := c.dropped + multiset{r.key})
    case Resubmit(r, b, wide) =>
      c.(pool := c.pool - multiset{r}, batches := c.batches[b := PushRequest(c.batches[b], r, wide)])
    case Defer(b, w, t) =>
      c.(pool := c.pool - (multiset(w) + multiset(t)),
         batches := c.batches[b := Batch(c.batches[b].wide + w, c.batches[b].thin + t)])
    case RaiseAgain => c.(again := true)
    case ResetAgain => c.(again := false)
    case ResetHigh => c.(high := false)
  }
}
