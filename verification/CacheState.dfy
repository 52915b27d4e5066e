/** The artifact cache as one shared state: hashed slots of nodes, the stripes that lock them, the two
    request batches, the client threads inside a lookup, and the touches readers hold open.
    A step of the protocol (module CacheProtocol) is one lock region or one atomic operation. */
module CacheState {
  import opened Basics

  type NodeId = nat    // the address of a node; recycled through the free list of its stripe
  type Artifact = nat  // the four words an artifact carries, opaque to the cache

  datatype Key = Key(create: nat, name: string)
  datatype Slot = Slot(create: nat, idx: nat)
  datatype Stripe = Stripe(create: nat, idx: nat)

  /** Where keys land: `slotIdx` is the hash of the key modulo its cache's slot count, `stripeIdx` the
      slot index modulo the stripe count. Both are left arbitrary. */
  datatype Config = Config(slotIdx: Key -> nat, stripeIdx: Slot -> nat)

  const U64_MAX: nat := 0xFFFF_FFFF_FFFF_FFFF

  datatype Node = Node(
    key: Key,
    requestedGen: int,
    completedGen: int,
    val: Artifact,
    refcount: nat,
    working: nat,
    completions: nat,
    cancelled: bool)

  datatype Request = Request(key: Key, gen: int, signal: NodeId)

  datatype Batch = Batch(wide: seq<Request>, thin: seq<Request>)

  /** 0: high priority, 1: low priority. */
  type Batches = b: seq<Batch> | |b| == 2 witness [Batch([], []), Batch([], [])]

  /** The arguments of one lookup; `access` names the access scope its touch is pushed on. */
  datatype Query = Query(key: Key, gen: int, waitFresh: bool, high: bool, wide: bool, access: nat)

  /** What a lookup has found so far. `reported` is the staleness it would hand out, `stale` whether the
      value really was of another generation. */
  datatype Outcome = Nothing | Got(val: Artifact, reported: bool, stale: bool, timedOut: bool)

  datatype Client =
    | Idle(last: Option<Query>, outcome: Outcome)
    | Slow(q: Query, outcome: Outcome, need: bool)        // about to take the stripe for writing
    | Pushed(q: Query, outcome: Outcome, node: NodeId)    // holds the stripe, request queued, flag not set yet
    | Flagged(q: Query, outcome: Outcome, node: NodeId)   // holds the stripe, high-priority flag not set yet
    | Checking(q: Query, outcome: Outcome, node: NodeId)  // holds the stripe

  /** The hash table of nodes: `slots` are the linked lists, `free` the recycled nodes of each stripe. */
  datatype Table = Table(
    cfg: Config,
    heap: map<NodeId, Node>,
    slots: map<Slot, seq<NodeId>>,
    free: map<Stripe, seq<NodeId>>)

  datatype Cache = Cache(
    table: Table,
    writer: map<Stripe, nat>,            // the client holding a stripe for writing
    batches: Batches,
    pool: multiset<Request>,             // gathered by a tick, not yet finished with
    clients: seq<Client>,
    touches: seq<seq<NodeId>>,           // open touches, per access scope
    again: bool,
    high: bool,
    // history
    dropped: multiset<Key>,              // requests that a retry after cancellation let go
    created: multiset<(Key, Artifact)>,       // values create functions returned
    destroyed: multiset<(Key, Artifact)>)     // values handed to destroy functions

  function SlotOf(cfg: Config, k: Key): Slot { Slot(k.create, cfg.slotIdx(k)) }

  function StripeOf(cfg: Config, s: Slot): Stripe { Stripe(s.create, cfg.stripeIdx(s)) }

  function KeyStripe(cfg: Config, k: Key): Stripe { StripeOf(cfg, SlotOf(cfg, k)) }

  function ListAt<K, V>(m: map<K, seq<V>>, k: K): seq<V> { if k in m then m[k] else [] }

  function List(t: Table, s: Slot): seq<NodeId> { ListAt(t.slots, s) }

  /** The scan every region does: the first node of a slot list with a matching key. */
  function Find(heap: map<NodeId, Node>, l: seq<NodeId>, k: Key): (r: Option<NodeId>)
    ensures r.Some? ==> r.value in l && r.value in heap && heap[r.value].key == k
    ensures r.None? ==> forall n | n in l && n in heap :: heap[n].key != k
  {
    if l == [] then None
    else if l[0] in heap && heap[l[0]].key == k then Some(l[0])
    else Find(heap, l[1..], k)
  }

  function Lookup(t: Table, k: Key): Option<NodeId> { Find(t.heap, List(t, SlotOf(t.cfg, k)), k) }

  ghost predicate Live(t: Table, n: NodeId) {
    n in t.heap && n in List(t, SlotOf(t.cfg, t.heap[n].key))
  }

  // ---- counting work and touches ----

  function Sum<T>(ms: seq<multiset<T>>): multiset<T> {
    if ms == [] then multiset{} else Sum(ms[..|ms| - 1]) + ms[|ms| - 1]
  }

  lemma {:induction false} SumUpdate<T>(ms: seq<multiset<T>>, i: nat, m: multiset<T>)
    requires i < |ms|
    ensures ms[i] <= Sum(ms)
    ensures Sum(ms[i := m]) == Sum(ms) - ms[i] + m
  {
    var last := |ms| - 1;
    if i == last {
      assert ms[i := m][..last] == ms[..last];
    } else {
      assert ms[i := m][..last] == ms[..last][i := m];
      SumUpdate(ms[..last], i, m);
    }
  }

  function ClaimOf(cl: Client): multiset<Key> {
    if cl.Slow? && cl.need then multiset{cl.q.key} else multiset{}
  }

  function ClaimList(cs: seq<Client>): seq<multiset<Key>> {
    seq(|cs|, i requires 0 <= i < |cs| => ClaimOf(cs[i]))
  }

  function Claims(cs: seq<Client>): multiset<Key> { Sum(ClaimList(cs)) }

  lemma ClaimsUpdate(cs: seq<Client>, i: nat, cl: Client)
    requires i < |cs|
    ensures ClaimOf(cs[i]) <= Claims(cs)
    ensures Claims(cs[i := cl]) == Claims(cs) - ClaimOf(cs[i]) + ClaimOf(cl)
  {
    assert ClaimList(cs[i := cl]) == ClaimList(cs)[i := ClaimOf(cl)];
    SumUpdate(ClaimList(cs), i, ClaimOf(cl));
  }

  function TouchList(ts: seq<seq<NodeId>>): seq<multiset<NodeId>> {
    seq(|ts|, i requires 0 <= i < |ts| => multiset(ts[i]))
  }

  function OpenTouches(ts: seq<seq<NodeId>>): multiset<NodeId> { Sum(TouchList(ts)) }

  lemma TouchesUpdate(ts: seq<seq<NodeId>>, i: nat, t: seq<NodeId>)
    requires i < |ts|
    ensures multiset(ts[i]) <= OpenTouches(ts)
    ensures OpenTouches(ts[i := t]) == OpenTouches(ts) - multiset(ts[i]) + multiset(t)
  {
    assert TouchList(ts[i := t]) == TouchList(ts)[i := multiset(t)];
    SumUpdate(TouchList(ts), i, multiset(t));
  }

  ghost function Pick<T>(m: multiset<T>): (x: T)
    requires m != multiset{}
    ensures x in m
  {
    var x :| x in m; x
  }

  ghost function KeysOf(m: multiset<Request>): multiset<Key>
    decreases |m|
  {
    if m == multiset{} then multiset{} else KeysOf(m - multiset{Pick(m)}) + multiset{Pick(m).key}
  }

  lemma SwapOut<T>(m: multiset<T>, r: T, x: T)
    requires x in m
    ensures m + multiset{r} - multiset{x} == m - multiset{x} + multiset{r}
    ensures m - multiset{x} + multiset{x} == m
  {
  }

  lemma {:induction false} KeysOfAdd(m: multiset<Request>, r: Request)
    ensures KeysOf(m + multiset{r}) == KeysOf(m) + multiset{r.key}
    decreases |m|
  {
    var all := m + multiset{r};
    var x := Pick(all);
    if x == r {
      assert all - multiset{r} == m;
    } else {
      var rest := m - multiset{x};
      SwapOut(m, r, x);
      KeysOfAdd(rest, r);
      KeysOfAdd(rest, x);
      calc {
        KeysOf(all);
        KeysOf(rest + multiset{r}) + multiset{x.key};
        KeysOf(rest) + multiset{r.key} + multiset{x.key};
        KeysOf(rest) + multiset{x.key} + multiset{r.key};
        KeysOf(m) + multiset{r.key};
      }
    }
  }

  lemma {:induction false} KeysOfHas(m: multiset<Request>, r: Request)
    requires r in m
    ensures KeysOf(m) == KeysOf(m - multiset{r}) + multiset{r.key}
  {
    KeysOfAdd(m - multiset{r}, r);
    assert m - multiset{r} + multiset{r} == m;
  }

  ghost function Queued(b: Batch): multiset<Request> { multiset(b.wide) + multiset(b.thin) }

  /** Every request that is queued, gathered or being computed. */
  ghost function Work(c: Cache): multiset<Request>
  {
    Queued(c.batches[0]) + Queued(c.batches[1]) + c.pool
  }

  /** The work tokens of each key: claimed but unsubmitted, requested, or dropped by a cancelled retry. */
  ghost function Tokens(c: Cache): multiset<Key>
  {
    Claims(c.clients) + KeysOf(Work(c)) + c.dropped
  }

  // ---- the invariant ----

  ghost predicate Distinct<T>(l: seq<T>) { forall i, j | 0 <= i < j < |l| :: l[i] != l[j] }

  /** Slot lists hold nodes of their own slot, one per key. */
  ghost predicate ListsOk(t: Table) {
    && (forall s, n | n in List(t, s) :: n in t.heap && SlotOf(t.cfg, t.heap[n].key) == s)
    && (forall s :: Distinct(List(t, s)))
    && (forall m, n | Live(t, m) && Live(t, n) && t.heap[m].key == t.heap[n].key :: m == n)
  }

  /** Free lists hold unlinked nodes, each once, on the stripe they were evicted from. */
  ghost predicate FreeOk(t: Table) {
    && (forall st, n | n in ListAt(t.free, st) ::
          n in t.heap && !Live(t, n) && KeyStripe(t.cfg, t.heap[n].key) == st)
    && (forall st :: Distinct(ListAt(t.free, st)))
  }

  /** `working_count` is 0 or 1 and equals the number of work tokens of the node's key. */
  ghost predicate TokensAre(t: Table, tokens: multiset<Key>) {
    && (forall n | Live(t, n) :: t.heap[n].working == tokens[t.heap[n].key] <= 1)
    && (forall k | k in tokens :: Lookup(t, k).Some?)
  }

  /** Every request's cancel signal points into the linked node of its own key. */
  ghost predicate RequestsAre(t: Table, work: multiset<Request>) {
    forall r | r in work :: Live(t, r.signal) && t.heap[r.signal].key == r.key
  }

  /** `access_refcount` equals the number of open touches, and only linked nodes are touched. */
  ghost predicate TouchesAre(t: Table, touches: multiset<NodeId>) {
    && (forall n | n in t.heap :: t.heap[n].refcount == touches[n])
    && (forall n | n in touches :: Live(t, n))
  }

  ghost predicate ValuesOk(t: Table, created: multiset<(Key, Artifact)>) {
    && (forall n | Live(t, n) :: t.heap[n].working == 0 ==> t.heap[n].completions >= 1)
    && (forall n | Live(t, n) && t.heap[n].completions >= 1 :: (t.heap[n].key, t.heap[n].val) in created)
  }

  predicate Holding(cl: Client) { cl.Pushed? || cl.Flagged? || cl.Checking? }

  ghost predicate OutcomeOk(created: multiset<(Key, Artifact)>, q: Query, o: Outcome) {
    o.Got? ==>
      && (q.key, o.val) in created
      && (q.waitFresh && o.stale ==> o.timedOut)
  }

  ghost predicate ClientOk(c: Cache, i: nat, cl: Client) {
    match cl
    case Idle(last, o) => last.None? || OutcomeOk(c.created, last.value, o)
    case Slow(q, o, _) => OutcomeOk(c.created, q, o) && q.access < |c.touches|
    case _ =>
      && OutcomeOk(c.created, cl.q, cl.outcome) && cl.q.access < |c.touches|
      && KeyStripe(c.table.cfg, cl.q.key) in c.writer && c.writer[KeyStripe(c.table.cfg, cl.q.key)] == i
      && Live(c.table, cl.node) && c.table.heap[cl.node].key == cl.q.key
  }

  ghost predicate ClientsOk(c: Cache) {
    && (forall i | 0 <= i < |c.clients| :: ClientOk(c, i, c.clients[i]))
    && (forall st | st in c.writer ::
          && c.writer[st] < |c.clients| && Holding(c.clients[c.writer[st]])
          && KeyStripe(c.table.cfg, c.clients[c.writer[st]].q.key) == st)
  }

  ghost predicate TableOk(t: Table, created: multiset<(Key, Artifact)>) {
    ListsOk(t) && FreeOk(t) && ValuesOk(t, created)
  }

  ghost predicate Inv(c: Cache) {
    && TableOk(c.table, c.created)
    && TokensAre(c.table, Tokens(c)) && RequestsAre(c.table, Work(c)) && TouchesAre(c.table, OpenTouches(c.touches))
    && ClientsOk(c)
  }

  // ---- consequences of list uniqueness ----

  lemma LiveIsFound(t: Table, n: NodeId)
    requires ListsOk(t) && Live(t, n)
    ensures Lookup(t, t.heap[n].key) == Some(n)
  {
    FoundIsLive(t, t.heap[n].key);
  }

  lemma FoundIsLive(t: Table, k: Key)
    requires Lookup(t, k).Some?
    ensures Live(t, Lookup(t, k).value) && t.heap[Lookup(t, k).value].key == k
  {
  }

  // ---- rewriting nodes in place ----

  /** Same nodes with the same keys in the same lists. */
  ghost predicate SameShape(t: Table, u: Table) {
    && u.cfg == t.cfg && u.slots == t.slots && u.free == t.free
    && u.heap.Keys == t.heap.Keys
    && forall n | n in t.heap :: u.heap[n].key == t.heap[n].key
  }

  lemma {:induction false} FindSame(h: map<NodeId, Node>, g: map<NodeId, Node>, l: seq<NodeId>, k: Key)
    requires forall n | n in l :: (n in h <==> n in g) && (n in h ==> h[n].key == g[n].key)
    ensures Find(h, l, k) == Find(g, l, k)
  {
    if l != [] {
      assert l[0] in l && forall n | n in l[1..] :: n in l;
      FindSame(h, g, l[1..], k);
    }
  }

  lemma ShapeKeeps(t: Table, u: Table)
    requires SameShape(t, u)
    ensures forall n :: Live(u, n) == Live(t, n)
    ensures forall k :: Lookup(u, k) == Lookup(t, k)
  {
    assert forall n :: n in u.heap <==> n in t.heap;
    forall k ensures Lookup(u, k) == Lookup(t, k) {
      FindSame(t.heap, u.heap, List(t, SlotOf(t.cfg, k)), k);
    }
  }

  lemma ShapeOk(t: Table, u: Table)
    requires SameShape(t, u) && ListsOk(t) && FreeOk(t)
    ensures ListsOk(u) && FreeOk(u)
  {
    assert forall n :: n in u.heap <==> n in t.heap;
    assert forall s :: List(u, s) == List(t, s);
    assert forall n :: Live(u, n) == Live(t, n);
  }
}
