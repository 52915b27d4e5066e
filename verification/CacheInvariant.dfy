/** Every step of the cache protocol keeps the invariant, so it holds after any run. */
module CacheInvariant {
  import opened Basics
  import opened CacheState
  import opened CacheProtocol

  ghost predicate CacheInv(c: Cache) { Inv(c) }

  /** All the facts about the table that depend on what is outside it. */
  ghost predicate Counted(t: Table, created: multiset<(Key, Artifact)>, tokens: multiset<Key>,
                          work: multiset<Request>, touches: multiset<NodeId>) {
    TableOk(t, created) && TokensAre(t, tokens) && RequestsAre(t, work) && TouchesAre(t, touches)
  }

  /** Two counts that differ at most in what they say about `x`. */
  ghost predicate AgreeOff<T(!new)>(a: multiset<T>, b: multiset<T>, x: T) {
    forall y | y != x :: a[y] == b[y]
  }

  lemma EditTokens(t: Table, n: NodeId, nd: Node, tokens: multiset<Key>, tokens': multiset<Key>)
    requires ListsOk(t) && TokensAre(t, tokens) && Live(t, n) && nd.key == t.heap[n].key
    requires AgreeOff(tokens, tokens', nd.key) && tokens'[nd.key] == nd.working <= 1
    ensures TokensAre(Edit(t, n, nd), tokens')
  {
    var u := Edit(t, n, nd);
    ShapeKeeps(t, u);
    forall m | Live(u, m) ensures u.heap[m].working == tokens'[u.heap[m].key] <= 1 {
      assert m == n || t.heap[m].key != nd.key;
    }
    forall k | k in tokens' ensures Lookup(u, k).Some? {
      if k == nd.key { LiveIsFound(t, n); } else { assert k in tokens; }
    }
  }

  lemma EditTouches(t: Table, n: NodeId, nd: Node, touches: multiset<NodeId>, touches': multiset<NodeId>)
    requires TouchesAre(t, touches) && Live(t, n) && nd.key == t.heap[n].key
    requires AgreeOff(touches, touches', n) && touches'[n] == nd.refcount
    ensures TouchesAre(Edit(t, n, nd), touches')
  {
    var u := Edit(t, n, nd);
    ShapeKeeps(t, u);
    forall m | m in touches' ensures Live(u, m) {
      if m != n { assert m in touches; }
    }
  }

  lemma EditValues(t: Table, n: NodeId, nd: Node, created: multiset<(Key, Artifact)>)
    requires ValuesOk(t, created) && Live(t, n) && nd.key == t.heap[n].key
    requires nd.working == 0 ==> nd.completions >= 1
    requires nd.completions >= 1 ==> (nd.key, nd.val) in created
    ensures ValuesOk(Edit(t, n, nd), created)
  {
    ShapeKeeps(t, Edit(t, n, nd));
  }

  lemma EditRequests(t: Table, n: NodeId, nd: Node, work: multiset<Request>)
    requires RequestsAre(t, work) && Live(t, n) && nd.key == t.heap[n].key
    ensures RequestsAre(Edit(t, n, nd), work)
  {
    ShapeKeeps(t, Edit(t, n, nd));
  }

  lemma EditShape(t: Table, n: NodeId, nd: Node)
    requires ListsOk(t) && FreeOk(t) && n in t.heap && nd.key == t.heap[n].key
    ensures var u := Edit(t, n, nd); SameShape(t, u) && ListsOk(u) && FreeOk(u)
  {
    ShapeOk(t, Edit(t, n, nd));
  }

  /** Rewriting one linked node keeps everything when the counts of its key and address follow. */
  lemma EditKeeps(t: Table, n: NodeId, nd: Node, created: multiset<(Key, Artifact)>, tokens: multiset<Key>,
                  tokens': multiset<Key>, work: multiset<Request>, touches: multiset<NodeId>,
                    touches': multiset<NodeId>)
    requires Counted(t, created, tokens, work, touches) && Live(t, n) && nd.key == t.heap[n].key
    requires AgreeOff(tokens, tokens', nd.key) && tokens'[nd.key] == nd.working <= 1
    requires AgreeOff(touches, touches', n) && touches'[n] == nd.refcount
    requires nd.working == 0 ==> nd.completions >= 1
    requires nd.completions >= 1 ==> (nd.key, nd.val) in created
    ensures SameShape(t, Edit(t, n, nd))
    ensures Counted(Edit(t, n, nd), created, tokens', work, touches')
  {
    EditTokens(t, n, nd, tokens, tokens');
    EditTouches(t, n, nd, touches, touches');
    EditValues(t, n, nd, created);
    EditRequests(t, n, nd, work);
    EditShape(t, n, nd);
  }

  // ---- the clients ----

  lemma ClientsKeep(c: Cache, d: Cache, i: nat)
    requires ClientsOk(c) && i < |c.clients| == |d.clients| && d.clients == c.clients[i := d.clients[i]]
    requires SameShape(c.table, d.table) && |d.touches| == |c.touches| && c.created <= d.created && d.writer == c.writer
    requires Holding(c.clients[i]) == Holding(d.clients[i])
    requires Holding(c.clients[i]) ==> c.clients[i].q == d.clients[i].q
    requires ClientOk(d, i, d.clients[i])
    ensures ClientsOk(d)
  {
    ShapeKeeps(c.table, d.table);
    forall j | 0 <= j < |d.clients| ensures ClientOk(d, j, d.clients[j]) {
      assert ClientOk(c, j, c.clients[j]);
    }
  }

  lemma ClientsUntouched(c: Cache, d: Cache)
    requires ClientsOk(c) && d.clients == c.clients && d.writer == c.writer
    requires d.table.cfg == c.table.cfg && |d.touches| == |c.touches| && c.created <= d.created
    requires forall n | Live(c.table, n) && KeyStripe(c.table.cfg, c.table.heap[n].key) in c.writer ::
      Live(d.table, n) && d.table.heap[n].key == c.table.heap[n].key
    ensures ClientsOk(d)
  {
    forall j | 0 <= j < |d.clients| ensures ClientOk(d, j, d.clients[j]) {
      assert ClientOk(c, j, c.clients[j]);
    }
  }

  /** Client `i` takes or releases its stripe. */
  lemma ClientsRelock(c: Cache, d: Cache, i: nat, st: Stripe)
    requires ClientsOk(c) && i < |c.clients| == |d.clients| && d.clients == c.clients[i := d.clients[i]]
    requires d.table.cfg == c.table.cfg && |d.touches| == |c.touches| && c.created <= d.created
    requires Holding(c.clients[i]) != Holding(d.clients[i])
    requires if Holding(c.clients[i]) then c.writer.Keys == d.writer.Keys + {st} && st !in d.writer
             else d.writer.Keys == c.writer.Keys + {st} && st !in c.writer && d.writer[st] == i
    requires forall x | x in c.writer && x in d.writer :: c.writer[x] == d.writer[x]
    requires KeyStripe(c.table.cfg, (if Holding(c.clients[i]) then c.clients[i] else d.clients[i]).q.key) == st
    requires forall n | Live(c.table, n) :: Live(d.table, n) && d.table.heap[n].key == c.table.heap[n].key
    requires ClientOk(d, i, d.clients[i])
    ensures ClientsOk(d)
  {
    forall j | 0 <= j < |d.clients| ensures ClientOk(d, j, d.clients[j]) {
      assert ClientOk(c, j, c.clients[j]) && ClientOk(c, i, c.clients[i]);
    }
    forall x | x in d.writer
      ensures d.writer[x] < |d.clients| && Holding(d.clients[d.writer[x]])
      ensures KeyStripe(d.table.cfg, d.clients[d.writer[x]].q.key) == x
    {
      assert ClientOk(c, i, c.clients[i]);
    }
  }

  // ---- moving the counts ----

  lemma Regroup<T>(a: multiset<T>, x: multiset<T>, y: multiset<T>, b: multiset<T>, c: multiset<T>)
    requires x <= a
    ensures a - x + y + b + c == a + b + c - x + y
    ensures x <= a + b + c
  {
  }

  lemma ClientTokens(c: Cache, d: Cache, i: nat)
    requires i < |c.clients| == |d.clients|
    requires d.clients == c.clients[i := d.clients[i]] && Work(d) == Work(c) && d.dropped == c.dropped
    ensures ClaimOf(c.clients[i]) <= Tokens(c)
    ensures Tokens(d) == Tokens(c) - ClaimOf(c.clients[i]) + ClaimOf(d.clients[i])
  {
    ClaimsUpdate(c.clients, i, d.clients[i]);
    Regroup(Claims(c.clients), ClaimOf(c.clients[i]), ClaimOf(d.clients[i]), KeysOf(Work(c)), c.dropped);
  }

  lemma TouchPushed(ts: seq<seq<NodeId>>, a: nat, n: NodeId)
    requires a < |ts|
    ensures OpenTouches(ts[a := [n] + ts[a]]) == OpenTouches(ts) + multiset{n}
  {
    TouchesUpdate(ts, a, [n] + ts[a]);
  }

  // ---- Fast ----

  lemma FastTable(t: Table, q: Query, n: NodeId, created: multiset<(Key, Artifact)>, tokens: multiset<Key>,
                  work: multiset<Request>, touches: multiset<NodeId>)
    requires Counted(t, created, tokens, work, touches) && Lookup(t, q.key) == Some(n)
    ensures
      var nd := t.heap[n];
      && SameShape(t, Edit(t, n, FastNode(nd, q)))
      && Counted(Edit(t, n, FastNode(nd, q)), created, tokens + ClaimOf(FastClient(nd, q)), work,
                 touches + if FastGot(nd, q) then multiset{n} else multiset{})
  {
    var nd := t.heap[n];
    FoundIsLive(t, q.key);
    EditKeeps(t, n, FastNode(nd, q), created, tokens, tokens + ClaimOf(FastClient(nd, q)), work,
              touches, touches + if FastGot(nd, q) then multiset{n} else multiset{});
  }

  lemma FastMissClients(c: Cache, i: nat, q: Query)
    requires ClientsOk(c) && Enabled(c, Fast(i, q)) && Lookup(c.table, q.key).None?
    ensures ClientsOk(FastApply(c, i, q))
  {
    ClientsKeep(c, FastApply(c, i, q), i);
  }

  lemma FastHitClients(c: Cache, i: nat, q: Query, n: NodeId)
    requires ClientsOk(c) && ValuesOk(c.table, c.created) && Enabled(c, Fast(i, q)) && Lookup(c.table, q.key) == Some(n)
    requires SameShape(c.table, Edit(c.table, n, FastNode(c.table.heap[n], q)))
    ensures ClientsOk(FastApply(c, i, q))
  {
    FoundIsLive(c.table, q.key);
    ClientsKeep(c, FastApply(c, i, q), i);
  }

  lemma FastCounts(c: Cache, i: nat, q: Query)
    requires Enabled(c, Fast(i, q))
    ensures var d := FastApply(c, i, q);
      Tokens(d) == Tokens(c) + ClaimOf(d.clients[i]) && Work(d) == Work(c)
  {
    hide Lookup, FastClient, FastNode, FastGot, Edit, Tokens, KeysOf, Queued;
    ClientTokens(c, FastApply(c, i, q), i);
  }

  lemma FastTouches(c: Cache, i: nat, q: Query, n: NodeId)
    requires Enabled(c, Fast(i, q)) && Lookup(c.table, q.key) == Some(n)
    ensures OpenTouches(FastApply(c, i, q).touches) ==
      OpenTouches(c.touches) + if FastGot(c.table.heap[n], q) then multiset{n} else multiset{}
  {
    TouchPushed(c.touches, q.access, n);
  }

  lemma FastMissKeeps(c: Cache, i: nat, q: Query)
    requires Inv(c) && Enabled(c, Fast(i, q)) && Lookup(c.table, q.key).None?
    ensures Inv(FastApply(c, i, q))
  {
    FastMissClients(c, i, q);
    FastCounts(c, i, q);
  }

  lemma FastHitKeeps(c: Cache, i: nat, q: Query, n: NodeId)
    requires Inv(c) && Enabled(c, Fast(i, q)) && Lookup(c.table, q.key) == Some(n)
    ensures Inv(FastApply(c, i, q))
  {
    FastCounts(c, i, q);
    FastTouches(c, i, q, n);
    FastTable(c.table, q, n, c.created, Tokens(c), Work(c), OpenTouches(c.touches));
    FastHitClients(c, i, q, n);
  }

  // ---- Acquire ----

  /** A new node, recycled or fresh, joins its slot. */
  lemma AllocLive(t: Table, k: Key, id: NodeId)
    requires ListsOk(t) && FreeOk(t) && Lookup(t, k).None? && id !in t.heap
    ensures
      var u := Alloc(t, k, id);
      var n := AllocId(t, KeyStripe(t.cfg, k), id);
      && Live(u, n) && u.heap[n] == NewNode(k) && !Live(t, n)
      && (forall m | Live(t, m) :: m != n && Live(u, m) && u.heap[m] == t.heap[m] && u.heap[m].key != k)
      && (forall m | Live(u, m) :: m == n || Live(t, m))
      && (forall s :: List(u, s) == if s == SlotOf(t.cfg, k) then List(t, s) + [n] else List(t, s))
  {
    var u := Alloc(t, k, id);
    var s := SlotOf(t.cfg, k);
    var n := AllocId(t, StripeOf(t.cfg, s), id);
    if ListAt(t.free, StripeOf(t.cfg, s)) != [] {
      assert n in ListAt(t.free, StripeOf(t.cfg, s));
    }
    assert List(u, s)[|List(t, s)|] == n;
    forall m | Live(t, m) ensures m != n && Live(u, m) && u.heap[m] == t.heap[m] && u.heap[m].key != k {
      LiveIsFound(t, m);
    }
  }

  lemma AllocShape(t: Table, k: Key, id: NodeId)
    requires ListsOk(t) && FreeOk(t) && Lookup(t, k).None? && id !in t.heap
    ensures ListsOk(Alloc(t, k, id))
  {
    var u := Alloc(t, k, id);
    var n := AllocId(t, KeyStripe(t.cfg, k), id);
    AllocLive(t, k, id);
    assert u.cfg == t.cfg;
    hide Alloc, FreeOk, AllocId;
    forall s, m | m in List(u, s) ensures m in u.heap && SlotOf(u.cfg, u.heap[m].key) == s {
      if m in List(t, s) {
        assert Live(t, m);
      }
    }
    forall s ensures Distinct(List(u, s)) {
      assert Distinct(List(t, s));
      assert n in List(t, s) ==> Live(t, n);
    }
  }

  lemma AllocFree(t: Table, k: Key, id: NodeId)
    requires ListsOk(t) && FreeOk(t) && Lookup(t, k).None? && id !in t.heap
    ensures FreeOk(Alloc(t, k, id))
  {
    AllocLive(t, k, id);
    var u := Alloc(t, k, id);
    var st := KeyStripe(t.cfg, k);
    var n := AllocId(t, st, id);
    forall x ensures Distinct(ListAt(u.free, x)) {
      assert Distinct(ListAt(t.free, x));
    }
    forall x, m | m in ListAt(u.free, x)
      ensures m in u.heap && !Live(u, m) && KeyStripe(u.cfg, u.heap[m].key) == x
    {
      assert m in ListAt(t.free, x);
      assert Distinct(ListAt(t.free, x));
    }
  }

  /** One new linked node, claimed once, and all others as they were. */
  ghost predicate Grows(t: Table, u: Table, n: NodeId, k: Key) {
    && Live(u, n) && u.heap[n] == NewNode(k) && !Live(t, n)
    && (forall m | Live(t, m) :: m != n && Live(u, m) && u.heap[m] == t.heap[m])
    && (forall m | Live(u, m) :: m == n || Live(t, m))
  }

  lemma GrowsValues(t: Table, u: Table, n: NodeId, k: Key, work: multiset<Request>,
                    created: multiset<(Key, Artifact)>)
    requires Grows(t, u, n, k) && RequestsAre(t, work) && ValuesOk(t, created)
    ensures RequestsAre(u, work) && ValuesOk(u, created)
  {
    hide Live;
  }

  lemma AllocGrows(t: Table, k: Key, id: NodeId)
    requires ListsOk(t) && FreeOk(t) && Lookup(t, k).None? && id !in t.heap
    ensures Grows(t, Alloc(t, k, id), AllocId(t, KeyStripe(t.cfg, k), id), k)
  {
    hide *;
    AllocLive(t, k, id);
    GrowsFrom(t, Alloc(t, k, id), AllocId(t, KeyStripe(t.cfg, k), id), k);
  }

  lemma GrowsFrom(t: Table, u: Table, n: NodeId, k: Key)
    requires Live(u, n) && u.heap[n] == NewNode(k) && !Live(t, n)
    requires forall m | Live(t, m) :: m != n && Live(u, m) && u.heap[m] == t.heap[m]
    requires forall m | Live(u, m) :: m == n || Live(t, m)
    ensures Grows(t, u, n, k)
  {
    hide Live;
  }

  /** The new node is counted as touched by nobody. */
  lemma GrowsTouches(t: Table, u: Table, n: NodeId, k: Key, touches: multiset<NodeId>)
    requires Grows(t, u, n, k) && TouchesAre(t, touches) && u.heap == t.heap[n := NewNode(k)]
    ensures TouchesAre(u, touches)
  {
    hide Live;
  }

  lemma AllocHeap(t: Table, k: Key, id: NodeId)
    ensures Alloc(t, k, id).heap == t.heap[AllocId(t, KeyStripe(t.cfg, k), id) := NewNode(k)]
  {
  }

  lemma AllocCounted(t: Table, k: Key, id: NodeId, created: multiset<(Key, Artifact)>, tokens: multiset<Key>,
                     work: multiset<Request>, touches: multiset<NodeId>)
    requires TokensAre(t, tokens) && RequestsAre(t, work) && TouchesAre(t, touches) && ValuesOk(t, created)
    requires ListsOk(t) && FreeOk(t) && Lookup(t, k).None? && id !in t.heap
    ensures var u := Alloc(t, k, id); RequestsAre(u, work) && TouchesAre(u, touches) && ValuesOk(u, created)
  {
    hide *;
    var u, n := Alloc(t, k, id), AllocId(t, KeyStripe(t.cfg, k), id);
    AllocGrows(t, k, id);
    AllocHeap(t, k, id);
    GrowsValues(t, u, n, k, work, created);
    GrowsTouches(t, u, n, k, touches);
  }

  lemma AllocTokens(t: Table, k: Key, id: NodeId, tokens: multiset<Key>)
    requires TokensAre(t, tokens) && ListsOk(t) && FreeOk(t) && Lookup(t, k).None? && id !in t.heap
    ensures TokensAre(Alloc(t, k, id), tokens + multiset{k})
  {
    var u := Alloc(t, k, id);
    AllocLive(t, k, id);
    AllocShape(t, k, id);
    assert k !in tokens;
    forall x | x in tokens + multiset{k} ensures Lookup(u, x).Some? {
      if x == k {
        LiveIsFound(u, AllocId(t, KeyStripe(t.cfg, k), id));
      } else {
        FoundIsLive(t, x);
        LiveIsFound(u, Lookup(t, x).value);
      }
    }
  }

  lemma AllocKeeps(t: Table, k: Key, id: NodeId, created: multiset<(Key, Artifact)>, tokens: multiset<Key>,
                   work: multiset<Request>, touches: multiset<NodeId>)
    requires Counted(t, created, tokens, work, touches) && Lookup(t, k).None? && id !in t.heap
    ensures Counted(Alloc(t, k, id), created, tokens + multiset{k}, work, touches)
  {
    AllocCounted(t, k, id, created, tokens, work, touches);
    AllocTokens(t, k, id, tokens);
    AllocShape(t, k, id);
    AllocFree(t, k, id);
  }

  /** The request a slow path submits, if it submits one. */
  ghost function Submitted(c: Cache, i: nat, id: NodeId): multiset<Request>
    requires Enabled(c, Acquire(i, id))
  {
    var d := AcquireApply(c, i, id);
    if d.clients[i].Pushed?
    then multiset{Request(c.clients[i].q.key, c.clients[i].q.gen, d.clients[i].node)} else multiset{}
  }

  lemma AcquireWork(c: Cache, i: nat, id: NodeId)
    requires Enabled(c, Acquire(i, id))
    ensures Work(AcquireApply(c, i, id)) == Work(c) + Submitted(c, i, id)
  {
  }

  lemma RegroupBoth<T>(a: multiset<T>, x: multiset<T>, b: multiset<T>, y: multiset<T>, c: multiset<T>)
    requires x <= a
    ensures (a - x) + (b + y) + c == a + b + c - x + y
    ensures x <= a + b + c
  {
  }

  lemma AcquireClaims(c: Cache, i: nat, id: NodeId)
    requires Enabled(c, Acquire(i, id))
    ensures ClaimOf(c.clients[i]) <= Claims(c.clients)
    ensures Claims(AcquireApply(c, i, id).clients) == Claims(c.clients) - ClaimOf(c.clients[i])
  {
    ClaimsUpdate(c.clients, i, AcquireApply(c, i, id).clients[i]);
  }

  ghost function SubmittedKey(c: Cache, i: nat, id: NodeId): multiset<Key>
    requires Enabled(c, Acquire(i, id))
  {
    if AcquireApply(c, i, id).clients[i].Pushed? then multiset{c.clients[i].q.key} else multiset{}
  }

  lemma AcquireKeys(c: Cache, i: nat, id: NodeId)
    requires Enabled(c, Acquire(i, id))
    ensures KeysOf(Work(AcquireApply(c, i, id))) == KeysOf(Work(c)) + SubmittedKey(c, i, id)
  {
    AcquireWork(c, i, id);
    var d := AcquireApply(c, i, id);
    if d.clients[i].Pushed? {
      KeysOfAdd(Work(c), Request(c.clients[i].q.key, c.clients[i].q.gen, d.clients[i].node));
    }
  }

  lemma AcquireTokens(c: Cache, i: nat, id: NodeId)
    requires Enabled(c, Acquire(i, id))
    ensures ClaimOf(c.clients[i]) <= Tokens(c)
    ensures Tokens(AcquireApply(c, i, id)) == Tokens(c) - ClaimOf(c.clients[i]) + SubmittedKey(c, i, id)
  {
    AcquireClaims(c, i, id);
    AcquireKeys(c, i, id);
    RegroupBoth(Claims(c.clients), ClaimOf(c.clients[i]), KeysOf(Work(c)), SubmittedKey(c, i, id), c.dropped);
  }

  lemma CancelOut<T>(a: multiset<T>, x: multiset<T>)
    requires x <= a
    ensures a - x + x == a
  {
  }

  lemma AcquireHitTokens(c: Cache, i: nat, id: NodeId)
    requires Enabled(c, Acquire(i, id)) && Lookup(c.table, c.clients[i].q.key).Some?
    ensures Tokens(AcquireApply(c, i, id)) == Tokens(c)
  {
    AcquireTokens(c, i, id);
    CancelOut(Tokens(c), ClaimOf(c.clients[i]));
  }

  lemma AcquireMissTokens(c: Cache, i: nat, id: NodeId)
    requires Enabled(c, Acquire(i, id)) && Lookup(c.table, c.clients[i].q.key).None? && TokensAre(c.table, Tokens(c))
    ensures Tokens(AcquireApply(c, i, id)) == Tokens(c) + multiset{c.clients[i].q.key}
  {
    AcquireTokens(c, i, id);
    NoClaim(c.table, Tokens(c), c.clients[i]);
    var none: multiset<Key> := multiset{};
    assert Tokens(c) - none == Tokens(c);
  }

  /** Only a key that has a node can be claimed. */
  lemma NoClaim(t: Table, tokens: multiset<Key>, cl: Client)
    requires TokensAre(t, tokens) && ClaimOf(cl) <= tokens && cl.Slow? && Lookup(t, cl.q.key).None?
    ensures !cl.need
  {
    var k := cl.q.key;
    assert k !in tokens;
    assert ClaimOf(cl)[k] <= tokens[k];
  }

  lemma AcquireClients(c: Cache, i: nat, id: NodeId)
    requires ClientsOk(c) && ListsOk(c.table) && FreeOk(c.table) && Enabled(c, Acquire(i, id))
    ensures ClientsOk(AcquireApply(c, i, id))
  {
    var d := AcquireApply(c, i, id);
    var q := c.clients[i].q;
    assert ClientOk(c, i, c.clients[i]);
    if Lookup(c.table, q.key).None? {
      AllocLive(c.table, q.key, id);
    } else {
      FoundIsLive(c.table, q.key);
    }
    hide ListsOk, FreeOk, Lookup, AllocId, Find;
    ClientsRelock(c, d, i, KeyStripe(c.table.cfg, q.key));
  }

  lemma NewRequest(t: Table, k: Key, gen: int, n: NodeId, work: multiset<Request>)
    requires RequestsAre(t, work) && Live(t, n) && t.heap[n].key == k
    ensures RequestsAre(t, work + multiset{Request(k, gen, n)})
  {
  }

  lemma AcquireMissTable(t: Table, k: Key, gen: int, id: NodeId, created: multiset<(Key, Artifact)>,
                         tokens: multiset<Key>,
                         work: multiset<Request>, touches: multiset<NodeId>)
    requires Counted(t, created, tokens, work, touches) && Lookup(t, k).None? && id !in t.heap
    ensures Counted(Alloc(t, k, id), created, tokens + multiset{k},
                    work + multiset{Request(k, gen, AllocId(t, KeyStripe(t.cfg, k), id))}, touches)
  {
    AllocKeeps(t, k, id, created, tokens, work, touches);
    NewRequest(Alloc(t, k, id), k, gen, AllocId(t, KeyStripe(t.cfg, k), id), work) by { AllocLive(t, k, id); }
  }

  lemma AcquireMissKeeps(c: Cache, i: nat, id: NodeId)
    requires Inv(c) && Enabled(c, Acquire(i, id)) && Lookup(c.table, c.clients[i].q.key).None?
    ensures Inv(AcquireApply(c, i, id))
  {
    var q := c.clients[i].q;
    AcquireClients(c, i, id);
    AcquireWork(c, i, id);
    AcquireMissTokens(c, i, id);
    AcquireMissTable(c.table, q.key, q.gen, id, c.created, Tokens(c), Work(c), OpenTouches(c.touches));
  }

  lemma AcquireHitRequests(c: Cache, i: nat, id: NodeId)
    requires Enabled(c, Acquire(i, id)) && Lookup(c.table, c.clients[i].q.key).Some? && RequestsAre(c.table, Work(c))
    ensures RequestsAre(c.table, Work(AcquireApply(c, i, id)))
  {
    var q := c.clients[i].q;
    AcquireWork(c, i, id);
    FoundIsLive(c.table, q.key);
    NewRequest(c.table, q.key, q.gen, Lookup(c.table, q.key).value, Work(c));
  }

  lemma AcquireHitKeeps(c: Cache, i: nat, id: NodeId)
    requires Inv(c) && Enabled(c, Acquire(i, id)) && Lookup(c.table, c.clients[i].q.key).Some?
    ensures Inv(AcquireApply(c, i, id))
  {
    AcquireClients(c, i, id);
    AcquireHitTokens(c, i, id);
    AcquireHitRequests(c, i, id);
  }

  // ---- SetAgain, SetHigh ----

  lemma FlagKeeps(c: Cache, i: nat, step: Step)
    requires Inv(c) && Enabled(c, step) && (step == SetAgain(i) || step == SetHigh(i))
    ensures Inv(Apply(c, step))
  {
    var d := Apply(c, step);
    FlagClients(c, i, step);
    FlagTokens(c, i, step);
    assert Work(d) == Work(c);
  }

  lemma FlagClients(c: Cache, i: nat, step: Step)
    requires ClientsOk(c) && Enabled(c, step) && (step == SetAgain(i) || step == SetHigh(i))
    ensures ClientsOk(Apply(c, step))
  {
    assert ClientOk(c, i, c.clients[i]);
    ClientsKeep(c, Apply(c, step), i);
  }

  lemma FlagTokens(c: Cache, i: nat, step: Step)
    requires Enabled(c, step) && (step == SetAgain(i) || step == SetHigh(i))
    ensures Tokens(Apply(c, step)) == Tokens(c)
  {
    var d := Apply(c, step);
    assert ClaimList(d.clients) == ClaimList(c.clients);
    assert Work(d) == Work(c);
  }

  // ---- Check ----

  lemma CheckTokens(c: Cache, i: nat, outOfTime: bool, isAsync: bool)
    requires CanCheck(c, i)
    ensures var d := CheckApply(c, i, outOfTime, isAsync); Tokens(d) == Tokens(c) && Work(d) == Work(c)
  {
    ClientTokens(c, CheckApply(c, i, outOfTime, isAsync), i);
  }

  lemma TouchTable(t: Table, n: NodeId, created: multiset<(Key, Artifact)>, tokens: multiset<Key>,
                   work: multiset<Request>, touches: multiset<NodeId>)
    requires Counted(t, created, tokens, work, touches) && Live(t, n)
    ensures SameShape(t, Edit(t, n, Touch(t.heap[n])))
    ensures Counted(Edit(t, n, Touch(t.heap[n])), created, tokens, work, touches + multiset{n})
  {
    EditKeeps(t, n, Touch(t.heap[n]), created, tokens, tokens, work, touches, touches + multiset{n});
  }

  lemma CheckClients(c: Cache, i: nat, outOfTime: bool, isAsync: bool)
    requires ClientsOk(c) && ValuesOk(c.table, c.created) && CanCheck(c, i)
    ensures ClientsOk(CheckApply(c, i, outOfTime, isAsync))
  {
    var d := CheckApply(c, i, outOfTime, isAsync);
    assert ClientOk(c, i, c.clients[i]);
    assert SameShape(c.table, d.table);
    ShapeKeeps(c.table, d.table);
    ClientsRelock(c, d, i, KeyStripe(c.table.cfg, c.clients[i].q.key));
  }

  lemma CheckKeeps(c: Cache, i: nat, outOfTime: bool, isAsync: bool)
    requires Inv(c) && CanCheck(c, i)
    ensures Inv(CheckApply(c, i, outOfTime, isAsync))
  {
    var cl := c.clients[i];
    assert ClientOk(c, i, cl);
    CheckTokens(c, i, outOfTime, isAsync);
    CheckClients(c, i, outOfTime, isAsync);
    if CheckTakes(c.table.heap[cl.node], cl.q, cl.outcome, outOfTime) {
      TouchPushed(c.touches, cl.q.access, cl.node);
      TouchTable(c.table, cl.node, c.created, Tokens(c), Work(c), OpenTouches(c.touches));
    }
  }

  // ---- CloseTouch, Cancel ----

  lemma CloseTable(t: Table, n: NodeId, created: multiset<(Key, Artifact)>, tokens: multiset<Key>,
                   work: multiset<Request>, touches: multiset<NodeId>)
    requires Counted(t, created, tokens, work, touches) && n in touches
    ensures
      var u := Edit(t, n, t.heap[n].(refcount := Dec(t.heap[n].refcount)));
      SameShape(t, u) && Counted(u, created, tokens, work, touches - multiset{n})
  {
    EditKeeps(t, n, t.heap[n].(refcount := Dec(t.heap[n].refcount)), created, tokens, tokens, work,
              touches, touches - multiset{n});
  }

  lemma TouchPopped(ts: seq<seq<NodeId>>, a: nat)
    requires a < |ts| && ts[a] != []
    ensures ts[a][0] in OpenTouches(ts)
    ensures OpenTouches(ts[a := ts[a][1..]]) == OpenTouches(ts) - multiset{ts[a][0]}
  {
    assert ts[a] == [ts[a][0]] + ts[a][1..];
    TouchesUpdate(ts, a, ts[a][1..]);
    assert ts[a][0] in multiset(ts[a]);
  }

  lemma CloseKeeps(c: Cache, a: nat)
    requires Inv(c) && Enabled(c, CloseTouch(a))
    ensures Inv(Apply(c, CloseTouch(a)))
  {
    var n := c.touches[a][0];
    TouchPopped(c.touches, a);
    CloseTable(c.table, n, c.created, Tokens(c), Work(c), OpenTouches(c.touches));
    TableOnly(c, CloseApply(c, a));
  }

  /** Nothing but nodes edited in place: clients, tokens and work are as before. */
  lemma TableOnly(c: Cache, d: Cache)
    requires ClientsOk(c) && SameShape(c.table, d.table)
    requires d.clients == c.clients && d.writer == c.writer && |d.touches| == |c.touches| && c.created <= d.created
    requires d.batches == c.batches && d.pool == c.pool && d.dropped == c.dropped
    ensures ClientsOk(d) && Tokens(d) == Tokens(c) && Work(d) == Work(c)
  {
    ShapeKeeps(c.table, d.table);
    ClientsUntouched(c, d);
  }

  lemma CancelTable(t: Table, n: NodeId, created: multiset<(Key, Artifact)>, tokens: multiset<Key>,
                    work: multiset<Request>, touches: multiset<NodeId>)
    requires Counted(t, created, tokens, work, touches) && Live(t, n)
    ensures
      var u := Edit(t, n, t.heap[n].(cancelled := true));
      SameShape(t, u) && Counted(u, created, tokens, work, touches)
  {
    EditKeeps(t, n, t.heap[n].(cancelled := true), created, tokens, tokens, work, touches, touches);
  }

  lemma CancelKeeps(c: Cache, s: Slot, j: nat)
    requires Inv(c) && Enabled(c, Cancel(s, j))
    ensures Inv(Apply(c, Cancel(s, j)))
  {
    var n := List(c.table, s)[j];
    assert n in List(c.table, s);
    CancelTable(c.table, n, c.created, Tokens(c), Work(c), OpenTouches(c.touches));
    TableOnly(c, Apply(c, Cancel(s, j)));
  }

  // ---- Evict ----

  lemma UnlinkLive(t: Table, s: Slot, j: nat)
    requires ListsOk(t) && j < |List(t, s)|
    ensures
      var u := Unlink(t, s, j);
      var n := List(t, s)[j];
      && Live(t, n)
      && (forall m :: Live(u, m) <==> Live(t, m) && m != n)
      && (forall x, m :: m in List(u, x) <==> m in List(t, x) && m != n)
      && (forall x :: Distinct(List(u, x)))
  {
    var u := Unlink(t, s, j);
    var l := List(t, s);
    var n := l[j];
    assert n in l && Distinct(l);
    forall x, m ensures m in List(u, x) <==> m in List(t, x) && m != n {
      if n in List(t, x) {
        ListHome(t, x, n);
        ListHome(t, s, n);
      }
      if x == s {
        RemoveAt(l, j, m);
      }
    }
    forall x ensures Distinct(List(u, x)) {
      assert Distinct(List(t, x));
    }
  }

  lemma ListHome(t: Table, x: Slot, m: NodeId)
    requires ListsOk(t) && m in List(t, x)
    ensures m in t.heap && SlotOf(t.cfg, t.heap[m].key) == x
  {
  }

  lemma RemoveAt<T>(l: seq<T>, j: nat, m: T)
    requires j < |l| && Distinct(l)
    ensures m in l[..j] + l[j + 1..] <==> m in l && m != l[j]
  {
    assert l == l[..j] + [l[j]] + l[j + 1..];
  }

  lemma UnlinkLists(t: Table, s: Slot, j: nat)
    requires ListsOk(t) && j < |List(t, s)|
    ensures ListsOk(Unlink(t, s, j))
  {
    UnlinkLive(t, s, j);
    var u := Unlink(t, s, j);
    assert u.heap == t.heap && u.cfg == t.cfg;
    hide Unlink, Live, List;
  }

  /** The node heads its stripe's free list. */
  lemma UnlinkFreed(t: Table, s: Slot, j: nat, x: Stripe)
    requires j < |List(t, s)|
    ensures
      var old', new' := ListAt(t.free, x), ListAt(Unlink(t, s, j).free, x);
      new' == if x == StripeOf(t.cfg, s) then [List(t, s)[j]] + old' else old'
  {
  }

  lemma OneMore<T>(l: seq<T>, n: T)
    requires Distinct(l) && n !in l
    ensures Distinct([n] + l)
  {
  }

  lemma NotFree(t: Table, n: NodeId, x: Stripe)
    requires FreeOk(t) && Live(t, n)
    ensures n !in ListAt(t.free, x) && Distinct(ListAt(t.free, x))
  {
  }

  lemma FreeAt(t: Table, m: NodeId, x: Stripe)
    requires FreeOk(t) && m in ListAt(t.free, x)
    ensures m in t.heap && !Live(t, m) && KeyStripe(t.cfg, t.heap[m].key) == x
  {
  }

  lemma UnlinkDistinct(t: Table, s: Slot, j: nat, x: Stripe)
    requires FreeOk(t) && j < |List(t, s)| && Live(t, List(t, s)[j])
    ensures Distinct(ListAt(Unlink(t, s, j).free, x))
  {
    hide *;
    UnlinkFreed(t, s, j, x);
    NotFree(t, List(t, s)[j], x);
    OneMore(ListAt(t.free, x), List(t, s)[j]);
  }

  /** Whose stripe a freed node is of. */
  lemma UnlinkFreeAt(t: Table, s: Slot, j: nat, x: Stripe, m: NodeId)
    requires FreeOk(t) && j < |List(t, s)| && Live(t, List(t, s)[j]) && m in ListAt(Unlink(t, s, j).free, x)
    requires SlotOf(t.cfg, t.heap[List(t, s)[j]].key) == s
    ensures m in t.heap && (m == List(t, s)[j] || !Live(t, m)) && KeyStripe(t.cfg, t.heap[m].key) == x
  {
    UnlinkFreed(t, s, j, x);
    hide Unlink, Live, List, ListAt, FreeOk;
    var n := List(t, s)[j];
    if m in ListAt(t.free, x) {
      FreeAt(t, m, x);
    } else {
      LiveIsThere(t, n);
    }
  }

  lemma LiveIsThere(t: Table, n: NodeId)
    requires Live(t, n)
    ensures n in t.heap
  {
  }

  lemma UnlinkFree(t: Table, s: Slot, j: nat)
    requires ListsOk(t) && FreeOk(t) && j < |List(t, s)|
    ensures FreeOk(Unlink(t, s, j))
  {
    UnlinkLive(t, s, j);
    var u, n := Unlink(t, s, j), List(t, s)[j];
    ListHome(t, s, n);
    assert u.heap == t.heap && u.cfg == t.cfg;
    hide Unlink, Live, List, ListAt, ListsOk, Distinct, KeyStripe, SlotOf;
    forall x ensures Distinct(ListAt(u.free, x)) {
      UnlinkDistinct(t, s, j, x);
    }
    forall x, m | m in ListAt(u.free, x)
      ensures m in u.heap && !Live(u, m) && KeyStripe(u.cfg, u.heap[m].key) == x
    {
      UnlinkFreeAt(t, s, j, x, m);
    }
  }

  lemma UnlinkShape(t: Table, s: Slot, j: nat)
    requires ListsOk(t) && FreeOk(t) && j < |List(t, s)|
    ensures ListsOk(Unlink(t, s, j)) && FreeOk(Unlink(t, s, j))
  {
    hide *;
    UnlinkLists(t, s, j);
    UnlinkFree(t, s, j);
  }

  lemma UnlinkCounted(t: Table, s: Slot, j: nat, created: multiset<(Key, Artifact)>, tokens: multiset<Key>,
                      work: multiset<Request>, touches: multiset<NodeId>)
    requires ListsOk(t) && TokensAre(t, tokens) && RequestsAre(t, work) && TouchesAre(t, touches)
             && ValuesOk(t, created)
    requires j < |List(t, s)| && t.heap[List(t, s)[j]].refcount == 0 && t.heap[List(t, s)[j]].key !in tokens
    requires forall r | r in work :: r.key in tokens
    ensures var u := Unlink(t, s, j); RequestsAre(u, work) && TouchesAre(u, touches) && ValuesOk(u, created)
  {
    UnlinkLive(t, s, j);
  }

  lemma UnlinkTokens(t: Table, s: Slot, j: nat, tokens: multiset<Key>)
    requires ListsOk(t) && FreeOk(t) && TokensAre(t, tokens)
    requires j < |List(t, s)| && t.heap[List(t, s)[j]].key !in tokens
    ensures TokensAre(Unlink(t, s, j), tokens)
  {
    var u := Unlink(t, s, j);
    UnlinkLive(t, s, j);
    UnlinkShape(t, s, j);
    forall k | k in tokens ensures Lookup(u, k).Some? {
      FoundIsLive(t, k);
      LiveIsFound(u, Lookup(t, k).value);
    }
  }

  lemma {:induction false} WorkHasTokens(work: multiset<Request>, r: Request)
    requires r in work
    ensures r.key in KeysOf(work)
  {
    KeysOfHas(work, r);
  }

  predicate WorklessAt(t: Table, s: Slot, j: nat) {
    j < |List(t, s)| && List(t, s)[j] in t.heap && t.heap[List(t, s)[j]].working == 0
  }

  predicate IdleAt(t: Table, s: Slot, j: nat) { WorklessAt(t, s, j) && t.heap[List(t, s)[j]].refcount == 0 }

  lemma EvictIdle(t: Table, s: Slot, j: nat, created: multiset<(Key, Artifact)>, tokens: multiset<Key>)
    requires ListsOk(t) && TokensAre(t, tokens) && ValuesOk(t, created) && WorklessAt(t, s, j)
    ensures
      var nd := t.heap[List(t, s)[j]];
      Live(t, List(t, s)[j]) && nd.key !in tokens && nd.completions >= 1 && (nd.key, nd.val) in created
  {
    var n := List(t, s)[j];
    assert n in List(t, s);
  }

  lemma EvictTable(t: Table, s: Slot, j: nat, created: multiset<(Key, Artifact)>, tokens: multiset<Key>,
                   work: multiset<Request>, touches: multiset<NodeId>)
    requires Counted(t, created, tokens, work, touches) && KeysOf(work) <= tokens
    requires IdleAt(t, s, j)
    ensures Counted(Unlink(t, s, j), created, tokens, work, touches)
  {
    EvictIdle(t, s, j, created, tokens);
    forall r | r in work ensures r.key in tokens {
      WorkHasTokens(work, r);
      assert KeysOf(work)[r.key] <= tokens[r.key];
    }
    UnlinkCounted(t, s, j, created, tokens, work, touches);
    UnlinkTokens(t, s, j, tokens);
    UnlinkShape(t, s, j);
  }

  lemma SameWork(c: Cache, d: Cache)
    requires d.clients == c.clients && d.batches == c.batches && d.pool == c.pool && d.dropped == c.dropped
    ensures Tokens(d) == Tokens(c) && Work(d) == Work(c)
  {
  }

  lemma WorkIsTokens(c: Cache)
    ensures KeysOf(Work(c)) <= Tokens(c)
  {
  }

  lemma EvictClients(c: Cache, s: Slot, j: nat)
    requires ClientsOk(c) && ListsOk(c.table) && Enabled(c, Evict(s, j))
    ensures ClientsOk(Apply(c, Evict(s, j)))
  {
    UnlinkLive(c.table, s, j);
    assert List(c.table, s)[j] in List(c.table, s);
    ClientsUntouched(c, Apply(c, Evict(s, j)));
  }

  lemma EvictCounted(c: Cache, s: Slot, j: nat)
    requires Enabled(c, Evict(s, j)) && Counted(c.table, c.created, Tokens(c), Work(c), OpenTouches(c.touches))
    ensures
      var nd := c.table.heap[List(c.table, s)[j]];
      && Counted(Unlink(c.table, s, j), c.created, Tokens(c), Work(c), OpenTouches(c.touches))
      && (nd.key, nd.val) in c.created
  {
    WorkIsTokens(c);
    EvictTable(c.table, s, j, c.created, Tokens(c), Work(c), OpenTouches(c.touches));
    EvictIdle(c.table, s, j, c.created, Tokens(c));
  }

  lemma EvictAssembles(c: Cache, d: Cache, s: Slot, j: nat)
    requires Enabled(c, Evict(s, j)) && d == Apply(c, Evict(s, j))
    requires Counted(c.table, c.created, Tokens(c), Work(c), OpenTouches(c.touches))
    ensures Counted(d.table, d.created, Tokens(c), Work(c), OpenTouches(c.touches))
  {
    EvictCounted(c, s, j);
  }

  lemma EvictKeeps(c: Cache, s: Slot, j: nat)
    requires Inv(c) && Enabled(c, Evict(s, j))
    ensures Inv(Apply(c, Evict(s, j)))
  {
    var d := Apply(c, Evict(s, j));
    EvictClients(c, s, j);
    EvictAssembles(c, d, s, j);
    SameWork(c, d);
  }

  // ---- Gather, Resubmit, Defer: work changes place ----

  lemma MovedKeeps(c: Cache, d: Cache)
    requires Inv(c) && Work(d) == Work(c)
    requires d.table == c.table && d.writer == c.writer && d.clients == c.clients && d.touches == c.touches
    requires d.dropped == c.dropped && d.created == c.created
    ensures Inv(d)
  {
    MovedClients(c, d);
    MovedTokens(c, d);
  }

  lemma MovedClients(c: Cache, d: Cache)
    requires ClientsOk(c) && d.table == c.table && d.writer == c.writer && d.clients == c.clients
    requires d.touches == c.touches && d.created == c.created
    ensures ClientsOk(d)
  {
    ClientsUntouched(c, d);
  }

  lemma MovedTokens(c: Cache, d: Cache)
    requires Work(d) == Work(c) && d.clients == c.clients && d.dropped == c.dropped
    ensures Tokens(d) == Tokens(c)
  {
  }

  lemma QueuedPush(b: Batch, r: Request, wide: bool)
    ensures Queued(PushRequest(b, r, wide)) == Queued(b) + multiset{r}
  {
  }

  lemma QueuedAppend(b: Batch, w: seq<Request>, t: seq<Request>)
    ensures Queued(Batch(b.wide + w, b.thin + t)) == Queued(b) + multiset(w) + multiset(t)
  {
    assert multiset(b.wide + w) == multiset(b.wide) + multiset(w);
    assert multiset(b.thin + t) == multiset(b.thin) + multiset(t);
  }

  /** Moving `x` between the pool and a batch leaves the sum alone. */
  lemma MoveSum<T>(b0: multiset<T>, b1: multiset<T>, pool: multiset<T>, x: multiset<T>)
    requires x <= pool
    ensures (b0 + x) + b1 + (pool - x) == b0 + b1 + pool
    ensures b0 + (b1 + x) + (pool - x) == b0 + b1 + pool
  {
  }

  lemma ToBatch(c: Cache, b: nat, batch: Batch, x: multiset<Request>)
    requires b < 2 && x <= c.pool && Queued(batch) == Queued(c.batches[b]) + x
    ensures Work(c.(pool := c.pool - x, batches := c.batches[b := batch])) == Work(c)
  {
    MoveSum(Queued(c.batches[0]), Queued(c.batches[1]), c.pool, x);
  }

  lemma ResubmitWork(c: Cache, r: Request, b: nat, wide: bool)
    requires Enabled(c, Resubmit(r, b, wide))
    ensures Work(Apply(c, Resubmit(r, b, wide))) == Work(c)
  {
    QueuedPush(c.batches[b], r, wide);
    ToBatch(c, b, PushRequest(c.batches[b], r, wide), multiset{r});
  }

  lemma DeferWork(c: Cache, b: nat, w: seq<Request>, t: seq<Request>)
    requires Enabled(c, Defer(b, w, t))
    ensures Work(Apply(c, Defer(b, w, t))) == Work(c)
  {
    QueuedAppend(c.batches[b], w, t);
    ToBatch(c, b, Batch(c.batches[b].wide + w, c.batches[b].thin + t), multiset(w) + multiset(t));
  }

  lemma GatherWork(c: Cache, b: nat)
    requires Enabled(c, Gather(b))
    ensures Work(Apply(c, Gather(b))) == Work(c)
  {
  }

  lemma GatherKeeps(c: Cache, b: nat)
    requires Inv(c) && Enabled(c, Gather(b))
    ensures Inv(Apply(c, Gather(b)))
  {
    GatherWork(c, b);
    MovedKeeps(c, Apply(c, Gather(b)));
  }

  lemma ResubmitKeeps(c: Cache, r: Request, b: nat, wide: bool)
    requires Inv(c) && Enabled(c, Resubmit(r, b, wide))
    ensures Inv(Apply(c, Resubmit(r, b, wide)))
  {
    ResubmitWork(c, r, b, wide);
    MovedKeeps(c, Apply(c, Resubmit(r, b, wide)));
  }

  lemma DeferKeeps(c: Cache, b: nat, w: seq<Request>, t: seq<Request>)
    requires Inv(c) && Enabled(c, Defer(b, w, t))
    ensures Inv(Apply(c, Defer(b, w, t)))
  {
    DeferWork(c, b, w, t);
    MovedKeeps(c, Apply(c, Defer(b, w, t)));
  }

  // ---- DropRetry ----

  lemma TakeWork(c: Cache, d: Cache, r: Request)
    requires r in c.pool
    requires d.pool == c.pool - multiset{r} && d.batches == c.batches
    ensures r in Work(c) && Work(d) == Work(c) - multiset{r}
    ensures KeysOf(Work(c)) == KeysOf(Work(d)) + multiset{r.key}
  {
    KeysOfHas(Work(c), r);
  }

  lemma DropTokens(c: Cache, r: Request)
    requires Enabled(c, DropRetry(r))
    ensures var d := Apply(c, DropRetry(r)); Tokens(d) == Tokens(c) && Work(d) == Work(c) - multiset{r}
  {
    var d := Apply(c, DropRetry(r));
    TakeWork(c, d, r);
    HandOver(Claims(c.clients), KeysOf(Work(d)), r.key, c.dropped);
  }

  lemma HandOver<T>(a: multiset<T>, b: multiset<T>, x: T, c: multiset<T>)
    ensures a + b + (c + multiset{x}) == a + (b + multiset{x}) + c
  {
  }

  lemma DropKeeps(c: Cache, r: Request)
    requires Inv(c) && Enabled(c, DropRetry(r))
    ensures Inv(Apply(c, DropRetry(r)))
  {
    DropTokens(c, r);
    MovedClients(c, Apply(c, DropRetry(r)));
  }

  // ---- Complete ----

  lemma CompleteIsEdit(t: Table, n: NodeId, val: Artifact, gen: int)
    requires ListsOk(t) && Live(t, n)
    ensures CompleteNodes(t, t.heap[n].key, val, gen) == Edit(t, n, CompleteNode(t.heap[n], val, gen))
  {
    var k := t.heap[n].key;
    forall m | m in t.heap && m != n && m in List(t, SlotOf(t.cfg, k)) ensures t.heap[m].key != k {
      assert t.heap[m].key == k ==> Live(t, m);
    }
    assert CompleteNodes(t, k, val, gen).heap == Edit(t, n, CompleteNode(t.heap[n], val, gen)).heap;
  }

  lemma CountedMono(t: Table, created: multiset<(Key, Artifact)>, created': multiset<(Key, Artifact)>,
                    tokens: multiset<Key>,
                    work: multiset<Request>, work': multiset<Request>, touches: multiset<NodeId>)
    requires Counted(t, created, tokens, work, touches) && created <= created' && work' <= work
    ensures Counted(t, created', tokens, work', touches)
  {
    forall r | r in work' ensures r in work {
      assert work'[r] <= work[r];
    }
  }

  lemma CompleteTable(t: Table, r: Request, val: Artifact, gen: int, created: multiset<(Key, Artifact)>,
                      tokens: multiset<Key>, work: multiset<Request>, touches: multiset<NodeId>)
    requires Counted(t, created, tokens, work, touches) && r in work && r.key in tokens
    ensures
      var u := CompleteNodes(t, r.key, val, gen);
      SameShape(t, u)
      && Counted(u, created + multiset{(r.key, val)}, tokens - multiset{r.key}, work - multiset{r}, touches)
  {
    var n := r.signal;
    var created' := created + multiset{(r.key, val)};
    CompleteIsEdit(t, n, val, gen);
    CountedMono(t, created, created', tokens, work, work - multiset{r}, touches);
    EditKeeps(t, n, CompleteNode(t.heap[n], val, gen), created', tokens, tokens - multiset{r.key},
              work - multiset{r}, touches, touches);
  }

  lemma CompleteTokens(c: Cache, r: Request, val: Artifact, gen: int)
    requires Enabled(c, Complete(r, val, gen))
    ensures
      var d := Apply(c, Complete(r, val, gen));
      && r in Work(c) && r.key in Tokens(c)
      && Tokens(d) == Tokens(c) - multiset{r.key} && Work(d) == Work(c) - multiset{r}
  {
    var d := Apply(c, Complete(r, val, gen));
    TakeWork(c, d, r);
    TakeOne(Claims(c.clients), KeysOf(Work(d)), r.key, c.dropped);
  }

  lemma TakeOne<T>(a: multiset<T>, b: multiset<T>, x: T, c: multiset<T>)
    ensures x in a + (b + multiset{x}) + c
    ensures a + b + c == a + (b + multiset{x}) + c - multiset{x}
  {
  }

  lemma CompleteIs(c: Cache, r: Request, val: Artifact, gen: int)
    requires Enabled(c, Complete(r, val, gen))
    ensures
      var d := Apply(c, Complete(r, val, gen));
      && d.table == CompleteNodes(c.table, r.key, val, gen) && d.created == c.created + multiset{(r.key, val)}
      && c.created <= d.created && d.destroyed == c.destroyed && d.clients == c.clients && d.writer == c.writer
         && d.touches == c.touches
  {
    hide CompleteNodes;
  }

  lemma CompleteKeeps(c: Cache, r: Request, val: Artifact, gen: int)
    requires Inv(c) && Enabled(c, Complete(r, val, gen))
    ensures Inv(Apply(c, Complete(r, val, gen)))
  {
    var d := Apply(c, Complete(r, val, gen));
    CompleteIs(c, r, val, gen);
    CompleteTokens(c, r, val, gen);
    hide Enabled, Apply, CompleteNodes;
    CompleteTable(c.table, r, val, gen, c.created, Tokens(c), Work(c), OpenTouches(c.touches));
    CompleteClients(c, d);
  }

  lemma CompleteClients(c: Cache, d: Cache)
    requires ClientsOk(c) && SameShape(c.table, d.table)
    requires d.clients == c.clients && d.writer == c.writer && |d.touches| == |c.touches| && c.created <= d.created
    ensures ClientsOk(d)
  {
    ShapeKeeps(c.table, d.table);
    ClientsUntouched(c, d);
  }

  // ---- every step, every run ----

  lemma FastKeeps(c: Cache, i: nat, q: Query)
    requires Inv(c) && Enabled(c, Fast(i, q))
    ensures Inv(FastApply(c, i, q))
  {
    if Lookup(c.table, q.key).None? {
      FastMissKeeps(c, i, q);
    } else {
      FastHitKeeps(c, i, q, Lookup(c.table, q.key).value);
    }
  }

  lemma AcquireKeeps(c: Cache, i: nat, id: NodeId)
    requires Inv(c) && Enabled(c, Acquire(i, id))
    ensures Inv(AcquireApply(c, i, id))
  {
    if Lookup(c.table, c.clients[i].q.key).None? {
      AcquireMissKeeps(c, i, id);
    } else {
      AcquireHitKeeps(c, i, id);
    }
  }

  lemma LoopFlagKeeps(c: Cache, step: Step)
    requires Inv(c) && Enabled(c, step) && (step.RaiseAgain? || step.ResetAgain? || step.ResetHigh?)
    ensures Inv(Apply(c, step))
  {
    var d := Apply(c, step);
    assert Work(d) == Work(c);
    MovedKeeps(c, d);
  }

  /** Any lock region or atomic operation of any thread keeps the invariant. */
  lemma StepKeeps(c: Cache, step: Step)
    requires Inv(c) && Enabled(c, step)
    ensures Inv(Apply(c, step))
  {
    match step
    case Fast(i, q) => FastKeeps(c, i, q);
    case Acquire(i, id) => AcquireKeeps(c, i, id);
    case SetAgain(i) => FlagKeeps(c, i, step);
    case SetHigh(i) => FlagKeeps(c, i, step);
    case Check(i, outOfTime, isAsync) => CheckKeeps(c, i, outOfTime, isAsync);
    case CloseTouch(a) => CloseKeeps(c, a);
    case Evict(s, j) => EvictKeeps(c, s, j);
    case Cancel(s, j) => CancelKeeps(c, s, j);
    case Gather(b) => GatherKeeps(c, b);
    case Complete(r, val, gen) => CompleteKeeps(c, r, val, gen);
    case DropRetry(r) => DropKeeps(c, r);
    case Resubmit(r, b, wide) => ResubmitKeeps(c, r, b, wide);
    case Defer(b, w, t) => DeferKeeps(c, b, w, t);
    case _ => LoopFlagKeeps(c, step);
  }
}
