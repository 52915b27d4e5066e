/** Every value is destroyed at most as often as it was created: what a node holds is still to be destroyed. */
module CacheAccount {
  import opened CacheState
  import opened CacheProtocol
  import opened CacheInvariant
  import opened CacheTheorems

  /** How often a linked node holds a value of a key. */
  function Held(t: Table, k: Key, val: Artifact): nat {
    match Lookup(t, k)
    case Some(n) => if t.heap[n].completions >= 1 && t.heap[n].val == val then 1 else 0
    case None => 0
  }

  ghost predicate Account(t: Table, created: multiset<(Key, Artifact)>, destroyed: multiset<(Key, Artifact)>) {
    forall k, val :: destroyed[(k, val)] + Held(t, k, val) <= created[(k, val)]
  }

  ghost predicate AccountOk(c: Cache) { Account(c.table, c.created, c.destroyed) }

  /** Same nodes, same values. */
  ghost predicate SameValues(t: Table, u: Table) {
    && SameShape(t, u)
    && forall n | n in t.heap :: u.heap[n].completions == t.heap[n].completions && u.heap[n].val == t.heap[n].val
  }

  lemma SameHeld(t: Table, u: Table, k: Key, val: Artifact)
    requires SameValues(t, u)
    ensures Held(u, k, val) == Held(t, k, val)
  {
    ShapeKeeps(t, u);
  }

  lemma SameAccount(c: Cache, d: Cache)
    requires AccountOk(c) && SameValues(c.table, d.table) && d.created == c.created && d.destroyed == c.destroyed
    ensures AccountOk(d)
  {
    hide SameValues, Held;
    forall k, val ensures d.destroyed[(k, val)] + Held(d.table, k, val) <= d.created[(k, val)] {
      SameHeld(c.table, d.table, k, val);
      assert c.destroyed[(k, val)] + Held(c.table, k, val) <= c.created[(k, val)];
    }
  }

  lemma EditSame(t: Table, n: NodeId, nd: Node)
    requires n in t.heap && nd.key == t.heap[n].key
    requires nd.completions == t.heap[n].completions && nd.val == t.heap[n].val
    ensures SameValues(t, Edit(t, n, nd))
  {
  }

  /** A new node holds nothing. */
  lemma AllocHeld(t: Table, k: Key, id: NodeId, x: Key, val: Artifact)
    requires ListsOk(t) && FreeOk(t) && Lookup(t, k).None? && id !in t.heap
    ensures Held(Alloc(t, k, id), x, val) == Held(t, x, val)
  {
    var u := Alloc(t, k, id);
    AllocLive(t, k, id);
    AllocShape(t, k, id);
    if x == k {
      LiveIsFound(u, AllocId(t, KeyStripe(t.cfg, k), id));
    } else if Lookup(t, x).Some? {
      FoundIsLive(t, x);
      LiveIsFound(u, Lookup(t, x).value);
    } else if Lookup(u, x).Some? {
      FoundIsLive(u, x);
      LiveIsFound(t, Lookup(u, x).value);
    }
  }

  lemma UnlinkHeld(t: Table, s: Slot, j: nat, x: Key, val: Artifact)
    requires ListsOk(t) && FreeOk(t) && j < |List(t, s)|
    ensures
      var nd := t.heap[List(t, s)[j]];
      Held(Unlink(t, s, j), x, val) == if x == nd.key then 0 else Held(t, x, val)
  {
    var u := Unlink(t, s, j);
    var n := List(t, s)[j];
    UnlinkLive(t, s, j);
    UnlinkShape(t, s, j);
    LiveIsFound(t, n);
    if Lookup(u, x).Some? {
      FoundIsLive(u, x);
      LiveIsFound(t, Lookup(u, x).value);
    }
    if Lookup(t, x).Some? && x != t.heap[n].key {
      FoundIsLive(t, x);
      LiveIsFound(u, Lookup(t, x).value);
    }
  }

  /** A value leaves the table and is destroyed. */
  lemma AccountDestroy(t: Table, u: Table, created: multiset<(Key, Artifact)>, destroyed: multiset<(Key, Artifact)>,
                       x: Key, v: Artifact, destroyed': multiset<(Key, Artifact)>)
    requires Account(t, created, destroyed) && Held(t, x, v) == 1 && destroyed' == destroyed + multiset{(x, v)}
    requires forall k, val :: Held(u, k, val) == if k == x then 0 else Held(t, k, val)
    ensures Account(u, created, destroyed')
  {
    hide Held;
    forall k, val ensures destroyed'[(k, val)] + Held(u, k, val) <= created[(k, val)] {
      assert destroyed[(k, val)] + Held(t, k, val) <= created[(k, val)];
    }
  }

  /** A value is created and may take the place of another in the table. */
  lemma AccountCreate(t: Table, u: Table, created: multiset<(Key, Artifact)>, destroyed: multiset<(Key, Artifact)>,
                      x: Key, v: Artifact, created': multiset<(Key, Artifact)>)
    requires Account(t, created, destroyed) && created' == created + multiset{(x, v)}
    requires forall k, val :: Held(u, k, val) <= Held(t, k, val) + (if k == x && val == v then 1 else 0)
    ensures Account(u, created', destroyed)
  {
    hide Held;
    forall k, val ensures destroyed[(k, val)] + Held(u, k, val) <= created'[(k, val)] {
      assert destroyed[(k, val)] + Held(t, k, val) <= created[(k, val)];
    }
  }

  lemma EvictedHeld(t: Table, s: Slot, j: nat)
    requires ListsOk(t) && WorklessAt(t, s, j) && t.heap[List(t, s)[j]].completions >= 1
    ensures var nd := t.heap[List(t, s)[j]]; Held(t, nd.key, nd.val) == 1
  {
    assert List(t, s)[j] in List(t, s);
    LiveIsFound(t, List(t, s)[j]);
  }

  lemma EvictIs(c: Cache, s: Slot, j: nat)
    requires Enabled(c, Evict(s, j))
    ensures
      var d := Apply(c, Evict(s, j));
      var nd := c.table.heap[List(c.table, s)[j]];
      && d.table == Unlink(c.table, s, j) && d.created == c.created
      && d.destroyed == c.destroyed + multiset{(nd.key, nd.val)}
      && j < |List(c.table, s)| && List(c.table, s)[j] in c.table.heap && nd.working == 0
  {
    hide Unlink;
  }

  lemma InvTable(c: Cache)
    requires Inv(c)
    ensures ListsOk(c.table) && FreeOk(c.table) && TokensAre(c.table, Tokens(c)) && ValuesOk(c.table, c.created)
  {
    hide ListsOk, FreeOk, TokensAre, ValuesOk, RequestsAre, TouchesAre, Tokens, Work, OpenTouches, ClientsOk;
  }

  /** What is evicted was completed. */
  lemma EvictedDone(c: Cache, s: Slot, j: nat)
    requires Inv(c) && Enabled(c, Evict(s, j))
    ensures ListsOk(c.table) && FreeOk(c.table) && WorklessAt(c.table, s, j)
    ensures c.table.heap[List(c.table, s)[j]].completions >= 1
  {
    InvTable(c);
    hide Inv, ListsOk, FreeOk, TokensAre, ValuesOk, Tokens;
    EvictIdle(c.table, s, j, c.created, Tokens(c));
  }

  lemma EvictAccount(c: Cache, s: Slot, j: nat)
    requires Inv(c) && AccountOk(c) && Enabled(c, Evict(s, j))
    ensures AccountOk(Apply(c, Evict(s, j)))
  {
    hide Held, Inv, Enabled, Apply, Unlink, ListsOk, FreeOk;
    var d := Apply(c, Evict(s, j));
    EvictIs(c, s, j);
    EvictedDone(c, s, j);
    var nd := c.table.heap[List(c.table, s)[j]];
    EvictedHeld(c.table, s, j);
    forall k, val ensures Held(d.table, k, val) == if k == nd.key then 0 else Held(c.table, k, val) {
      UnlinkHeld(c.table, s, j, k, val);
    }
    AccountDestroy(c.table, d.table, c.created, c.destroyed, nd.key, nd.val, d.destroyed);
  }

  lemma InvLists(c: Cache)
    requires Inv(c)
    ensures ListsOk(c.table) && FreeOk(c.table)
  {
  }

  lemma AcquireAccount(c: Cache, i: nat, id: NodeId)
    requires Inv(c) && AccountOk(c) && Enabled(c, Acquire(i, id))
    ensures AccountOk(Apply(c, Acquire(i, id)))
  {
    var d := AcquireApply(c, i, id);
    var q := c.clients[i].q;
    InvLists(c);
    hide Held, Inv, ListsOk, FreeOk;
    if Lookup(c.table, q.key).None? {
      forall k, val ensures d.destroyed[(k, val)] + Held(d.table, k, val) <= d.created[(k, val)] {
        AllocHeld(c.table, q.key, id, k, val);
        assert c.destroyed[(k, val)] + Held(c.table, k, val) <= c.created[(k, val)];
      }
    }
  }

  lemma CompleteHeld(t: Table, r: Request, val: Artifact, gen: int, x: Key, v: Artifact)
    requires ListsOk(t) && Live(t, r.signal) && t.heap[r.signal].key == r.key
    ensures Held(CompleteNodes(t, r.key, val, gen), x, v) <= Held(t, x, v) + if x == r.key && v == val then 1 else 0
  {
    var u := CompleteNodes(t, r.key, val, gen);
    CompleteIsEdit(t, r.signal, val, gen);
    assert SameShape(t, u);
    ShapeKeeps(t, u);
    LiveIsFound(t, r.signal);
  }

  lemma CompleteAccount(c: Cache, r: Request, val: Artifact, gen: int)
    requires Inv(c) && AccountOk(c) && Enabled(c, Complete(r, val, gen))
    ensures AccountOk(Apply(c, Complete(r, val, gen)))
  {
    var d := Apply(c, Complete(r, val, gen));
    CompleteIs(c, r, val, gen);
    CompletedWasClaimed(c, r, val, gen);
    InvLists(c);
    hide Held, Inv, ListsOk, FreeOk, CompleteNodes, Enabled, Apply;
    forall k, v ensures Held(d.table, k, v) <= Held(c.table, k, v) + (if k == r.key && v == val then 1 else 0) {
      CompleteHeld(c.table, r, val, gen, k, v);
    }
    AccountCreate(c.table, d.table, c.created, c.destroyed, r.key, val, d.created);
  }

  lemma QuietSame(c: Cache, step: Step)
    requires Enabled(c, step) && !step.Acquire? && !step.Evict? && !step.Complete?
    ensures SameValues(c.table, Apply(c, step).table)
    ensures Apply(c, step).created == c.created && Apply(c, step).destroyed == c.destroyed
  {
    match step {
      case Fast(i, q) =>
        if Lookup(c.table, q.key).Some? {
          var n := Lookup(c.table, q.key).value;
          EditSame(c.table, n, FastNode(c.table.heap[n], q));
        }
      case Check(i, outOfTime, isAsync) =>
        EditSame(c.table, c.clients[i].node, Touch(c.table.heap[c.clients[i].node]));
      case CloseTouch(a) =>
        var n := c.touches[a][0];
        EditSame(c.table, n, c.table.heap[n].(refcount := Dec(c.table.heap[n].refcount)));
      case Cancel(s, j) =>
        var n := List(c.table, s)[j];
        EditSame(c.table, n, c.table.heap[n].(cancelled := true));
      case _ =>
    }
  }

  lemma StepAccount(c: Cache, step: Step)
    requires Inv(c) && AccountOk(c) && Enabled(c, step)
    ensures AccountOk(Apply(c, step))
  {
    hide Inv, AccountOk, Enabled, Apply;
    match step {
      case Acquire(i, id) => AcquireAccount(c, i, id);
      case Evict(s, j) => EvictAccount(c, s, j);
      case Complete(r, val, gen) => CompleteAccount(c, r, val, gen);
      case _ =>
        QuietSame(c, step);
        SameAccount(c, Apply(c, step));
    }
  }

  lemma {:induction false} RunAccount(c: Cache, steps: seq<Step>, d: Cache)
    requires Inv(c) && AccountOk(c) && Runs(c, steps, d)
    ensures AccountOk(d)
    decreases |steps|
  {
    hide Inv, AccountOk, Enabled, Apply;
    if steps != [] {
      StepAccount(c, steps[0]);
      StepKeeps(c, steps[0]);
      RunAccount(Apply(c, steps[0]), steps[1..], d);
    }
  }

  /** In every reachable state a value was destroyed at most as often as it was created, and once less where a
      linked node still holds it: nothing is destroyed twice, nor while it can still be handed out. */
  lemma DestroyedOnce(c: Cache, steps: seq<Step>, d: Cache, k: Key, val: Artifact)
    requires Init(c) && Runs(c, steps, d)
    ensures d.destroyed[(k, val)] + Held(d.table, k, val) <= d.created[(k, val)]
  {
    InitOk(c);
    assert AccountOk(c);
    RunAccount(c, steps, d);
  }
}
