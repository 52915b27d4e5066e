/** The loops inside the lock regions, in place over one cache's table and one request batch, proved against the
    functions that the protocol's steps are made of. */
module CacheRegions {
  import opened Basics
  import opened CacheState
  import opened CacheProtocol
  import CacheTheorems

  predicate Idling(heap: map<NodeId, Node>, n: NodeId, stale: set<NodeId>) {
    n in heap && n in stale && heap[n].refcount == 0 && heap[n].working == 0
  }

  /** The nodes of a list an eviction pass leaves, in list order. */
  function Kept(heap: map<NodeId, Node>, l: seq<NodeId>, stale: set<NodeId>): seq<NodeId> {
    if l == [] then []
    else Kept(heap, l[..|l| - 1], stale) + if Idling(heap, l[|l| - 1], stale) then [] else [l[|l| - 1]]
  }

  /** Those it takes, the last one first: the order they end up in on the free list. */
  function Taken(heap: map<NodeId, Node>, l: seq<NodeId>, stale: set<NodeId>): seq<NodeId> {
    if l == [] then []
    else (if Idling(heap, l[|l| - 1], stale) then [l[|l| - 1]] else []) + Taken(heap, l[..|l| - 1], stale)
  }

  /** The values destroyed along the way. */
  function TakenValues(heap: map<NodeId, Node>, l: seq<NodeId>, stale: set<NodeId>): seq<Artifact> {
    if l == [] then []
    else TakenValues(heap, l[..|l| - 1], stale) + if Idling(heap, l[|l| - 1], stale) then [heap[l[|l| - 1]].val] else []
  }

  /** The table when the pass over slot `s` has walked past the first `i` nodes. */
  function SweepTo(t: Table, s: Slot, stale: set<NodeId>, i: nat): Table
    requires i <= |List(t, s)|
  {
    var l := List(t, s);
    var st := StripeOf(t.cfg, s);
    var taken := Taken(t.heap, l[..i], stale);
    if taken == [] then t
    else t.(slots := t.slots[s := Kept(t.heap, l[..i], stale) + l[i..]],
            free := t.free[st := taken + ListAt(t.free, st)])
  }

  function Sweep(t: Table, s: Slot, stale: set<NodeId>): Table { SweepTo(t, s, stale, |List(t, s)|) }

  lemma {:induction false} NoneTaken(heap: map<NodeId, Node>, l: seq<NodeId>, stale: set<NodeId>)
    ensures Taken(heap, l, stale) == [] ==> Kept(heap, l, stale) == l
    ensures Taken(heap, l, stale) == [] <==> forall n | n in l :: !Idling(heap, n, stale)
  {
    if l != [] {
      var last := |l| - 1;
      NoneTaken(heap, l[..last], stale);
      hide Idling;
      assert l == l[..last] + [l[last]];
      assert forall n :: n in l <==> n in l[..last] || n == l[last];
      if Idling(heap, l[last], stale) {
        assert Taken(heap, l, stale)[0] == l[last];
      } else {
        assert Taken(heap, l, stale) == Taken(heap, l[..last], stale);
      }
    }
  }

  /** A pass takes exactly the nodes that are expired, untouched and not worked on, and leaves the others. */
  lemma {:induction false} TakesExactly(heap: map<NodeId, Node>, l: seq<NodeId>, stale: set<NodeId>, n: NodeId)
    requires n in l && n in heap
    ensures n in Taken(heap, l, stale) <==> n in stale && heap[n].refcount == 0 && heap[n].working == 0
    ensures n in Kept(heap, l, stale) <==> n !in Taken(heap, l, stale)
  {
    var last := |l| - 1;
    assert l == l[..last] + [l[last]];
    if n in l[..last] {
      TakesExactly(heap, l[..last], stale, n);
    } else {
      NotThere(heap, l[..last], stale, n);
    }
  }

  lemma {:induction false} NotThere(heap: map<NodeId, Node>, l: seq<NodeId>, stale: set<NodeId>, n: NodeId)
    requires n !in l
    ensures n !in Taken(heap, l, stale) && n !in Kept(heap, l, stale)
  {
    if l != [] {
      NotThere(heap, l[..|l| - 1], stale, n);
    }
  }

  lemma SweptList(t: Table, s: Slot, stale: set<NodeId>, i: nat)
    requires i <= |List(t, s)|
    ensures List(SweepTo(t, s, stale, i), s) == Kept(t.heap, List(t, s)[..i], stale) + List(t, s)[i..]
  {
    hide Kept, Taken, Idling;
    var l := List(t, s);
    NoneTaken(t.heap, l[..i], stale);
    assert l[..i] + l[i..] == l;
  }

  lemma MapTwice<K, V>(m: map<K, V>, k: K, v: V, w: V)
    ensures m[k := v][k := w] == m[k := w]
  {
  }

  lemma IdleList(t: Table, s: Slot, stale: set<NodeId>, i: nat)
    requires i < |List(t, s)| && Idling(t.heap, List(t, s)[i], stale)
    ensures
      var l := List(SweepTo(t, s, stale, i), s);
      var j := |Kept(t.heap, List(t, s)[..i], stale)|;
      && j < |l| && l[j] == List(t, s)[i]
      && l[..j] + l[j + 1..] == Kept(t.heap, List(t, s)[..i + 1], stale) + List(t, s)[i + 1..]
  {
    hide Kept, Taken, SweepTo;
    SweptList(t, s, stale, i);
    PrefixNext(t.heap, List(t, s), stale, i);
    var kept := Kept(t.heap, List(t, s)[..i], stale);
    assert kept + [] == kept;
  }

  lemma IdleFree(t: Table, s: Slot, stale: set<NodeId>, i: nat)
    requires i < |List(t, s)| && Idling(t.heap, List(t, s)[i], stale)
    ensures
      var st := StripeOf(t.cfg, s);
      && [List(t, s)[i]] + ListAt(SweepTo(t, s, stale, i).free, st)
         == Taken(t.heap, List(t, s)[..i + 1], stale) + ListAt(t.free, st)
      && Taken(t.heap, List(t, s)[..i + 1], stale) != []
  {
    var n, taken := List(t, s)[i], Taken(t.heap, List(t, s)[..i], stale);
    SweptFree(t, s, stale, i);
    PrefixNext(t.heap, List(t, s), stale, i);
    hide Kept, Taken, SweepTo;
    assert [n] + taken + ListAt(t.free, StripeOf(t.cfg, s)) == [n] + (taken + ListAt(t.free, StripeOf(t.cfg, s)));
  }

  /** Walking past one more node unlinks it when it idles. */
  lemma SweepIdle(t: Table, s: Slot, stale: set<NodeId>, i: nat)
    requires i < |List(t, s)| && Idling(t.heap, List(t, s)[i], stale)
    ensures
      var u := SweepTo(t, s, stale, i);
      var j := |Kept(t.heap, List(t, s)[..i], stale)|;
      j < |List(u, s)| && List(u, s)[j] == List(t, s)[i] && SweepTo(t, s, stale, i + 1) == Unlink(u, s, j)
  {
    hide Kept, Taken, ListAt, Idling;
    var st := StripeOf(t.cfg, s);
    var u := SweepTo(t, s, stale, i);
    IdleList(t, s, stale, i);
    IdleFree(t, s, stale, i);
    MapTwice(t.slots, s, Kept(t.heap, List(t, s)[..i], stale) + List(t, s)[i..], SweepTo(t, s, stale, i + 1).slots[s]);
    MapTwice(t.free, st, Taken(t.heap, List(t, s)[..i], stale) + ListAt(t.free, st),
             SweepTo(t, s, stale, i + 1).free[st]);
  }

  lemma SweepZero(t: Table, s: Slot, stale: set<NodeId>)
    ensures SweepTo(t, s, stale, 0) == t && Kept(t.heap, List(t, s)[..0], stale) == []
    ensures TakenValues(t.heap, List(t, s)[..0], stale) == []
  {
  }

  lemma PrefixNext(heap: map<NodeId, Node>, l: seq<NodeId>, stale: set<NodeId>, i: nat)
    requires i < |l|
    ensures Kept(heap, l[..i + 1], stale)
            == Kept(heap, l[..i], stale) + if Idling(heap, l[i], stale) then [] else [l[i]]
    ensures Taken(heap, l[..i + 1], stale)
            == (if Idling(heap, l[i], stale) then [l[i]] else []) + Taken(heap, l[..i], stale)
    ensures TakenValues(heap, l[..i + 1], stale)
         == TakenValues(heap, l[..i], stale) + if Idling(heap, l[i], stale) then [heap[l[i]].val] else []
  {
    assert l[..i + 1][..i] == l[..i] && l[..i + 1][i] == l[i];
  }

  lemma SweepNext(t: Table, s: Slot, stale: set<NodeId>, i: nat)
    requires i < |List(t, s)|
    ensures
      var u := SweepTo(t, s, stale, i);
      var j := |Kept(t.heap, List(t, s)[..i], stale)|;
      && j < |List(u, s)| && List(u, s)[j] == List(t, s)[i]
      && SweepTo(t, s, stale, i + 1) == if Idling(t.heap, List(t, s)[i], stale) then Unlink(u, s, j) else u
  {
    hide Kept, Taken, Unlink;
    var l := List(t, s);
    SweptList(t, s, stale, i);
    PrefixNext(t.heap, l, stale, i);
    if Idling(t.heap, l[i], stale) {
      SweepIdle(t, s, stale, i);
    } else {
      KeepOn(Kept(t.heap, l[..i], stale), l, i);
      assert [] + Taken(t.heap, l[..i], stale) == Taken(t.heap, l[..i], stale);
    }
  }

  lemma KeepOn(kept: seq<NodeId>, l: seq<NodeId>, i: nat)
    requires i < |l|
    ensures kept + l[i..] == (kept + [l[i]]) + l[i + 1..]
  {
    assert l[i..] == [l[i]] + l[i + 1..];
  }

  lemma SweptFree(t: Table, s: Slot, stale: set<NodeId>, i: nat)
    requires i <= |List(t, s)|
    ensures
      var st := StripeOf(t.cfg, s);
      ListAt(SweepTo(t, s, stale, i).free, st) == Taken(t.heap, List(t, s)[..i], stale) + ListAt(t.free, st)
  {
  }

  /** The values of the nodes taken are among those destroyed. */
  ghost predicate TakenDestroyed(heap: map<NodeId, Node>, taken: seq<NodeId>, destroyed: multiset<(Key, Artifact)>) {
    forall n | n in taken :: n in heap && (heap[n].key, heap[n].val) in destroyed
  }

  lemma SweepFrame(t: Table, s: Slot, stale: set<NodeId>, i: nat)
    requires i <= |List(t, s)|
    ensures SweepTo(t, s, stale, i).heap == t.heap && SweepTo(t, s, stale, i).cfg == t.cfg
  {
    hide Taken, Kept;
  }

  /** The eviction of the next node to be taken. */
  lemma SweepEvicts(c: Cache, d: Cache, s: Slot, stale: set<NodeId>, i: nat) returns (x: Step)
    requires i < |List(c.table, s)| && StripeOf(c.table.cfg, s) !in c.writer
    requires d.table == SweepTo(c.table, s, stale, i) && d.writer == c.writer
    requires Idling(c.table.heap, List(c.table, s)[i], stale)
    ensures x.Evict? && Enabled(d, x)
    ensures
      var e := CacheProtocol.Apply(d, x);
      var nd := c.table.heap[List(c.table, s)[i]];
      && e.table == SweepTo(c.table, s, stale, i + 1) && e.writer == c.writer
      && e.destroyed == d.destroyed + multiset{(nd.key, nd.val)}
  {
    SweepNext(c.table, s, stale, i);
    SweepFrame(c.table, s, stale, i);
    hide Unlink, SweepTo, Taken, Kept;
    x := Evict(s, |Kept(c.table.heap, List(c.table, s)[..i], stale)|);
  }

  lemma SweepSkips(t: Table, s: Slot, stale: set<NodeId>, i: nat)
    requires i < |List(t, s)| && !Idling(t.heap, List(t, s)[i], stale)
    ensures SweepTo(t, s, stale, i + 1) == SweepTo(t, s, stale, i)
    ensures Taken(t.heap, List(t, s)[..i + 1], stale) == Taken(t.heap, List(t, s)[..i], stale)
  {
    SweepNext(t, s, stale, i);
    PrefixNext(t.heap, List(t, s), stale, i);
    hide SweepTo, Taken, Kept, Unlink;
    assert [] + Taken(t.heap, List(t, s)[..i], stale) == Taken(t.heap, List(t, s)[..i], stale);
  }

  lemma OneMoreTaken(heap: map<NodeId, Node>, l: seq<NodeId>, stale: set<NodeId>, i: nat,
                     destroyed: multiset<(Key, Artifact)>, destroyed': multiset<(Key, Artifact)>)
    requires i < |l| && Idling(heap, l[i], stale)
             && destroyed' == destroyed + multiset{(heap[l[i]].key, heap[l[i]].val)}
    ensures |Taken(heap, l[..i + 1], stale)| == |Taken(heap, l[..i], stale)| + 1
    ensures TakenDestroyed(heap, Taken(heap, l[..i], stale), destroyed)
            ==> TakenDestroyed(heap, Taken(heap, l[..i + 1], stale), destroyed')
  {
    PrefixNext(heap, l, stale, i);
    hide Taken;
    assert forall p :: p in destroyed ==> p in destroyed';
  }

  /** One more node of the pass: an eviction if it is taken, nothing if it is not. */
  lemma SweepStep(c: Cache, d: Cache, s: Slot, stale: set<NodeId>, i: nat) returns (more: seq<Step>, e: Cache)
    requires i < |List(c.table, s)| && StripeOf(c.table.cfg, s) !in c.writer
    requires d.table == SweepTo(c.table, s, stale, i) && d.writer == c.writer
    ensures CacheTheorems.Runs(d, more, e) && e.table == SweepTo(c.table, s, stale, i + 1) && e.writer == c.writer
    ensures (forall x | x in more :: x.Evict?)
    ensures |more| + |Taken(c.table.heap, List(c.table, s)[..i], stale)|
            == |Taken(c.table.heap, List(c.table, s)[..i + 1], stale)|
    ensures
      var heap, l := c.table.heap, List(c.table, s);
      TakenDestroyed(heap, Taken(heap, l[..i], stale), d.destroyed) ==>
        TakenDestroyed(heap, Taken(heap, l[..i + 1], stale), e.destroyed)
  {
    hide Unlink, SweepTo, Taken, Kept, Enabled, CacheProtocol.Apply, TakenDestroyed;
    if Idling(c.table.heap, List(c.table, s)[i], stale) {
      var x := SweepEvicts(c, d, s, stale, i);
      more, e := [x], CacheProtocol.Apply(d, x);
      OneMoreTaken(c.table.heap, List(c.table, s), stale, i, d.destroyed, e.destroyed);
    } else {
      more, e := [], d;
      SweepSkips(c.table, s, stale, i);
    }
  }

  /** The pass over a slot is a run of the protocol's evictions, one for each node it takes. */
  lemma {:induction false} SweepRuns(c: Cache, s: Slot, stale: set<NodeId>, i: nat) returns (steps: seq<Step>, d: Cache)
    requires i <= |List(c.table, s)| && StripeOf(c.table.cfg, s) !in c.writer
    ensures CacheTheorems.Runs(c, steps, d) && d.table == SweepTo(c.table, s, stale, i) && d.writer == c.writer
    ensures (forall e | e in steps :: e.Evict?) && |steps| == |Taken(c.table.heap, List(c.table, s)[..i], stale)|
    ensures TakenDestroyed(c.table.heap, Taken(c.table.heap, List(c.table, s)[..i], stale), d.destroyed)
  {
    if i == 0 {
      steps, d := [], c;
    } else {
      hide *;
      var a, b := SweepRuns(c, s, stale, i - 1);
      var more;
      more, d := SweepStep(c, b, s, stale, i - 1);
      CacheTheorems.RunsAppend(c, a, b, more, d);
      steps := a + more;
    }
  }

  predicate Cancellable(heap: map<NodeId, Node>, n: NodeId, stale: set<NodeId>) {
    n in heap && n in stale && heap[n].refcount == 0 && heap[n].working > 0
  }

  /** The nodes of one cache, with the methods that walk its slots. */
  class NodeTable {
    const cfg: Config
    var heap: map<NodeId, Node>
    var slots: map<Slot, seq<NodeId>>
    var free: map<Stripe, seq<NodeId>>

    constructor (cfg: Config)
      ensures View() == Table(cfg, map[], map[], map[])
    {
      this.cfg := cfg;
      heap, slots, free := map[], map[], map[];
    }

    function View(): Table
      reads this
    {
      Table(cfg, heap, slots, free)
    }

    method FindNode(key: Key) returns (found: Option<NodeId>)
      ensures found == Lookup(View(), key)
    {
      var l := ListAt(slots, SlotOf(cfg, key));
      var i := 0;
      while i < |l|
        invariant i <= |l| && Find(heap, l, key) == Find(heap, l[i..], key)
      {
        if l[i] in heap && heap[l[i]].key == key {
          return Some(l[i]);
        }
        i := i + 1;
      }
      return None;
    }

    /** The start of a lookup's write region. */
    method FindOrCreate(key: Key, id: NodeId) returns (n: NodeId, isNew: bool)
      modifies this
      ensures isNew <==> Lookup(old(View()), key).None?
      ensures isNew ==> n == AllocId(old(View()), KeyStripe(cfg, key), id) && View() == Alloc(old(View()), key, id)
      ensures !isNew ==> Lookup(old(View()), key) == Some(n) && View() == old(View())
    {
      var found := FindNode(key);
      if found.Some? {
        return found.value, false;
      }
      var s := SlotOf(cfg, key);
      var st := StripeOf(cfg, s);
      var recycled := ListAt(free, st);
      if recycled != [] {
        n := recycled[0];
        free := free[st := recycled[1..]];
      } else {
        n := id;
      }
      heap := heap[n := NewNode(key)];
      slots := slots[s := ListAt(slots, s) + [n]];
      isNew := true;
    }

    /** The end of a request: every node of the slot with the key gets the value. */
    method CompleteKey(key: Key, val: Artifact, gen: int)
      requires Distinct(List(View(), SlotOf(cfg, key)))
      modifies this`heap
      ensures View() == CompleteNodes(old(View()), key, val, gen)
    {
      var l := ListAt(slots, SlotOf(cfg, key));
      var i := 0;
      while i < |l|
        invariant i <= |l| && heap.Keys == old(heap).Keys
        invariant forall n | n in heap ::
          heap[n] == if n in l[..i] && old(heap)[n].key == key then CompleteNode(old(heap)[n], val, gen)
                     else old(heap)[n]
      {
        var n := l[i];
        assert n !in l[..i] && l[..i + 1] == l[..i] + [n];
        if n in heap && heap[n].key == key {
          heap := heap[n := CompleteNode(heap[n], val, gen)];
        }
        i := i + 1;
      }
      assert l[..i] == l;
      assert heap == CompleteNodes(old(View()), key, val, gen).heap;
    }

    /** The read pass of an eviction. */
    method SlotHasWork(s: Slot, stale: set<NodeId>) returns (hasWork: bool)
      ensures hasWork <==> Sweep(View(), s, stale) != View()
    {
      var l := ListAt(slots, s);
      var i := 0;
      hasWork := false;
      while i < |l| && !hasWork
        invariant i <= |l| && (hasWork ==> exists n | n in l :: Idling(heap, n, stale))
        invariant !hasWork ==> forall n | n in l[..i] :: !Idling(heap, n, stale)
      {
        hasWork := Idling(heap, l[i], stale);
        i := i + 1;
      }
      assert l[..|l|] == l;
      NoneTaken(heap, l, stale);
      if hasWork {
        assert |Taken(heap, l, stale) + ListAt(free, StripeOf(cfg, s))| > |ListAt(free, StripeOf(cfg, s))|;
      }
    }

    /** The write pass: unlink, recycle and destroy every idle node. */
    method SweepSlot(s: Slot, stale: set<NodeId>) returns (destroyed: seq<Artifact>)
      modifies this`slots, this`free
      ensures View() == Sweep(old(View()), s, stale)
      ensures destroyed == TakenValues(heap, List(old(View()), s), stale)
    {
      var l := ListAt(slots, s);
      var st := StripeOf(cfg, s);
      SweepZero(View(), s, stale);
      hide SweepTo, Taken, Kept, TakenValues;
      var i, j := 0, 0;
      destroyed := [];
      while i < |l|
        invariant i <= |l| && j == |Kept(heap, l[..i], stale)|
        invariant View() == SweepTo(old(View()), s, stale, i)
        invariant destroyed == TakenValues(heap, l[..i], stale)
      {
        SweepNext(old(View()), s, stale, i);
        PrefixNext(heap, l, stale, i);
        if Idling(heap, l[i], stale) {
          var now := ListAt(slots, s);
          slots := slots[s := now[..j] + now[j + 1..]];
          free := free[st := [l[i]] + ListAt(free, st)];
          destroyed := destroyed + [heap[l[i]].val];
        } else {
          j := j + 1;
        }
        i := i + 1;
      }
      assert l[..i] == l;
    }

    /** The cancellation thread's write pass. */
    method CancelSlot(s: Slot, stale: set<NodeId>)
      modifies this`heap
      ensures heap.Keys == old(heap).Keys
      ensures
        forall n | n in heap ::
          var was := old(heap)[n];
          var now := n in List(View(), s) && n in stale && was.refcount == 0 && was.working > 0;
          heap[n] == was.(cancelled := was.cancelled || now)
    {
      var l := ListAt(slots, s);
      var i := 0;
      while i < |l|
        invariant i <= |l| && heap.Keys == old(heap).Keys
        invariant
          forall n | n in heap ::
            var was := old(heap)[n];
            heap[n] == was.(cancelled := was.cancelled || (n in l[..i] && Cancellable(old(heap), n, stale)))
      {
        var n := l[i];
        assert l[..i + 1] == l[..i] + [n];
        if Cancellable(heap, n, stale) {
          heap := heap[n := heap[n].(cancelled := true)];
        }
        i := i + 1;
      }
      assert l[..i] == l;
    }
  }

  /** One priority's request queues. */
  class RequestQueues {
    var wide: seq<Request>
    var thin: seq<Request>

    constructor ()
      ensures View() == Batch([], [])
    {
      wide, thin := [], [];
    }

    function View(): Batch
      reads this
    {
      Batch(wide, thin)
    }

    method Push(r: Request, isWide: bool)
      modifies this
      ensures View() == PushRequest(old(View()), r, isWide)
    {
      if isWide {
        wide := wide + [r];
      } else {
        thin := thin + [r];
      }
    }

    /** Copy both queues out and empty them. */
    method Gather() returns (wides: array<Request>, thins: array<Request>)
      modifies this
      ensures fresh(wides) && fresh(thins)
      ensures Batch(wides[..], thins[..]) == old(View()) && View() == Batch([], [])
    {
      wides := CopyOut(wide);
      thins := CopyOut(thin);
      wide, thin := [], [];
    }

    static method CopyOut(queue: seq<Request>) returns (a: array<Request>)
      ensures fresh(a) && a[..] == queue
    {
      var blank := Request(Key(0, ""), 0, 0);
      a := new Request[|queue|](_ => blank);
      var idx := 0;
      while idx < |queue|
        invariant idx <= |queue| && a[..idx] == queue[..idx]
      {
        a[idx] := queue[idx];
        idx := idx + 1;
      }
    }

    /** Push back what a cancelled task left over. `doneThin` is the ticket counter, which overshoots. */
    method PushLeftovers(wides: array<Request>, doneWide: nat, thins: array<Request>, doneThin: nat)
      returns (again: bool)
      requires doneWide <= wides.Length
      modifies this
      ensures
        var restThin := if doneThin < thins.Length then thins[doneThin..] else [];
        View() == Batch(old(wide) + wides[doneWide..], old(thin) + restThin)
      ensures again <==> |wide| > |old(wide)| || |thin| > |old(thin)|
    {
      again := doneWide < wides.Length || doneThin < thins.Length;
      var idx := doneWide;
      while idx < wides.Length
        invariant doneWide <= idx <= wides.Length && thin == old(thin)
        invariant wide == old(wide) + wides[doneWide..idx]
      {
        assert wides[doneWide..idx + 1] == wides[doneWide..idx] + [wides[idx]];
        Push(wides[idx], true);
        idx := idx + 1;
      }
      assert wides[doneWide..idx] == wides[doneWide..];
      idx := doneThin;
      while idx < thins.Length
        invariant doneThin <= idx && wide == old(wide) + wides[doneWide..]
        invariant idx <= thins.Length || idx == doneThin
        invariant thin == old(thin) + if idx <= thins.Length then thins[doneThin..idx] else []
      {
        assert thins[doneThin..idx + 1] == thins[doneThin..idx] + [thins[idx]];
        Push(thins[idx], false);
        idx := idx + 1;
      }
      if doneThin < thins.Length {
        assert thins[doneThin..idx] == thins[doneThin..];
      }
    }
  }
}
