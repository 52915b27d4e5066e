/** The walk over typed data ends exactly when the data is finite. */
module TypedFinite {
  import opened TypedData
  import opened TypedProofs

  /** Following members, elements and pointers from a task comes to an end within `depth` steps. */
  predicate Finite(ty: Types, mem: Memory, t: Task, depth: nat)
    decreases depth, 0
  {
    depth > 0 && AllFinite(ty, mem, Pushes(ty, mem, t), depth - 1)
  }

  predicate AllFinite(ty: Types, mem: Memory, ts: seq<Task>, depth: nat)
    decreases depth, 1
  {
    forall i | 0 <= i < |ts| :: Finite(ty, mem, ts[i], depth)
  }

  /** How many tasks a task comes to, itself included. */
  function Weight(ty: Types, mem: Memory, t: Task, depth: nat): nat
    decreases depth, 1, 0
  {
    if depth == 0 then 0 else 1 + Weights(ty, mem, Pushes(ty, mem, t), depth - 1)
  }

  function Weights(ty: Types, mem: Memory, ts: seq<Task>, depth: nat): nat
    decreases depth, 2, |ts|
  {
    if ts == [] then 0 else Weight(ty, mem, ts[0], depth) + Weights(ty, mem, ts[1..], depth)
  }

  lemma {:induction false} WeightsAppend(ty: Types, mem: Memory, a: seq<Task>, b: seq<Task>, depth: nat)
    ensures Weights(ty, mem, a + b, depth) == Weights(ty, mem, a, depth) + Weights(ty, mem, b, depth)
    decreases |a|
  {
    hide Weight;
    if a == [] {
      assert a + b == b;
    } else {
      assert (a + b)[1..] == a[1..] + b;
      WeightsAppend(ty, mem, a[1..], b, depth);
    }
  }

  /** Looking deeper changes nothing where the end is in sight. */
  lemma {:induction false} Deeper(ty: Types, mem: Memory, t: Task, depth: nat)
    requires Finite(ty, mem, t, depth)
    ensures Finite(ty, mem, t, depth + 1) && Weight(ty, mem, t, depth + 1) == Weight(ty, mem, t, depth)
    decreases depth, 0, 0
  {
    hide Pushes;
    DeeperAll(ty, mem, Pushes(ty, mem, t), depth - 1);
  }

  lemma {:induction false} DeeperAll(ty: Types, mem: Memory, ts: seq<Task>, depth: nat)
    requires AllFinite(ty, mem, ts, depth)
    ensures AllFinite(ty, mem, ts, depth + 1) && Weights(ty, mem, ts, depth + 1) == Weights(ty, mem, ts, depth)
    decreases depth, 1, |ts|
  {
    hide Weight, Finite;
    if ts != [] {
      Deeper(ty, mem, ts[0], depth);
      DeeperAll(ty, mem, ts[1..], depth);
      assert forall i | 0 < i < |ts| :: ts[i] == ts[1..][i - 1];
    }
  }

  // ---- finite data is walked to its end ----

  /** What is left of the list after `k` rounds is finite, and as heavy as the rounds that are missing. */
  ghost predicate Owes(ty: Types, mem: Memory, tasks: seq<Task>, k: nat, total: nat, depth: nat) {
    && k <= |tasks| && AllFinite(ty, mem, tasks[k..], depth) && k + Weights(ty, mem, tasks[k..], depth) == total
  }

  lemma FirstOf(ty: Types, mem: Memory, ts: seq<Task>, depth: nat)
    requires AllFinite(ty, mem, ts, depth) && ts != []
    ensures Finite(ty, mem, ts[0], depth) && AllFinite(ty, mem, ts[1..], depth)
    ensures Weights(ty, mem, ts, depth) == Weight(ty, mem, ts[0], depth) + Weights(ty, mem, ts[1..], depth)
  {
    hide Finite, Weight;
    assert forall i | 0 <= i < |ts[1..]| :: ts[1..][i] == ts[i + 1];
  }

  lemma PushedFinite(ty: Types, mem: Memory, t: Task, depth: nat)
    requires Finite(ty, mem, t, depth)
    ensures AllFinite(ty, mem, Pushes(ty, mem, t), depth)
    ensures Weight(ty, mem, t, depth) == 1 + Weights(ty, mem, Pushes(ty, mem, t), depth)
  {
    hide Pushes;
    DeeperAll(ty, mem, Pushes(ty, mem, t), depth - 1);
  }

  lemma AllAppend(ty: Types, mem: Memory, a: seq<Task>, b: seq<Task>, depth: nat)
    requires AllFinite(ty, mem, a, depth) && AllFinite(ty, mem, b, depth)
    ensures AllFinite(ty, mem, a + b, depth)
  {
    hide Finite;
  }

  lemma RoundOwes(ty: Types, mem: Memory, tasks: seq<Task>, k: nat, total: nat, depth: nat)
    requires Owes(ty, mem, tasks, k, total, depth) && k < |tasks|
    ensures Owes(ty, mem, tasks + Pushes(ty, mem, tasks[k]), k + 1, total, depth)
  {
    hide Pushes, AllFinite, Weights, Finite, Weight;
    var p := Pushes(ty, mem, tasks[k]);
    var left, rest := tasks[k..], tasks[k + 1..];
    assert left[0] == tasks[k] && left[1..] == rest && (tasks + p)[k + 1..] == rest + p;
    FirstOf(ty, mem, left, depth);
    PushedFinite(ty, mem, left[0], depth);
    AllAppend(ty, mem, rest, p, depth);
    WeightsAppend(ty, mem, rest, p, depth);
  }

  lemma NoWeight(ty: Types, mem: Memory, ts: seq<Task>, depth: nat)
    ensures ts == [] ==> Weights(ty, mem, ts, depth) == 0
  {
  }

  lemma {:induction false} WalkOwes(ty: Types, mem: Memory, root: Task, k: nat, depth: nat)
    requires Finite(ty, mem, root, depth) && k <= Weight(ty, mem, root, depth)
    ensures Owes(ty, mem, Serialize(ty, mem, root, k).tasks, k, Weight(ty, mem, root, depth), depth)
    decreases k
  {
    hide Pushes, Finite, Weight, Output;
    if k == 0 {
      assert [root][1..] == [] && [root][0..] == [root];
      assert Weights(ty, mem, [root], depth) == Weight(ty, mem, root, depth) + Weights(ty, mem, [], depth);
    } else {
      WalkOwes(ty, mem, root, k - 1, depth);
      var tasks := Serialize(ty, mem, root, k - 1).tasks;
      NoWeight(ty, mem, tasks[k - 1..], depth);
      RoundOwes(ty, mem, tasks, k - 1, Weight(ty, mem, root, depth), depth);
    }
  }

  /** Finite data: after as many rounds as it has tasks, the list is at its end. */
  lemma FiniteEnds(ty: Types, mem: Memory, root: Task, depth: nat)
    requires Finite(ty, mem, root, depth)
    ensures |Serialize(ty, mem, root, Weight(ty, mem, root, depth)).tasks| == Weight(ty, mem, root, depth)
  {
    var k := Weight(ty, mem, root, depth);
    WalkOwes(ty, mem, root, k, depth);
    var left := Serialize(ty, mem, root, k).tasks[k..];
    hide Serialize;
    if left != [] {
      Heavy(ty, mem, left, depth);
    }
  }

  lemma Heavy(ty: Types, mem: Memory, ts: seq<Task>, depth: nat)
    requires AllFinite(ty, mem, ts, depth) && ts != []
    ensures Weights(ty, mem, ts, depth) > 0
  {
    hide Pushes;
    assert Finite(ty, mem, ts[0], depth);
  }

  // ---- a walk that ends was over finite data ----

  ghost predicate StandsAt(ty: Types, mem: Memory, tasks: seq<Task>, i: nat, kid: nat) {
    && i < kid && i < |tasks| && kid + |Pushes(ty, mem, tasks[i])| <= |tasks|
    && tasks[kid..kid + |Pushes(ty, mem, tasks[i])|] == Pushes(ty, mem, tasks[i])
  }

  /** What task `i` pushed stands behind it. */
  ghost predicate Behind(ty: Types, mem: Memory, tasks: seq<Task>, i: nat) {
    exists kid: nat :: StandsAt(ty, mem, tasks, i, kid)
  }

  lemma BehindStays(ty: Types, mem: Memory, tasks: seq<Task>, more: seq<Task>, i: nat)
    requires Behind(ty, mem, tasks, i)
    ensures Behind(ty, mem, tasks + more, i)
  {
    hide Pushes;
    var kid: nat :| StandsAt(ty, mem, tasks, i, kid);
    var n := |Pushes(ty, mem, tasks[i])|;
    assert (tasks + more)[kid..kid + n] == tasks[kid..kid + n];
    assert StandsAt(ty, mem, tasks + more, i, kid);
  }

  lemma BehindNew(ty: Types, mem: Memory, tasks: seq<Task>, i: nat)
    requires i < |tasks|
    ensures Behind(ty, mem, tasks + Pushes(ty, mem, tasks[i]), i)
  {
    hide Pushes;
    var p := Pushes(ty, mem, tasks[i]);
    assert (tasks + p)[|tasks|..|tasks| + |p|] == p;
    assert StandsAt(ty, mem, tasks + p, i, |tasks|);
  }

  lemma {:induction false} WalkBehind(ty: Types, mem: Memory, root: Task, k: nat, i: nat)
    requires i < k && i < |Serialize(ty, mem, root, k).tasks|
    ensures Behind(ty, mem, Serialize(ty, mem, root, k).tasks, i)
    decreases k
  {
    hide Pushes, Output, Behind;
    var tasks := Serialize(ty, mem, root, k - 1).tasks;
    if k - 1 < |tasks| {
      if i < k - 1 {
        WalkBehind(ty, mem, root, k - 1, i);
        BehindStays(ty, mem, tasks, Pushes(ty, mem, tasks[k - 1]), i);
      } else {
        BehindNew(ty, mem, tasks, i);
      }
    } else {
      WalkBehind(ty, mem, root, k - 1, i);
    }
  }

  lemma {:induction false} DeeperTo(ty: Types, mem: Memory, t: Task, depth: nat, more: nat)
    requires Finite(ty, mem, t, depth) && depth <= more
    ensures Finite(ty, mem, t, more)
    decreases more
  {
    hide Finite;
    if depth < more {
      DeeperTo(ty, mem, t, depth, more - 1);
      Deeper(ty, mem, t, more - 1);
    }
  }

  ghost predicate AllBehind(ty: Types, mem: Memory, tasks: seq<Task>) {
    forall i | 0 <= i < |tasks| :: Behind(ty, mem, tasks, i)
  }

  lemma FiniteIs(ty: Types, mem: Memory, t: Task, depth: nat)
    requires depth > 0
    ensures Finite(ty, mem, t, depth) == AllFinite(ty, mem, Pushes(ty, mem, t), depth - 1)
  {
    hide Pushes, AllFinite;
  }

  lemma {:induction false} BehindFinite(ty: Types, mem: Memory, tasks: seq<Task>, i: nat)
    requires AllBehind(ty, mem, tasks) && i < |tasks|
    ensures Finite(ty, mem, tasks[i], |tasks| - i)
    decreases |tasks| - i
  {
    hide *;
    BehindAt(ty, mem, tasks, i);
    var kid := KidOf(ty, mem, tasks, i);
    forall j | 0 <= j < |Pushes(ty, mem, tasks[i])|
      ensures Finite(ty, mem, Pushes(ty, mem, tasks[i])[j], |tasks| - i - 1) {
      PushedAt(ty, mem, tasks, i, kid, j);
      BehindFinite(ty, mem, tasks, kid + j);
      DeeperTo(ty, mem, tasks[kid + j], |tasks| - (kid + j), |tasks| - i - 1);
    }
    AllIs(ty, mem, Pushes(ty, mem, tasks[i]), |tasks| - i - 1);
    FiniteIs(ty, mem, tasks[i], |tasks| - i);
  }

  lemma BehindAt(ty: Types, mem: Memory, tasks: seq<Task>, i: nat)
    requires AllBehind(ty, mem, tasks) && i < |tasks|
    ensures Behind(ty, mem, tasks, i)
  {
    hide Behind;
  }

  lemma KidOf(ty: Types, mem: Memory, tasks: seq<Task>, i: nat) returns (kid: nat)
    requires Behind(ty, mem, tasks, i)
    ensures StandsAt(ty, mem, tasks, i, kid)
  {
    hide StandsAt;
    kid :| StandsAt(ty, mem, tasks, i, kid);
  }

  lemma AllIs(ty: Types, mem: Memory, ts: seq<Task>, depth: nat)
    requires forall i | 0 <= i < |ts| :: Finite(ty, mem, ts[i], depth)
    ensures AllFinite(ty, mem, ts, depth)
  {
    hide Finite;
  }

  lemma PushedAt(ty: Types, mem: Memory, tasks: seq<Task>, i: nat, kid: nat, j: nat)
    requires StandsAt(ty, mem, tasks, i, kid) && j < |Pushes(ty, mem, tasks[i])|
    ensures i < kid && kid + j < |tasks| && Pushes(ty, mem, tasks[i])[j] == tasks[kid + j]
  {
    hide Pushes;
    assert tasks[kid..kid + |Pushes(ty, mem, tasks[i])|][j] == tasks[kid + j];
  }

  lemma EndedFinite(ty: Types, mem: Memory, root: Task, k: nat)
    requires Ends(ty, mem, root, k)
    ensures Finite(ty, mem, root, |Serialize(ty, mem, root, k).tasks|)
  {
    var tasks := Serialize(ty, mem, root, k).tasks;
    RootFirst(ty, mem, root, k);
    hide Serialize, Finite, Behind;
    forall i | 0 <= i < |tasks| ensures Behind(ty, mem, tasks, i) {
      WalkBehind(ty, mem, root, k, i);
    }
    BehindFinite(ty, mem, tasks, 0);
  }

  /** The serializer ends exactly on finite data: on data without a cycle of followed pointers. */
  lemma EndsExactly(ty: Types, mem: Memory, root: Task)
    ensures (exists k :: Ends(ty, mem, root, k)) <==> exists depth :: Finite(ty, mem, root, depth)
  {
    hide Finite, Serialize, Weight;
    if k :| Ends(ty, mem, root, k) {
      EndedFinite(ty, mem, root, k);
    }
    if depth :| Finite(ty, mem, root, depth) {
      FiniteEnds(ty, mem, root, depth);
      assert Ends(ty, mem, root, Weight(ty, mem, root, depth));
    }
  }

  predicate Ends(ty: Types, mem: Memory, root: Task, k: nat) { |Serialize(ty, mem, root, k).tasks| <= k }
}
