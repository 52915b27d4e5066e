/** Data in one buffer, byte by byte: what of it the copy keeps, whether it is walked whole or not. */
module TypedBytes {
  import opened Basics
  import opened Bytes
  import opened TypedData
  import opened TypedProofs
  import opened TypedCopy

  /** No task follows a counted pointer. */
  predicate OneBuffer(ty: Types, ts: seq<Task>) { forall j | 0 <= j < |ts| :: !Follows(ty, ts[j]) }

  /** A task is as far into the copy as it is into the source. */
  predicate SamePlace(root: Task, s: Task, d: Task) { s.at == root.at + d.at }

  lemma KidPlace(ty: Types, mem: Memory, base: nat, under: set<(Option<nat>, nat)>, sl: seq<Task>, dl: seq<Task>,
                 heap: seq<Byte>, kids: seq<nat>, root: Task, j: nat, x: nat)
    requires Finished(ty, mem, base, under, sl, dl, heap, kids) && j < |sl| && j < |dl| && j < |kids|
    requires !Follows(ty, sl[j]) && SamePlace(root, sl[j], dl[j])
    requires kids[j] <= x < kids[j] + |Pushes(ty, mem, sl[j])|
    ensures x < |sl| && x < |dl| && SamePlace(root, sl[x], dl[x])
  {
    FinishedMatch(ty, mem, base, under, sl, dl, heap, kids, j);
    FlattenKid(ty, mem, base, sl, dl, heap, j, kids[j], x - kids[j]);
    FlattenMatch(ty, sl[j], dl[j]);
    hide Finished, Settled, Flatten;
  }

  lemma {:induction false} Places(ty: Types, mem: Memory, base: nat, under: set<(Option<nat>, nat)>, root: Task, k: nat,
                                  sl: seq<Task>, dl: seq<Task>, heap: seq<Byte>, kids: seq<nat>, x: nat)
    requires Ended(ty, mem, base, under, root, k, sl, dl, heap, kids) && x < |sl| && OneBuffer(ty, sl)
    requires |dl| > 0 && sl[0] == root && dl[0] == AtHeap(root)
    ensures x < |dl| && SamePlace(root, sl[x], dl[x])
    decreases x
  {
    if x > 0 {
      var j := ParentOf(ty, mem, root, k, x);
      hide Pushes, Serialize, Finished;
      FinishedMatch(ty, mem, base, under, sl, dl, heap, kids, j);
      hide Settled;
      Places(ty, mem, base, under, root, k, sl, dl, heap, kids, j);
      KidPlace(ty, mem, base, under, sl, dl, heap, kids, root, j, x);
    }
  }

  /** Then there is no buffer but the first. */
  lemma {:induction false} FirstBuffer(ty: Types, data: seq<Byte>, base: nat, root: Task, k: nat)
    requires OneBuffer(ty, Deserialize(ty, data, base, root, k).tasks)
    ensures |Deserialize(ty, data, base, root, k).heap| == SizeOf(ty, root.typ)
  {
    hide Flatten, Consumed, Written, HeapCount, Follows;
    if k > 0 {
      var r := Deserialize(ty, data, base, root, k - 1);
      var r' := Deserialize(ty, data, base, root, k);
      assert r.tasks <= r'.tasks;
      assert forall j | 0 <= j < |r.tasks| :: r.tasks[j] == r'.tasks[j];
      FirstBuffer(ty, data, base, root, k - 1);
    }
  }

  /** A byte that is written is copied when its task's index returns. */
  lemma CoveredByte(ty: Types, mem: Memory, base: nat, sl: seq<Task>, dl: seq<Task>, heap: seq<Byte>, kid: nat,
                    root: Task, j: nat, x: nat)
    requires j < |sl| && j < |dl| && Settled(ty, mem, base, sl, dl, heap, j, kid) && !Follows(ty, dl[j])
    requires Covering(ty, dl[j], x) && SamePlace(root, sl[j], dl[j]) && Returns(ty, mem, sl[j])
    ensures x < |heap| && heap[x] == mem(root.at + x)
  {
    SettledCopied(ty, mem, base, sl, dl, heap, j, kid);
    var n := Wrote(ty, dl[j]);
    hide Returns, Wrote, Settled;
    assert heap[dl[j].at..dl[j].at + n][x - dl[j].at] == Load(mem, sl[j].at, n)[x - dl[j].at];
  }

  /** And if all bytes are the same, the index returned. */
  lemma SameReturns(ty: Types, mem: Memory, base: nat, sl: seq<Task>, dl: seq<Task>, heap: seq<Byte>, kid: nat,
                    root: Task, j: nat)
    requires j < |sl| && j < |dl| && Settled(ty, mem, base, sl, dl, heap, j, kid) && !Follows(ty, dl[j])
    requires SamePlace(root, sl[j], dl[j]) && heap == Load(mem, root.at, |heap|)
    ensures Returns(ty, mem, sl[j])
  {
    SettledCopied(ty, mem, base, sl, dl, heap, j, kid);
    assert dl[j].at + Wrote(ty, dl[j]) <= |heap|;
    var n := Wrote(ty, dl[j]);
    hide Returns, Wrote, Settled;
    assert heap[dl[j].at..dl[j].at + n] == Load(mem, sl[j].at, n);
  }

  /** The bytes that no task of the copy writes are zero in the source. */
  ghost predicate LostAreZero(ty: Types, mem: Memory, root: Task, dl: seq<Task>, k: nat, size: nat) {
    forall x: nat | x < size && !WrittenBy(ty, dl, k, x) :: mem(root.at + x) == 0
  }

  lemma EachByte(ty: Types, mem: Memory, base: nat, under: set<(Option<nat>, nat)>, root: Task, k: nat,
                 sl: seq<Task>, dl: seq<Task>, heap: seq<Byte>, kids: seq<nat>, x: nat)
    requires Ended(ty, mem, base, under, root, k, sl, dl, heap, kids) && OneBuffer(ty, sl) && AllReturn(ty, mem, sl)
    requires |dl| > 0 && |sl| > 0 && sl[0] == root && dl[0] == AtHeap(root)
    requires WrittenBy(ty, dl, k, x)
    ensures x < |heap| && heap[x] == mem(root.at + x)
  {
    var j: nat :| j < k && j < |dl| && Covering(ty, dl[j], x);
    hide Finished, Settled, Covering, Returns, Follows;
    SameLength(ty, mem, base, under, sl, dl, heap, kids);
    FinishedMatch(ty, mem, base, under, sl, dl, heap, kids, j);
    Places(ty, mem, base, under, root, k, sl, dl, heap, kids, j);
    NotFollowed(ty, sl[j], dl[j]);
    CoveredByte(ty, mem, base, sl, dl, heap, kids[j], root, j, x);
  }

  lemma SameLength(ty: Types, mem: Memory, base: nat, under: set<(Option<nat>, nat)>, sl: seq<Task>, dl: seq<Task>,
                   heap: seq<Byte>, kids: seq<nat>)
    requires Finished(ty, mem, base, under, sl, dl, heap, kids)
    ensures |sl| == |dl|
  {
  }

  lemma NotFollowed(ty: Types, s: Task, d: Task)
    requires Match(s, d) && !Follows(ty, s)
    ensures !Follows(ty, d)
  {
  }

  lemma {:induction false} CopiedOneBuffer(ty: Types, mem: Memory, base: nat, under: set<(Option<nat>, nat)>,
                                           sl: seq<Task>, dl: seq<Task>, heap: seq<Byte>, kids: seq<nat>)
    requires Finished(ty, mem, base, under, sl, dl, heap, kids) && OneBuffer(ty, sl)
    ensures OneBuffer(ty, dl)
  {
    hide Follows, Settled, Match;
    SameLength(ty, mem, base, under, sl, dl, heap, kids);
    forall j | 0 <= j < |dl| ensures !Follows(ty, dl[j]) {
      FinishedMatch(ty, mem, base, under, sl, dl, heap, kids, j);
      NotFollowed(ty, sl[j], dl[j]);
    }
  }

  /** All of the bytes of data in one buffer are in the copy exactly when every index returns and what is not serialized
      (skipped members, padding, and whatever the walk leaves out) is zero. */
  lemma BytesExactly(ty: Types, mem: Memory, base: nat, under: set<(Option<nat>, nat)>, root: Task, k: nat)
    requires TypesOk(ty) && Covers(ty, under) && RootOk(ty, under, root) && |Serialize(ty, mem, root, k).tasks| <= k
    requires base + |Deserialize(ty, Serialize(ty, mem, root, k).out, base, AtHeap(root), k).heap| < WORD
    requires OneBuffer(ty, Serialize(ty, mem, root, k).tasks)
    ensures
      var w := Serialize(ty, mem, root, k);
      var r := Deserialize(ty, w.out, base, AtHeap(root), k);
      && |r.heap| == SizeOf(ty, root.typ)
      && (r.heap == Load(mem, root.at, SizeOf(ty, root.typ)) <==>
            AllReturn(ty, mem, w.tasks) && LostAreZero(ty, mem, root, r.tasks, k, SizeOf(ty, root.typ)))
  {
    var kids := CopyEnds(ty, mem, base, under, root, k);
    var w := Serialize(ty, mem, root, k);
    var r := Deserialize(ty, w.out, base, AtHeap(root), k);
    hide Serialize, Deserialize, TypesOk, Covers, RootOk, OneBuffer, AllReturn, LostAreZero, Finished;
    CopiedOneBuffer(ty, mem, base, under, w.tasks, r.tasks, r.heap, kids);
    FirstBuffer(ty, w.out, base, AtHeap(root), k);
    if r.heap == Load(mem, root.at, |r.heap|) {
      SameAll(ty, mem, base, under, root, k, w.tasks, r.tasks, r.heap, kids);
      LostFromCopy(ty, mem, w.out, base, root, k);
    }
    if AllReturn(ty, mem, w.tasks) && LostAreZero(ty, mem, root, r.tasks, k, |r.heap|) {
      CopyFromLost(ty, mem, base, under, root, k, w.tasks, w.out, kids);
    }
  }

  lemma SameAll(ty: Types, mem: Memory, base: nat, under: set<(Option<nat>, nat)>, root: Task, k: nat,
                sl: seq<Task>, dl: seq<Task>, heap: seq<Byte>, kids: seq<nat>)
    requires Ended(ty, mem, base, under, root, k, sl, dl, heap, kids) && OneBuffer(ty, sl)
    requires |dl| > 0 && |sl| > 0 && sl[0] == root && dl[0] == AtHeap(root) && heap == Load(mem, root.at, |heap|)
    ensures AllReturn(ty, mem, sl)
  {
    hide Finished, Settled, Returns, Follows, Load;
    forall j | 0 <= j < |sl| ensures Returns(ty, mem, sl[j]) {
      SameLength(ty, mem, base, under, sl, dl, heap, kids);
      FinishedMatch(ty, mem, base, under, sl, dl, heap, kids, j);
      Places(ty, mem, base, under, root, k, sl, dl, heap, kids, j);
      NotFollowed(ty, sl[j], dl[j]);
      SameReturns(ty, mem, base, sl, dl, heap, kids[j], root, j);
    }
  }

  lemma LostFromCopy(ty: Types, mem: Memory, data: seq<Byte>, base: nat, root: Task, k: nat)
    requires
      var r := Deserialize(ty, data, base, AtHeap(root), k);
      r.heap == Load(mem, root.at, |r.heap|)
    ensures
      var r := Deserialize(ty, data, base, AtHeap(root), k);
      LostAreZero(ty, mem, root, r.tasks, k, |r.heap|)
  {
    hide Deserialize, WrittenBy;
    var r := Deserialize(ty, data, base, AtHeap(root), k);
    forall x: nat | x < |r.heap| && !WrittenBy(ty, r.tasks, k, x) ensures mem(root.at + x) == 0 {
      UnwrittenIsZero(ty, data, base, AtHeap(root), k, x);
      assert r.heap[x] == Load(mem, root.at, |r.heap|)[x];
    }
  }

  lemma CopyFromLost(ty: Types, mem: Memory, base: nat, under: set<(Option<nat>, nat)>, root: Task, k: nat,
                     sl: seq<Task>, data: seq<Byte>, kids: seq<nat>)
    requires
      var r := Deserialize(ty, data, base, AtHeap(root), k);
      && Ended(ty, mem, base, under, root, k, sl, r.tasks, r.heap, kids) && OneBuffer(ty, sl) && AllReturn(ty, mem, sl)
      && |r.tasks| > 0 && |sl| > 0 && sl[0] == root && r.tasks[0] == AtHeap(root)
      && LostAreZero(ty, mem, root, r.tasks, k, |r.heap|)
    ensures
      var r := Deserialize(ty, data, base, AtHeap(root), k);
      r.heap == Load(mem, root.at, |r.heap|)
  {
    hide Deserialize, WrittenBy, Finished, OneBuffer, AllReturn;
    var r := Deserialize(ty, data, base, AtHeap(root), k);
    forall x: nat | x < |r.heap| ensures r.heap[x] == mem(root.at + x) {
      if WrittenBy(ty, r.tasks, k, x) {
        EachByte(ty, mem, base, under, root, k, sl, r.tasks, r.heap, kids, x);
      } else {
        UnwrittenIsZero(ty, data, base, AtHeap(root), k, x);
      }
    }
  }
}
