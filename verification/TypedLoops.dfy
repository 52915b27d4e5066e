/** The two worklist loops. Nothing bounds the lists but the data. */
module TypedLoops {
  import opened Basics
  import opened Bytes
  import opened TypedData
  import opened TypedProofs
  import opened TypedFinite
  import opened TypedCopy
  import opened TypedKept

  method PtrRefInfo(refs: seq<RefInfo>, typ: nat) returns (r: Option<RefInfo>)
    ensures r == FindRef(refs, typ)
  {
    var i := 0;
    while i < |refs| && refs[i].typ != typ
      invariant i <= |refs| && FindRef(refs, typ) == FindRef(refs[i..], typ)
    {
      i := i + 1;
    }
    r := if i < |refs| then Some(refs[i]) else None;
  }

  method MemberFromName(ms: seq<Member>, name: string) returns (r: Option<Member>)
    ensures r == FindMember(ms, name)
  {
    var i := 0;
    while i < |ms| && ms[i].name != name
      invariant i <= |ms| && FindMember(ms, name) == FindMember(ms[i..], name)
    {
      i := i + 1;
    }
    r := if i < |ms| then Some(ms[i]) else None;
  }

  /** The members of one element behind the tasks there are. */
  method PushMembers(ms: seq<Member>, ctype: nat, at: nat, cptr: nat, tasks: seq<Task>) returns (all: seq<Task>)
    ensures all == tasks + MemberTasks(ms, ctype, at, cptr)
  {
    all := tasks;
    var i := 0;
    while i < |ms|
      invariant i <= |ms| && all + MemberTasks(ms[i..], ctype, at, cptr) == tasks + MemberTasks(ms, ctype, at, cptr)
    {
      ghost var was := all;
      if !ms[i].skip {
        all := all + [Task(ms[i].typ, 1, at + ms[i].off, Some(ctype), cptr, false)];
      }
      NextMember(ms, i, ctype, at, cptr, was, all);
      i := i + 1;
    }
    assert all + [] == all;
  }

  lemma NextMember(ms: seq<Member>, i: nat, ctype: nat, at: nat, cptr: nat, was: seq<Task>, all: seq<Task>)
    requires i < |ms|
    requires all == was + (if ms[i].skip then [] else [Task(ms[i].typ, 1, at + ms[i].off, Some(ctype), cptr, false)])
    ensures all + MemberTasks(ms[i + 1..], ctype, at, cptr) == was + MemberTasks(ms[i..], ctype, at, cptr)
  {
    assert ms[i..][1..] == ms[i + 1..];
  }

  method PushElements(ty: Types, t: Task, tasks: seq<Task>) returns (all: seq<Task>)
    requires Known(ty, t.typ)
    ensures all == tasks + ElementTasks(ty, t, t.count)
  {
    all := tasks;
    var i := 0;
    while i < t.count
      invariant i <= t.count && all == tasks + ElementTasks(ty, t, i)
    {
      var d := i * SizeOf(ty, t.typ);
      ElementsNext(ty, t, i + 1, d);
      all := PushMembers(ty.env[t.typ].members, t.typ, t.at + d, t.at, all);
      i := i + 1;
    }
  }

  /** What a task that neither reads nor writes leaves behind. */
  method PushFlattened(ty: Types, t: Task, tasks: seq<Task>) returns (all: seq<Task>)
    ensures all == tasks + Flatten(ty, t)
  {
    hide ElementTasks;
    all := tasks;
    match KindOf(ty, t.typ) {
      case Array => all := all + [t.(typ := Direct(ty, t.typ), count := ty.env[t.typ].count, post := false)];
      case Enum => all := all + [t.(typ := Direct(ty, t.typ), post := false)];
      case Struct => all := PushElements(ty, t, tasks);
      case Pointer =>
        if PtrUseOf(ty, t.typ) == Counted && !t.post {
          all := all + [t.(post := true)];
        }
      case _ =>
    }
  }

  method InterpretPointer(ty: Types, typ: nat) returns (u: PtrUse)
    ensures u == PtrUseOf(ty, typ)
  {
    var r := PtrRefInfo(ty.refs, Direct(ty, typ));
    if r.Some? && r.value.indexBase != 0 {
      u := Indexed(r.value.indexBase);
    } else if r.Some? && r.value.offsetBase != 0 {
      u := Offset(r.value.offsetBase);
    } else if Delim(ty, typ) != "" {
      u := Counted;
    } else {
      u := Plain;
    }
  }

  method ReadCount(ty: Types, mem: Memory, t: Task) returns (count: nat)
    ensures count == CountAt(ty, mem, t)
  {
    count := 0;
    if t.ctype.Some? && Known(ty, t.ctype.value) {
      var m := MemberFromName(ty.env[t.ctype.value].members, Delim(ty, t.typ));
      if m.Some? {
        count := Value(Load(mem, t.cptr + m.value.off, SizeOf(ty, m.value.typ)));
      }
    }
  }

  /** One round of the serializer. */
  method SerializeOne(ty: Types, mem: Memory, t: Task, tasks: seq<Task>, out: seq<Byte>)
    returns (tasks': seq<Task>, out': seq<Byte>)
    ensures tasks' == tasks + Pushes(ty, mem, t) && out' == out + Output(ty, mem, t)
  {
    hide Flatten, CountAt, Encode, LoadPtr, PtrUseOf;
    tasks', out' := tasks, out;
    match KindOf(ty, t.typ) {
      case Leaf => out' := out + Load(mem, t.at, SizeOf(ty, t.typ) * t.count);
      case Pointer =>
        var u := InterpretPointer(ty, t.typ);
        match u {
          case Indexed(b) => out' :=
            out + Encode((LoadPtr(mem, t.at) - b) % WORD / DivBy(SizeOf(ty, Direct(ty, t.typ))), PTR);
          case Offset(b) => out' := out + Encode((LoadPtr(mem, t.at) - b) % WORD, PTR);
          case Counted =>
            if t.post {
              var count := ReadCount(ty, mem, t);
              tasks' := tasks + [Task(Direct(ty, t.typ), count, LoadPtr(mem, t.at), t.ctype, t.cptr, false)];
              return;
            }
          case Plain => out' := out + Load(mem, t.at, SizeOf(ty, t.typ) * t.count);
        }
      case _ =>
    }
    tasks' := PushFlattened(ty, t, tasks);
  }

  lemma {:induction false} Done(ty: Types, mem: Memory, root: Task, i: nat, k: nat)
    requires i <= k && |Serialize(ty, mem, root, i).tasks| <= i
    ensures Serialize(ty, mem, root, k) == Serialize(ty, mem, root, i)
    decreases k
  {
    hide Pushes, Output;
    if i < k {
      Done(ty, mem, root, i, k - 1);
    }
  }

  lemma SerializeStart(ty: Types, mem: Memory, root: Task)
    ensures Serialize(ty, mem, root, 0) == Writing([root], [])
  {
  }

  lemma SerializeNext(ty: Types, mem: Memory, root: Task, i: nat)
    requires i < |Serialize(ty, mem, root, i).tasks|
    ensures
      var w := Serialize(ty, mem, root, i);
      Serialize(ty, mem, root, i + 1)
        == Writing(w.tasks + Pushes(ty, mem, w.tasks[i]), w.out + Output(ty, mem, w.tasks[i]))
  {
    hide Pushes, Output;
  }

  /** Finite data is written in as many rounds as it has tasks. */
  method SerializedFromTypedData(ty: Types, mem: Memory, root: Task, ghost depth: nat) returns (out: seq<Byte>)
    requires Finite(ty, mem, root, depth)
    ensures out == Serialize(ty, mem, root, Weight(ty, mem, root, depth)).out
  {
    hide *;
    ghost var k := Weight(ty, mem, root, depth);
    FiniteEnds(ty, mem, root, depth);
    SerializeStart(ty, mem, root);
    var tasks := [root];
    out := [];
    var i := 0;
    while i < |tasks|
      invariant i <= |tasks| && i <= k && Serialize(ty, mem, root, i) == Writing(tasks, out)
      decreases k - i
    {
      SerializeNext(ty, mem, root, i);
      tasks, out := SerializeOne(ty, mem, tasks[i], tasks, out);
      i := i + 1;
    }
    Done(ty, mem, root, i, k);
  }

  /** One round of the deserializer, with the bytes it copies written into the buffers. */
  method DeserializeOne(ty: Types, data: seq<Byte>, base: nat, t: Task, r: Reading) returns (r': Reading)
    ensures r' == DeserializeTask(ty, data, base, r, t)
  {
    hide Flatten, CountAt, Encode, PtrUseOf, Overwrite, Slice;
    var tasks, heap, off := r.tasks, r.heap, r.off;
    match KindOf(ty, t.typ) {
      case Leaf =>
        heap := Overwrite(heap, t.at, Slice(data, off, off + SizeOf(ty, t.typ) * t.count));
        off := off + SizeOf(ty, t.typ) * t.count;
      case Pointer =>
        var u := InterpretPointer(ty, t.typ);
        match u {
          case Indexed(b) =>
            var value := (Value(Slice(data, off, off + PTR)) + b) * SizeOf(ty, Direct(ty, t.typ)) % WORD;
            heap := Overwrite(heap, t.at, Encode(value, PTR));
            off := off + PTR;
          case Offset(b) =>
            heap := Overwrite(heap, t.at, Encode((Value(Slice(data, off, off + PTR)) + b) % WORD, PTR));
            off := off + PTR;
          case Counted =>
            if t.post {
              var count := ReadCount(ty, HeapMemory(heap, base), t.(cptr := base + t.cptr));
              tasks := tasks + [Task(Direct(ty, t.typ), count, |heap|, t.ctype, t.cptr, false)];
              heap := Overwrite(heap, t.at, Encode(base + |heap|, PTR)) + Repeat(0, Room(ty, t, count));
              return Reading(tasks, heap, off);
            }
            NothingOver(heap, t.at);
          case Plain =>
            heap := Overwrite(heap, t.at, Slice(data, off, off + SizeOf(ty, t.typ) * t.count));
            off := off + SizeOf(ty, t.typ) * t.count;
        }
      case _ =>
        NothingOver(heap, t.at);
    }
    tasks := PushFlattened(ty, t, tasks);
    r' := Reading(tasks, heap, off);
  }

  lemma NothingOver(heap: seq<Byte>, at: nat)
    ensures Overwrite(heap, at, []) == heap
  {
  }

  /** On any bytes: the loop ends when some number `k` of rounds leaves no task. */
  method DeserializedFromTypedData(ty: Types, data: seq<Byte>, base: nat, root: Task, ghost k: nat) returns (r: Reading)
    requires |Deserialize(ty, data, base, root, k).tasks| <= k
    ensures r == Deserialize(ty, data, base, root, k)
  {
    hide DeserializeTask;
    r := Reading([root], Repeat(0, SizeOf(ty, root.typ)), 0);
    var i := 0;
    while i < |r.tasks|
      invariant i <= |r.tasks| && i <= k && Deserialize(ty, data, base, root, i) == r
      decreases k - i
    {
      ghost var was := r;
      r := DeserializeOne(ty, data, base, r.tasks[i], r);
      TasksStay(ty, data, base, was, was.tasks[i]);
      i := i + 1;
    }
    DoneReading(ty, data, base, root, i, k);
  }

  lemma {:induction false} DoneReading(ty: Types, data: seq<Byte>, base: nat, root: Task, i: nat, k: nat)
    requires i <= k && |Deserialize(ty, data, base, root, i).tasks| <= i
    ensures Deserialize(ty, data, base, root, k) == Deserialize(ty, data, base, root, i)
    decreases k
  {
    hide DeserializeTask;
    if i < k {
      DoneReading(ty, data, base, root, i, k - 1);
    }
  }

  /** Deep copy of finite data: what the new buffers hold is what was walked, to any depth, exactly when every index
      returns; and then it is all of the data where the walk is. */
  method DeepCopyFromTypedData(ty: Types, mem: Memory, base: nat, root: Task, ghost walk: nat,
                               ghost under: set<(Option<nat>, nat)>)
    returns (heap: seq<Byte>)
    requires TypesOk(ty) && Covers(ty, under) && RootOk(ty, under, root) && Finite(ty, mem, root, walk)
    ensures base + |heap| < WORD ==>
      (SameWalk(ty, mem, heap, base, root)
       <==> AllReturn(ty, mem, Serialize(ty, mem, root, Weight(ty, mem, root, walk)).tasks))
    ensures base + |heap| < WORD && SameWalk(ty, mem, heap, base, root) ==>
      forall depth: nat | Walked(ty, mem, root, root.cptr, depth) :: SameWhole(ty, mem, heap, base, root, depth)
  {
    hide *;
    ghost var k := Weight(ty, mem, root, walk);
    FiniteEnds(ty, mem, root, walk);
    var data := SerializedFromTypedData(ty, mem, root, walk);
    assert data <= data;
    ghost var kids := Lockstep(ty, mem, base, under, root, data, k);
    var r := DeserializedFromTypedData(ty, data, base, AtHeap(root), k);
    heap := r.heap;
    if base + |heap| < WORD {
      SameWalkExactly(ty, mem, base, under, root, k);
      forall depth: nat | SameWalk(ty, mem, heap, base, root) && Walked(ty, mem, root, root.cptr, depth)
        ensures SameWhole(ty, mem, heap, base, root, depth)
      {
        SameWholeAt(ty, mem, base, under, root, k, depth);
      }
    }
  }

  /** The walked data is in the copy, to any depth. */
  ghost predicate SameWalk(ty: Types, mem: Memory, heap: seq<Byte>, base: nat, root: Task) {
    forall depth: nat :: EqualTo(ty, mem, base, root, AtHeap(root), heap, depth)
  }

  /** All of the data is in the copy. */
  predicate SameWhole(ty: Types, mem: Memory, heap: seq<Byte>, base: nat, root: Task, depth: nat) {
    WholeTree(ty, HeapMemory(heap, base), Placed(AtHeap(root), base), depth) == WholeTree(ty, mem, root, depth)
  }

  lemma SameWalkExactly(ty: Types, mem: Memory, base: nat, under: set<(Option<nat>, nat)>, root: Task, k: nat)
    requires TypesOk(ty) && Covers(ty, under) && RootOk(ty, under, root) && |Serialize(ty, mem, root, k).tasks| <= k
    requires base + |Deserialize(ty, Serialize(ty, mem, root, k).out, base, AtHeap(root), k).heap| < WORD
    ensures
      SameWalk(ty, mem, Deserialize(ty, Serialize(ty, mem, root, k).out, base, AtHeap(root), k).heap, base, root)
      <==> AllReturn(ty, mem, Serialize(ty, mem, root, k).tasks)
  {
    hide Serialize, Deserialize, TypesOk, Covers, RootOk, EqualTo, AllReturn;
    DeepCopyExactly(ty, mem, base, under, root, k);
  }

  lemma SameWholeAt(ty: Types, mem: Memory, base: nat, under: set<(Option<nat>, nat)>, root: Task, k: nat, depth: nat)
    requires TypesOk(ty) && Covers(ty, under) && RootOk(ty, under, root) && |Serialize(ty, mem, root, k).tasks| <= k
    requires base + |Deserialize(ty, Serialize(ty, mem, root, k).out, base, AtHeap(root), k).heap| < WORD
    requires AllReturn(ty, mem, Serialize(ty, mem, root, k).tasks) && Walked(ty, mem, root, root.cptr, depth)
    ensures SameWhole(ty, mem, Deserialize(ty, Serialize(ty, mem, root, k).out, base, AtHeap(root), k).heap, base, root,
                      depth)
  {
    WholeCopy(ty, mem, base, under, root, k, depth);
    hide Serialize, Deserialize, TypesOk, Covers, RootOk, AllReturn, Walked, WholeTree;
  }
}
