/** What a copy keeps, exactly: the walk, when every index returns; and all of the data, when the walk is all of it. */
module TypedCopy {
  import opened Basics
  import opened TypedData
  import opened TypedProofs
  import opened TypedWhole

  // ---- equal copies have indices that return ----

  /** Where the tasks that task `j` pushed begin. */
  function KidAt(ty: Types, mem: Memory, root: Task, j: nat): nat { |Serialize(ty, mem, root, j).tasks| }

  lemma {:induction false} TasksGrow(ty: Types, mem: Memory, root: Task, j: nat, k: nat)
    requires j <= k
    ensures Serialize(ty, mem, root, j).tasks <= Serialize(ty, mem, root, k).tasks
    decreases k
  {
    hide Pushes, Output;
    if j < k {
      TasksGrow(ty, mem, root, j, k - 1);
    }
  }

  /** Every task but the root was pushed by an earlier one. */
  lemma {:induction false} ParentOf(ty: Types, mem: Memory, root: Task, k: nat, x: nat) returns (j: nat)
    requires 0 < x < |Serialize(ty, mem, root, k).tasks|
    ensures j < k && j < x && j < |Serialize(ty, mem, root, k).tasks|
    ensures KidAt(ty, mem, root, j)
            <= x < KidAt(ty, mem, root, j) + |Pushes(ty, mem, Serialize(ty, mem, root, k).tasks[j])|
    decreases k
  {
    hide Pushes, Output;
    var before := Serialize(ty, mem, root, k - 1).tasks;
    TasksGrow(ty, mem, root, k - 1, k);
    if x < |before| {
      j := ParentOf(ty, mem, root, k - 1, x);
    } else {
      j := k - 1;
    }
  }

  /** The tasks the two loops have, side by side, when both are at their end. */
  ghost predicate Ended(ty: Types, mem: Memory, base: nat, under: set<(Option<nat>, nat)>, root: Task, k: nat,
                        sl: seq<Task>, dl: seq<Task>, heap: seq<Byte>, kids: seq<nat>)
  {
    && Finished(ty, mem, base, under, sl, dl, heap, kids) && sl == Serialize(ty, mem, root, k).tasks && |sl| <= k
    && forall j | 0 <= j < |kids| :: kids[j] == KidAt(ty, mem, root, j)
  }

  /** The data at task `i` is the same in the copy, to any depth. */
  ghost predicate EqualAt(ty: Types, mem: Memory, base: nat, sl: seq<Task>, dl: seq<Task>, heap: seq<Byte>, i: nat)
    requires i < |sl| && i < |dl|
  {
    forall depth: nat :: EqualTo(ty, mem, base, sl[i], dl[i], heap, depth)
  }

  predicate EqualTo(ty: Types, mem: Memory, base: nat, s: Task, d: Task, heap: seq<Byte>, depth: nat) {
    TreeOf(ty, HeapMemory(heap, base), Placed(d, base), depth) == TreeOf(ty, mem, s, depth)
  }

  lemma TreeIgnoresPost(ty: Types, mem: Memory, t: Task, depth: nat)
    requires KindOf(ty, t.typ) == Pointer && PtrUseOf(ty, t.typ) == Counted
    ensures TreeOf(ty, mem, t.(post := true), depth) == TreeOf(ty, mem, t, depth)
  {
    if depth > 0 {
      RefOf(ty, mem, t, depth);
      RefOf(ty, mem, t.(post := true), depth);
      PointeeIgnoresPost(ty, mem, t);
      hide TreeOf, Pointee;
    }
  }

  /** If two runs of members are equal, so is each. */
  lemma EqualMember(ty: Types, mem: Memory, base: nat, s: Task, d: Task, heap: seq<Byte>, depth: nat, c: nat)
    requires Match(s, d) && KindOf(ty, s.typ) != Leaf && KindOf(ty, s.typ) != Pointer
             && EqualTo(ty, mem, base, s, d, heap, depth + 1)
    requires c < |Flatten(ty, s)| == |Flatten(ty, d)|
    ensures EqualTo(ty, mem, base, Flatten(ty, s)[c], Flatten(ty, d)[c], heap, depth)
  {
    FlattenPlaced(ty, d, base);
    NodeOf(ty, mem, s, depth + 1);
    NodeOf(ty, HeapMemory(heap, base), Placed(d, base), depth + 1);
    hide TreeOf, Flatten, HeapMemory;
    TreesAt(ty, mem, Flatten(ty, s), depth, c);
    TreesAt(ty, HeapMemory(heap, base), Flatten(ty, Placed(d, base)), depth, c);
  }

  lemma EqualPointee(ty: Types, mem: Memory, base: nat, under: set<(Option<nat>, nat)>, sl: seq<Task>, dl: seq<Task>,
                     heap: seq<Byte>, kids: seq<nat>, j: nat)
    requires Finished(ty, mem, base, under, sl, dl, heap, kids) && j < |sl| && j < |dl| && Follows(ty, sl[j])
    requires Match(sl[j], dl[j]) && EqualAt(ty, mem, base, sl, dl, heap, j)
    ensures j < |kids| && kids[j] < |sl| && kids[j] < |dl| && EqualAt(ty, mem, base, sl, dl, heap, kids[j])
  {
    PointeePlaced(ty, mem, base, under, sl, dl, heap, kids, j);
    hide Finished, HeapMemory, Pointee;
    forall depth: nat ensures EqualTo(ty, mem, base, sl[kids[j]], dl[kids[j]], heap, depth) {
      assert EqualTo(ty, mem, base, sl[j], dl[j], heap, depth + 1);
      RefOf(ty, mem, sl[j], depth + 1);
      RefOf(ty, HeapMemory(heap, base), Placed(dl[j], base), depth + 1);
      hide TreeOf;
    }
  }

  /** Equality goes down from a task to those it pushed. */
  lemma EqualKid(ty: Types, mem: Memory, base: nat, under: set<(Option<nat>, nat)>, sl: seq<Task>, dl: seq<Task>,
                 heap: seq<Byte>, kids: seq<nat>, j: nat, x: nat)
    requires Finished(ty, mem, base, under, sl, dl, heap, kids) && j < |sl| && j < |kids| && j < |dl|
    requires kids[j] <= x < kids[j] + |Pushes(ty, mem, sl[j])| && EqualAt(ty, mem, base, sl, dl, heap, j)
    ensures x < |sl| && x < |dl| && EqualAt(ty, mem, base, sl, dl, heap, x)
  {
    FinishedMatch(ty, mem, base, under, sl, dl, heap, kids, j);
    if Follows(ty, sl[j]) {
      EqualPointee(ty, mem, base, under, sl, dl, heap, kids, j);
    } else {
      FlattenKid(ty, mem, base, sl, dl, heap, j, kids[j], x - kids[j]);
      hide Finished, Settled, EqualTo;
      EqualFlat(ty, mem, base, sl[j], dl[j], sl[x], dl[x], heap, x - kids[j]);
    }
  }

  lemma EqualFlat(ty: Types, mem: Memory, base: nat, s: Task, d: Task, s': Task, d': Task, heap: seq<Byte>, c: nat)
    requires Match(s, d) && !Follows(ty, s) && c < |Flatten(ty, s)| == |Flatten(ty, d)|
    requires s' == Flatten(ty, s)[c] && d' == Flatten(ty, d)[c]
    requires forall depth: nat :: EqualTo(ty, mem, base, s, d, heap, depth)
    ensures forall depth: nat :: EqualTo(ty, mem, base, s', d', heap, depth)
  {
    forall depth: nat ensures EqualTo(ty, mem, base, s', d', heap, depth) {
      if KindOf(ty, s.typ) == Pointer {
        assert EqualTo(ty, mem, base, s, d, heap, depth);
        TreeIgnoresPost(ty, mem, s, depth);
        TreeIgnoresPost(ty, HeapMemory(heap, base), Placed(d, base), depth);
        hide TreeOf, HeapMemory;
      } else {
        assert EqualTo(ty, mem, base, s, d, heap, depth + 1);
        hide TreeOf, HeapMemory, EqualTo;
        EqualMember(ty, mem, base, s, d, heap, depth, c);
      }
    }
  }

  lemma {:induction false} EqualEverywhere(ty: Types, mem: Memory, base: nat, under: set<(Option<nat>, nat)>,
                                           root: Task, k: nat,
                                           sl: seq<Task>, dl: seq<Task>, heap: seq<Byte>, kids: seq<nat>, x: nat)
    requires Ended(ty, mem, base, under, root, k, sl, dl, heap, kids) && x < |sl| && 0 < |dl|
    requires EqualAt(ty, mem, base, sl, dl, heap, 0)
    ensures x < |dl| && EqualAt(ty, mem, base, sl, dl, heap, x)
    decreases x
  {
    if x > 0 {
      var j := ParentOf(ty, mem, root, k, x);
      hide EqualAt, Pushes, Serialize;
      FinishedMatch(ty, mem, base, under, sl, dl, heap, kids, j);
      hide Finished;
      EqualEverywhere(ty, mem, base, under, root, k, sl, dl, heap, kids, j);
      EqualKid(ty, mem, base, under, sl, dl, heap, kids, j, x);
    }
  }

  /** A pointer that is the same in the copy was copied. */
  lemma EqualReturns(ty: Types, mem: Memory, base: nat, under: set<(Option<nat>, nat)>, sl: seq<Task>, dl: seq<Task>,
                     heap: seq<Byte>, kids: seq<nat>, x: nat)
    requires Finished(ty, mem, base, under, sl, dl, heap, kids) && x < |sl| && x < |dl|
    requires EqualTo(ty, mem, base, sl[x], dl[x], heap, 1)
    ensures Returns(ty, mem, sl[x])
  {
    FinishedMatch(ty, mem, base, under, sl, dl, heap, kids, x);
    hide Finished;
    if KindOf(ty, sl[x].typ) == Pointer && PtrUseOf(ty, sl[x].typ).Indexed? {
      IndexedEqual(ty, mem, base, sl, dl, heap, x, kids[x]);
    } else {
      hide Settled, TreeOf, HeapMemory;
    }
  }

  lemma IndexedEqual(ty: Types, mem: Memory, base: nat, sl: seq<Task>, dl: seq<Task>, heap: seq<Byte>, x: nat, kid: nat)
    requires x < |sl| && x < |dl| && Match(sl[x], dl[x]) && Settled(ty, mem, base, sl, dl, heap, x, kid)
    requires KindOf(ty, sl[x].typ) == Pointer && PtrUseOf(ty, sl[x].typ).Indexed?
    requires EqualTo(ty, mem, base, sl[x], dl[x], heap, 1)
    ensures Returns(ty, mem, sl[x])
  {
    var at := dl[x].at;
    assert Load(HeapMemory(heap, base), base + at, PTR) == Load(mem, sl[x].at, PTR);
    assert Wrote(ty, dl[x]) == PTR && at + PTR <= |heap| && !Follows(ty, dl[x]);
    hide Settled, Returns, TreeOf, Pushes, Flatten, PtrUseOf;
    LoadsAreCopied(mem, sl[x].at, heap, base, at);
    SettledCopied(ty, mem, base, sl, dl, heap, x, kid);
  }

  lemma LoadsAreCopied(mem: Memory, src: nat, heap: seq<Byte>, base: nat, at: nat)
    requires at + PTR <= |heap| && Load(HeapMemory(heap, base), base + at, PTR) == Load(mem, src, PTR)
    ensures Copied(mem, src, heap, at, PTR)
  {
    assert heap[at..at + PTR] == Load(HeapMemory(heap, base), base + at, PTR);
  }

  lemma SettledCopied(ty: Types, mem: Memory, base: nat, sl: seq<Task>, dl: seq<Task>, heap: seq<Byte>, i: nat,
                      kid: nat)
    requires i < |sl| && i < |dl| && Settled(ty, mem, base, sl, dl, heap, i, kid) && !Follows(ty, dl[i])
    ensures Copied(mem, sl[i].at, heap, dl[i].at, Wrote(ty, dl[i])) <==> Returns(ty, mem, sl[i])
  {
    hide Pushes, Flatten, Wrote, Copied, Returns, Encode;
  }

  /** Both loops at their end, from the copy's own premises. */
  lemma CopyEnds(ty: Types, mem: Memory, base: nat, under: set<(Option<nat>, nat)>, root: Task, k: nat)
    returns (kids: seq<nat>)
    requires TypesOk(ty) && Covers(ty, under) && RootOk(ty, under, root) && |Serialize(ty, mem, root, k).tasks| <= k
    requires base + |Deserialize(ty, Serialize(ty, mem, root, k).out, base, AtHeap(root), k).heap| < WORD
    ensures
      var w := Serialize(ty, mem, root, k);
      var r := Deserialize(ty, w.out, base, AtHeap(root), k);
      && Ended(ty, mem, base, under, root, k, w.tasks, r.tasks, r.heap, kids)
      && r.off == |w.out| && |r.tasks| == |w.tasks| > 0 && w.tasks[0] == root && r.tasks[0] == AtHeap(root)
  {
    hide InStep, TypesOk, Covers, RootOk, Serialize, Deserialize;
    kids := Lockstep(ty, mem, base, under, root, Serialize(ty, mem, root, k).out, k);
    RootFirst(ty, mem, root, k);
    RootFirstRead(ty, Serialize(ty, mem, root, k).out, base, AtHeap(root), k);
  }

  /** The walked data is the same in the copy, to every depth, exactly when every index that was written returns. */
  lemma DeepCopyExactly(ty: Types, mem: Memory, base: nat, under: set<(Option<nat>, nat)>, root: Task, k: nat)
    requires TypesOk(ty) && Covers(ty, under) && RootOk(ty, under, root) && |Serialize(ty, mem, root, k).tasks| <= k
    requires base + |Deserialize(ty, Serialize(ty, mem, root, k).out, base, AtHeap(root), k).heap| < WORD
    ensures
      var r := Deserialize(ty, Serialize(ty, mem, root, k).out, base, AtHeap(root), k);
      (forall depth: nat :: EqualTo(ty, mem, base, root, AtHeap(root), r.heap, depth))
      <==> AllReturn(ty, mem, Serialize(ty, mem, root, k).tasks)
  {
    var kids := CopyEnds(ty, mem, base, under, root, k);
    var sl := Serialize(ty, mem, root, k).tasks;
    var r := Deserialize(ty, Serialize(ty, mem, root, k).out, base, AtHeap(root), k);
    hide Serialize, Deserialize, TypesOk, Covers, RootOk, TreeOf, HeapMemory;
    if AllReturn(ty, mem, sl) {
      forall depth: nat ensures EqualTo(ty, mem, base, root, AtHeap(root), r.heap, depth) {
        DeepCopy(ty, mem, base, under, root, k, depth);
      }
    }
    if forall depth: nat :: EqualTo(ty, mem, base, root, AtHeap(root), r.heap, depth) {
      hide EqualTo, Returns, Finished;
      forall x | 0 <= x < |sl| ensures Returns(ty, mem, sl[x]) {
        EqualEverywhere(ty, mem, base, under, root, k, sl, r.tasks, r.heap, kids, x);
        EqualReturns(ty, mem, base, under, sl, r.tasks, r.heap, kids, x);
      }
    }
  }

  // ---- the whole of the copy ----

  /** The serialized leaves of two containers hold the same bytes, in the source and in the copy. */
  ghost predicate SameLeaves(ty: Types, mem: Memory, heap: seq<Byte>, base: nat, ctype: Option<nat>, own: nat,
                             own': nat) {
    ctype.Some? && Known(ty, ctype.value) ==>
      forall x | 0 <= x < |ty.env[ctype.value].members| ::
        SameMemberLeaf(ty, mem, heap, base, ty.env[ctype.value].members[x], own, own')
  }

  predicate SameMemberLeaf(ty: Types, mem: Memory, heap: seq<Byte>, base: nat, m: Member, own: nat, own': nat) {
    !m.skip && KindOf(ty, m.typ) == Leaf ==>
      Load(HeapMemory(heap, base), base + own' + m.off, SizeOf(ty, m.typ)) == Load(mem, own + m.off, SizeOf(ty, m.typ))
  }

  /** So the counts looked up in them are the same. */
  lemma SameCount(ty: Types, mem: Memory, heap: seq<Byte>, base: nat, t: Task, d: Task, own: nat, own': nat)
    requires SameLeaves(ty, mem, heap, base, t.ctype, own, own') && d.ctype == t.ctype && d.typ == t.typ
    requires KindOf(ty, t.typ) == Pointer && CountOk(ty, t.ctype, t.typ)
    ensures CountAt(ty, HeapMemory(heap, base), d.(cptr := base + own')) == CountAt(ty, mem, t.(cptr := own))
  {
    hide Load, HeapMemory, Value;
    var found := CountMember(ty, t.ctype, t.typ);
    if found.Some? {
      var x := FoundIsMember(ty.env[t.ctype.value].members, Delim(ty, t.typ));
      assert SameMemberLeaf(ty, mem, heap, base, ty.env[t.ctype.value].members[x], own, own');
    }
  }

  /** Element `e` of a struct, and the places of its members among the tasks. */
  lemma {:induction false} ElementOf(ty: Types, a: Task, b: Task, n: nat, c: nat) returns (e: nat)
    requires Known(ty, a.typ) && Match(a, b) && c < |OwnElements(ty, a, n)|
    ensures e < n && c < |OwnElements(ty, b, n)|
    ensures OwnElements(ty, a, n)[c].cptr == a.at + e * SizeOf(ty, a.typ)
    ensures OwnElements(ty, b, n)[c].cptr == b.at + e * SizeOf(ty, a.typ)
    ensures OwnElements(ty, a, n)[c].ctype == Some(a.typ)
    decreases n
  {
    var ms, d := ty.env[a.typ].members, (n - 1) * SizeOf(ty, a.typ);
    SameOwn(ty, a, b, n - 1);
    MembersMatch(ms, a.typ, a.at + d, a.at + d, b.at + d, b.at + d);
    if c < |OwnElements(ty, a, n - 1)| {
      e := ElementOf(ty, a, b, n - 1, c);
    } else {
      e := n - 1;
    }
  }

  lemma {:induction false} SameOwn(ty: Types, a: Task, b: Task, n: nat)
    requires Known(ty, a.typ) && Match(a, b)
    ensures |OwnElements(ty, a, n)| == |OwnElements(ty, b, n)|
    decreases n
  {
    if n > 0 {
      var ms, d := ty.env[a.typ].members, (n - 1) * SizeOf(ty, a.typ);
      SameOwn(ty, a, b, n - 1);
      MembersMatch(ms, a.typ, a.at + d, a.at + d, b.at + d, b.at + d);
    }
  }

  /** The tasks of the first `m` elements come first. */
  lemma {:induction false} ElementsPrefix(ty: Types, t: Task, m: nat, n: nat)
    requires Known(ty, t.typ) && m <= n
    ensures ElementTasks(ty, t, m) <= ElementTasks(ty, t, n)
    decreases n
  {
    if m < n {
      ElementsPrefix(ty, t, m, n - 1);
    }
  }

  lemma InPrefix<T>(a: seq<T>, b: seq<T>, c: seq<T>, p: nat)
    requires a + b <= c && p < |b|
    ensures |a| + p < |c| && c[|a| + p] == b[p]
  {
    assert c[|a| + p] == (a + b)[|a| + p];
  }

  /** How far element `e` is from the first. */
  predicate IsOffset(ty: Types, typ: nat, e: nat, d: nat) { d == e * SizeOf(ty, typ) }

  lemma OffsetNext(ty: Types, t: Task, e: nat, d: nat)
    requires Known(ty, t.typ) && IsOffset(ty, t.typ, e, d)
    ensures ElementTasks(ty, t, e + 1)
            == ElementTasks(ty, t, e) + MemberTasks(ty.env[t.typ].members, t.typ, t.at + d, t.at)
  {
    ElementsNext(ty, t, e + 1, d);
  }

  lemma ElementHas(ty: Types, t: Task, n: nat, e: nat, x: nat, d: nat)
    requires Known(ty, t.typ) && e < n && x < |ty.env[t.typ].members| && !ty.env[t.typ].members[x].skip
    requires IsOffset(ty, t.typ, e, d)
    ensures
      var m := ty.env[t.typ].members[x];
      var p := |ElementTasks(ty, t, e)| + MemberPos(ty.env[t.typ].members, x);
      p < |ElementTasks(ty, t, n)|
        && ElementTasks(ty, t, n)[p] == Task(m.typ, 1, t.at + d + m.off, Some(t.typ), t.at, false)
  {
    var ms := ty.env[t.typ].members;
    OffsetNext(ty, t, e, d);
    ElementsPrefix(ty, t, e + 1, n);
    MemberPlaced(ms, x, t.typ, t.at + d, t.at);
    hide ElementTasks, MemberTasks, MemberPos, SizeOf, IsOffset;
    InPrefix(ElementTasks(ty, t, e), MemberTasks(ms, t.typ, t.at + d, t.at), ElementTasks(ty, t, n), MemberPos(ms, x));
  }

  lemma StructFlat(ty: Types, t: Task)
    requires KindOf(ty, t.typ) == Struct
    ensures Flatten(ty, t) == ElementTasks(ty, t, t.count) && !Follows(ty, t)
  {
  }

  /** The task of a member of an element, on both sides. */
  lemma MemberTask(ty: Types, mem: Memory, base: nat, sl: seq<Task>, dl: seq<Task>, heap: seq<Byte>, i: nat, kid: nat,
                   e: nat, x: nat, d: nat) returns (y: nat)
    requires i < |sl| && i < |dl| && Settled(ty, mem, base, sl, dl, heap, i, kid) && Match(sl[i], dl[i])
    requires KindOf(ty, sl[i].typ) == Struct && e < sl[i].count && x < |ty.env[sl[i].typ].members|
    requires IsOffset(ty, sl[i].typ, e, d) && !ty.env[sl[i].typ].members[x].skip
    ensures
      var m := ty.env[sl[i].typ].members[x];
      && y < |sl| && y < |dl|
      && sl[y] == Task(m.typ, 1, sl[i].at + d + m.off, Some(sl[i].typ), sl[i].at, false)
      && dl[y] == Task(m.typ, 1, dl[i].at + d + m.off, Some(sl[i].typ), dl[i].at, false)
  {
    StructFlat(ty, sl[i]);
    StructFlat(ty, dl[i]);
    hide ElementTasks, Flatten, Settled, MemberPos, SizeOf, IsOffset;
    ElementHas(ty, sl[i], sl[i].count, e, x, d);
    ElementHas(ty, dl[i], dl[i].count, e, x, d);
    ElementsMatch(ty, sl[i], dl[i], e);
    var p := |ElementTasks(ty, sl[i], e)| + MemberPos(ty.env[sl[i].typ].members, x);
    FlattenKid(ty, mem, base, sl, dl, heap, i, kid, p);
    y := kid + p;
  }

  /** A leaf member of an element has been copied. */
  lemma LeafCopied(ty: Types, mem: Memory, base: nat, under: set<(Option<nat>, nat)>, sl: seq<Task>, dl: seq<Task>,
                   heap: seq<Byte>, kids: seq<nat>, i: nat, e: nat, x: nat, d: nat)
    requires Finished(ty, mem, base, under, sl, dl, heap, kids) && i < |sl| && i < |dl|
             && KindOf(ty, sl[i].typ) == Struct
    requires e < sl[i].count && x < |ty.env[sl[i].typ].members| && IsOffset(ty, sl[i].typ, e, d)
    ensures SameMemberLeaf(ty, mem, heap, base, ty.env[sl[i].typ].members[x], sl[i].at + d, dl[i].at + d)
  {
    var m := ty.env[sl[i].typ].members[x];
    if !m.skip && KindOf(ty, m.typ) == Leaf {
      FinishedMatch(ty, mem, base, under, sl, dl, heap, kids, i);
      hide Finished, Settled, IsOffset, Load, HeapMemory, SizeOf;
      var y := MemberTask(ty, mem, base, sl, dl, heap, i, kids[i], e, x, d);
      OneLeafCopied(ty, mem, base, under, sl, dl, heap, kids, y);
    }
  }

  lemma OneLeafCopied(ty: Types, mem: Memory, base: nat, under: set<(Option<nat>, nat)>, sl: seq<Task>, dl: seq<Task>,
                      heap: seq<Byte>, kids: seq<nat>, y: nat)
    requires Finished(ty, mem, base, under, sl, dl, heap, kids) && y < |sl| && y < |dl|
    requires KindOf(ty, sl[y].typ) == Leaf && sl[y].count == 1
    ensures Load(HeapMemory(heap, base), base + dl[y].at, SizeOf(ty, sl[y].typ))
            == Load(mem, sl[y].at, SizeOf(ty, sl[y].typ))
  {
    FinishedMatch(ty, mem, base, under, sl, dl, heap, kids, y);
    SameBytes(ty, mem, base, under, sl, dl, heap, kids, y);
    hide Finished, Settled, Load, HeapMemory;
  }

  lemma ElementLeaves(ty: Types, mem: Memory, base: nat, under: set<(Option<nat>, nat)>, sl: seq<Task>, dl: seq<Task>,
                      heap: seq<Byte>, kids: seq<nat>, i: nat, c: nat)
    requires Finished(ty, mem, base, under, sl, dl, heap, kids) && i < |sl| && i < |dl| && Match(sl[i], dl[i])
    requires KindOf(ty, sl[i].typ) == Struct && c < |OwnElements(ty, sl[i], sl[i].count)|
    ensures c < |OwnElements(ty, dl[i], dl[i].count)| && OwnElements(ty, sl[i], sl[i].count)[c].ctype == Some(sl[i].typ)
    ensures SameLeaves(ty, mem, heap, base, Some(sl[i].typ), OwnElements(ty, sl[i], sl[i].count)[c].cptr,
                       OwnElements(ty, dl[i], dl[i].count)[c].cptr)
  {
    var e := ElementOf(ty, sl[i], dl[i], sl[i].count, c);
    hide Finished, OwnElements, SameMemberLeaf;
    forall x | 0 <= x < |ty.env[sl[i].typ].members|
      ensures SameMemberLeaf(ty, mem, heap, base, ty.env[sl[i].typ].members[x],
                             OwnElements(ty, sl[i], sl[i].count)[c].cptr, OwnElements(ty, dl[i], dl[i].count)[c].cptr)
    {
      LeafCopied(ty, mem, base, under, sl, dl, heap, kids, i, e, x, e * SizeOf(ty, sl[i].typ));
    }
  }
}
