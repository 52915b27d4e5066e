/** All of the data in the copy, and what is lost when the walk is not all of it. */
module TypedKept {
  import opened Basics
  import opened Bytes
  import opened TypedData
  import opened TypedProofs
  import opened TypedWhole
  import opened TypedCopy

  // ---- the copy of data that is walked whole is walked whole ----

  lemma WalkedCounted(ty: Types, mem: Memory, t: Task, own: nat, depth: nat)
    requires depth > 0 && KindOf(ty, t.typ) == Pointer && PtrUseOf(ty, t.typ) == Counted
    ensures Walked(ty, mem, t, own, depth) <==>
      t.count == 1 && (depth > 1 ==> CountAt(ty, mem, t) == CountAt(ty, mem, t.(cptr := own))
                                     && Walked(ty, mem, Pointee(ty, mem, t), own, depth - 1))
  {
    hide CountAt, Pointee;
  }

  lemma WalkedEnum(ty: Types, mem: Memory, t: Task, own: nat, depth: nat)
    requires depth > 0 && KindOf(ty, t.typ) == Enum
    ensures Flatten(ty, t) != []
            && (Walked(ty, mem, t, own, depth) <==> Walked(ty, mem, Flatten(ty, t)[0], own, depth - 1))
  {
  }

  lemma WalkedStruct(ty: Types, mem: Memory, t: Task, own: nat, depth: nat)
    requires depth > 0 && KindOf(ty, t.typ) == Struct
    ensures Walked(ty, mem, t, own, depth) <==>
      AllWalked(ty, mem, ElementTasks(ty, t, t.count), OwnElements(ty, t, t.count), depth - 1)
  {
    hide ElementTasks, OwnElements, AllWalked;
  }

  lemma WalkedFlat(ty: Types, mem: Memory, mem': Memory, t: Task, t': Task, own: nat, own': nat, depth: nat)
    requires Match(t, t') && depth > 0 && Walked(ty, mem, t, own, depth)
    requires KindOf(ty, t.typ) == Leaf || KindOf(ty, t.typ) == Other
             || (KindOf(ty, t.typ) == Pointer && PtrUseOf(ty, t.typ) != Counted)
    ensures Walked(ty, mem', t', own', depth)
  {
    hide PtrUseOf;
  }

  /** The copy of a task that is walked whole, in the copy of its own container. */
  lemma {:induction false} WalkedCopied(ty: Types, mem: Memory, base: nat, under: set<(Option<nat>, nat)>,
                                        sl: seq<Task>, dl: seq<Task>,
                                        heap: seq<Byte>, kids: seq<nat>, i: nat, own: nat, own': nat, depth: nat)
    requires Finished(ty, mem, base, under, sl, dl, heap, kids) && i < |sl| && i < |dl|
    requires SameLeaves(ty, mem, heap, base, sl[i].ctype, own, own') && Walked(ty, mem, sl[i], own, depth)
    ensures Walked(ty, HeapMemory(heap, base), Placed(dl[i], base), base + own', depth)
    decreases depth, 1, 0
  {
    hide Finished, SameLeaves, HeapMemory;
    FinishedMatch(ty, mem, base, under, sl, dl, heap, kids, i);
    if depth > 0 {
      hide Walked;
      match KindOf(ty, sl[i].typ)
      case Pointer =>
        if PtrUseOf(ty, sl[i].typ) == Counted {
          CountedCopied(ty, mem, base, under, sl, dl, heap, kids, i, own, own', depth);
        } else {
          WalkedFlat(ty, mem, HeapMemory(heap, base), sl[i], Placed(dl[i], base), own, base + own', depth);
        }
      case Array => ArrayCopied(ty, mem, base, under, sl, dl, heap, kids, i, own, own', depth);
      case Enum => EnumCopied(ty, mem, base, under, sl, dl, heap, kids, i, own, own', depth);
      case Struct => StructCopied(ty, mem, base, under, sl, dl, heap, kids, i, own, own', depth);
      case _ => WalkedFlat(ty, mem, HeapMemory(heap, base), sl[i], Placed(dl[i], base), own, base + own', depth);
    }
  }

  lemma CoveredAt(ty: Types, mem: Memory, base: nat, under: set<(Option<nat>, nat)>, sl: seq<Task>, dl: seq<Task>,
                  heap: seq<Byte>, kids: seq<nat>, i: nat)
    requires Finished(ty, mem, base, under, sl, dl, heap, kids) && i < |sl|
    requires KindOf(ty, sl[i].typ) == Pointer && PtrUseOf(ty, sl[i].typ) == Counted
    ensures CountOk(ty, sl[i].ctype, sl[i].typ)
  {
    assert CoveredOk(ty, under, sl[i].ctype, sl[i].typ);
    hide Settled, RoomOk, CountOk;
  }

  lemma {:induction false} CountedCopied(ty: Types, mem: Memory, base: nat, under: set<(Option<nat>, nat)>,
                                         sl: seq<Task>, dl: seq<Task>,
                                         heap: seq<Byte>, kids: seq<nat>, i: nat, own: nat, own': nat, depth: nat)
    requires Finished(ty, mem, base, under, sl, dl, heap, kids) && i < |sl| && i < |dl| && Match(sl[i], dl[i])
             && depth > 0
    requires SameLeaves(ty, mem, heap, base, sl[i].ctype, own, own') && Walked(ty, mem, sl[i], own, depth)
    requires KindOf(ty, sl[i].typ) == Pointer && PtrUseOf(ty, sl[i].typ) == Counted
    ensures Walked(ty, HeapMemory(heap, base), Placed(dl[i], base), base + own', depth)
    decreases depth, 0, 0
  {
    hide *;
    SameTyp(sl[i], dl[i], base);
    WalkedCounted(ty, mem, sl[i], own, depth);
    WalkedCounted(ty, HeapMemory(heap, base), Placed(dl[i], base), base + own', depth);
    if depth > 1 {
      var j := Behind(ty, mem, base, under, sl, dl, heap, kids, i);
      IsFollowed(ty, sl[i], sl[j]);
      PointeePlaced(ty, mem, base, under, sl, dl, heap, kids, j);
      PointeeIgnoresPost(ty, mem, sl[i]);
      PointeeIgnoresPost(ty, HeapMemory(heap, base), Placed(dl[i], base));
      PlacedPost(dl[i], base);
      PointeeType(ty, mem, sl[i]);
      WalkedCopied(ty, mem, base, under, sl, dl, heap, kids, kids[j], own, own', depth - 1);
      CoveredAt(ty, mem, base, under, sl, dl, heap, kids, i);
      SameCount(ty, mem, heap, base, sl[i], Placed(dl[i], base), own, own');
      FinalCount(ty, mem, base, under, sl, dl, heap, kids, i);
      HeapCountIs(ty, heap, base, dl[i]);
    }
  }

  lemma SameTyp(t: Task, d: Task, base: nat)
    requires Match(t, d)
    ensures Placed(d, base).typ == t.typ && Placed(d, base).count == t.count && Placed(d, base).ctype == t.ctype
  {
  }

  lemma IsFollowed(ty: Types, t: Task, u: Task)
    requires u == t.(post := true) && KindOf(ty, t.typ) == Pointer && PtrUseOf(ty, t.typ) == Counted
    ensures Follows(ty, u)
  {
  }

  lemma PlacedPost(d: Task, base: nat)
    ensures Placed(d.(post := true), base) == Placed(d, base).(post := true)
  {
  }

  lemma PointeeType(ty: Types, mem: Memory, t: Task)
    ensures Pointee(ty, mem, t).ctype == t.ctype
  {
  }

  lemma HeapCountIs(ty: Types, heap: seq<Byte>, base: nat, d: Task)
    ensures HeapCount(ty, heap, base, d) == CountAt(ty, HeapMemory(heap, base), Placed(d, base))
  {
    CountIgnoresAt(ty, HeapMemory(heap, base), d.(cptr := base + d.cptr), Placed(d, base));
  }

  /** The one task an array or an enum is replaced by. */
  lemma OnlyKid(ty: Types, mem: Memory, base: nat, under: set<(Option<nat>, nat)>, sl: seq<Task>, dl: seq<Task>,
                heap: seq<Byte>, kids: seq<nat>, i: nat)
    requires Finished(ty, mem, base, under, sl, dl, heap, kids) && i < |sl| && i < |dl|
    requires KindOf(ty, sl[i].typ) == Array || KindOf(ty, sl[i].typ) == Enum
    ensures i < |kids| && kids[i] < |sl| && kids[i] < |dl| && Flatten(ty, sl[i]) == [sl[kids[i]]]
            && sl[kids[i]].ctype == sl[i].ctype
    ensures Flatten(ty, Placed(dl[i], base)) == [Placed(dl[kids[i]], base)]
  {
    FinishedMatch(ty, mem, base, under, sl, dl, heap, kids, i);
    hide Finished, Settled;
    FlattenKid(ty, mem, base, sl, dl, heap, i, kids[i], 0);
    FlattenPlaced(ty, dl[i], base);
  }

  lemma {:induction false} ArrayCopied(ty: Types, mem: Memory, base: nat, under: set<(Option<nat>, nat)>, sl: seq<Task>,
                                       dl: seq<Task>,
                                       heap: seq<Byte>, kids: seq<nat>, i: nat, own: nat, own': nat, depth: nat)
    requires Finished(ty, mem, base, under, sl, dl, heap, kids) && i < |sl| && i < |dl| && Match(sl[i], dl[i])
             && depth > 0
    requires SameLeaves(ty, mem, heap, base, sl[i].ctype, own, own') && Walked(ty, mem, sl[i], own, depth)
    requires KindOf(ty, sl[i].typ) == Array
    ensures Walked(ty, HeapMemory(heap, base), Placed(dl[i], base), base + own', depth)
    decreases depth, 0, 0
  {
    hide *;
    OnlyKid(ty, mem, base, under, sl, dl, heap, kids, i);
    SameTyp(sl[i], dl[i], base);
    WalkedArray(ty, mem, sl[i], own, depth);
    WalkedArray(ty, HeapMemory(heap, base), Placed(dl[i], base), base + own', depth);
    if depth > 1 {
      WalkedCopied(ty, mem, base, under, sl, dl, heap, kids, kids[i], own, own', depth - 1);
    }
  }

  lemma {:induction false} EnumCopied(ty: Types, mem: Memory, base: nat, under: set<(Option<nat>, nat)>, sl: seq<Task>,
                                      dl: seq<Task>,
                                      heap: seq<Byte>, kids: seq<nat>, i: nat, own: nat, own': nat, depth: nat)
    requires Finished(ty, mem, base, under, sl, dl, heap, kids) && i < |sl| && i < |dl| && Match(sl[i], dl[i])
             && depth > 0
    requires SameLeaves(ty, mem, heap, base, sl[i].ctype, own, own') && Walked(ty, mem, sl[i], own, depth)
    requires KindOf(ty, sl[i].typ) == Enum
    ensures Walked(ty, HeapMemory(heap, base), Placed(dl[i], base), base + own', depth)
    decreases depth, 0, 0
  {
    hide *;
    OnlyKid(ty, mem, base, under, sl, dl, heap, kids, i);
    SameTyp(sl[i], dl[i], base);
    WalkedEnum(ty, mem, sl[i], own, depth);
    WalkedEnum(ty, HeapMemory(heap, base), Placed(dl[i], base), base + own', depth);
    WalkedCopied(ty, mem, base, under, sl, dl, heap, kids, kids[i], own, own', depth - 1);
  }

  /** The elements of a copied struct, and their own containers, are those of the source in other places. */
  lemma {:induction false} OwnPlaced(ty: Types, t: Task, base: nat, n: nat)
    requires Known(ty, t.typ)
    ensures OwnElements(ty, Placed(t, base), n) == PlacedAll(OwnElements(ty, t, n), base)
  {
    if n > 0 {
      var ms, d := ty.env[t.typ].members, (n - 1) * SizeOf(ty, t.typ);
      OwnPlaced(ty, t, base, n - 1);
      var at := t.at + d;
      MembersMatch(ms, t.typ, at, at, base + at, base + at);
      assert (base + t.at) + d == base + at;
    }
  }

  lemma {:induction false} StructCopied(ty: Types, mem: Memory, base: nat, under: set<(Option<nat>, nat)>,
                                        sl: seq<Task>, dl: seq<Task>,
                                        heap: seq<Byte>, kids: seq<nat>, i: nat, own: nat, own': nat, depth: nat)
    requires Finished(ty, mem, base, under, sl, dl, heap, kids) && i < |sl| && i < |dl| && Match(sl[i], dl[i])
             && depth > 0
    requires SameLeaves(ty, mem, heap, base, sl[i].ctype, own, own') && Walked(ty, mem, sl[i], own, depth)
    requires KindOf(ty, sl[i].typ) == Struct
    ensures Walked(ty, HeapMemory(heap, base), Placed(dl[i], base), base + own', depth)
    decreases depth, 0, 0
  {
    hide *;
    StructLists(ty, mem, sl[i], dl[i], own, depth);
    StructPlaced(ty, dl[i], base);
    WalkedStruct(ty, HeapMemory(heap, base), Placed(dl[i], base), base + own', depth);
    var us, vs := ElementTasks(ty, dl[i], dl[i].count), OwnElements(ty, dl[i], dl[i].count);
    forall c | 0 <= c < |us| && c < |vs|
      ensures Walked(ty, HeapMemory(heap, base), PlacedAll(us, base)[c], PlacedAll(vs, base)[c].cptr, depth - 1)
    {
      ElementCopied(ty, mem, base, under, sl, dl, heap, kids, i, c, depth);
      PlacedCptr(vs[c], base);
    }
    EachWalked(ty, HeapMemory(heap, base), PlacedAll(us, base), PlacedAll(vs, base), depth - 1);
  }

  lemma EachWalked(ty: Types, mem: Memory, ts: seq<Task>, own: seq<Task>, depth: nat)
    requires forall i | 0 <= i < |ts| && i < |own| :: Walked(ty, mem, ts[i], own[i].cptr, depth)
    ensures AllWalked(ty, mem, ts, own, depth)
  {
    hide Walked;
  }

  /** The members of a struct's elements where the copy is. */
  lemma StructPlaced(ty: Types, d: Task, base: nat)
    requires KindOf(ty, d.typ) == Struct
    ensures Known(ty, d.typ) && Placed(d, base).typ == d.typ && Placed(d, base).count == d.count
    ensures ElementTasks(ty, Placed(d, base), d.count) == PlacedAll(ElementTasks(ty, d, d.count), base)
    ensures OwnElements(ty, Placed(d, base), d.count) == PlacedAll(OwnElements(ty, d, d.count), base)
  {
    FlattenPlaced(ty, d, base);
    StructFlat(ty, d);
    StructFlat(ty, Placed(d, base));
    OwnPlaced(ty, d, base, d.count);
    hide Flatten, ElementTasks, OwnElements;
  }

  lemma StructLists(ty: Types, mem: Memory, s: Task, d: Task, own: nat, depth: nat)
    requires Match(s, d) && depth > 0 && KindOf(ty, s.typ) == Struct && Walked(ty, mem, s, own, depth)
    ensures Known(ty, s.typ) && Known(ty, d.typ) && KindOf(ty, d.typ) == Struct
    ensures AllWalked(ty, mem, ElementTasks(ty, s, s.count), OwnElements(ty, s, s.count), depth - 1)
    ensures |ElementTasks(ty, d, d.count)| == |OwnElements(ty, d, d.count)|
  {
    WalkedStruct(ty, mem, s, own, depth);
    ElementsOwn(ty, d, d.count);
    hide Walked, AllWalked, ElementTasks, OwnElements;
  }

  lemma PlacedCptr(t: Task, base: nat)
    ensures Placed(t, base).cptr == base + t.cptr
  {
  }

  lemma {:induction false} ElementCopied(ty: Types, mem: Memory, base: nat, under: set<(Option<nat>, nat)>,
                                         sl: seq<Task>, dl: seq<Task>,
                                         heap: seq<Byte>, kids: seq<nat>, i: nat, c: nat, depth: nat)
    requires Finished(ty, mem, base, under, sl, dl, heap, kids) && i < |sl| && i < |dl| && Match(sl[i], dl[i])
             && depth > 0
    requires KindOf(ty, sl[i].typ) == Struct && c < |OwnElements(ty, dl[i], dl[i].count)|
             && c < |ElementTasks(ty, dl[i], dl[i].count)|
    requires AllWalked(ty, mem, ElementTasks(ty, sl[i], sl[i].count), OwnElements(ty, sl[i], sl[i].count), depth - 1)
    ensures Walked(ty, HeapMemory(heap, base), Placed(ElementTasks(ty, dl[i], dl[i].count)[c], base),
                   base + OwnElements(ty, dl[i], dl[i].count)[c].cptr, depth - 1)
    decreases depth - 1, 2, 0
  {
    hide *;
    var y := ElementKid(ty, mem, base, under, sl, dl, heap, kids, i, c);
    ElementLeaves(ty, mem, base, under, sl, dl, heap, kids, i, c);
    OneWalked(ty, mem, ElementTasks(ty, sl[i], sl[i].count), OwnElements(ty, sl[i], sl[i].count), depth - 1, c);
    WalkedCopied(ty, mem, base, under, sl, dl, heap, kids, y, OwnElements(ty, sl[i], sl[i].count)[c].cptr,
                 OwnElements(ty, dl[i], dl[i].count)[c].cptr, depth - 1);
  }

  lemma OneWalked(ty: Types, mem: Memory, ts: seq<Task>, own: seq<Task>, depth: nat, c: nat)
    requires AllWalked(ty, mem, ts, own, depth) && c < |ts| && c < |own|
    ensures Walked(ty, mem, ts[c], own[c].cptr, depth)
  {
    hide Walked;
  }

  /** Where the task of a struct's member is in both lists. */
  lemma ElementKid(ty: Types, mem: Memory, base: nat, under: set<(Option<nat>, nat)>, sl: seq<Task>, dl: seq<Task>,
                   heap: seq<Byte>, kids: seq<nat>, i: nat, c: nat) returns (y: nat)
    requires Finished(ty, mem, base, under, sl, dl, heap, kids) && i < |sl| && i < |dl| && Match(sl[i], dl[i])
    requires KindOf(ty, sl[i].typ) == Struct && c < |ElementTasks(ty, dl[i], dl[i].count)|
    ensures Known(ty, sl[i].typ) && Known(ty, dl[i].typ)
    ensures c < |ElementTasks(ty, sl[i], sl[i].count)| == |OwnElements(ty, sl[i], sl[i].count)|
    ensures y < |sl| && y < |dl| && sl[y].ctype == Some(sl[i].typ)
    ensures sl[y] == ElementTasks(ty, sl[i], sl[i].count)[c] && dl[y] == ElementTasks(ty, dl[i], dl[i].count)[c]
  {
    FinishedMatch(ty, mem, base, under, sl, dl, heap, kids, i);
    StructFlat(ty, sl[i]);
    StructFlat(ty, dl[i]);
    ElementsMatch(ty, sl[i], dl[i], sl[i].count);
    ElementsOwn(ty, sl[i], sl[i].count);
    hide Finished, Settled, Flatten, ElementTasks, OwnElements;
    FlattenKid(ty, mem, base, sl, dl, heap, i, kids[i], c);
    y := kids[i] + c;
  }

  /** Deep copy: where the walk is all of the data and every index returns, all of the data is in the copy, every
      pointer's count that of its own struct. */
  lemma WholeCopy(ty: Types, mem: Memory, base: nat, under: set<(Option<nat>, nat)>, root: Task, k: nat, depth: nat)
    requires TypesOk(ty) && Covers(ty, under) && RootOk(ty, under, root) && |Serialize(ty, mem, root, k).tasks| <= k
    requires base + |Deserialize(ty, Serialize(ty, mem, root, k).out, base, AtHeap(root), k).heap| < WORD
    requires AllReturn(ty, mem, Serialize(ty, mem, root, k).tasks) && Walked(ty, mem, root, root.cptr, depth)
    ensures
      var r := Deserialize(ty, Serialize(ty, mem, root, k).out, base, AtHeap(root), k);
      WholeTree(ty, HeapMemory(r.heap, base), Placed(AtHeap(root), base), depth) == WholeTree(ty, mem, root, depth)
  {
    hide *;
    var kids := CopyEnds(ty, mem, base, under, root, k);
    var w := Serialize(ty, mem, root, k);
    var r := Deserialize(ty, w.out, base, AtHeap(root), k);
    EndedIsFinished(ty, mem, base, under, root, k, w.tasks, r.tasks, r.heap, kids);
    FinishedWhole(ty, mem, base, under, root, w.tasks, r.tasks, r.heap, kids, depth);
  }

  lemma FinishedWhole(ty: Types, mem: Memory, base: nat, under: set<(Option<nat>, nat)>, root: Task, sl: seq<Task>,
                      dl: seq<Task>,
                      heap: seq<Byte>, kids: seq<nat>, depth: nat)
    requires TypesOk(ty) && RootOk(ty, under, root) && Finished(ty, mem, base, under, sl, dl, heap, kids)
             && AllReturn(ty, mem, sl)
    requires 0 < |sl| && 0 < |dl| && sl[0] == root && dl[0] == AtHeap(root) && Walked(ty, mem, root, root.cptr, depth)
    ensures WholeTree(ty, HeapMemory(heap, base), Placed(AtHeap(root), base), depth) == WholeTree(ty, mem, root, depth)
  {
    RootAlone(ty, under, root, base);
    hide *;
    NoLeaves(ty, mem, heap, base, root.cptr, 0);
    WalkedCopied(ty, mem, base, under, sl, dl, heap, kids, 0, root.cptr, 0, depth);
    WalkedWhole(ty, mem, root, depth);
    WalkedWhole(ty, HeapMemory(heap, base), Placed(AtHeap(root), base), depth);
    SameTree(ty, mem, base, under, sl, dl, heap, kids, 0, depth);
  }

  lemma RootAlone(ty: Types, under: set<(Option<nat>, nat)>, root: Task, base: nat)
    requires RootOk(ty, under, root)
    ensures root.ctype == None && Placed(AtHeap(root), base).cptr == base + 0
  {
  }

  lemma NoLeaves(ty: Types, mem: Memory, heap: seq<Byte>, base: nat, own: nat, own': nat)
    ensures SameLeaves(ty, mem, heap, base, None, own, own')
  {
  }

  lemma EndedIsFinished(ty: Types, mem: Memory, base: nat, under: set<(Option<nat>, nat)>, root: Task, k: nat,
                        sl: seq<Task>, dl: seq<Task>, heap: seq<Byte>, kids: seq<nat>)
    requires Ended(ty, mem, base, under, root, k, sl, dl, heap, kids)
    ensures Finished(ty, mem, base, under, sl, dl, heap, kids)
  {
    hide Finished;
  }

  lemma WalkedWhole(ty: Types, mem: Memory, t: Task, depth: nat)
    requires TypesOk(ty) && Walked(ty, mem, t, t.cptr, depth)
    ensures WholeTree(ty, mem, t, depth) == TreeOf(ty, mem, t, depth)
  {
    hide TypesOk, Walked, WholeTree, TreeOf;
    WalkExactly(ty, mem, t, t.cptr, depth);
    assert t.(cptr := t.cptr) == t;
  }

  // ---- what is lost ----

  /** An array is replaced by one run of its own length: exactly with several non-empty arrays bytes are left out. */
  lemma ArrayLosesExactly(ty: Types, t: Task)
    requires TypesOk(ty) && KindOf(ty, t.typ) == Array
    ensures
      var f := Flatten(ty, t)[0];
      SizeOf(ty, f.typ) * f.count == SizeOf(ty, t.typ) * t.count <==> t.count == 1 || SizeOf(ty, t.typ) == 0
  {
    assert LayoutOk(ty, t.typ);
    hide TypesOk, LayoutOk;
    var size := SizeOf(ty, t.typ);
    assert size * t.count == t.count * size && SizeOf(ty, Direct(ty, t.typ)) * ty.env[t.typ].count == size;
    TimesItself(t.count, size);
  }

  /** Two arrays of two bytes. */
  function Nested(): Types {
    Types([Type(Leaf, 1, 0, "", 0, []), Type(Array, 2, 0, "", 2, []), Type(Array, 4, 1, "", 2, [])], [])
  }

  /** Of an array of arrays all but the first is lost, whatever it holds. */
  lemma NestedArraysAreCut(mem: Memory)
    ensures
      var root := Task(2, 1, 0, None, 0, false);
      var w := Serialize(Nested(), mem, root, 3);
      && TypesOk(Nested()) && |w.tasks| == 3 && !Walked(Nested(), mem, root, 0, 3)
      && Deserialize(Nested(), w.out, 0, root, 3).heap == [mem(0), mem(1), 0, 0]
  {
    var ty, root := Nested(), Task(2, 1, 0, None, 0, false);
    var t1, t2 := Task(1, 2, 0, None, 0, false), Task(0, 2, 0, None, 0, false);
    NestedWalk(mem);
    assert forall i | 0 <= i < 3 :: LayoutOk(ty, i);
    assert !Walked(ty, mem, t1, 0, 2);
    var data := Load(mem, 0, 2);
    NestedBack(data);
  }

  lemma NestedWalk(mem: Memory)
    ensures
      var root, t1, t2 := Task(2, 1, 0, None, 0, false), Task(1, 2, 0, None, 0, false), Task(0, 2, 0, None, 0, false);
      Serialize(Nested(), mem, root, 3) == Writing([root, t1, t2], Load(mem, 0, 2))
  {
    var ty, root := Nested(), Task(2, 1, 0, None, 0, false);
    var t1, t2 := Task(1, 2, 0, None, 0, false), Task(0, 2, 0, None, 0, false);
    assert Flatten(ty, root) == [t1] && Flatten(ty, t1) == [t2] && Flatten(ty, t2) == [];
    assert Serialize(ty, mem, root, 1) == Writing([root, t1], []);
    assert Serialize(ty, mem, root, 2) == Writing([root, t1, t2], []);
  }

  lemma NestedBack(data: seq<Byte>)
    requires |data| == 2
    ensures Deserialize(Nested(), data, 0, Task(2, 1, 0, None, 0, false), 3).heap == [data[0], data[1], 0, 0]
  {
    var ty, root := Nested(), Task(2, 1, 0, None, 0, false);
    var t1, t2 := Task(1, 2, 0, None, 0, false), Task(0, 2, 0, None, 0, false);
    var zero := Repeat(0, 4);
    var r0, r1, r2 := Reading([root], zero, 0), Reading([root, t1], zero, 0), Reading([root, t1, t2], zero, 0);
    assert Deserialize(ty, data, 0, root, 0) == r0;
    RoundIs(ty, data, 0, r0, root);
    assert Deserialize(ty, data, 0, root, 1) == r1;
    RoundIs(ty, data, 0, r1, t1);
    assert Deserialize(ty, data, 0, root, 2) == r2;
    RoundIs(ty, data, 0, r2, t2);
    assert Slice(data, 0, 2) == data;
  }

  /** Why the copy may still be equal: what was lost comes back as zeros, and may have been zeros. */
  lemma CutZeros(mem: Memory)
    ensures
      var root := Task(2, 1, 0, None, 0, false);
      Deserialize(Nested(), Serialize(Nested(), mem, root, 3).out, 0, root, 3).heap == Load(mem, 0, 4)
      <==> mem(2) == 0 && mem(3) == 0
  {
    NestedArraysAreCut(mem);
    var s := Load(mem, 0, 4);
    hide Serialize, Deserialize, Nested, Walked;
    assert s == [s[0], s[1], s[2], s[3]];
  }

  /** Two structs in an array, each a byte and a pointer to as many bytes as the byte says. */
  function Pairs(): Types {
    Types([Type(Leaf, 1, 0, "", 0, []),
           Type(Pointer, 8, 0, "n", 0, []),
           Type(Struct, 9, 0, "", 0, [Member("n", 0, 0, false), Member("p", 1, 1, false)]),
           Type(Array, 18, 2, "", 2, [])], [])
  }

  lemma PairMembers(at: nat, cptr: nat)
    ensures MemberTasks(Pairs().env[2].members, 2, at, cptr)
         == [Task(0, 1, at, Some(2), cptr, false), Task(1, 1, at + 1, Some(2), cptr, false)]
  {
    var ms := Pairs().env[2].members;
    assert ms[1..][1..] == [];
    assert MemberTasks(ms[1..], 2, at, cptr) == [Task(1, 1, at + 1, Some(2), cptr, false)];
  }

  lemma PairTasks(t: Task)
    requires t.typ == 2 && t.count == 2
    ensures Known(Pairs(), t.typ)
    ensures
      var xs, ys := ElementTasks(Pairs(), t, 2), OwnElements(Pairs(), t, 2);
      && |xs| == |ys| == 4 && xs[0].typ == xs[2].typ == 0
      && xs[1] == Task(1, 1, t.at + 1, Some(2), t.at, false) && ys[1].cptr == t.at
      && xs[3] == Task(1, 1, t.at + 10, Some(2), t.at, false) && ys[3].cptr == t.at + 9
  {
    PairMembers(t.at, t.at);
    PairMembers(t.at + 9, t.at);
    PairMembers(t.at + 9, t.at + 9);
    hide MemberTasks;
    assert ElementTasks(Pairs(), t, 0) == [] && OwnElements(Pairs(), t, 0) == [];
    assert |ElementTasks(Pairs(), t, 1)| == 2 && |OwnElements(Pairs(), t, 1)| == 2;
  }

  lemma PairCount(mem: Memory, at: nat, cptr: nat)
    ensures CountAt(Pairs(), mem, Task(1, 1, at, Some(2), cptr, false)) == mem(cptr)
  {
    var m := Member("n", 0, 0, false);
    assert FindMember(Pairs().env[2].members, "n") == Some(m);
    var s := Load(mem, cptr, 1);
    assert Value(s) == s[0] + 0x100 * Value(s[1..]);
  }

  /** The second struct's pointer is followed with the first one's count: the walk is all of the data exactly when the
      two counts agree. */
  lemma PairsShareCounts(mem: Memory)
    ensures
      var p := Task(1, 1, 10, Some(2), 0, false);
      && TypesOk(Pairs())
      && CountAt(Pairs(), mem, p) == mem(0) && CountAt(Pairs(), mem, p.(cptr := 9)) == mem(9)
      && (Agrees(Pairs(), mem, Task(3, 1, 0, None, 0, false), 0, 4) <==> mem(0) == mem(9))
  {
    var ty := Pairs();
    var root, t := Task(3, 1, 0, None, 0, false), Task(2, 2, 0, None, 0, false);
    assert TypesOk(ty) by {
      assert forall i | 0 <= i < 4 :: LayoutOk(ty, i);
    }
    PairCount(mem, 10, 0);
    PairCount(mem, 10, 9);
    assert Flatten(ty, root) == [t];
    WalkExactly(ty, mem, root, 0, 4);
    WalkedArray(ty, mem, root, 0, 4);
    hide Agrees, Walked, CountAt, TypesOk, Flatten;
    PairsWalked(mem, t);
  }

  lemma PairsWalked(mem: Memory, t: Task)
    requires t == Task(2, 2, 0, None, 0, false)
    ensures Walked(Pairs(), mem, t, 0, 3) <==> mem(0) == mem(9)
  {
    hide *;
    PairTasks(t);
    PairStruct(mem, t);
    var xs, ys := ElementTasks(Pairs(), t, 2), OwnElements(Pairs(), t, 2);
    PairLeaf(mem, xs[0], ys[0].cptr);
    PairLeaf(mem, xs[2], ys[2].cptr);
    PairPointer(mem, 1, 0);
    PairPointer(mem, 10, 9);
    FourWalked(mem, xs, ys, 2);
  }

  lemma PairStruct(mem: Memory, t: Task)
    requires t.typ == 2 && t.count == 2
    ensures Walked(Pairs(), mem, t, 0, 3)
            <==> AllWalked(Pairs(), mem, ElementTasks(Pairs(), t, 2), OwnElements(Pairs(), t, 2), 2)
  {
    hide ElementTasks, OwnElements, AllWalked;
    WalkedStruct(Pairs(), mem, t, 0, 3);
  }

  lemma FourWalked(mem: Memory, xs: seq<Task>, ys: seq<Task>, depth: nat)
    requires |xs| == |ys| == 4
    ensures AllWalked(Pairs(), mem, xs, ys, depth) <==>
      && Walked(Pairs(), mem, xs[0], ys[0].cptr, depth) && Walked(Pairs(), mem, xs[1], ys[1].cptr, depth)
      && Walked(Pairs(), mem, xs[2], ys[2].cptr, depth) && Walked(Pairs(), mem, xs[3], ys[3].cptr, depth)
  {
    hide Pairs, Walked;
  }

  lemma PairLeaf(mem: Memory, t: Task, own: nat)
    requires t.typ == 0
    ensures Walked(Pairs(), mem, t, own, 2)
  {
  }

  lemma PairPointer(mem: Memory, at: nat, own: nat)
    ensures Walked(Pairs(), mem, Task(1, 1, at, Some(2), 0, false), own, 2) <==> mem(0) == mem(own)
  {
    var p := Task(1, 1, at, Some(2), 0, false);
    PairCount(mem, at, 0);
    PairCount(mem, at, own);
    WalkedCounted(Pairs(), mem, p, own, 2);
    hide CountAt;
    assert Walked(Pairs(), mem, Pointee(Pairs(), mem, p), own, 1);
  }

  // ---- indices ----

  /** For a pointer to an element: the index returns exactly when the base, once for each byte of the element past the
      first, is a multiple of 2^64. */
  lemma ElementReturns(ty: Types, mem: Memory, t: Task, n: nat)
    requires KindOf(ty, t.typ) == Pointer && PtrUseOf(ty, t.typ).Indexed? && SizeOf(ty, Direct(ty, t.typ)) > 0
    requires (LoadPtr(mem, t.at) - PtrUseOf(ty, t.typ).base) % WORD == n * SizeOf(ty, Direct(ty, t.typ))
    ensures IndexReturns(ty, mem, t) <==> PtrUseOf(ty, t.typ).base * (SizeOf(ty, Direct(ty, t.typ)) - 1) % WORD == 0
  {
    hide PtrUseOf, LoadPtr;
    TimesMod(n, SizeOf(ty, Direct(ty, t.typ)));
  }

  lemma TimesMod(n: nat, size: nat)
    requires size > 0
    ensures n * size % size == 0
  {
    var x := n * size;
    DivBounds(x, size);
    var d, r := x / size, x % size;
    if r > 0 {
      Between(n, d, size, r);
    }
  }

  lemma Between(n: nat, d: nat, size: nat, r: nat)
    requires n * size == d * size + r && r < size
    ensures r == 0
  {
    NextProduct(d + 1, size);
    if d < n {
      MulMono(d + 1, n, size);
    } else {
      MulMono(n, d, size);
    }
  }

  /** Pointers into a table of 16-byte elements at 0x1000. */
  function Table(): Types {
    Types([Type(Leaf, 16, 0, "", 0, []), Type(Pointer, 8, 0, "", 0, [])], [RefInfo(0, 0x1000, 0)])
  }

  /** A pointer to the table itself is written as index 0 and read as 16 times the base. */
  lemma TablePointerIsLost(mem: Memory, next: nat)
    requires LoadPtr(mem, 0) == 0x1000
    ensures
      var t := Task(1, 1, 0, None, 0, false);
      && TypesOk(Table()) && !IndexReturns(Table(), mem, t)
      && Written(Table(), t, Output(Table(), mem, t), next) != Load(mem, 0, PTR)
  {
    var ty, t := Table(), Task(1, 1, 0, None, 0, false);
    assert TypesOk(ty) by {
      assert forall i | 0 <= i < 2 :: LayoutOk(ty, i);
    }
    assert PtrUseOf(ty, 1) == Indexed(0x1000);
    ElementReturns(ty, mem, t, 0);
    hide TypesOk, IndexReturns, Written, Output, Load, LoadPtr;
    IndexInverts(ty, mem, t, t, next);
  }
}
