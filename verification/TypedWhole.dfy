/** When the walk over typed data, and so its copy, is all of the data. */
module TypedWhole {
  import opened Basics
  import opened TypedData
  import opened TypedProofs

  // ---- the walk against the whole ----

  lemma {:induction false} TreesAt(ty: Types, mem: Memory, ts: seq<Task>, depth: nat, i: nat)
    requires i < |ts|
    ensures TreesOf(ty, mem, ts, depth)[i] == TreeOf(ty, mem, ts[i], depth)
    ensures WholeTrees(ty, mem, ts, depth)[i] == WholeTree(ty, mem, ts[i], depth)
    decreases |ts|
  {
    hide TreeOf, WholeTree;
    if i < |ts| - 1 {
      TreesAt(ty, mem, ts[..|ts| - 1], depth, i);
    }
  }

  lemma OneTree(ty: Types, mem: Memory, t: Task, depth: nat)
    ensures TreesOf(ty, mem, [t], depth) == [TreeOf(ty, mem, t, depth)]
    ensures WholeTrees(ty, mem, [t], depth) == [WholeTree(ty, mem, t, depth)]
  {
    hide TreeOf, WholeTree;
    TreesAt(ty, mem, [t], depth, 0);
  }

  predicate HasCount(tree: Tree, count: nat) { !tree.Cut? && tree.count == count }

  /** Trees say how many there are. */
  lemma TreeCounts(ty: Types, mem: Memory, t: Task, depth: nat)
    requires depth > 0
    ensures HasCount(TreeOf(ty, mem, t, depth), t.count) && HasCount(WholeTree(ty, mem, t, depth), t.count)
  {
    hide TreesOf, WholeTrees, Flatten, OwnElements, Pointers, Load, Pointee, PtrUseOf;
  }

  /** The walk at a task, and the whole of the same task in its own container. */
  predicate Agrees(ty: Types, mem: Memory, t: Task, own: nat, depth: nat) {
    WholeTree(ty, mem, t.(cptr := own), depth) == TreeOf(ty, mem, t, depth)
  }

  lemma PointerSize(ty: Types, typ: nat)
    requires TypesOk(ty) && KindOf(ty, typ) == Pointer
    ensures SizeOf(ty, typ) == PTR
  {
    assert LayoutOk(ty, typ);
  }

  lemma PtrTimes(count: nat)
    ensures PTR * count == PTR <==> count == 1
  {
  }

  lemma PlainExactly(ty: Types, mem: Memory, t: Task, own: nat, depth: nat)
    requires TypesOk(ty) && depth > 0 && KindOf(ty, t.typ) == Pointer && PtrUseOf(ty, t.typ) != Counted
    ensures Agrees(ty, mem, t, own, depth) <==> Walked(ty, mem, t, own, depth)
  {
    PointerSize(ty, t.typ);
    PtrTimes(t.count);
    hide TypesOk, PtrUseOf;
    assert |Load(mem, t.at, PTR * t.count)| == PTR * t.count && |Load(mem, t.at, PTR)| == PTR;
    hide Load;
  }

  lemma {:induction false} CountedExactly(ty: Types, mem: Memory, t: Task, own: nat, depth: nat)
    requires TypesOk(ty) && depth > 0 && KindOf(ty, t.typ) == Pointer && PtrUseOf(ty, t.typ) == Counted
    ensures Agrees(ty, mem, t, own, depth) <==> Walked(ty, mem, t, own, depth)
    decreases depth, 0, 0
  {
    var x, y := Pointee(ty, mem, t.(cptr := own)), Pointee(ty, mem, t);
    CountedWhole(ty, mem, t.(cptr := own), depth);
    if depth > 1 {
      hide TypesOk;
      TreeCounts(ty, mem, x, depth - 1);
      TreeCounts(ty, mem, y, depth - 1);
      if x.count == y.count {
        assert x == y.(cptr := own);
        WalkExactly(ty, mem, y, own, depth - 1);
      }
    }
  }

  lemma CountedWhole(ty: Types, mem: Memory, t: Task, depth: nat)
    requires depth > 0 && KindOf(ty, t.typ) == Pointer && PtrUseOf(ty, t.typ) == Counted
    ensures t.count == 1
            ==> WholeTree(ty, mem, t, depth) == Ref(t.typ, t.count, WholeTree(ty, mem, Pointee(ty, mem, t), depth - 1))
    ensures t.count != 1 ==> WholeTree(ty, mem, t, depth).Node?
    ensures TreeOf(ty, mem, t, depth) == Ref(t.typ, t.count, TreeOf(ty, mem, Pointee(ty, mem, t), depth - 1))
  {
    hide Pointee;
  }

  lemma TimesItself(c: nat, n: nat)
    ensures c * n == n <==> c == 1 || n == 0
  {
    if c > 1 && n > 0 {
      MulMono(2, c, n);
    }
  }

  lemma ArrayWhole(ty: Types, mem: Memory, t: Task, own: nat, depth: nat)
    requires depth > 0 && KindOf(ty, t.typ) == Array
    ensures Flatten(ty, t) == [Flatten(ty, t)[0]] && Flatten(ty, t)[0].count == ty.env[t.typ].count
    ensures
      var f := Flatten(ty, t)[0];
      && TreeOf(ty, mem, t, depth) == Node(t.typ, t.count, [TreeOf(ty, mem, f, depth - 1)])
      && WholeTree(ty, mem, t.(cptr := own), depth)
         == Node(t.typ, t.count, [WholeTree(ty, mem, f.(cptr := own, count := t.count * f.count), depth - 1)])
  {
    OneTree(ty, mem, Flatten(ty, t)[0], depth - 1);
    assert Flatten(ty, t) == [Flatten(ty, t)[0]];
  }

  lemma {:induction false} ArrayExactly(ty: Types, mem: Memory, t: Task, own: nat, depth: nat)
    requires TypesOk(ty) && depth > 0 && KindOf(ty, t.typ) == Array
    ensures Agrees(ty, mem, t, own, depth) <==> Walked(ty, mem, t, own, depth)
    decreases depth, 0, 0
  {
    var f := Flatten(ty, t)[0];
    ArrayWhole(ty, mem, t, own, depth);
    if depth > 1 {
      TimesItself(t.count, f.count);
      TreeCounts(ty, mem, f, depth - 1);
      TreeCounts(ty, mem, f.(cptr := own, count := t.count * f.count), depth - 1);
      WalkExactly(ty, mem, f, own, depth - 1);
    }
    hide TypesOk, Flatten, TreeOf, WholeTree, Walked;
    WalkedArray(ty, mem, t, own, depth);
  }

  lemma WalkedArray(ty: Types, mem: Memory, t: Task, own: nat, depth: nat)
    requires depth > 0 && KindOf(ty, t.typ) == Array
    ensures Flatten(ty, t) != []
    ensures Walked(ty, mem, t, own, depth) <==>
      depth == 1 || ((t.count == 1 || ty.env[t.typ].count == 0) && Walked(ty, mem, Flatten(ty, t)[0], own, depth - 1))
  {
  }

  lemma {:induction false} EnumExactly(ty: Types, mem: Memory, t: Task, own: nat, depth: nat)
    requires TypesOk(ty) && depth > 0 && KindOf(ty, t.typ) == Enum
    ensures Agrees(ty, mem, t, own, depth) <==> Walked(ty, mem, t, own, depth)
    decreases depth, 0, 0
  {
    var f := Flatten(ty, t)[0];
    assert Flatten(ty, t) == [f] && Flatten(ty, t.(cptr := own)) == [f.(cptr := own)];
    OneTree(ty, mem, f, depth - 1);
    OneTree(ty, mem, f.(cptr := own), depth - 1);
    WalkExactly(ty, mem, f, own, depth - 1);
    hide TypesOk;
  }

  // ---- structs ----

  /** A member's task, and the same in its own element. */
  predicate OwnMember(x: Task, y: Task) { y == x.(cptr := y.cptr) }

  lemma {:induction false} MembersOwn(ms: seq<Member>, ctype: nat, at: nat, cptr: nat, cptr': nat)
    ensures
      var a, b := MemberTasks(ms, ctype, at, cptr), MemberTasks(ms, ctype, at, cptr');
      |a| == |b| && forall i | 0 <= i < |a| :: b[i] == a[i].(cptr := cptr')
  {
    if ms != [] {
      var a, b := MemberTasks(ms[1..], ctype, at, cptr), MemberTasks(ms[1..], ctype, at, cptr');
      MembersOwn(ms[1..], ctype, at, cptr, cptr');
      if !ms[0].skip {
        var x := Task(ms[0].typ, 1, at + ms[0].off, Some(ctype), cptr, false);
        assert MemberTasks(ms, ctype, at, cptr) == [x] + a
          && MemberTasks(ms, ctype, at, cptr') == [x.(cptr := cptr')] + b;
      } else {
        assert MemberTasks(ms, ctype, at, cptr) == a && MemberTasks(ms, ctype, at, cptr') == b;
      }
    }
  }

  lemma {:induction false} ElementsOwn(ty: Types, t: Task, n: nat)
    requires Known(ty, t.typ)
    ensures
      var a, b := ElementTasks(ty, t, n), OwnElements(ty, t, n);
      |a| == |b| && forall i | 0 <= i < |a| :: OwnMember(a[i], b[i])
  {
    if n > 0 {
      var at := t.at + (n - 1) * SizeOf(ty, t.typ);
      ElementsOwn(ty, t, n - 1);
      MembersOwn(ty.env[t.typ].members, t.typ, at, t.at, at);
    }
  }

  /** Where its container is makes no difference to a struct's elements. */
  lemma {:induction false} ElementsFree(ty: Types, t: Task, cptr: nat, n: nat)
    requires Known(ty, t.typ)
    ensures OwnElements(ty, t.(cptr := cptr), n) == OwnElements(ty, t, n)
  {
    if n > 0 {
      ElementsFree(ty, t, cptr, n - 1);
    }
  }

  lemma {:induction false} StructExactly(ty: Types, mem: Memory, t: Task, own: nat, depth: nat)
    requires TypesOk(ty) && depth > 0 && KindOf(ty, t.typ) == Struct
    ensures Agrees(ty, mem, t, own, depth) <==> Walked(ty, mem, t, own, depth)
    decreases depth, 0, 0
  {
    var xs, ys := ElementTasks(ty, t, t.count), OwnElements(ty, t, t.count);
    ElementsOwn(ty, t, t.count);
    ElementsFree(ty, t, own, t.count);
    StructWhole(ty, mem, t.(cptr := own), depth);
    NodeOf(ty, mem, t, depth);
    hide TypesOk, ElementTasks, OwnElements, TreeOf, WholeTree;
    EachExactly(ty, mem, xs, ys, depth - 1);
  }

  lemma StructWhole(ty: Types, mem: Memory, t: Task, depth: nat)
    requires depth > 0 && KindOf(ty, t.typ) == Struct
    ensures WholeTree(ty, mem, t, depth)
            == Node(t.typ, t.count, WholeTrees(ty, mem, OwnElements(ty, t, t.count), depth - 1))
  {
    hide OwnElements;
  }

  lemma {:induction false} EachExactly(ty: Types, mem: Memory, xs: seq<Task>, ys: seq<Task>, depth: nat)
    requires TypesOk(ty) && |xs| == |ys| && forall i | 0 <= i < |xs| :: OwnMember(xs[i], ys[i])
    ensures WholeTrees(ty, mem, ys, depth) == TreesOf(ty, mem, xs, depth) <==> AllWalked(ty, mem, xs, ys, depth)
    decreases depth, 2, 0
  {
    hide TreeOf, WholeTree, TypesOk, Walked;
    var a, b := WholeTrees(ty, mem, ys, depth), TreesOf(ty, mem, xs, depth);
    forall i | 0 <= i < |xs| ensures a[i] == b[i] <==> Walked(ty, mem, xs[i], ys[i].cptr, depth) {
      TreesAt(ty, mem, xs, depth, i);
      TreesAt(ty, mem, ys, depth, i);
      WalkExactly(ty, mem, xs[i], ys[i].cptr, depth);
    }
  }

  /** The loops walk all of the data at a task exactly when interpreted pointers and arrays come one at a time and the
      counts that are looked up in element 0 are those of the pointers' own elements. */
  lemma {:induction false} WalkExactly(ty: Types, mem: Memory, t: Task, own: nat, depth: nat)
    requires TypesOk(ty)
    ensures Agrees(ty, mem, t, own, depth) <==> Walked(ty, mem, t, own, depth)
    decreases depth, 1, 0
  {
    hide Load, TypesOk;
    if depth > 0 {
      match KindOf(ty, t.typ)
      case Pointer =>
        if PtrUseOf(ty, t.typ) == Counted {
          CountedExactly(ty, mem, t, own, depth);
        } else {
          PlainExactly(ty, mem, t, own, depth);
        }
      case Array => ArrayExactly(ty, mem, t, own, depth);
      case Enum => EnumExactly(ty, mem, t, own, depth);
      case Struct => StructExactly(ty, mem, t, own, depth);
      case Leaf =>
      case Other => OtherWhole(ty, mem, t, own, depth);
    }
  }

  lemma OtherWhole(ty: Types, mem: Memory, t: Task, own: nat, depth: nat)
    requires depth > 0 && KindOf(ty, t.typ) == Other
    ensures Agrees(ty, mem, t, own, depth) && Walked(ty, mem, t, own, depth)
  {
    assert Flatten(ty, t) == [] && Flatten(ty, t.(cptr := own)) == [];
  }
}
