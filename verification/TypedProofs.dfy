/** The two worklists stay in step, and the deserialized data is the data that was serialized. */
module TypedProofs {
  import opened Basics
  import opened Bytes
  import opened TypedData

  // ---- what is asked of the types ----

  predicate Apart(x: nat, lx: nat, y: nat, ly: nat) { x + lx <= y || y + ly <= x }

  /** Sizes agree, and the members a struct serializes are inside it and apart. */
  predicate LayoutOk(ty: Types, typ: nat)
    requires Known(ty, typ)
  {
    var t := ty.env[typ];
    match t.kind
    case Pointer => t.size == PTR
    case Array => Known(ty, t.direct) && t.count >= 1 && t.size == t.count * SizeOf(ty, t.direct)
    case Enum => Known(ty, t.direct) && t.size == SizeOf(ty, t.direct)
    case Struct => MembersOk(ty, t.members, t.size)
    case _ => true
  }

  predicate MembersOk(ty: Types, ms: seq<Member>, size: nat) {
    && (forall i | 0 <= i < |ms| && !ms[i].skip :: ms[i].off + SizeOf(ty, ms[i].typ) <= size)
    && (forall i, j | 0 <= i < j < |ms| && !ms[i].skip && !ms[j].skip ::
          Apart(ms[i].off, SizeOf(ty, ms[i].typ), ms[j].off, SizeOf(ty, ms[j].typ)))
  }

  predicate TypesOk(ty: Types) { forall typ | 0 <= typ < |ty.env| :: LayoutOk(ty, typ) }

  /** `under` holds every pair of a containing struct and a type met inside it, and in each such pair a counted
      pointer finds its count in a leaf that is serialized, if anywhere. */
  ghost predicate Covers(ty: Types, under: set<(Option<nat>, nat)>) {
    forall p | p in under :: CoveredOk(ty, under, p.0, p.1)
  }

  ghost predicate CoveredOk(ty: Types, under: set<(Option<nat>, nat)>, c: Option<nat>, typ: nat) {
    && Known(ty, typ)
    && match KindOf(ty, typ)
       case Struct => forall i | 0 <= i < |ty.env[typ].members| && !ty.env[typ].members[i].skip ::
         (Some(typ), ty.env[typ].members[i].typ) in under
       case Array => (c, Direct(ty, typ)) in under
       case Enum => (c, Direct(ty, typ)) in under
       case Pointer => PtrUseOf(ty, typ) == Counted ==> (c, Direct(ty, typ)) in under && CountOk(ty, c, typ)
       case _ => true
  }

  predicate CountOk(ty: Types, c: Option<nat>, typ: nat) {
    && c.Some? && KindOf(ty, c.value) == Struct
    && match CountMember(ty, c, typ)
       case Some(m) => !m.skip && KindOf(ty, m.typ) == Leaf && SizeOf(ty, m.typ) <= PTR
       case None => true
  }

  // ---- room ----

  function Max(a: nat, b: nat): nat { if a < b then b else a }

  /** The bytes of a destination that belong to a task. */
  function Foot(ty: Types, t: Task): nat { Max(t.count, 1) * SizeOf(ty, t.typ) }

  /** How many of them it writes itself. */
  function Wrote(ty: Types, t: Task): nat {
    match KindOf(ty, t.typ)
    case Leaf => SizeOf(ty, t.typ) * t.count
    case Pointer =>
      (match PtrUseOf(ty, t.typ)
       case Counted => if t.post then PTR else 0
       case Plain => SizeOf(ty, t.typ) * t.count
       case _ => PTR)
    case _ => 0
  }

  lemma WroteInFoot(ty: Types, t: Task)
    requires TypesOk(ty)
    ensures Wrote(ty, t) <= Foot(ty, t)
  {
    var size := SizeOf(ty, t.typ);
    MulMono(t.count, Max(t.count, 1), size);
    MulMono(1, Max(t.count, 1), size);
    if Known(ty, t.typ) {
      assert LayoutOk(ty, t.typ);
    }
  }

  /** Tasks whose footprints lie in `[from, to)` and are apart. */
  ghost predicate Spread(ty: Types, ts: seq<Task>, from: nat, to: nat) {
    && (forall i | 0 <= i < |ts| :: from <= ts[i].at && ts[i].at + Foot(ty, ts[i]) <= to)
    && (forall i, j | 0 <= i < j < |ts| :: Apart(ts[i].at, Foot(ty, ts[i]), ts[j].at, Foot(ty, ts[j])))
  }

  lemma SpreadAppend(ty: Types, a: seq<Task>, b: seq<Task>, from: nat, mid: nat, to: nat)
    requires Spread(ty, a, from, mid) && Spread(ty, b, mid, to) && from <= mid <= to
    ensures Spread(ty, a + b, from, to)
  {
    hide Foot;
  }

  lemma OneFoot(ty: Types, t: Task)
    requires t.count == 1
    ensures Foot(ty, t) == SizeOf(ty, t.typ)
  {
  }

  lemma {:induction false} MembersSpread(ty: Types, ms: seq<Member>, size: nat, ctype: nat, at: nat, cptr: nat)
    requires MembersOk(ty, ms, size)
    ensures Spread(ty, MemberTasks(ms, ctype, at, cptr), at, at + size)
  {
    if ms != [] {
      var rest := ms[1..];
      assert forall i | 0 <= i < |rest| :: rest[i] == ms[i + 1];
      MembersSpread(ty, rest, size, ctype, at, cptr);
      var ts := MemberTasks(rest, ctype, at, cptr);
      if !ms[0].skip {
        var t := Task(ms[0].typ, 1, at + ms[0].off, Some(ctype), cptr, false);
        OneFoot(ty, t);
        hide Foot, Apart, Spread;
        forall x | x in ts ensures Apart(t.at, Foot(ty, t), x.at, Foot(ty, x)) {
          MemberApart(ty, ms, size, ctype, at, cptr, t, x);
        }
        assert MemberTasks(ms, ctype, at, cptr) == [t] + ts;
        SpreadPrepend(ty, t, ts, at, at + size);
      }
    }
  }

  lemma SpreadPrepend(ty: Types, t: Task, ts: seq<Task>, from: nat, to: nat)
    requires Spread(ty, ts, from, to) && from <= t.at && t.at + Foot(ty, t) <= to
    requires forall x | x in ts :: Apart(t.at, Foot(ty, t), x.at, Foot(ty, x))
    ensures Spread(ty, [t] + ts, from, to)
  {
    hide Foot, Apart;
  }

  lemma MemberApart(ty: Types, ms: seq<Member>, size: nat, ctype: nat, at: nat, cptr: nat, t: Task, x: Task)
    requires MembersOk(ty, ms, size) && ms != [] && IsMemberTask(ms[0], t, ctype, at, cptr)
    requires x in MemberTasks(ms[1..], ctype, at, cptr)
    ensures Apart(t.at, Foot(ty, t), x.at, Foot(ty, x))
  {
    OneFoot(ty, t);
    hide Foot;
    IsFromMember(ty, ms[1..], ctype, at, cptr, x);
    var i :| 0 <= i < |ms[1..]| && IsMemberTask(ms[1..][i], x, ctype, at, cptr);
    OneFoot(ty, x);
    assert ms[1..][i] == ms[i + 1];
    assert Apart(ms[0].off, SizeOf(ty, ms[0].typ), ms[i + 1].off, SizeOf(ty, ms[i + 1].typ));
  }

  lemma {:induction false} IsFromMember(ty: Types, ms: seq<Member>, ctype: nat, at: nat, cptr: nat, t: Task)
    requires t in MemberTasks(ms, ctype, at, cptr)
    ensures FromMember(ty, ms, t, ctype, at, cptr)
  {
    if IsMemberTask(ms[0], t, ctype, at, cptr) {
    } else {
      IsFromMember(ty, ms[1..], ctype, at, cptr, t);
      var i :| 0 <= i < |ms[1..]| && IsMemberTask(ms[1..][i], t, ctype, at, cptr);
      assert IsMemberTask(ms[i + 1], t, ctype, at, cptr);
    }
  }

  predicate IsMemberTask(m: Member, t: Task, ctype: nat, at: nat, cptr: nat) {
    !m.skip && t == Task(m.typ, 1, at + m.off, Some(ctype), cptr, false)
  }

  ghost predicate FromMember(ty: Types, ms: seq<Member>, t: Task, ctype: nat, at: nat, cptr: nat) {
    exists i | 0 <= i < |ms| :: IsMemberTask(ms[i], t, ctype, at, cptr)
  }

  lemma NextProduct(n: nat, a: nat)
    requires n > 0
    ensures n * a == (n - 1) * a + a
  {
  }

  lemma ElementsNext(ty: Types, t: Task, n: nat, d: nat)
    requires Known(ty, t.typ) && n > 0 && d == (n - 1) * SizeOf(ty, t.typ)
    ensures ElementTasks(ty, t, n)
            == ElementTasks(ty, t, n - 1) + MemberTasks(ty.env[t.typ].members, t.typ, t.at + d, t.at)
  {
    hide MemberTasks;
  }

  lemma ElementSpread(ty: Types, t: Task, at: nat)
    requires TypesOk(ty) && KindOf(ty, t.typ) == Struct
    ensures Spread(ty, MemberTasks(ty.env[t.typ].members, t.typ, at, t.at), at, at + SizeOf(ty, t.typ))
  {
    hide Spread, MembersOk;
    assert LayoutOk(ty, t.typ);
    MembersSpread(ty, ty.env[t.typ].members, SizeOf(ty, t.typ), t.typ, at, t.at);
  }

  lemma {:induction false} ElementsSpread(ty: Types, t: Task, n: nat, d: nat)
    requires TypesOk(ty) && KindOf(ty, t.typ) == Struct && d == n * SizeOf(ty, t.typ)
    ensures Spread(ty, ElementTasks(ty, t, n), t.at, t.at + d)
  {
    hide Spread, ElementTasks, TypesOk;
    if n == 0 {
      NoElements(ty, t, d);
    } else {
      var size := SizeOf(ty, t.typ);
      NextProduct(n, size);
      var mid := (n - 1) * size;
      ElementsSpread(ty, t, n - 1, mid);
      MoreSpread(ty, t, n, mid, d);
    }
  }

  lemma NoElements(ty: Types, t: Task, d: nat)
    requires KindOf(ty, t.typ) == Struct
    ensures Spread(ty, ElementTasks(ty, t, 0), t.at, t.at + d)
  {
  }

  lemma MoreSpread(ty: Types, t: Task, n: nat, mid: nat, d: nat)
    requires TypesOk(ty) && KindOf(ty, t.typ) == Struct && n > 0 && mid == (n - 1) * SizeOf(ty, t.typ)
    requires d == mid + SizeOf(ty, t.typ) && Spread(ty, ElementTasks(ty, t, n - 1), t.at, t.at + mid)
    ensures Spread(ty, ElementTasks(ty, t, n), t.at, t.at + d)
  {
    hide Spread, ElementTasks, TypesOk, MemberTasks;
    ElementSpread(ty, t, t.at + mid);
    ElementsNext(ty, t, n, mid);
    SpreadAppend(ty, ElementTasks(ty, t, n - 1), MemberTasks(ty.env[t.typ].members, t.typ, t.at + mid, t.at), t.at,
                 t.at + mid, t.at + d);
  }

  /** What a task is replaced by stays within its footprint. */
  lemma FlattenSpread(ty: Types, t: Task)
    requires TypesOk(ty)
    ensures Spread(ty, Flatten(ty, t), t.at, t.at + Foot(ty, t))
  {
    var size := SizeOf(ty, t.typ);
    MulMono(1, Max(t.count, 1), size);
    MulMono(t.count, Max(t.count, 1), size);
    if Known(ty, t.typ) {
      assert LayoutOk(ty, t.typ);
      if KindOf(ty, t.typ) == Struct {
        ElementsSpread(ty, t, t.count, t.count * size);
      }
    }
    hide MembersOk, ElementTasks;
  }

  // ---- the two sides' tasks ----

  /** The same task at different places. */
  predicate Match(a: Task, b: Task) { b == a.(at := b.at, cptr := b.cptr) }

  predicate SameLists(a: seq<Task>, b: seq<Task>) { |a| == |b| && forall i | 0 <= i < |a| :: Match(a[i], b[i]) }

  /** Children of matching tasks match, at the same distances. */
  predicate SameChild(a: Task, b: Task, x: Task, y: Task, inside: bool) {
    && Match(x, y) && y.at - b.at == x.at - a.at
    && (if inside then x.cptr == a.at && y.cptr == b.at && x.ctype == Some(a.typ)
        else x.cptr == a.cptr && y.cptr == b.cptr && x.ctype == a.ctype)
  }

  lemma {:induction false} MembersMatch(ms: seq<Member>, ctype: nat, at: nat, cptr: nat, at': nat, cptr': nat)
    ensures
      var a, b := MemberTasks(ms, ctype, at, cptr), MemberTasks(ms, ctype, at', cptr');
      |a| == |b| && forall i | 0 <= i < |a| :: SameMember(a[i], b[i], ctype, at, cptr, at', cptr')
  {
    if ms != [] {
      var a, b := MemberTasks(ms[1..], ctype, at, cptr), MemberTasks(ms[1..], ctype, at', cptr');
      MembersMatch(ms[1..], ctype, at, cptr, at', cptr');
      if !ms[0].skip {
        var x, y := Task(ms[0].typ, 1, at + ms[0].off, Some(ctype), cptr, false),
          Task(ms[0].typ, 1, at' + ms[0].off, Some(ctype), cptr', false);
        assert SameMember(x, y, ctype, at, cptr, at', cptr');
        hide SameMember;
        assert MemberTasks(ms, ctype, at, cptr) == [x] + a && MemberTasks(ms, ctype, at', cptr') == [y] + b;
      } else {
        assert MemberTasks(ms, ctype, at, cptr) == a && MemberTasks(ms, ctype, at', cptr') == b;
      }
    }
  }

  /** The task of one member, in two places. */
  predicate SameMember(x: Task, y: Task, ctype: nat, at: nat, cptr: nat, at': nat, cptr': nat) {
    && Match(x, y) && y.at - at' == x.at - at && x.cptr == cptr && y.cptr == cptr'
    && x.ctype == Some(ctype) && !x.post
  }

  lemma {:induction false} ElementsMatch(ty: Types, a: Task, b: Task, n: nat)
    requires Known(ty, a.typ) && Match(a, b)
    ensures
      var xs, ys := ElementTasks(ty, a, n), ElementTasks(ty, b, n);
      |xs| == |ys| && forall i | 0 <= i < |xs| :: SameChild(a, b, xs[i], ys[i], true) && !xs[i].post
  {
    if n > 0 {
      ElementsMatch(ty, a, b, n - 1);
      var d := (n - 1) * SizeOf(ty, a.typ);
      MembersMatch(ty.env[a.typ].members, a.typ, a.at + d, a.at, b.at + d, b.at);
    }
  }

  lemma FlattenMatch(ty: Types, a: Task, b: Task)
    requires Match(a, b)
    ensures
      var xs, ys := Flatten(ty, a), Flatten(ty, b);
      |xs| == |ys| && forall i | 0 <= i < |xs| ::
        SameChild(a, b, xs[i], ys[i], KindOf(ty, a.typ) == Struct) && (KindOf(ty, a.typ) == Struct ==> !xs[i].post)
  {
    hide ElementTasks;
    if KindOf(ty, a.typ) == Struct {
      ElementsMatch(ty, a, b, a.count);
    }
  }

  lemma {:induction false} MembersCovered(ty: Types, under: set<(Option<nat>, nat)>, ms: seq<Member>, ctype: nat,
                                          at: nat, cptr: nat)
    requires forall i | 0 <= i < |ms| && !ms[i].skip :: (Some(ctype), ms[i].typ) in under
    ensures forall t | t in MemberTasks(ms, ctype, at, cptr) :: (t.ctype, t.typ) in under
  {
    if ms != [] {
      MembersCovered(ty, under, ms[1..], ctype, at, cptr);
    }
  }

  lemma {:induction false} ElementsCovered(ty: Types, under: set<(Option<nat>, nat)>, t: Task, n: nat)
    requires KindOf(ty, t.typ) == Struct && CoveredOk(ty, under, t.ctype, t.typ)
    ensures forall x | x in ElementTasks(ty, t, n) :: (x.ctype, x.typ) in under
  {
    if n > 0 {
      ElementsCovered(ty, under, t, n - 1);
      MembersCovered(ty, under, ty.env[t.typ].members, t.typ, t.at + (n - 1) * SizeOf(ty, t.typ), t.at);
    }
  }

  lemma PushesCovered(ty: Types, mem: Memory, under: set<(Option<nat>, nat)>, t: Task)
    requires CoveredOk(ty, under, t.ctype, t.typ) && (t.ctype, t.typ) in under
    ensures forall x | x in Pushes(ty, mem, t) :: (x.ctype, x.typ) in under
  {
    if KindOf(ty, t.typ) == Struct {
      ElementsCovered(ty, under, t, t.count);
    }
    hide ElementTasks;
  }

  // ---- where a struct's own members are among the tasks it pushes ----

  function MemberPos(ms: seq<Member>, i: nat): nat
    requires i <= |ms|
  {
    if i == 0 then 0 else (if ms[0].skip then 0 else 1) + MemberPos(ms[1..], i - 1)
  }

  lemma {:induction false} MemberPlaced(ms: seq<Member>, i: nat, ctype: nat, at: nat, cptr: nat)
    requires i < |ms| && !ms[i].skip
    ensures
      var ts := MemberTasks(ms, ctype, at, cptr);
      MemberPos(ms, i) < |ts| && ts[MemberPos(ms, i)] == Task(ms[i].typ, 1, at + ms[i].off, Some(ctype), cptr, false)
  {
    if i > 0 {
      MemberPlaced(ms[1..], i - 1, ctype, at, cptr);
    }
  }

  /** Element 0's members come first. */
  lemma {:induction false} FirstElement(ty: Types, t: Task, n: nat)
    requires Known(ty, t.typ) && n > 0
    ensures MemberTasks(ty.env[t.typ].members, t.typ, t.at, t.at) <= ElementTasks(ty, t, n)
  {
    if n > 1 {
      FirstElement(ty, t, n - 1);
    } else {
      assert ElementTasks(ty, t, 0) == [];
      assert 0 * SizeOf(ty, t.typ) == 0;
    }
  }

  lemma StructHasMember(ty: Types, t: Task, i: nat)
    requires KindOf(ty, t.typ) == Struct && t.count > 0
    requires i < |ty.env[t.typ].members| && !ty.env[t.typ].members[i].skip
    ensures
      var m := ty.env[t.typ].members[i];
      var p := MemberPos(ty.env[t.typ].members, i);
      p < |Flatten(ty, t)| && Flatten(ty, t)[p] == Task(m.typ, 1, t.at + m.off, Some(t.typ), t.at, false)
  {
    hide ElementTasks;
    MemberPlaced(ty.env[t.typ].members, i, t.typ, t.at, t.at);
    FirstElement(ty, t, t.count);
  }

  // ---- bytes ----

  lemma WordIs()
    ensures WORD == Pow(0x100, 8)
  {
    assert Pow(0x100, 1) == 0x100;
    assert Pow(0x100, 2) == 0x1_0000;
    assert Pow(0x100, 3) == 0x100_0000;
    assert Pow(0x100, 4) == 0x1_0000_0000;
    assert Pow(0x100, 5) == 0x100_0000_0000;
    assert Pow(0x100, 6) == 0x1_0000_0000_0000;
    assert Pow(0x100, 7) == 0x100_0000_0000_0000;
  }

  lemma {:induction false} ValueBound(s: seq<Byte>)
    ensures Value(s) < Pow(0x100, |s|)
  {
    if s != [] {
      ValueBound(s[1..]);
    }
  }

  lemma {:induction false} ValueOfEncode(x: nat, n: nat)
    requires x < Pow(0x100, n)
    ensures Value(Encode(x, n)) == x
  {
    if n > 0 {
      ValueOfEncode(x / 0x100, n - 1);
      assert Encode(x, n)[1..] == Encode(x / 0x100, n - 1);
    }
  }

  lemma {:induction false} EncodeOfValue(s: seq<Byte>)
    ensures Encode(Value(s), |s|) == s
  {
    if s != [] {
      EncodeOfValue(s[1..]);
      var low: int := s[0];
      assert Value(s) % 0x100 == low && Value(s) / 0x100 == Value(s[1..]);
    }
  }

  lemma PtrEncodes(x: nat)
    requires x < WORD
    ensures Value(Encode(x, PTR)) == x
  {
    WordIs();
    ValueOfEncode(x, PTR);
  }

  lemma Rebased(p: nat, b: nat)
    requires p < WORD
    ensures ((p - b) % WORD + b) % WORD == p
  {
  }

  /** An offset pointer comes back as the bytes it was. */
  lemma OffsetInverts(mem: Memory, at: nat, b: nat)
    ensures Encode((Value(Encode((LoadPtr(mem, at) - b) % WORD, PTR)) + b) % WORD, PTR) == Load(mem, at, PTR)
  {
    hide Encode, Value;
    WordIs();
    ValueBound(Load(mem, at, PTR));
    PtrEncodes((LoadPtr(mem, at) - b) % WORD);
    Rebased(LoadPtr(mem, at), b);
    EncodeOfValue(Load(mem, at, PTR));
  }

  /** Bytes of a buffer are those of the source. */
  ghost predicate Copied(mem: Memory, src: nat, heap: seq<Byte>, dst: nat, n: nat) {
    dst + n <= |heap| && heap[dst..dst + n] == Load(mem, src, n)
  }

  lemma CopiedLoads(mem: Memory, src: nat, heap: seq<Byte>, base: nat, dst: nat, n: nat)
    requires Copied(mem, src, heap, dst, n)
    ensures Load(HeapMemory(heap, base), base + dst, n) == Load(mem, src, n)
  {
    var a, b := Load(HeapMemory(heap, base), base + dst, n), Load(mem, src, n);
    forall i | 0 <= i < n ensures a[i] == b[i] {
      assert heap[dst..dst + n][i] == b[i];
    }
  }

  lemma OutputLength(ty: Types, mem: Memory, t: Task, d: Task)
    requires Match(t, d)
    ensures |Output(ty, mem, t)| == Consumed(ty, d)
  {
  }

  // ---- pointers written as indices ----

  /** Two numbers below the modulus are equal exactly when their difference is a multiple of it. */
  lemma SameWord(x: nat, y: nat)
    requires x < WORD && y < WORD
    ensures x == y <==> (x - y) % WORD == 0
  {
  }

  lemma WordShift(x: int, k: int)
    ensures (x + k * WORD) % WORD == x % WORD
  {
  }

  /** What the reader makes of an index, and how far it is from the pointer. */
  lemma IndexDistance(p: nat, b: nat, size: nat, q: nat, y: nat)
    requires p < WORD && size > 0 && q == (p - b) % WORD && y == (q / size + b) * size % WORD
    ensures (y - p) % WORD == (b * (size - 1) - q % size) % WORD
  {
    var r := q / size;
    DivBounds(q, size);
    var full := (r + b) * size;
    assert full == r * size + b * size by { Distribute(r, b, size); }
    assert b * size == b * (size - 1) + b by { OneLess(b, size); }
    var k := full / WORD;
    var m := (p - b) / WORD;
    assert full == k * WORD + y && p - b == m * WORD + q;
    assert y - p == (b * (size - 1) - q % size) + (-k - m) * WORD by {
      assert (-k - m) * WORD == -k * WORD - m * WORD;
    }
    WordShift(b * (size - 1) - q % size, -k - m);
  }

  lemma Distribute(r: nat, b: nat, size: nat)
    ensures (r + b) * size == r * size + b * size
  {
  }

  lemma OneLess(b: nat, size: nat)
    requires size > 0
    ensures b * size == b * (size - 1) + b
  {
  }

  lemma QuotientBound(q: nat, size: nat)
    requires size > 0
    ensures q / size <= q
  {
    DivBounds(q, size);
    if q / size > q {
      MulMono(1, size, q / size);
    }
  }

  /** The bytes of a word are those of a pointer exactly when it is that pointer. */
  lemma WordIsPtr(y: nat, s: seq<Byte>)
    requires y < WORD && |s| == PTR
    ensures Encode(y, PTR) == s <==> y == Value(s)
  {
    PtrEncodes(y);
    EncodeOfValue(s);
    hide Encode, Value;
  }

  /** An indexed pointer is written back as it was exactly when its index returns. */
  lemma IndexInverts(ty: Types, mem: Memory, t: Task, d: Task, next: nat)
    requires Match(t, d) && KindOf(ty, t.typ) == Pointer && PtrUseOf(ty, t.typ).Indexed?
    ensures Written(ty, d, Output(ty, mem, t), next) == Load(mem, t.at, PTR) <==> IndexReturns(ty, mem, t)
  {
    var b := PtrUseOf(ty, t.typ).base;
    var size := SizeOf(ty, Direct(ty, t.typ));
    var p := LoadPtr(mem, t.at);
    var q := (p - b) % WORD;
    WordIs();
    ValueBound(Load(mem, t.at, PTR));
    QuotientBound(q, DivBy(size));
    PtrEncodes(q / DivBy(size));
    var y := (q / DivBy(size) + b) * size % WORD;
    assert Written(ty, d, Output(ty, mem, t), next) == Encode(y, PTR);
    WordIsPtr(y, Load(mem, t.at, PTR));
    hide Written, Output, Encode, Value, Load, PtrUseOf;
    if size == 0 {
      ZeroIndex(q, b, size);
    } else {
      IndexDistance(p, b, size, q, y);
      SameWord(y, p);
    }
  }

  lemma ZeroIndex(q: nat, b: nat, size: nat)
    requires size == 0
    ensures (q / DivBy(size) + b) * size % WORD == 0
  {
  }

  /** What is written: the source's bytes, except in place of a followed pointer or of an index that does not return. */
  lemma WrittenIs(ty: Types, mem: Memory, t: Task, d: Task, next: nat)
    requires Match(t, d)
    ensures
      var s := Written(ty, d, Output(ty, mem, t), next);
      && |s| == Wrote(ty, d)
      && (Follows(ty, d) ==> s == Encode(next, PTR))
      && (!Follows(ty, d) ==> (s == Load(mem, t.at, Wrote(ty, d)) <==> Returns(ty, mem, t)))
  {
    hide Encode, Value, LoadPtr;
    if KindOf(ty, t.typ).Pointer? {
      match PtrUseOf(ty, t.typ) {
        case Offset(b) => OffsetInverts(mem, t.at, b);
        case Indexed(b) =>
          IndexInverts(ty, mem, t, d, next);
          hide IndexReturns;
        case _ =>
      }
    }
  }

  // ---- the two loops in step ----

  /** Task `j` on both sides is the leaf that holds member `m` of the containing struct of `a` and `b`. */
  predicate HoldsMember(sl: seq<Task>, dl: seq<Task>, j: nat, a: Task, b: Task, m: Member) {
    && j < |sl| && j < |dl| && a.ctype.Some?
    && IsMemberTask(m, sl[j], a.ctype.value, a.cptr, a.cptr) && IsMemberTask(m, dl[j], a.ctype.value, b.cptr, b.cptr)
  }

  ghost predicate MemberBefore(sl: seq<Task>, dl: seq<Task>, bound: nat, a: Task, b: Task, m: Member) {
    exists j: nat | j < bound :: HoldsMember(sl, dl, j, a, b, m)
  }

  /** Every serialized member of the container of task `i` has its own task: before task `i` itself once the task
      is behind the header. */
  ghost predicate CountsReady(ty: Types, sl: seq<Task>, dl: seq<Task>, i: nat)
    requires i < |sl| && i < |dl|
  {
    sl[i].ctype.Some? && Known(ty, sl[i].ctype.value) ==>
      forall x | 0 <= x < |ty.env[sl[i].ctype.value].members| && !ty.env[sl[i].ctype.value].members[x].skip ::
        MemberBefore(sl, dl, if sl[i].post then i else |sl|, sl[i], dl[i], ty.env[sl[i].ctype.value].members[x])
  }

  /** What has become of task `i`, whose successors begin at `kid`. */
  ghost predicate Settled(ty: Types, mem: Memory, base: nat, sl: seq<Task>, dl: seq<Task>, heap: seq<Byte>, i: nat,
                          kid: nat)
    requires i < |sl| && i < |dl|
  {
    && kid + |Pushes(ty, mem, sl[i])| <= |sl| == |dl|
    && sl[kid..kid + |Pushes(ty, mem, sl[i])|] == Pushes(ty, mem, sl[i])
    && dl[i].at + Wrote(ty, dl[i]) <= |heap|
    && if Follows(ty, dl[i]) then
         && kid < |dl| && dl[kid].cptr == dl[i].cptr
         && heap[dl[i].at..dl[i].at + Wrote(ty, dl[i])] == Encode(base + dl[kid].at, PTR)
       else
         && kid + |Flatten(ty, dl[i])| <= |dl| && dl[kid..kid + |Flatten(ty, dl[i])|] == Flatten(ty, dl[i])
         && (Copied(mem, sl[i].at, heap, dl[i].at, Wrote(ty, dl[i])) <==> Returns(ty, mem, sl[i]))
  }

  /** Unprocessed tasks have room of their own, apart from each other and from what has been written. */
  ghost predicate RoomOk(ty: Types, dl: seq<Task>, heap: seq<Byte>, k: nat)
    requires k <= |dl|
  {
    && (forall i | k <= i < |dl| :: dl[i].at + Foot(ty, dl[i]) <= |heap|)
    && (forall i, j | k <= i < j < |dl| :: Apart(dl[i].at, Foot(ty, dl[i]), dl[j].at, Foot(ty, dl[j])))
    && (forall i, j | 0 <= i < k <= j < |dl| :: Apart(dl[i].at, Wrote(ty, dl[i]), dl[j].at, Foot(ty, dl[j])))
  }

  ghost predicate ListsOk(ty: Types, under: set<(Option<nat>, nat)>, sl: seq<Task>, dl: seq<Task>) {
    && SameLists(sl, dl)
    && (forall i | 0 <= i < |sl| :: (sl[i].ctype, sl[i].typ) in under)
    && (forall i | 0 <= i < |sl| :: CountsReady(ty, sl, dl, i))
  }

  ghost predicate InStep(ty: Types, mem: Memory, base: nat, under: set<(Option<nat>, nat)>, sl: seq<Task>,
                         dl: seq<Task>,
                         heap: seq<Byte>, k: nat, kids: seq<nat>)
  {
    && |kids| == k <= |sl| == |dl| && ListsOk(ty, under, sl, dl) && RoomOk(ty, dl, heap, k)
    && (forall i | 0 <= i < k :: Settled(ty, mem, base, sl, dl, heap, i, kids[i]))
  }

  // ---- counts are written before they are read ----

  lemma {:induction false} FoundIsMember(ms: seq<Member>, name: string) returns (x: nat)
    requires FindMember(ms, name).Some?
    ensures x < |ms| && ms[x] == FindMember(ms, name).value
  {
    if ms[0].name == name {
      x := 0;
    } else {
      x := FoundIsMember(ms[1..], name);
      x := x + 1;
    }
  }

  lemma MemberLoads(ty: Types, mem: Memory, base: nat, sl: seq<Task>, dl: seq<Task>, heap: seq<Byte>, j: nat, kid: nat,
                    a: Task, b: Task, m: Member)
    requires j < |sl| && j < |dl| && Settled(ty, mem, base, sl, dl, heap, j, kid) && HoldsMember(sl, dl, j, a, b, m)
    requires KindOf(ty, m.typ) == Leaf
    ensures Load(HeapMemory(heap, base), base + b.cptr + m.off, SizeOf(ty, m.typ))
            == Load(mem, a.cptr + m.off, SizeOf(ty, m.typ))
  {
    hide Load, HeapMemory;
    CopiedLoads(mem, sl[j].at, heap, base, dl[j].at, Wrote(ty, dl[j]));
  }

  /** When a pointer is followed its count has been written already, and is the source's. */
  lemma CountsAgree(ty: Types, mem: Memory, base: nat, under: set<(Option<nat>, nat)>, sl: seq<Task>, dl: seq<Task>,
                    heap: seq<Byte>, k: nat, kids: seq<nat>)
    requires Covers(ty, under) && InStep(ty, mem, base, under, sl, dl, heap, k, kids) && k < |sl| && Follows(ty, sl[k])
    ensures HeapCount(ty, heap, base, dl[k]) == CountAt(ty, mem, sl[k])
  {
    var a, b := sl[k], dl[k];
    assert CoveredOk(ty, under, a.ctype, a.typ);
    assert Match(a, b) && CountsReady(ty, sl, dl, k);
    var found := CountMember(ty, a.ctype, a.typ);
    if found.Some? {
      var members := ty.env[a.ctype.value].members;
      var x := FoundIsMember(members, Delim(ty, a.typ));
      assert MemberBefore(sl, dl, k, a, b, members[x]);
      var j: nat :| j < k && HoldsMember(sl, dl, j, a, b, members[x]);
      hide InStep, Load, HeapMemory, Value;
      SettledAt(ty, mem, base, under, sl, dl, heap, k, kids, j);
      MemberLoads(ty, mem, base, sl, dl, heap, j, kids[j], a, b, members[x]);
    }
  }

  lemma SettledAt(ty: Types, mem: Memory, base: nat, under: set<(Option<nat>, nat)>, sl: seq<Task>, dl: seq<Task>,
                  heap: seq<Byte>, k: nat, kids: seq<nat>, j: nat)
    requires InStep(ty, mem, base, under, sl, dl, heap, k, kids) && j < k
    ensures j < |sl| == |dl| && j < |kids| && Settled(ty, mem, base, sl, dl, heap, j, kids[j])
  {
  }

  // ---- one round keeps the lists matched and the counts ready ----

  lemma HoldsOn(sl: seq<Task>, dl: seq<Task>, p: seq<Task>, q: seq<Task>, bound: nat, bound': nat, a: Task, b: Task,
                m: Member)
    requires |sl| == |dl| && bound <= |sl| && bound <= bound' && MemberBefore(sl, dl, bound, a, b, m)
    ensures MemberBefore(sl + p, dl + q, bound', a, b, m)
  {
    var j: nat :| j < bound && HoldsMember(sl, dl, j, a, b, m);
    assert HoldsMember(sl + p, dl + q, j, a, b, m);
  }

  lemma OldReady(ty: Types, sl: seq<Task>, dl: seq<Task>, p: seq<Task>, q: seq<Task>, i: nat)
    requires |sl| == |dl| && |p| == |q| && i < |sl| && CountsReady(ty, sl, dl, i)
    ensures CountsReady(ty, sl + p, dl + q, i)
  {
    var a, b := sl[i], dl[i];
    assert (sl + p)[i] == a && (dl + q)[i] == b;
    if a.ctype.Some? && Known(ty, a.ctype.value) {
      var ms := ty.env[a.ctype.value].members;
      forall x | 0 <= x < |ms| && !ms[x].skip
        ensures MemberBefore(sl + p, dl + q, if a.post then i else |sl + p|, a, b, ms[x]) {
        HoldsOn(sl, dl, p, q, if a.post then i else |sl|, if a.post then i else |sl + p|, a, b, ms[x]);
      }
    }
  }

  /** A task pushed with the container of task `k`. */
  lemma InheritedReady(ty: Types, sl: seq<Task>, dl: seq<Task>, p: seq<Task>, q: seq<Task>, k: nat, c: nat)
    requires |sl| == |dl| && |p| == |q| && k < |sl| && c < |p| && CountsReady(ty, sl, dl, k)
    requires p[c].ctype == sl[k].ctype && p[c].cptr == sl[k].cptr && q[c].cptr == dl[k].cptr
    ensures CountsReady(ty, sl + p, dl + q, |sl| + c)
  {
    var a, b := sl[k], dl[k];
    var i := |sl| + c;
    assert (sl + p)[i] == p[c] && (dl + q)[i] == q[c];
    if a.ctype.Some? && Known(ty, a.ctype.value) {
      var ms := ty.env[a.ctype.value].members;
      forall x | 0 <= x < |ms| && !ms[x].skip
        ensures MemberBefore(sl + p, dl + q, if p[c].post then i else |sl + p|, p[c], q[c], ms[x])
      {
        HoldsOn(sl, dl, p, q, if a.post then k else |sl|, if p[c].post then i else |sl + p|, a, b, ms[x]);
        SameContainer(sl + p, dl + q, if p[c].post then i else |sl + p|, a, b, p[c], q[c], ms[x]);
      }
    }
  }

  lemma SameContainer(sl: seq<Task>, dl: seq<Task>, bound: nat, a: Task, b: Task, a': Task, b': Task, m: Member)
    requires MemberBefore(sl, dl, bound, a, b, m) && a'.ctype == a.ctype && a'.cptr == a.cptr && b'.cptr == b.cptr
    ensures MemberBefore(sl, dl, bound, a', b', m)
  {
    var j: nat :| j < bound && HoldsMember(sl, dl, j, a, b, m);
    assert HoldsMember(sl, dl, j, a', b', m);
  }

  lemma HasElements(ty: Types, t: Task)
    requires KindOf(ty, t.typ) == Struct && Flatten(ty, t) != []
    ensures t.count > 0
  {
  }

  /** A member task pushed by a struct: all its siblings of element 0 are pushed with it. */
  lemma MemberReady(ty: Types, sl: seq<Task>, dl: seq<Task>, a: Task, b: Task, c: nat)
    requires Match(a, b) && KindOf(ty, a.typ) == Struct && |sl| == |dl| && c < |Flatten(ty, a)| == |Flatten(ty, b)|
    requires SameChild(a, b, Flatten(ty, a)[c], Flatten(ty, b)[c], true) && !Flatten(ty, a)[c].post
    ensures CountsReady(ty, sl + Flatten(ty, a), dl + Flatten(ty, b), |sl| + c)
  {
    var p, q := Flatten(ty, a), Flatten(ty, b);
    var ms := ty.env[a.typ].members;
    HasElements(ty, a);
    forall x | 0 <= x < |ms| && !ms[x].skip ensures MemberBefore(sl + p, dl + q, |sl + p|, p[c], q[c], ms[x]) {
      StructHasMember(ty, a, x);
      StructHasMember(ty, b, x);
      var j := |sl| + MemberPos(ms, x);
      assert (sl + p)[j] == p[MemberPos(ms, x)] && (dl + q)[j] == q[MemberPos(ms, x)];
      assert HoldsMember(sl + p, dl + q, j, p[c], q[c], ms[x]);
    }
    assert (sl + p)[|sl| + c] == p[c] && (dl + q)[|sl| + c] == q[c];
  }

  lemma FlattenReady(ty: Types, sl: seq<Task>, dl: seq<Task>, k: nat, c: nat)
    requires |sl| == |dl| && k < |sl| && Match(sl[k], dl[k]) && CountsReady(ty, sl, dl, k)
    requires c < |Flatten(ty, sl[k])| == |Flatten(ty, dl[k])|
    ensures CountsReady(ty, sl + Flatten(ty, sl[k]), dl + Flatten(ty, dl[k]), |sl| + c)
  {
    hide Flatten, CountsReady;
    FlattenMatch(ty, sl[k], dl[k]);
    if KindOf(ty, sl[k].typ) == Struct {
      MemberReady(ty, sl, dl, sl[k], dl[k], c);
    } else {
      InheritedReady(ty, sl, dl, Flatten(ty, sl[k]), Flatten(ty, dl[k]), k, c);
    }
  }

  /** What task `k` pushes on both sides. */
  predicate PushedBoth(ty: Types, mem: Memory, sl: seq<Task>, dl: seq<Task>, k: nat, q: seq<Task>) {
    && k < |sl| == |dl|
    && if Follows(ty, sl[k]) then |q| == 1 && q[0] == Pointee(ty, mem, sl[k]).(at := q[0].at, cptr := dl[k].cptr)
       else q == Flatten(ty, dl[k])
  }

  lemma PushedMatch(ty: Types, mem: Memory, sl: seq<Task>, dl: seq<Task>, k: nat, q: seq<Task>)
    requires PushedBoth(ty, mem, sl, dl, k, q) && SameLists(sl, dl)
    ensures SameLists(Pushes(ty, mem, sl[k]), q)
  {
    assert Match(sl[k], dl[k]);
    hide Flatten, CountAt, LoadPtr;
    FlattenMatch(ty, sl[k], dl[k]);
  }

  lemma PushedReady(ty: Types, mem: Memory, sl: seq<Task>, dl: seq<Task>, k: nat, q: seq<Task>, c: nat)
    requires PushedBoth(ty, mem, sl, dl, k, q) && SameLists(sl, dl) && CountsReady(ty, sl, dl, k)
    requires c < |q| == |Pushes(ty, mem, sl[k])|
    ensures CountsReady(ty, sl + Pushes(ty, mem, sl[k]), dl + q, |sl| + c)
  {
    assert Match(sl[k], dl[k]);
    hide Flatten, CountsReady, CountAt, LoadPtr, SameLists;
    if Follows(ty, sl[k]) {
      InheritedReady(ty, sl, dl, Pushes(ty, mem, sl[k]), q, k, c);
    } else {
      FlattenReady(ty, sl, dl, k, c);
    }
  }

  lemma StepLists(ty: Types, mem: Memory, under: set<(Option<nat>, nat)>, sl: seq<Task>, dl: seq<Task>, k: nat,
                  q: seq<Task>)
    requires Covers(ty, under) && ListsOk(ty, under, sl, dl) && PushedBoth(ty, mem, sl, dl, k, q)
    ensures ListsOk(ty, under, sl + Pushes(ty, mem, sl[k]), dl + q)
  {
    var p := Pushes(ty, mem, sl[k]);
    assert CoveredOk(ty, under, sl[k].ctype, sl[k].typ);
    PushesCovered(ty, mem, under, sl[k]);
    PushedMatch(ty, mem, sl, dl, k, q);
    hide Pushes, CountsReady, Covers, CoveredOk, PushedBoth;
    forall i | 0 <= i < |sl + p| ensures CountsReady(ty, sl + p, dl + q, i) {
      if i < |sl| {
        OldReady(ty, sl, dl, p, q, i);
      } else {
        PushedReady(ty, mem, sl, dl, k, q, i - |sl|);
      }
    }
  }

  // ---- one round keeps the destinations apart ----

  /** A part of a footprint is as far from others as the whole. */
  lemma ApartSub(x: nat, lx: nat, y: nat, ly: nat, x': nat, lx': nat)
    requires Apart(x, lx, y, ly) && x <= x' && x' + lx' <= x + lx
    ensures Apart(x', lx', y, ly) && Apart(y, ly, x', lx')
  {
  }

  /** A task with no output of its own is replaced, within its room, by others. */
  lemma RoomFlatten(ty: Types, dl: seq<Task>, heap: seq<Byte>, k: nat)
    requires TypesOk(ty) && k < |dl| && RoomOk(ty, dl, heap, k)
    requires Flatten(ty, dl[k]) != [] ==> Wrote(ty, dl[k]) == 0
    ensures RoomOk(ty, dl + Flatten(ty, dl[k]), heap, k + 1)
  {
    var d, q := dl[k], Flatten(ty, dl[k]);
    var l := dl + q;
    FlattenSpread(ty, d);
    WroteInFoot(ty, d);
    hide Foot, Wrote, Flatten, TypesOk;
    forall i | k + 1 <= i < |l| ensures l[i].at + Foot(ty, l[i]) <= |heap| {
      assert i >= |dl| ==> l[i] == q[i - |dl|];
    }
    forall i, j | k + 1 <= i < j < |l| ensures Apart(l[i].at, Foot(ty, l[i]), l[j].at, Foot(ty, l[j])) {
      if i < |dl| <= j {
        ApartSub(d.at, Foot(ty, d), l[i].at, Foot(ty, l[i]), l[j].at, Foot(ty, l[j]));
      }
    }
    forall i, j | 0 <= i < k + 1 <= j < |l| ensures Apart(l[i].at, Wrote(ty, l[i]), l[j].at, Foot(ty, l[j])) {
      if j < |dl| {
        if i == k {
          ApartSub(d.at, Foot(ty, d), l[j].at, Foot(ty, l[j]), d.at, Wrote(ty, d));
        }
      } else if i < k {
        ApartSub(d.at, Foot(ty, d), l[i].at, Wrote(ty, l[i]), l[j].at, Foot(ty, l[j]));
      }
    }
  }

  /** A new buffer is apart from everything before it. */
  lemma RoomFollow(ty: Types, dl: seq<Task>, heap: seq<Byte>, k: nat, t: Task, room: nat)
    requires TypesOk(ty) && k < |dl| && RoomOk(ty, dl, heap, k) && t.at == |heap| && Foot(ty, t) <= room
    requires forall i | 0 <= i < k :: dl[i].at + Wrote(ty, dl[i]) <= |heap|
    ensures RoomOk(ty, dl + [t], heap + Repeat(0, room), k + 1)
  {
    var d := dl[k];
    var l := dl + [t];
    WroteInFoot(ty, d);
    hide Foot, Wrote, TypesOk;
    forall i, j | k + 1 <= i < j < |l| ensures Apart(l[i].at, Foot(ty, l[i]), l[j].at, Foot(ty, l[j])) {
      assert j == |dl| ==> l[i].at + Foot(ty, l[i]) <= |heap|;
    }
    forall i, j | 0 <= i < k + 1 <= j < |l| ensures Apart(l[i].at, Wrote(ty, l[i]), l[j].at, Foot(ty, l[j])) {
      if j < |dl| && i == k {
        ApartSub(d.at, Foot(ty, d), l[j].at, Foot(ty, l[j]), d.at, Wrote(ty, d));
      }
    }
  }

  lemma RoomHeap(ty: Types, dl: seq<Task>, heap: seq<Byte>, heap': seq<Byte>, k: nat)
    requires k <= |dl| && RoomOk(ty, dl, heap, k) && |heap'| == |heap|
    ensures RoomOk(ty, dl, heap', k)
  {
  }

  lemma FlattenWritesNothing(ty: Types, d: Task)
    requires !Follows(ty, d) && Flatten(ty, d) != []
    ensures Wrote(ty, d) == 0
  {
  }

  lemma FollowedFits(ty: Types, d: Task, count: nat, t: Task)
    requires t.typ == Direct(ty, d.typ) && t.count == count
    ensures Foot(ty, t) <= Room(ty, d, count)
  {
    MulMono(Max(count, 1), count + 1, SizeOf(ty, t.typ));
  }

  // ---- one round keeps what has been written ----

  lemma HeapKeeps(heap: seq<Byte>, at: nat, s: seq<Byte>, more: seq<Byte>, x: nat, n: nat)
    requires x + n <= |heap| && Apart(x, n, at, |s|)
    ensures (Overwrite(heap, at, s) + more)[x..x + n] == heap[x..x + n]
  {
  }

  lemma HeapTakes(heap: seq<Byte>, at: nat, s: seq<Byte>, more: seq<Byte>)
    requires at + |s| <= |heap|
    ensures (Overwrite(heap, at, s) + more)[at..at + |s|] == s
  {
  }

  lemma OldSettled(ty: Types, mem: Memory, base: nat, sl: seq<Task>, dl: seq<Task>, heap: seq<Byte>, i: nat, kid: nat,
                   p: seq<Task>, q: seq<Task>, at: nat, s: seq<Byte>, more: seq<Byte>)
    requires i < |sl| == |dl| && |p| == |q| && Settled(ty, mem, base, sl, dl, heap, i, kid)
    requires Apart(dl[i].at, Wrote(ty, dl[i]), at, |s|)
    ensures Settled(ty, mem, base, sl + p, dl + q, Overwrite(heap, at, s) + more, i, kid)
  {
    HeapKeeps(heap, at, s, more, dl[i].at, Wrote(ty, dl[i]));
    assert (sl + p)[i] == sl[i] && (dl + q)[i] == dl[i];
    hide Pushes, Flatten, Wrote, Overwrite;
    assert (sl + p)[kid..kid + |Pushes(ty, mem, sl[i])|] == sl[kid..kid + |Pushes(ty, mem, sl[i])|];
    if !Follows(ty, dl[i]) {
      assert (dl + q)[kid..kid + |Flatten(ty, dl[i])|] == dl[kid..kid + |Flatten(ty, dl[i])|];
    }
  }

  /** What comes behind a list. */
  lemma Tail<T>(s: seq<T>, p: seq<T>, k: nat)
    requires k < |s|
    ensures (s + p)[k] == s[k] && |s + p| == |s| + |p| && (s + p)[|s|..|s| + |p|] == p
    ensures p != [] ==> (s + p)[|s|] == p[0]
  {
  }

  lemma PushedIs(ty: Types, mem: Memory, sl: seq<Task>, dl: seq<Task>, k: nat, q: seq<Task>)
    requires PushedBoth(ty, mem, sl, dl, k, q) && Match(sl[k], dl[k])
    ensures if Follows(ty, dl[k]) then |q| == 1 && q[0].cptr == dl[k].cptr else q == Flatten(ty, dl[k])
  {
    hide Flatten, Pointee, PtrUseOf, KindOf;
  }

  lemma NewSettled(ty: Types, mem: Memory, base: nat, sl: seq<Task>, dl: seq<Task>, heap: seq<Byte>, k: nat,
                   q: seq<Task>, s: seq<Byte>, more: seq<Byte>)
    requires k < |sl| == |dl| && Match(sl[k], dl[k]) && PushedBoth(ty, mem, sl, dl, k, q)
             && |q| == |Pushes(ty, mem, sl[k])|
    requires |s| == Wrote(ty, dl[k]) && dl[k].at + |s| <= |heap|
    requires Follows(ty, dl[k]) ==> q != [] && s == Encode(base + q[0].at, PTR)
    requires !Follows(ty, dl[k]) ==> (s == Load(mem, sl[k].at, |s|) <==> Returns(ty, mem, sl[k]))
    ensures Settled(ty, mem, base, sl + Pushes(ty, mem, sl[k]), dl + q, Overwrite(heap, dl[k].at, s) + more, k, |sl|)
  {
    hide *;
    var p := Pushes(ty, mem, sl[k]);
    PushedIs(ty, mem, sl, dl, k, q);
    HeapTakes(heap, dl[k].at, s, more);
    Tail(sl, p, k);
    Tail(dl, q, k);
    CopiedIs(mem, sl[k].at, Overwrite(heap, dl[k].at, s) + more, dl[k].at, Wrote(ty, dl[k]));
    Settle(ty, mem, base, sl + p, dl + q, Overwrite(heap, dl[k].at, s) + more, k, |sl|);
  }

  lemma CopiedIs(mem: Memory, src: nat, heap: seq<Byte>, dst: nat, n: nat)
    requires dst + n <= |heap|
    ensures Copied(mem, src, heap, dst, n) <==> heap[dst..dst + n] == Load(mem, src, n)
  {
  }

  lemma Settle(ty: Types, mem: Memory, base: nat, sl: seq<Task>, dl: seq<Task>, heap: seq<Byte>, i: nat, kid: nat)
    requires i < |sl| && i < |dl| && kid + |Pushes(ty, mem, sl[i])| <= |sl| == |dl|
    requires sl[kid..kid + |Pushes(ty, mem, sl[i])|] == Pushes(ty, mem, sl[i])
    requires dl[i].at + Wrote(ty, dl[i]) <= |heap|
    requires Follows(ty, dl[i]) ==>
               && kid < |dl| && dl[kid].cptr == dl[i].cptr
               && heap[dl[i].at..dl[i].at + Wrote(ty, dl[i])] == Encode(base + dl[kid].at, PTR)
    requires !Follows(ty, dl[i]) ==>
               && kid + |Flatten(ty, dl[i])| <= |dl| && dl[kid..kid + |Flatten(ty, dl[i])|] == Flatten(ty, dl[i])
               && (Copied(mem, sl[i].at, heap, dl[i].at, Wrote(ty, dl[i])) <==> Returns(ty, mem, sl[i]))
    ensures Settled(ty, mem, base, sl, dl, heap, i, kid)
  {
    hide Pushes, Wrote, Follows, Flatten, Copied, Returns, Encode;
  }

  // ---- one round of both loops ----

  /** What round `k` of the deserializer writes and appends. */
  function InputOf(ty: Types, data: seq<Byte>, r: Reading, t: Task): seq<Byte> {
    Slice(data, r.off, r.off + Consumed(ty, t))
  }

  function PushedBy(ty: Types, base: nat, r: Reading, t: Task): seq<Task> {
    if Follows(ty, t) then [Task(Direct(ty, t.typ), HeapCount(ty, r.heap, base, t), |r.heap|, t.ctype, t.cptr, false)]
      else Flatten(ty, t)
  }

  function Appended(ty: Types, base: nat, r: Reading, t: Task): seq<Byte> {
    if Follows(ty, t) then Repeat(0, Room(ty, t, HeapCount(ty, r.heap, base, t))) else []
  }

  lemma RoundIs(ty: Types, data: seq<Byte>, base: nat, r: Reading, t: Task)
    ensures
      var s := Written(ty, t, InputOf(ty, data, r, t), base + |r.heap|);
      DeserializeTask(ty, data, base, r, t)
      == Reading(r.tasks + PushedBy(ty, base, r, t), Overwrite(r.heap, t.at, s) + Appended(ty, base, r, t),
                 r.off + Consumed(ty, t))
  {
    hide Written, HeapCount, Overwrite, Flatten;
    assert Overwrite(r.heap, t.at, Written(ty, t, InputOf(ty, data, r, t), base + |r.heap|)) + []
        == Overwrite(r.heap, t.at, Written(ty, t, InputOf(ty, data, r, t), base + |r.heap|));
  }

  lemma RoundRoom(ty: Types, base: nat, r: Reading, k: nat, s: seq<Byte>)
    requires TypesOk(ty) && k < |r.tasks| && RoomOk(ty, r.tasks, r.heap, k)
    requires forall i | 0 <= i < k :: r.tasks[i].at + Wrote(ty, r.tasks[i]) <= |r.heap|
    ensures RoomOk(ty, r.tasks + PushedBy(ty, base, r, r.tasks[k]),
                   Overwrite(r.heap, r.tasks[k].at, s) + Appended(ty, base, r, r.tasks[k]), k + 1)
  {
    var t := r.tasks[k];
    var heap := Overwrite(r.heap, t.at, s);
    RoomHeap(ty, r.tasks, r.heap, heap, k);
    hide RoomOk, Foot, Wrote, Flatten, HeapCount, Overwrite, TypesOk, Room;
    if Follows(ty, t) {
      var count := HeapCount(ty, r.heap, base, t);
      FollowedFits(ty, t, count, PushedBy(ty, base, r, t)[0]);
      RoomFollow(ty, r.tasks, heap, k, PushedBy(ty, base, r, t)[0], Room(ty, t, count));
    } else {
      if Flatten(ty, t) != [] {
        FlattenWritesNothing(ty, t);
      }
      RoomFlatten(ty, r.tasks, heap, k);
      assert heap + [] == heap;
    }
  }

  /** What a round writes, where, and how much it pushes. */
  lemma RoundWrites(ty: Types, mem: Memory, base: nat, under: set<(Option<nat>, nat)>, data: seq<Byte>, sl: seq<Task>,
                    r: Reading, k: nat, kids: seq<nat>)
    requires TypesOk(ty) && InStep(ty, mem, base, under, sl, r.tasks, r.heap, k, kids) && k < |sl|
    requires InputOf(ty, data, r, r.tasks[k]) == Output(ty, mem, sl[k])
    requires PushedBoth(ty, mem, sl, r.tasks, k, PushedBy(ty, base, r, r.tasks[k]))
    ensures
      var t := r.tasks[k];
      var s := Written(ty, t, InputOf(ty, data, r, t), base + |r.heap|);
      && Match(sl[k], t) && |s| == Wrote(ty, t) <= Foot(ty, t) && t.at + Foot(ty, t) <= |r.heap|
      && |PushedBy(ty, base, r, t)| == |Pushes(ty, mem, sl[k])|
      && (Follows(ty, t) ==> s == Encode(base + |r.heap|, PTR))
      && (!Follows(ty, t) ==> (s == Load(mem, sl[k].at, |s|) <==> Returns(ty, mem, sl[k])))
  {
    var t := r.tasks[k];
    assert Match(sl[k], t);
    WrittenIs(ty, mem, sl[k], t, base + |r.heap|);
    WroteInFoot(ty, t);
    PushedMatch(ty, mem, sl, r.tasks, k, PushedBy(ty, base, r, t));
    hide Settled, Pushes, PushedBy, Written, InputOf, Output, Foot, Wrote, Encode, Load, Returns, Follows, PushedBoth;
  }

  /** Where tasks before and from the cursor write is apart. */
  lemma RoundApart(ty: Types, mem: Memory, base: nat, under: set<(Option<nat>, nat)>, sl: seq<Task>, dl: seq<Task>,
                   heap: seq<Byte>, k: nat, kids: seq<nat>, i: nat)
    requires InStep(ty, mem, base, under, sl, dl, heap, k, kids) && i < k < |sl|
    ensures Settled(ty, mem, base, sl, dl, heap, i, kids[i])
    ensures Apart(dl[i].at, Wrote(ty, dl[i]), dl[k].at, Foot(ty, dl[k]))
  {
    hide Settled, Wrote, Foot, ListsOk;
  }

  lemma RoundSettled(ty: Types, mem: Memory, base: nat, under: set<(Option<nat>, nat)>, data: seq<Byte>, sl: seq<Task>,
                     r: Reading, k: nat, kids: seq<nat>, i: nat)
    requires TypesOk(ty) && InStep(ty, mem, base, under, sl, r.tasks, r.heap, k, kids) && i <= k < |sl|
    requires InputOf(ty, data, r, r.tasks[k]) == Output(ty, mem, sl[k])
    requires PushedBoth(ty, mem, sl, r.tasks, k, PushedBy(ty, base, r, r.tasks[k]))
    ensures
      var t := r.tasks[k];
      var s := Written(ty, t, InputOf(ty, data, r, t), base + |r.heap|);
      Settled(ty, mem, base, sl + Pushes(ty, mem, sl[k]), r.tasks + PushedBy(ty, base, r, t),
              Overwrite(r.heap, t.at, s) + Appended(ty, base, r, t), i, (kids + [|sl|])[i])
  {
    var t := r.tasks[k];
    var s := Written(ty, t, InputOf(ty, data, r, t), base + |r.heap|);
    RoundWrites(ty, mem, base, under, data, sl, r, k, kids);
    if i < k {
      RoundApart(ty, mem, base, under, sl, r.tasks, r.heap, k, kids, i);
      hide *;
      ApartSub(t.at, Foot(ty, t), r.tasks[i].at, Wrote(ty, r.tasks[i]), t.at, |s|);
      OldSettled(ty, mem, base, sl, r.tasks, r.heap, i, kids[i], Pushes(ty, mem, sl[k]), PushedBy(ty, base, r, t), t.at,
                 s, Appended(ty, base, r, t));
    } else {
      FirstPushed(ty, base, r, t);
      hide *;
      NewSettled(ty, mem, base, sl, r.tasks, r.heap, k, PushedBy(ty, base, r, t), s, Appended(ty, base, r, t));
    }
  }

  lemma FirstPushed(ty: Types, base: nat, r: Reading, t: Task)
    ensures Follows(ty, t) ==> PushedBy(ty, base, r, t) != [] && PushedBy(ty, base, r, t)[0].at == |r.heap|
  {
    hide Follows, HeapCount;
  }

  lemma RoundPushes(ty: Types, mem: Memory, base: nat, under: set<(Option<nat>, nat)>, sl: seq<Task>, r: Reading,
                    k: nat, kids: seq<nat>)
    requires Covers(ty, under) && InStep(ty, mem, base, under, sl, r.tasks, r.heap, k, kids) && k < |sl|
    ensures PushedBoth(ty, mem, sl, r.tasks, k, PushedBy(ty, base, r, r.tasks[k]))
  {
    assert Match(sl[k], r.tasks[k]);
    if Follows(ty, sl[k]) {
      CountsAgree(ty, mem, base, under, sl, r.tasks, r.heap, k, kids);
    }
    hide InStep, Covers, CountAt, HeapCount, Flatten, LoadPtr;
  }

  lemma WrittenInside(ty: Types, mem: Memory, base: nat, under: set<(Option<nat>, nat)>, sl: seq<Task>, dl: seq<Task>,
                      heap: seq<Byte>, k: nat, kids: seq<nat>)
    requires InStep(ty, mem, base, under, sl, dl, heap, k, kids)
    ensures forall i | 0 <= i < k :: dl[i].at + Wrote(ty, dl[i]) <= |heap|
  {
    hide Wrote;
    forall i | 0 <= i < k ensures dl[i].at + Wrote(ty, dl[i]) <= |heap| {
      SettledAt(ty, mem, base, under, sl, dl, heap, k, kids, i);
    }
  }

  /** One round: if the deserializer finds at its cursor what the serializer wrote in the same round, both stay in
      step. */
  lemma Round(ty: Types, mem: Memory, base: nat, under: set<(Option<nat>, nat)>, data: seq<Byte>, sl: seq<Task>,
              r: Reading, k: nat, kids: seq<nat>)
    requires TypesOk(ty) && Covers(ty, under) && InStep(ty, mem, base, under, sl, r.tasks, r.heap, k, kids) && k < |sl|
    requires InputOf(ty, data, r, r.tasks[k]) == Output(ty, mem, sl[k])
    ensures
      var r' := DeserializeTask(ty, data, base, r, r.tasks[k]);
      && InStep(ty, mem, base, under, sl + Pushes(ty, mem, sl[k]), r'.tasks, r'.heap, k + 1, kids + [|sl|])
      && r'.off == r.off + Consumed(ty, r.tasks[k])
  {
    var t := r.tasks[k];
    var s := Written(ty, t, InputOf(ty, data, r, t), base + |r.heap|);
    RoundIs(ty, data, base, r, t);
    RoundPushes(ty, mem, base, under, sl, r, k, kids);
    StepLists(ty, mem, under, sl, r.tasks, k, PushedBy(ty, base, r, t));
    PushedMatch(ty, mem, sl, r.tasks, k, PushedBy(ty, base, r, t));
    WrittenInside(ty, mem, base, under, sl, r.tasks, r.heap, k, kids);
    RoundRoom(ty, base, r, k, s);
    hide ListsOk, RoomOk, Settled, Pushes, PushedBy, Appended, Written, InputOf, Overwrite, DeserializeTask, Covers,
         TypesOk, PushedBoth;
    forall i | 0 <= i < k + 1
      ensures Settled(ty, mem, base, sl + Pushes(ty, mem, sl[k]), r.tasks + PushedBy(ty, base, r, t),
                      Overwrite(r.heap, t.at, s) + Appended(ty, base, r, t), i, (kids + [|sl|])[i])
    {
      RoundSettled(ty, mem, base, under, data, sl, r, k, kids, i);
    }
  }

  // ---- whole runs ----

  /** The root is one value of a type met outside any struct; its destination is the first buffer. */
  ghost predicate RootOk(ty: Types, under: set<(Option<nat>, nat)>, root: Task) {
    root.count == 1 && root.ctype.None? && !root.post && (None, root.typ) in under
  }

  function AtHeap(root: Task): Task { root.(at := 0, cptr := 0) }

  lemma StartInStep(ty: Types, mem: Memory, base: nat, under: set<(Option<nat>, nat)>, root: Task)
    requires RootOk(ty, under, root)
    ensures InStep(ty, mem, base, under, [root], [AtHeap(root)], Repeat(0, SizeOf(ty, root.typ)), 0, [])
  {
  }

  lemma {:induction false} OutputGrows(ty: Types, mem: Memory, root: Task, j: nat, k: nat)
    requires j <= k
    ensures Serialize(ty, mem, root, j).out <= Serialize(ty, mem, root, k).out
    decreases k
  {
    hide Output, Pushes;
    if j < k {
      OutputGrows(ty, mem, root, j, k - 1);
    }
  }

  function Rounds(k: nat, n: nat): nat { if k < n then k else n }

  lemma NextInput(ty: Types, mem: Memory, data: seq<Byte>, out: seq<Byte>, t: Task, d: Task, r: Reading)
    requires Match(t, d) && r.off == |out| && out + Output(ty, mem, t) <= data
    ensures InputOf(ty, data, r, d) == Output(ty, mem, t)
  {
    OutputLength(ty, mem, t, d);
    hide Output, Consumed;
    var o := Output(ty, mem, t);
    assert data[|out|..|out| + |o|] == o by {
      assert (out + o)[|out|..] == o;
      assert data[..|out + o|] == out + o;
      assert data[|out|..|out| + |o|] == data[..|out + o|][|out|..];
    }
  }

  /** The two worklists stay in lockstep: after the same number of rounds, on any data that starts with what the
      serializer wrote in them, the deserializer has read exactly that, has the same tasks left, and every count it
      used was written before. */
  lemma {:induction false} Lockstep(ty: Types, mem: Memory, base: nat, under: set<(Option<nat>, nat)>, root: Task,
                                    data: seq<Byte>, k: nat) returns (kids: seq<nat>)
    requires TypesOk(ty) && Covers(ty, under) && RootOk(ty, under, root)
    requires Serialize(ty, mem, root, k).out <= data
    ensures
      var w, r := Serialize(ty, mem, root, k), Deserialize(ty, data, base, AtHeap(root), k);
      && |r.tasks| == |w.tasks| && r.off == |w.out|
      && InStep(ty, mem, base, under, w.tasks, r.tasks, r.heap, Rounds(k, |w.tasks|), kids)
      && forall j | 0 <= j < |kids| :: kids[j] == |Serialize(ty, mem, root, j).tasks|
  {
    hide InStep, Output, Pushes, DeserializeTask, TypesOk, Covers, RootOk, InputOf, Consumed;
    if k == 0 {
      StartInStep(ty, mem, base, under, root);
      kids := [];
    } else {
      OutputGrows(ty, mem, root, k - 1, k);
      kids := Lockstep(ty, mem, base, under, root, data, k - 1);
      var w, r := Serialize(ty, mem, root, k - 1), Deserialize(ty, data, base, AtHeap(root), k - 1);
      if k - 1 < |w.tasks| {
        KidsRounds(ty, mem, base, under, w.tasks, r.tasks, r.heap, k - 1, kids);
        kids := LockRound(ty, mem, base, under, data, w, r, k, kids);
      }
    }
  }

  lemma KidsRounds(ty: Types, mem: Memory, base: nat, under: set<(Option<nat>, nat)>, sl: seq<Task>, dl: seq<Task>,
                   heap: seq<Byte>, k: nat, kids: seq<nat>)
    requires InStep(ty, mem, base, under, sl, dl, heap, k, kids)
    ensures |kids| == k
  {
  }

  lemma LockRound(ty: Types, mem: Memory, base: nat, under: set<(Option<nat>, nat)>, data: seq<Byte>, w: Writing,
                  r: Reading,
                  k: nat, kids: seq<nat>) returns (kids': seq<nat>)
    requires TypesOk(ty) && Covers(ty, under) && 0 < k <= |w.tasks| == |r.tasks| && r.off == |w.out|
    requires InStep(ty, mem, base, under, w.tasks, r.tasks, r.heap, k - 1, kids)
             && w.out + Output(ty, mem, w.tasks[k - 1]) <= data
    ensures
      var tasks, next := w.tasks + Pushes(ty, mem, w.tasks[k - 1]), DeserializeTask(ty, data, base, r, r.tasks[k - 1]);
      && k <= |tasks| == |next.tasks| && next.off == |w.out + Output(ty, mem, w.tasks[k - 1])|
      && InStep(ty, mem, base, under, tasks, next.tasks, next.heap, k, kids') && kids' == kids + [|w.tasks|]
  {
    hide InStep, Output, Pushes, DeserializeTask, TypesOk, Covers, InputOf, Consumed;
    var t, d := w.tasks[k - 1], r.tasks[k - 1];
    MatchAt(ty, mem, base, under, w.tasks, r.tasks, r.heap, k - 1, kids, k - 1);
    NextInput(ty, mem, data, w.out, t, d, r);
    OutputLength(ty, mem, t, d);
    Round(ty, mem, base, under, data, w.tasks, r, k - 1, kids);
    var next := DeserializeTask(ty, data, base, r, d);
    kids' := kids + [|w.tasks|];
    KidsCount(ty, mem, base, under, w.tasks + Pushes(ty, mem, t), next.tasks, next.heap, k, kids');
  }

  lemma KidsCount(ty: Types, mem: Memory, base: nat, under: set<(Option<nat>, nat)>, sl: seq<Task>, dl: seq<Task>,
                  heap: seq<Byte>, k: nat, kids: seq<nat>)
    requires InStep(ty, mem, base, under, sl, dl, heap, k, kids)
    ensures k <= |sl| == |dl|
  {
  }

  lemma MatchAt(ty: Types, mem: Memory, base: nat, under: set<(Option<nat>, nat)>, sl: seq<Task>, dl: seq<Task>,
                heap: seq<Byte>, k: nat, kids: seq<nat>, i: nat)
    requires InStep(ty, mem, base, under, sl, dl, heap, k, kids) && i < |sl|
    ensures |sl| == |dl| && Match(sl[i], dl[i])
  {
  }

  // ---- what was rebuilt ----

  /** A destination task with addresses instead of buffer offsets. */
  function Placed(t: Task, base: nat): Task { t.(at := base + t.at, cptr := base + t.cptr) }

  function PlacedAll(ts: seq<Task>, base: nat): (ps: seq<Task>)
    ensures |ps| == |ts| && forall i | 0 <= i < |ts| :: ps[i] == Placed(ts[i], base)
  {
    seq(|ts|, i requires 0 <= i < |ts| => Placed(ts[i], base))
  }

  lemma FlattenPlaced(ty: Types, t: Task, base: nat)
    ensures Flatten(ty, Placed(t, base)) == PlacedAll(Flatten(ty, t), base)
  {
    hide Flatten;
    FlattenMatch(ty, t, Placed(t, base));
  }

  /** Everything is done: every task is settled. */
  ghost predicate Finished(ty: Types, mem: Memory, base: nat, under: set<(Option<nat>, nat)>, sl: seq<Task>,
                           dl: seq<Task>,
                           heap: seq<Byte>, kids: seq<nat>)
  {
    Covers(ty, under) && InStep(ty, mem, base, under, sl, dl, heap, |sl|, kids) && base + |heap| < WORD
  }

  /** At the end, too, a pointer's count reads as the source's. */
  lemma FinalCount(ty: Types, mem: Memory, base: nat, under: set<(Option<nat>, nat)>, sl: seq<Task>, dl: seq<Task>,
                   heap: seq<Byte>, kids: seq<nat>, i: nat)
    requires Finished(ty, mem, base, under, sl, dl, heap, kids) && i < |sl| && KindOf(ty, sl[i].typ) == Pointer
    requires PtrUseOf(ty, sl[i].typ) == Counted
    ensures i < |dl| && HeapCount(ty, heap, base, dl[i]) == CountAt(ty, mem, sl[i])
  {
    var a, b := sl[i], dl[i];
    assert CoveredOk(ty, under, a.ctype, a.typ);
    assert Match(a, b) && CountsReady(ty, sl, dl, i);
    var found := CountMember(ty, a.ctype, a.typ);
    if found.Some? {
      var members := ty.env[a.ctype.value].members;
      var x := FoundIsMember(members, Delim(ty, a.typ));
      var bound := if a.post then i else |sl|;
      assert MemberBefore(sl, dl, bound, a, b, members[x]);
      var j: nat :| j < bound && HoldsMember(sl, dl, j, a, b, members[x]);
      hide InStep, Load, HeapMemory, Value;
      SettledAt(ty, mem, base, under, sl, dl, heap, |sl|, kids, j);
      MemberLoads(ty, mem, base, sl, dl, heap, j, kids[j], a, b, members[x]);
    }
  }

  lemma FollowedKid(ty: Types, mem: Memory, base: nat, sl: seq<Task>, dl: seq<Task>, heap: seq<Byte>, i: nat, j: nat)
    requires i < |sl| && i < |dl| && Settled(ty, mem, base, sl, dl, heap, i, j) && Follows(ty, sl[i])
             && Match(sl[i], dl[i])
    ensures j < |sl| == |dl| && sl[j] == Pointee(ty, mem, sl[i]) && dl[j].cptr == dl[i].cptr
    ensures dl[i].at + PTR <= |heap| && heap[dl[i].at..dl[i].at + PTR] == Encode(base + dl[j].at, PTR)
  {
    hide Encode, Pointee;
    assert sl[j] == sl[j..j + 1][0];
  }

  lemma LoadsSlice(heap: seq<Byte>, base: nat, at: nat, n: nat)
    requires at + n <= |heap|
    ensures Load(HeapMemory(heap, base), base + at, n) == heap[at..at + n]
  {
    var s := Load(HeapMemory(heap, base), base + at, n);
    forall i | 0 <= i < n ensures s[i] == heap[at + i] {
    }
  }

  lemma PtrLoads(ty: Types, mem: Memory, base: nat, sl: seq<Task>, dl: seq<Task>, heap: seq<Byte>, i: nat, j: nat)
    requires i < |dl| && j < |dl| && dl[i].at + PTR <= |heap|
             && heap[dl[i].at..dl[i].at + PTR] == Encode(base + dl[j].at, PTR)
    requires base + dl[j].at < WORD
    ensures LoadPtr(HeapMemory(heap, base), base + dl[i].at) == base + dl[j].at
  {
    hide HeapMemory, Load, Encode, Value;
    LoadsSlice(heap, base, dl[i].at, PTR);
    PtrEncodes(base + dl[j].at);
  }

  lemma FlattenKid(ty: Types, mem: Memory, base: nat, sl: seq<Task>, dl: seq<Task>, heap: seq<Byte>, i: nat, kid: nat,
                   c: nat)
    requires i < |sl| && i < |dl| && Settled(ty, mem, base, sl, dl, heap, i, kid) && Match(sl[i], dl[i])
    requires !Follows(ty, sl[i]) && c < |Flatten(ty, sl[i])|
    ensures kid + c < |sl| == |dl| && sl[kid + c] == Flatten(ty, sl[i])[c]
    ensures c < |Flatten(ty, dl[i])| == |Flatten(ty, sl[i])| && dl[kid + c] == Flatten(ty, dl[i])[c]
  {
    hide Flatten;
    FlattenMatch(ty, sl[i], dl[i]);
    assert sl[kid..kid + |Flatten(ty, sl[i])|][c] == sl[kid + c];
    assert dl[kid..kid + |Flatten(ty, dl[i])|][c] == dl[kid + c];
  }

  /** The task behind the header of a counted pointer: the task itself, or the one it was put off to. */
  lemma Behind(ty: Types, mem: Memory, base: nat, under: set<(Option<nat>, nat)>, sl: seq<Task>, dl: seq<Task>,
               heap: seq<Byte>, kids: seq<nat>, i: nat) returns (j: nat)
    requires Finished(ty, mem, base, under, sl, dl, heap, kids) && i < |sl|
    requires KindOf(ty, sl[i].typ) == Pointer && PtrUseOf(ty, sl[i].typ) == Counted
    ensures i < |dl| && j < |sl| == |dl| && sl[j] == sl[i].(post := true) && dl[j] == dl[i].(post := true)
  {
    hide Covers, RoomOk, ListsOk;
    MatchAt(ty, mem, base, under, sl, dl, heap, |sl|, kids, i);
    if sl[i].post {
      j := i;
    } else {
      SettledAt(ty, mem, base, under, sl, dl, heap, |sl|, kids, i);
      FlattenKid(ty, mem, base, sl, dl, heap, i, kids[i], 0);
      j := kids[i];
    }
  }

  lemma FinishedMatch(ty: Types, mem: Memory, base: nat, under: set<(Option<nat>, nat)>, sl: seq<Task>, dl: seq<Task>,
                      heap: seq<Byte>, kids: seq<nat>, i: nat)
    requires Finished(ty, mem, base, under, sl, dl, heap, kids) && i < |sl|
    ensures |sl| == |dl| == |kids| && Match(sl[i], dl[i]) && Settled(ty, mem, base, sl, dl, heap, i, kids[i])
  {
    MatchAt(ty, mem, base, under, sl, dl, heap, |sl|, kids, i);
    SettledAt(ty, mem, base, under, sl, dl, heap, |sl|, kids, i);
  }

  /** A followed pointer leads to the buffer of the task it pushed. */
  lemma PointeePlaced(ty: Types, mem: Memory, base: nat, under: set<(Option<nat>, nat)>, sl: seq<Task>, dl: seq<Task>,
                      heap: seq<Byte>, kids: seq<nat>, i: nat)
    requires Finished(ty, mem, base, under, sl, dl, heap, kids) && i < |sl| && Follows(ty, sl[i])
    ensures i < |dl| && i < |kids| && kids[i] < |dl| == |sl| && sl[kids[i]] == Pointee(ty, mem, sl[i])
    ensures Pointee(ty, HeapMemory(heap, base), Placed(dl[i], base)) == Placed(dl[kids[i]], base)
  {
    hide Finished, Settled, InStep, LoadPtr, CountAt, HeapMemory, Encode;
    FinishedMatch(ty, mem, base, under, sl, dl, heap, kids, i);
    var j := kids[i];
    FollowedKid(ty, mem, base, sl, dl, heap, i, j);
    FinishedMatch(ty, mem, base, under, sl, dl, heap, kids, j);
    FinalCount(ty, mem, base, under, sl, dl, heap, kids, i);
    FinishedRoom(ty, mem, base, under, sl, dl, heap, kids, j);
    PtrLoads(ty, mem, base, sl, dl, heap, i, j);
    CountIgnoresAt(ty, HeapMemory(heap, base), dl[i].(cptr := base + dl[i].cptr), Placed(dl[i], base));
  }

  lemma CountIgnoresAt(ty: Types, mem: Memory, a: Task, b: Task)
    requires b == a.(at := b.at)
    ensures CountAt(ty, mem, a) == CountAt(ty, mem, b)
  {
  }

  lemma FinishedRoom(ty: Types, mem: Memory, base: nat, under: set<(Option<nat>, nat)>, sl: seq<Task>, dl: seq<Task>,
                     heap: seq<Byte>, kids: seq<nat>, j: nat)
    requires Finished(ty, mem, base, under, sl, dl, heap, kids) && j < |sl|
    ensures j < |dl| && base + dl[j].at < WORD
  {
    hide *;
    FinishedMatch(ty, mem, base, under, sl, dl, heap, kids, j);
    SettledRoom(ty, mem, base, sl, dl, heap, j, kids[j]);
    FinishedWord(ty, mem, base, under, sl, dl, heap, kids);
  }

  lemma SettledRoom(ty: Types, mem: Memory, base: nat, sl: seq<Task>, dl: seq<Task>, heap: seq<Byte>, i: nat, kid: nat)
    requires i < |sl| && i < |dl| && Settled(ty, mem, base, sl, dl, heap, i, kid)
    ensures dl[i].at <= |heap|
  {
    hide Wrote, Pushes, Flatten, Follows, Encode, Copied, Returns;
  }

  lemma FinishedWord(ty: Types, mem: Memory, base: nat, under: set<(Option<nat>, nat)>, sl: seq<Task>, dl: seq<Task>,
                     heap: seq<Byte>, kids: seq<nat>)
    requires Finished(ty, mem, base, under, sl, dl, heap, kids)
    ensures base + |heap| < WORD
  {
    hide Covers, InStep;
  }

  /** A task that holds its bytes itself. */
  lemma SameBytes(ty: Types, mem: Memory, base: nat, under: set<(Option<nat>, nat)>, sl: seq<Task>, dl: seq<Task>,
                  heap: seq<Byte>, kids: seq<nat>, i: nat)
    requires Finished(ty, mem, base, under, sl, dl, heap, kids) && i < |sl| && !Follows(ty, sl[i])
             && Returns(ty, mem, sl[i])
    ensures i < |dl|
            && Load(HeapMemory(heap, base), base + dl[i].at, Wrote(ty, dl[i])) == Load(mem, sl[i].at, Wrote(ty, dl[i]))
  {
    FinishedMatch(ty, mem, base, under, sl, dl, heap, kids, i);
    hide Finished, Load, HeapMemory, Wrote, Copied, Returns;
    CopiedLoads(mem, sl[i].at, heap, base, dl[i].at, Wrote(ty, dl[i]));
  }

  lemma SameLeaf(ty: Types, mem: Memory, base: nat, under: set<(Option<nat>, nat)>, sl: seq<Task>, dl: seq<Task>,
                 heap: seq<Byte>, kids: seq<nat>, i: nat, depth: nat)
    requires Finished(ty, mem, base, under, sl, dl, heap, kids) && AllReturn(ty, mem, sl) && i < |sl| && i < |dl|
             && Match(sl[i], dl[i]) && depth > 0
    requires KindOf(ty, sl[i].typ) == Leaf || (KindOf(ty, sl[i].typ) == Pointer && PtrUseOf(ty, sl[i].typ) != Counted)
    ensures TreeOf(ty, HeapMemory(heap, base), Placed(dl[i], base), depth) == TreeOf(ty, mem, sl[i], depth)
  {
    SameBytes(ty, mem, base, under, sl, dl, heap, kids, i);
    hide Finished, Load, HeapMemory;
  }

  lemma NodeOf(ty: Types, mem: Memory, t: Task, depth: nat)
    requires KindOf(ty, t.typ) != Leaf && KindOf(ty, t.typ) != Pointer && depth > 0
    ensures TreeOf(ty, mem, t, depth) == Node(t.typ, t.count, TreesOf(ty, mem, Flatten(ty, t), depth - 1))
  {
    hide Flatten;
  }

  lemma {:induction false} SameNode(ty: Types, mem: Memory, base: nat, under: set<(Option<nat>, nat)>, sl: seq<Task>,
                                    dl: seq<Task>,
                                    heap: seq<Byte>, kids: seq<nat>, i: nat, depth: nat)
    requires Finished(ty, mem, base, under, sl, dl, heap, kids) && AllReturn(ty, mem, sl) && i < |sl| && i < |dl|
             && Match(sl[i], dl[i]) && depth > 0
    requires KindOf(ty, sl[i].typ) != Leaf && KindOf(ty, sl[i].typ) != Pointer
    ensures TreeOf(ty, HeapMemory(heap, base), Placed(dl[i], base), depth) == TreeOf(ty, mem, sl[i], depth)
    decreases depth, 0, 0
  {
    hide Finished, HeapMemory, Flatten, TreesOf, TreeOf;
    var ds, ss := Flatten(ty, dl[i]), Flatten(ty, sl[i]);
    SameTrees(ty, mem, base, under, sl, dl, heap, kids, i, |ss|, depth - 1);
    FlattenMatch(ty, sl[i], dl[i]);
    FlattenPlaced(ty, dl[i], base);
    assert ds[..|ss|] == ds && ss[..|ss|] == ss;
    NodeOf(ty, mem, sl[i], depth);
    NodeOf(ty, HeapMemory(heap, base), Placed(dl[i], base), depth);
  }

  /** The data rebuilt in the buffers is the data that was serialized, to any depth. */
  lemma {:induction false} SameTree(ty: Types, mem: Memory, base: nat, under: set<(Option<nat>, nat)>, sl: seq<Task>,
                                    dl: seq<Task>,
                                    heap: seq<Byte>, kids: seq<nat>, i: nat, depth: nat)
    requires Finished(ty, mem, base, under, sl, dl, heap, kids) && AllReturn(ty, mem, sl) && i < |sl|
    ensures i < |dl| && TreeOf(ty, HeapMemory(heap, base), Placed(dl[i], base), depth) == TreeOf(ty, mem, sl[i], depth)
    decreases depth, 1, 0
  {
    hide Finished, Settled, HeapMemory;
    FinishedMatch(ty, mem, base, under, sl, dl, heap, kids, i);
    if depth > 0 {
      hide TreeOf;
      var kind, ptr := KindOf(ty, sl[i].typ), PtrUseOf(ty, sl[i].typ);
      if kind == Pointer && ptr == Counted {
        SameRef(ty, mem, base, under, sl, dl, heap, kids, i, depth);
      } else if kind == Leaf || kind == Pointer {
        SameLeaf(ty, mem, base, under, sl, dl, heap, kids, i, depth);
      } else {
        SameNode(ty, mem, base, under, sl, dl, heap, kids, i, depth);
      }
    }
  }

  lemma {:induction false} SameRef(ty: Types, mem: Memory, base: nat, under: set<(Option<nat>, nat)>, sl: seq<Task>,
                                   dl: seq<Task>,
                                   heap: seq<Byte>, kids: seq<nat>, i: nat, depth: nat)
    requires Finished(ty, mem, base, under, sl, dl, heap, kids) && AllReturn(ty, mem, sl) && i < |sl| && i < |dl|
             && depth > 0
    requires KindOf(ty, sl[i].typ) == Pointer && PtrUseOf(ty, sl[i].typ) == Counted && Match(sl[i], dl[i])
    ensures TreeOf(ty, HeapMemory(heap, base), Placed(dl[i], base), depth) == TreeOf(ty, mem, sl[i], depth)
    decreases depth, 0, 0
  {
    hide Finished, Settled, HeapMemory, LoadPtr, CountAt, Pointee, TreeOf;
    var j := Behind(ty, mem, base, under, sl, dl, heap, kids, i);
    PointeePlaced(ty, mem, base, under, sl, dl, heap, kids, j);
    SameTree(ty, mem, base, under, sl, dl, heap, kids, kids[j], depth - 1);
    PointeeIgnoresPost(ty, mem, sl[i]);
    PointeeIgnoresPost(ty, HeapMemory(heap, base), Placed(dl[i], base));
    RefOf(ty, mem, sl[i], depth);
    RefOf(ty, HeapMemory(heap, base), Placed(dl[i], base), depth);
  }

  lemma RefOf(ty: Types, mem: Memory, t: Task, depth: nat)
    requires KindOf(ty, t.typ) == Pointer && PtrUseOf(ty, t.typ) == Counted && depth > 0
    ensures TreeOf(ty, mem, t, depth) == Ref(t.typ, t.count, TreeOf(ty, mem, Pointee(ty, mem, t), depth - 1))
  {
    hide Pointee;
  }

  lemma PointeeIgnoresPost(ty: Types, mem: Memory, t: Task)
    ensures Pointee(ty, mem, t.(post := true)) == Pointee(ty, mem, t)
  {
  }

  lemma {:induction false} SameTrees(ty: Types, mem: Memory, base: nat, under: set<(Option<nat>, nat)>, sl: seq<Task>,
                                     dl: seq<Task>,
                                     heap: seq<Byte>, kids: seq<nat>, i: nat, n: nat, depth: nat)
    requires Finished(ty, mem, base, under, sl, dl, heap, kids) && AllReturn(ty, mem, sl) && i < |sl|
             && !Follows(ty, sl[i]) && n <= |Flatten(ty, sl[i])|
    ensures i < |dl| && n <= |Flatten(ty, dl[i])|
    ensures TreesOf(ty, HeapMemory(heap, base), PlacedAll(Flatten(ty, dl[i])[..n], base), depth)
         == TreesOf(ty, mem, Flatten(ty, sl[i])[..n], depth)
    decreases depth, 2, n
  {
    hide Finished, Settled, HeapMemory, Flatten, TreeOf, Follows;
    FinishedMatch(ty, mem, base, under, sl, dl, heap, kids, i);
    FlattenMatch(ty, sl[i], dl[i]);
    var ds, ss := Flatten(ty, dl[i]), Flatten(ty, sl[i]);
    if n > 0 {
      SameTrees(ty, mem, base, under, sl, dl, heap, kids, i, n - 1, depth);
      PlacedTake(ds, n - 1, base);
      FlattenKid(ty, mem, base, sl, dl, heap, i, kids[i], n - 1);
      SameTree(ty, mem, base, under, sl, dl, heap, kids, kids[i] + n - 1, depth);
      TreesStep(ty, HeapMemory(heap, base), mem, PlacedAll(ds, base), ss, n, depth);
    }
    PlacedTake(ds, n, base);
  }

  lemma PlacedTake(ts: seq<Task>, n: nat, base: nat)
    requires n <= |ts|
    ensures PlacedAll(ts[..n], base) == PlacedAll(ts, base)[..n]
  {
  }

  lemma TreesStep(ty: Types, mem: Memory, mem': Memory, ds: seq<Task>, ss: seq<Task>, n: nat, depth: nat)
    requires 0 < n <= |ds| && n <= |ss|
    requires TreesOf(ty, mem, ds[..n - 1], depth) == TreesOf(ty, mem', ss[..n - 1], depth)
    requires TreeOf(ty, mem, ds[n - 1], depth) == TreeOf(ty, mem', ss[n - 1], depth)
    ensures TreesOf(ty, mem, ds[..n], depth) == TreesOf(ty, mem', ss[..n], depth)
  {
    hide TreeOf;
    TreesSnoc(ty, mem, ds[..n - 1], ds[n - 1], depth);
    TreesSnoc(ty, mem', ss[..n - 1], ss[n - 1], depth);
    assert ds[..n] == ds[..n - 1] + [ds[n - 1]];
    assert ss[..n] == ss[..n - 1] + [ss[n - 1]];
  }

  lemma TreesSnoc(ty: Types, mem: Memory, ts: seq<Task>, t: Task, depth: nat)
    ensures TreesOf(ty, mem, ts + [t], depth) == TreesOf(ty, mem, ts, depth) + [TreeOf(ty, mem, t, depth)]
  {
    hide TreeOf;
    assert (ts + [t])[..|ts|] == ts;
  }

  /** Deep copy: when the serializer is done, the deserializer given its bytes is done after as many rounds, has
      read all of them and nothing else, and has rebuilt the same data. */
  lemma DeepCopy(ty: Types, mem: Memory, base: nat, under: set<(Option<nat>, nat)>, root: Task, k: nat, depth: nat)
    requires TypesOk(ty) && Covers(ty, under) && RootOk(ty, under, root) && |Serialize(ty, mem, root, k).tasks| <= k
    requires AllReturn(ty, mem, Serialize(ty, mem, root, k).tasks)
    requires base + |Deserialize(ty, Serialize(ty, mem, root, k).out, base, AtHeap(root), k).heap| < WORD
    ensures
      var data := Serialize(ty, mem, root, k).out;
      var r := Deserialize(ty, data, base, AtHeap(root), k);
      && r.off == |data| && |r.tasks| == |Serialize(ty, mem, root, k).tasks| <= k
      && TreeOf(ty, HeapMemory(r.heap, base), Placed(AtHeap(root), base), depth) == TreeOf(ty, mem, root, depth)
  {
    var w := Serialize(ty, mem, root, k);
    var r := Deserialize(ty, w.out, base, AtHeap(root), k);
    var kids := Lockstep(ty, mem, base, under, root, w.out, k);
    RootFirst(ty, mem, root, k);
    RootFirstRead(ty, w.out, base, AtHeap(root), k);
    hide InStep, TypesOk, Covers, RootOk, Serialize, Deserialize, TreeOf;
    SameTree(ty, mem, base, under, w.tasks, r.tasks, r.heap, kids, 0, depth);
  }

  lemma {:induction false} RootFirst(ty: Types, mem: Memory, root: Task, k: nat)
    ensures |Serialize(ty, mem, root, k).tasks| > 0 && Serialize(ty, mem, root, k).tasks[0] == root
  {
    hide Pushes, Output;
    if k > 0 {
      RootFirst(ty, mem, root, k - 1);
    }
  }

  lemma {:induction false} RootFirstRead(ty: Types, data: seq<Byte>, base: nat, root: Task, k: nat)
    ensures |Deserialize(ty, data, base, root, k).tasks| > 0 && Deserialize(ty, data, base, root, k).tasks[0] == root
  {
    hide DeserializeTask;
    if k > 0 {
      RootFirstRead(ty, data, base, root, k - 1);
      var r := Deserialize(ty, data, base, root, k - 1);
      if k - 1 < |r.tasks| {
        TasksStay(ty, data, base, r, r.tasks[k - 1]);
      }
    }
  }

  lemma TasksStay(ty: Types, data: seq<Byte>, base: nat, r: Reading, t: Task)
    ensures r.tasks <= DeserializeTask(ty, data, base, r, t).tasks
  {
    hide Written, HeapCount, Overwrite, Flatten;
    RoundIs(ty, data, base, r, t);
  }

  // ---- what is never written ----

  ghost predicate WrittenBy(ty: Types, dl: seq<Task>, k: nat, x: nat) {
    exists i: nat | i < k && i < |dl| :: Covering(ty, dl[i], x)
  }

  predicate Covering(ty: Types, t: Task, x: nat) { t.at <= x < t.at + Wrote(ty, t) }

  lemma WrittenFits(ty: Types, t: Task, input: seq<Byte>, next: nat)
    requires |input| <= Consumed(ty, t)
    ensures |Written(ty, t, input, next)| <= Wrote(ty, t)
  {
    hide Encode, Value;
  }

  /** On any bytes at all: what no task writes, members that are not serialized among it, is zero in the copy. */
  lemma {:induction false} UnwrittenIsZero(ty: Types, data: seq<Byte>, base: nat, root: Task, k: nat, x: nat)
    ensures
      var r := Deserialize(ty, data, base, root, k);
      x < |r.heap| && !WrittenBy(ty, r.tasks, k, x) ==> r.heap[x] == 0
  {
    hide Wrote, DeserializeTask;
    if k > 0 {
      UnwrittenIsZero(ty, data, base, root, k - 1, x);
      var r, r' := Deserialize(ty, data, base, root, k - 1), Deserialize(ty, data, base, root, k);
      if k - 1 < |r.tasks| && x < |r'.heap| && !WrittenBy(ty, r'.tasks, k, x) {
        TasksStay(ty, data, base, r, r.tasks[k - 1]);
        NotEarlier(ty, r.tasks, r'.tasks, k, x);
        ZeroRound(ty, data, base, r, r.tasks[k - 1], x);
      } else if k - 1 >= |r.tasks| && !WrittenBy(ty, r'.tasks, k, x) {
        NotEarlier(ty, r.tasks, r'.tasks, k, x);
      }
    }
  }

  lemma WrittenStays(ty: Types, dl: seq<Task>, dl': seq<Task>, k: nat, x: nat)
    requires dl <= dl' && 0 < k && (WrittenBy(ty, dl, k - 1, x) || (k - 1 < |dl| && Covering(ty, dl[k - 1], x)))
    ensures WrittenBy(ty, dl', k, x)
  {
    hide Covering;
    var i: nat :| i < k && i < |dl| && Covering(ty, dl[i], x);
    assert dl'[i] == dl[i];
  }

  lemma NotEarlier(ty: Types, dl: seq<Task>, dl': seq<Task>, k: nat, x: nat)
    requires dl <= dl' && 0 < k && !WrittenBy(ty, dl', k, x)
    ensures !WrittenBy(ty, dl, k - 1, x) && (k - 1 < |dl| ==> !Covering(ty, dl[k - 1], x))
  {
    hide WrittenBy, Covering;
    if WrittenBy(ty, dl, k - 1, x) || (k - 1 < |dl| && Covering(ty, dl[k - 1], x)) {
      WrittenStays(ty, dl, dl', k, x);
    }
  }

  lemma ZeroRound(ty: Types, data: seq<Byte>, base: nat, r: Reading, t: Task, x: nat)
    requires !Covering(ty, t, x) && (x < |r.heap| ==> r.heap[x] == 0)
    ensures
      var r' := DeserializeTask(ty, data, base, r, t);
      x < |r'.heap| ==> r'.heap[x] == 0
  {
    WrittenFits(ty, t, InputOf(ty, data, r, t), base + |r.heap|);
    RoundIs(ty, data, base, r, t);
    hide Wrote, DeserializeTask, Written, InputOf, Room, HeapCount;
  }
}
