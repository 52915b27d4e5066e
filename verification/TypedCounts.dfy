/** What a counted pointer brings along: as many elements as the bytes of its count say, read as one little-endian
    number, all of them. */
module TypedCounts {
  import opened Basics
  import opened Bytes
  import opened TypedData
  import opened TypedProofs

  function At(s: seq<Byte>, i: nat): int
    requires i < |s|
  {
    s[i]
  }

  /** A 64-bit number is the sum of its bytes, the lowest first. */
  lemma ValueIsSum(s: seq<Byte>)
    requires |s| == 8
    ensures
      Value(s) == At(s, 0) + 0x100 * At(s, 1) + 0x1_0000 * At(s, 2) + 0x100_0000 * At(s, 3)
                  + 0x1_0000_0000 * At(s, 4) + 0x100_0000_0000 * At(s, 5)
                  + 0x1_0000_0000_0000 * At(s, 6) + 0x100_0000_0000_0000 * At(s, 7)
  {
    assert s[4..][1..] == s[5..] && s[5..][1..] == s[6..] && s[6..][1..] == s[7..] && s[7..][1..] == [];
    assert Value(s[6..]) == At(s, 6) + 0x100 * Value(s[7..]);
    assert Value(s[4..]) == At(s, 4) + 0x100 * (At(s, 5) + 0x100 * Value(s[6..]));
    assert s[1..][1..] == s[2..] && s[2..][1..] == s[3..] && s[3..][1..] == s[4..];
    assert Value(s[2..]) == At(s, 2) + 0x100 * (At(s, 3) + 0x100 * Value(s[4..]));
  }

  /** A shorter count is one of 64 bits whose other bytes are zero. */
  lemma {:induction false} ZerosAddNothing(s: seq<Byte>, n: nat)
    ensures Value(s + Repeat(0, n)) == Value(s)
    decreases |s| + n
  {
    if s == [] {
      if n > 0 {
        assert (s + Repeat(0, n))[1..] == [] + Repeat(0, n - 1);
        ZerosAddNothing([], n - 1);
      }
    } else {
      assert (s + Repeat(0, n))[1..] == s[1..] + Repeat(0, n);
      ZerosAddNothing(s[1..], n);
    }
  }

  // ---- any counted pointer ----

  /** Task `t` is a pointer behind its header, whose count is member `m` of its container: the first of that name. */
  predicate CountedBy(ty: Types, t: Task, m: nat) {
    && t.post && t.typ < |ty.env| && ty.env[t.typ].kind == Pointer && ty.env[t.typ].delim != ""
    && (forall r | r in ty.refs :: r.typ != ty.env[t.typ].direct)
    && t.ctype.Some? && t.ctype.value < |ty.env|
    && var ms := ty.env[t.ctype.value].members;
       && m < |ms| && ms[m].name == ty.env[t.typ].delim && (forall i | 0 <= i < m :: ms[i].name != ms[m].name)
       && ms[m].typ < |ty.env|
  }

  lemma {:induction false} FirstNamed(ms: seq<Member>, m: nat)
    requires m < |ms| && forall i | 0 <= i < m :: ms[i].name != ms[m].name
    ensures FindMember(ms, ms[m].name) == Some(ms[m])
  {
    if m > 0 {
      FirstNamed(ms[1..], m - 1);
    }
  }

  lemma {:induction false} NoRef(refs: seq<RefInfo>, typ: nat)
    requires forall r | r in refs :: r.typ != typ
    ensures FindRef(refs, typ) == None
  {
    if refs != [] {
      NoRef(refs[1..], typ);
    }
  }

  lemma CountedIs(ty: Types, t: Task, m: nat)
    requires CountedBy(ty, t, m)
    ensures Follows(ty, t) && PtrUseOf(ty, t.typ) == Counted
    ensures CountMember(ty, t.ctype, t.typ) == Some(ty.env[t.ctype.value].members[m])
  {
    NoRef(ty.refs, ty.env[t.typ].direct);
    FirstNamed(ty.env[t.ctype.value].members, m);
  }

  /** The serializer follows the pointer to `n` elements if its count's bytes are those of `n`. */
  lemma FollowsWithCount(ty: Types, mem: Memory, t: Task, m: nat, n: nat, p: nat)
    requires CountedBy(ty, t, m)
    requires
      var c := ty.env[t.ctype.value].members[m];
      var size := ty.env[c.typ].size;
      n < Pow(0x100, size) && Load(mem, t.cptr + c.off, size) == Encode(n, size)
    requires p < WORD && Load(mem, t.at, 8) == Encode(p, 8)
    ensures Pushes(ty, mem, t) == [Task(ty.env[t.typ].direct, n, p, t.ctype, t.cptr, false)]
    ensures Output(ty, mem, t) == []
  {
    CountedIs(ty, t, m);
    ValueOfEncode(n, ty.env[ty.env[t.ctype.value].members[m].typ].size);
    PtrEncodes(p);
    hide Encode, Value, PtrUseOf, CountMember, Load;
  }

  /** The deserializer then makes room for one more than `n` elements behind what it has, writes where that is in
      place of the pointer, and goes on with `n`. */
  lemma MakesRoomForCount(ty: Types, data: seq<Byte>, base: nat, r: Reading, t: Task, m: nat, n: nat)
    requires CountedBy(ty, t, m) && t.at + 8 <= |r.heap| && ty.env[t.typ].direct < |ty.env|
    requires
      var c := ty.env[t.ctype.value].members[m];
      var size := ty.env[c.typ].size;
      && n < Pow(0x100, size) && t.cptr + c.off + size <= |r.heap|
      && r.heap[t.cptr + c.off..t.cptr + c.off + size] == Encode(n, size)
    ensures
      DeserializeTask(ty, data, base, r, t)
      == Reading(r.tasks + [Task(ty.env[t.typ].direct, n, |r.heap|, t.ctype, t.cptr, false)],
                 r.heap[..t.at] + Encode(base + |r.heap|, 8) + r.heap[t.at + 8..]
                 + Repeat(0, (n + 1) * ty.env[ty.env[t.typ].direct].size), r.off)
  {
    CountedIs(ty, t, m);
    ReadsCount(ty, base, r.heap, t, m, n);
    RoundIs(ty, data, base, r, t);
    hide Encode, PtrUseOf, CountMember, HeapCount, Follows, DeserializeTask;
    assert Written(ty, t, InputOf(ty, data, r, t), base + |r.heap|) == Encode(base + |r.heap|, 8);
    Replaced(r.heap, t.at, Encode(base + |r.heap|, 8));
  }

  lemma Replaced(heap: seq<Byte>, at: nat, s: seq<Byte>)
    requires at + |s| <= |heap|
    ensures Overwrite(heap, at, s) == heap[..at] + s + heap[at + |s|..]
  {
  }

  lemma ReadsCount(ty: Types, base: nat, heap: seq<Byte>, t: Task, m: nat, n: nat)
    requires CountedBy(ty, t, m)
    requires
      var c := ty.env[t.ctype.value].members[m];
      var size := ty.env[c.typ].size;
      && n < Pow(0x100, size) && t.cptr + c.off + size <= |heap|
      && heap[t.cptr + c.off..t.cptr + c.off + size] == Encode(n, size)
    ensures HeapCount(ty, heap, base, t) == n
  {
    var c := ty.env[t.ctype.value].members[m];
    CountedIs(ty, t, m);
    ValueOfEncode(n, ty.env[c.typ].size);
    var s := Load(HeapMemory(heap, base), base + t.cptr + c.off, ty.env[c.typ].size);
    assert s == heap[t.cptr + c.off..t.cptr + c.off + ty.env[c.typ].size];
    hide Encode, Value, PtrUseOf, CountMember, Load, HeapMemory;
  }

  // ---- pointers written as numbers ----

  lemma {:induction false} FirstRef(refs: seq<RefInfo>, i: nat)
    requires i < |refs| && forall j | 0 <= j < i :: refs[j].typ != refs[i].typ
    ensures FindRef(refs, refs[i].typ) == Some(refs[i])
  {
    if i > 0 {
      FirstRef(refs[1..], i - 1);
    }
  }

  lemma Quotient(x: nat, size: nat, q: nat)
    requires size > 0 && q == x * size
    ensures q / size == x
  {
    DivBracket(q, size);
    var d := q / size;
    if d < x {
      MulMono(d + 1, x, size);
    } else if d > x {
      MulMono(x + 1, d, size);
    }
  }

  lemma IndexOf(p: nat, base: nat, q: nat, size: nat, x: nat)
    requires p == base + q && q < WORD && size > 0 && q == x * size
    ensures (p - base) % WORD / DivBy(size) == x
  {
    Quotient(x, size, q);
    assert (p - base) % WORD == q;
  }

  /** Entry `i` is the first for what a pointer of type `typ` points to. */
  predicate Refers(ty: Types, typ: nat, i: nat) {
    && typ < |ty.env| && ty.env[typ].kind == Pointer && ty.env[typ].direct < |ty.env|
    && i < |ty.refs| && ty.refs[i].typ == ty.env[typ].direct
    && forall j | 0 <= j < i :: ty.refs[j].typ != ty.refs[i].typ
  }

  /** The first entry for the type a pointer points to decides: with an index base, whatever its offset base, a pointer
      to element `x` behind it is written as `x`. */
  lemma WrittenAsIndex(ty: Types, mem: Memory, t: Task, i: nat, x: nat, q: nat)
    requires Refers(ty, t.typ, i) && ty.refs[i].indexBase != 0 && ty.env[ty.refs[i].typ].size > 0
    requires q < WORD && q == x * ty.env[ty.refs[i].typ].size && LoadPtr(mem, t.at) == ty.refs[i].indexBase + q
    ensures Output(ty, mem, t) == Encode(x, 8)
  {
    FirstRef(ty.refs, i);
    IndexOf(LoadPtr(mem, t.at), ty.refs[i].indexBase, q, ty.env[ty.refs[i].typ].size, x);
    hide LoadPtr, FindRef, Encode, DivBy;
  }

  /** With an offset base alone, as the distance from it. */
  lemma WrittenAsOffset(ty: Types, mem: Memory, t: Task, i: nat, q: nat)
    requires Refers(ty, t.typ, i) && ty.refs[i].indexBase == 0 && ty.refs[i].offsetBase != 0
    requires q < WORD && LoadPtr(mem, t.at) == ty.refs[i].offsetBase + q
    ensures Output(ty, mem, t) == Encode(q, 8)
  {
    FirstRef(ty.refs, i);
    assert (LoadPtr(mem, t.at) - ty.refs[i].offsetBase) % WORD == q;
    hide LoadPtr, FindRef, Encode, DivBy;
  }

  // ---- a counted string, end to end ----

  /** A struct of a `w`-byte count, a pointer to as many enum values of `s` bytes, and a member that is not
      serialized. */
  function Sized(s: nat, w: nat): Types {
    Types([Type(Enum, s, 4, "", 0, []),
           Type(Leaf, w, 0, "", 0, []),
           Type(Pointer, 8, 0, "size", 0, []),
           Type(Struct, w + 8 + w, 0, "", 0,
                [Member("size", 0, 1, false), Member("str", w, 2, false), Member("next", w + 8, 1, true)]),
           Type(Leaf, s, 0, "", 0, [])], [])
  }

  function Whole(at: nat): Task { Task(3, 1, at, None, 0, false) }

  function Head(at: nat): Task { Task(1, 1, at, Some(3), at, false) }

  function Tail(at: nat, w: nat, post: bool): Task { Task(2, 1, at + w, Some(3), at, post) }

  function Items(typ: nat, n: nat, p: nat, at: nat): Task { Task(typ, n, p, Some(3), at, false) }

  lemma SizedMembers(s: nat, w: nat, at: nat)
    ensures MemberTasks(Sized(s, w).env[3].members, 3, at, at) == [Head(at), Tail(at, w, false)]
  {
    var ms := Sized(s, w).env[3].members;
    assert ms[1..][1..][1..] == [];
    assert MemberTasks(ms[1..][1..], 3, at, at) == [];
    assert MemberTasks(ms[1..], 3, at, at) == [Tail(at, w, false)];
  }

  /** What each of the six tasks is replaced by. */
  lemma SizedTasks(s: nat, w: nat, at: nat, n: nat, p: nat)
    ensures Flatten(Sized(s, w), Whole(at)) == [Head(at), Tail(at, w, false)]
    ensures Flatten(Sized(s, w), Head(at)) == [] && Flatten(Sized(s, w), Tail(at, w, false)) == [Tail(at, w, true)]
    ensures Flatten(Sized(s, w), Items(0, n, p, at)) == [Items(4, n, p, at)]
            && Flatten(Sized(s, w), Items(4, n, p, at)) == []
    ensures CountedBy(Sized(s, w), Tail(at, w, true), 0)
  {
    var ty := Sized(s, w);
    SizedMembers(s, w, at);
    hide MemberTasks;
    assert ElementTasks(ty, Whole(at), 0) == [];
    assert at + 0 * SizeOf(ty, 3) == at;
  }

  lemma Sends(ty: Types, mem: Memory, root: Task, k: nat, w: Writing, t: Task, next: seq<Task>, out: seq<Byte>)
    requires Serialize(ty, mem, root, k) == w && k < |w.tasks| && w.tasks[k] == t
    requires Pushes(ty, mem, t) == next && Output(ty, mem, t) == out
    ensures Serialize(ty, mem, root, k + 1) == Writing(w.tasks + next, w.out + out)
  {
    hide Pushes, Output;
  }

  lemma SizedWalk(s: nat, w: nat, mem: Memory, at: nat, n: nat, p: nat, size: nat)
    requires n < Pow(0x100, w) && Load(mem, at, w) == Encode(n, w) && size == s * n
    requires p < WORD && Load(mem, at + w, 8) == Encode(p, 8)
    ensures
      Serialize(Sized(s, w), mem, Whole(at), 6)
      == Writing([Whole(at), Head(at), Tail(at, w, false), Tail(at, w, true), Items(0, n, p, at), Items(4, n, p, at)],
                 Load(mem, at, w) + Load(mem, p, size))
  {
    hide *;
    var ty, root, head, items := Sized(s, w), Whole(at), Load(mem, at, w), Load(mem, p, size);
    SizedTasks(s, w, at, n, p);
    SizedRefs(s, w, at, n, p);
    FollowsWithCount(ty, mem, Tail(at, w, true), 0, n, p);
    SizedOutputs(s, w, mem, at, n, p, size);
    SerializeZero(ty, mem, root);
    Sends(ty, mem, root, 0, Writing([root], []), root, [Head(at), Tail(at, w, false)], []);
    var three := [root, Head(at), Tail(at, w, false)];
    Sends(ty, mem, root, 1, Writing(three, []), Head(at), [], head);
    Sends(ty, mem, root, 2, Writing(three, head), Tail(at, w, false), [Tail(at, w, true)], []);
    var four := three + [Tail(at, w, true)];
    Sends(ty, mem, root, 3, Writing(four, head), Tail(at, w, true), [Items(0, n, p, at)], []);
    var five := four + [Items(0, n, p, at)];
    Sends(ty, mem, root, 4, Writing(five, head), Items(0, n, p, at), [Items(4, n, p, at)], []);
    Sends(ty, mem, root, 5, Writing(five + [Items(4, n, p, at)], head), Items(4, n, p, at), [], items);
  }

  lemma SerializeZero(ty: Types, mem: Memory, root: Task)
    ensures Serialize(ty, mem, root, 0) == Writing([root], [])
  {
  }

  /** What `FollowsWithCount` asks about. */
  lemma SizedRefs(s: nat, w: nat, at: nat, n: nat, p: nat)
    ensures
      var ty, t := Sized(s, w), Tail(at, w, true);
      && |ty.env| == 5 && t.typ == 2 && ty.env[2].direct == 0 && ty.env[0].size == s
      && t.ctype == Some(3) && t.cptr == at && t.at == at + w
      && |ty.env[3].members| == 3 && ty.env[3].members[0].off == 0 && ty.env[3].members[0].typ == 1
      && ty.env[1].size == w
    ensures Items(0, n, p, at) == Task(0, n, p, Some(3), at, false)
  {
  }

  lemma SizedOutputs(s: nat, w: nat, mem: Memory, at: nat, n: nat, p: nat, size: nat)
    requires size == s * n
    ensures
      var ty := Sized(s, w);
      && Output(ty, mem, Whole(at)) == [] && Output(ty, mem, Head(at)) == Load(mem, at, w)
      && Output(ty, mem, Tail(at, w, false)) == [] && Output(ty, mem, Items(0, n, p, at)) == []
      && Output(ty, mem, Items(4, n, p, at)) == Load(mem, p, size)
      && Pushes(ty, mem, Whole(at)) == Flatten(ty, Whole(at)) && Pushes(ty, mem, Head(at)) == Flatten(ty, Head(at))
      && Pushes(ty, mem, Tail(at, w, false)) == Flatten(ty, Tail(at, w, false))
      && Pushes(ty, mem, Items(0, n, p, at)) == Flatten(ty, Items(0, n, p, at))
      && Pushes(ty, mem, Items(4, n, p, at)) == Flatten(ty, Items(4, n, p, at))
  {
    hide Flatten;
  }

  /** The two tasks that read: the count into the struct, the items into their buffer. */
  lemma SizedReads(s: nat, w: nat, base: nat, r: Reading, data: seq<Byte>, n: nat, p: nat,
                   size: nat)
    requires r.off <= |data| && size == s * n
    ensures
      var ty := Sized(s, w);
      && DeserializeTask(ty, data, base, r, Whole(0)) == Reading(r.tasks + Flatten(ty, Whole(0)), r.heap, r.off)
      && DeserializeTask(ty, data, base, r, Tail(0, w, false))
         == Reading(r.tasks + Flatten(ty, Tail(0, w, false)), r.heap, r.off)
      && DeserializeTask(ty, data, base, r, Items(0, n, p, 0))
         == Reading(r.tasks + Flatten(ty, Items(0, n, p, 0)), r.heap, r.off)
      && (r.off + w <= |data| ==>
            DeserializeTask(ty, data, base, r, Head(0))
            == Reading(r.tasks + Flatten(ty, Head(0)), Overwrite(r.heap, 0, data[r.off..r.off + w]), r.off + w))
      && (r.off + size <= |data| ==>
            DeserializeTask(ty, data, base, r, Items(4, n, p, 0))
            == Reading(r.tasks + Flatten(ty, Items(4, n, p, 0)),
                       Overwrite(r.heap, p, data[r.off..r.off + size]), r.off + size))
  {
    hide Flatten;
    assert forall at :: Overwrite(r.heap, at, []) == r.heap;
  }

  /** The struct after its count is read: room for the pointer, and zeros for what is not serialized. */
  lemma SizedStart(s: nat, w: nat, base: nat, head: seq<Byte>, items: seq<Byte>)
    requires |head| == w
    ensures
      Deserialize(Sized(s, w), head + items, base, Whole(0), 3)
      == Reading([Whole(0), Head(0), Tail(0, w, false), Tail(0, w, true)], head + Repeat(0, 8 + w), w)
  {
    var ty, root, data := Sized(s, w), Whole(0), head + items;
    SizedTasks(s, w, 0, 0, 0);
    var zero := Repeat(0, w + 8 + w);
    var r0, r1 := Reading([root], zero, 0), Reading([root, Head(0), Tail(0, w, false)], zero, 0);
    assert Deserialize(ty, data, base, root, 0) == r0;
    SizedReads(s, w, base, r0, data, 0, 0, 0);
    SizedReads(s, w, base, r1, data, 0, 0, 0);
    assert data[0..w] == head && Overwrite(zero, 0, head) == head + Repeat(0, 8 + w);
    var r2 := Reading([root, Head(0), Tail(0, w, false)], head + Repeat(0, 8 + w), w);
    SizedReads(s, w, base, r2, data, 0, 0, 0);
    hide Sized, Flatten, DeserializeTask, Overwrite;
    assert Deserialize(ty, data, base, root, 1) == r1;
    assert Deserialize(ty, data, base, root, 2) == r2;
  }

  /** One more round. */
  lemma Goes(ty: Types, data: seq<Byte>, base: nat, root: Task, k: nat, r: Reading)
    requires Deserialize(ty, data, base, root, k) == r && k < |r.tasks|
    ensures Deserialize(ty, data, base, root, k + 1) == DeserializeTask(ty, data, base, r, r.tasks[k])
  {
    hide DeserializeTask;
  }

  lemma RoomIsMade(s: nat, w: nat, base: nat, data: seq<Byte>, head: seq<Byte>, n: nat, r: Reading, room: nat)
    requires n < Pow(0x100, w) && head == Encode(n, w) && r.heap == head + Repeat(0, 8 + w) && room == (n + 1) * s
    ensures
      var h := w + 8 + w;
      DeserializeTask(Sized(s, w), data, base, r, Tail(0, w, true))
      == Reading(r.tasks + [Items(0, n, h, 0)], head + Encode(base + h, 8) + Repeat(0, w) + Repeat(0, room), r.off)
  {
    hide *;
    SizedTasks(s, w, 0, n, w + 8 + w);
    SizedRefs(s, w, 0, n, w + 8 + w);
    HeadAndRest(head, r.heap, w);
    MakesRoomForCount(Sized(s, w), data, base, r, Tail(0, w, true), 0, n);
  }

  lemma HeadAndRest(head: seq<Byte>, heap: seq<Byte>, w: nat)
    requires |head| == w && heap == head + Repeat(0, 8 + w)
    ensures |heap| == w + 8 + w && heap[..w] == head && heap[0..w] == head && heap[w + 8..] == Repeat(0, w)
  {
  }

  /** Where the buffer for the items is put. */
  lemma SizedFollows(s: nat, w: nat, base: nat, head: seq<Byte>, items: seq<Byte>, n: nat, room: nat)
    requires n < Pow(0x100, w) && head == Encode(n, w) && room == (n + 1) * s
    ensures
      var h := w + 8 + w;
      Deserialize(Sized(s, w), head + items, base, Whole(0), 4)
      == Reading([Whole(0), Head(0), Tail(0, w, false), Tail(0, w, true), Items(0, n, h, 0)],
                 head + Encode(base + h, 8) + Repeat(0, w) + Repeat(0, room), w)
  {
    hide *;
    var r := Reading([Whole(0), Head(0), Tail(0, w, false), Tail(0, w, true)], head + Repeat(0, 8 + w), w);
    SizedStart(s, w, base, head, items);
    RoomIsMade(s, w, base, head + items, head, n, r, room);
    Goes(Sized(s, w), head + items, base, Whole(0), 3, r);
  }

  lemma MoreRoom(n: nat, s: nat)
    ensures (n + 1) * s == s * n + s
  {
  }

  lemma Filled(a: seq<Byte>, items: seq<Byte>, s: nat)
    ensures Overwrite(a + Repeat(0, |items| + s), |a|, items) == a + items + Repeat(0, s)
  {
  }

  lemma ItemsAreRead(s: nat, w: nat, base: nat, head: seq<Byte>, items: seq<Byte>, start: seq<Byte>, n: nat,
                     tasks: seq<Task>)
    requires |items| == s * n
    ensures
      DeserializeTask(Sized(s, w), head + items, base, Reading(tasks, start + Repeat(0, |items| + s), |head|),
                      Items(4, n, |start|, 0))
      == Reading(tasks, start + items + Repeat(0, s), |head + items|)
  {
    hide *;
    var data, r := head + items, Reading(tasks, start + Repeat(0, |items| + s), |head|);
    SizedTasks(s, w, 0, n, |start|);
    SizedReads(s, w, base, r, data, n, |start|, |items|);
    Filled(start, items, s);
    assert data[|head|..|head| + |items|] == items;
    assert tasks + [] == tasks;
  }

  lemma EnumLeads(s: nat, w: nat, base: nat, r: Reading, data: seq<Byte>, n: nat, p: nat, size: nat)
    requires r.off <= |data| && size == s * n
    ensures DeserializeTask(Sized(s, w), data, base, r, Items(0, n, p, 0))
         == Reading(r.tasks + [Items(4, n, p, 0)], r.heap, r.off)
  {
    hide *;
    SizedTasks(s, w, 0, n, p);
    SizedReads(s, w, base, r, data, n, p, size);
  }

  lemma SizedBack(s: nat, w: nat, base: nat, head: seq<Byte>, items: seq<Byte>, n: nat)
    requires n < Pow(0x100, w) && head == Encode(n, w) && |items| == s * n
    ensures
      Deserialize(Sized(s, w), head + items, base, Whole(0), 6)
      == Reading(SizedList(w, n), head + Encode(base + w + 8 + w, 8) + Repeat(0, w) + items + Repeat(0, s),
                 |head + items|)
  {
    hide *;
    var h := w + 8 + w;
    var start := head + Encode(base + h, 8) + Repeat(0, w);
    var heap := start + Repeat(0, |items| + s);
    var five := [Whole(0), Head(0), Tail(0, w, false), Tail(0, w, true), Items(0, n, h, 0)];
    MoreRoom(n, s);
    SizedFollows(s, w, base, head, items, n, |items| + s);
    EnumLeads(s, w, base, Reading(five, heap, w), head + items, n, h, |items|);
    Goes(Sized(s, w), head + items, base, Whole(0), 4, Reading(five, heap, w));
    var six := five + [Items(4, n, h, 0)];
    ItemsAreRead(s, w, base, head, items, start, n, six);
    Goes(Sized(s, w), head + items, base, Whole(0), 5, Reading(six, heap, w));
    SixTasks(w, n);
  }

  function SizedList(w: nat, n: nat): (l: seq<Task>)
    ensures |l| == 6
  {
    [Whole(0), Head(0), Tail(0, w, false), Tail(0, w, true), Items(0, n, w + 8 + w, 0), Items(4, n, w + 8 + w, 0)]
  }

  lemma SixTasks(w: nat, n: nat)
    ensures SizedList(w, n)
         == [Whole(0), Head(0), Tail(0, w, false), Tail(0, w, true), Items(0, n, w + 8 + w, 0)]
            + [Items(4, n, w + 8 + w, 0)]
  {
  }

  /** What is written is the count and then all `n` items; the copy has the count, the address of a buffer of its own,
      zeros for what is not serialized, and in that buffer all `n` items and one zero item. */
  predicate AllItems(sent: Writing, copy: Reading, head: seq<Byte>, items: seq<Byte>, ptr: nat, s: nat) {
    && sent.out == head + items && copy.off == |sent.out|
    && copy.heap == head + Encode(ptr, 8) + Repeat(0, |head|) + items + Repeat(0, s)
  }

  /** Such a struct is written and read in six tasks, and the copy is as it should be for any `n` whose bytes are those
      of the count. */
  lemma CopiesAllItems(s: nat, w: nat, mem: Memory, at: nat, n: nat, p: nat, base: nat, size: nat)
    requires n < Pow(0x100, w) && Load(mem, at, w) == Encode(n, w)
    requires p < WORD && Load(mem, at + w, 8) == Encode(p, 8) && size == n * s
    ensures
      var root := Task(3, 1, at, None, 0, false);
      var sent := Serialize(Sized(s, w), mem, root, 6);
      var copy := Deserialize(Sized(s, w), sent.out, base, root.(at := 0), 6);
      && |sent.tasks| == |copy.tasks| == 6
      && AllItems(sent, copy, Load(mem, at, w), Load(mem, p, size), base + w + 8 + w, s)
  {
    hide *;
    SizedWalk(s, w, mem, at, n, p, size);
    SizedBack(s, w, base, Load(mem, at, w), Load(mem, p, size), n);
    Assembled(Serialize(Sized(s, w), mem, Whole(at), 6), Load(mem, at, w), Load(mem, p, size), base + w + 8 + w, s,
              SizedList(w, n));
    WholeIs(at);
  }

  lemma WholeIs(at: nat)
    ensures Task(3, 1, at, None, 0, false) == Whole(at) && Whole(at).(at := 0) == Whole(0)
  {
  }

  lemma Assembled(sent: Writing, head: seq<Byte>, items: seq<Byte>, ptr: nat, s: nat, tasks: seq<Task>)
    requires sent.out == head + items
    ensures AllItems(sent, Reading(tasks, head + Encode(ptr, 8) + Repeat(0, |head|) + items + Repeat(0, s),
                                   |head + items|), head, items, ptr, s)
  {
  }
}
