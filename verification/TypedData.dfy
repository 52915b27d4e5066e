/** The type-directed serializer and deserializer. Each walks a list of tasks that grows behind its cursor; they
    run apart, and agree only because both push the same tasks in the same order. */
module TypedData {
  import opened Basics
  import opened Bytes

  datatype Kind = Leaf | Pointer | Array | Struct | Enum | Other

  /** A member of a struct: `off` bytes into it, of type `typ`. */
  datatype Member = Member(name: string, off: nat, typ: nat, skip: bool)

  /** Types refer to each other by number, so that they may be recursive. `delim` names the member that counts
      what a pointer points to; `count` is an array's length. */
  datatype Type = Type(kind: Kind, size: nat, direct: nat, delim: string, count: nat, members: seq<Member>)

  /** What pointers to a type are written as, if not by what they point to. */
  datatype RefInfo = RefInfo(typ: nat, indexBase: nat, offsetBase: nat)

  datatype Types = Types(env: seq<Type>, refs: seq<RefInfo>)

  /** `at` is an address on the serializer's side and a buffer offset on the deserializer's. `ctype` and `cptr` are
      the containing struct, in which a pointer's count is looked up. */
  datatype Task = Task(typ: nat, count: nat, at: nat, ctype: Option<nat>, cptr: nat, post: bool)

  type Memory = nat -> Byte

  const PTR: nat := 8
  const WORD: nat := 0x1_0000_0000_0000_0000

  // ---- bytes of memory ----

  function Load(mem: Memory, at: nat, n: nat): (s: seq<Byte>)
    ensures |s| == n && forall i | 0 <= i < n :: s[i] == mem(at + i)
  {
    seq(n, i requires 0 <= i < n => mem(at + i))
  }

  function Value(s: seq<Byte>): nat {
    if s == [] then 0 else var low: int := s[0]; low + 0x100 * Value(s[1..])
  }

  function Encode(x: nat, n: nat): (s: seq<Byte>)
    ensures |s| == n
  {
    if n == 0 then [] else [x % 0x100] + Encode(x / 0x100, n - 1)
  }

  function LoadPtr(mem: Memory, at: nat): nat { Value(Load(mem, at, PTR)) }

  // ---- what a task is ----

  predicate Known(ty: Types, typ: nat) { typ < |ty.env| }

  function KindOf(ty: Types, typ: nat): Kind { if Known(ty, typ) then ty.env[typ].kind else Other }

  function SizeOf(ty: Types, typ: nat): nat { if Known(ty, typ) then ty.env[typ].size else 0 }

  function Direct(ty: Types, typ: nat): nat { if Known(ty, typ) then ty.env[typ].direct else 0 }

  function Delim(ty: Types, typ: nat): string { if Known(ty, typ) then ty.env[typ].delim else "" }

  /** The first entry for a pointed-to type. */
  function FindRef(refs: seq<RefInfo>, typ: nat): Option<RefInfo> {
    if refs == [] then None else if refs[0].typ == typ then Some(refs[0]) else FindRef(refs[1..], typ)
  }

  datatype PtrUse = Indexed(base: nat) | Offset(base: nat) | Counted | Plain

  function PtrUseOf(ty: Types, typ: nat): PtrUse {
    var r := FindRef(ty.refs, Direct(ty, typ));
    if r.Some? && r.value.indexBase != 0 then Indexed(r.value.indexBase)
    else if r.Some? && r.value.offsetBase != 0 then Offset(r.value.offsetBase)
    else if Delim(ty, typ) != "" then Counted
    else Plain
  }

  function FindMember(ms: seq<Member>, name: string): Option<Member> {
    if ms == [] then None else if ms[0].name == name then Some(ms[0]) else FindMember(ms[1..], name)
  }

  /** The member of a containing struct that counts what a pointer of type `typ` points to. */
  function CountMember(ty: Types, ctype: Option<nat>, typ: nat): Option<Member> {
    if ctype.Some? && Known(ty, ctype.value) then FindMember(ty.env[ctype.value].members, Delim(ty, typ)) else None
  }

  /** A missing count member reads as zero. */
  function CountAt(ty: Types, mem: Memory, t: Task): nat {
    match CountMember(ty, t.ctype, t.typ)
    case Some(m) => Value(Load(mem, t.cptr + m.off, SizeOf(ty, m.typ)))
    case None => 0
  }

  // ---- tasks that only lead to other tasks ----

  function MemberTasks(ms: seq<Member>, ctype: nat, at: nat, cptr: nat): seq<Task> {
    if ms == [] then []
    else (if ms[0].skip then [] else [Task(ms[0].typ, 1, at + ms[0].off, Some(ctype), cptr, false)])
         + MemberTasks(ms[1..], ctype, at, cptr)
  }

  /** The members of the first `n` elements; every one of them has element 0 as its container. */
  function ElementTasks(ty: Types, t: Task, n: nat): seq<Task>
    requires Known(ty, t.typ)
  {
    if n == 0 then []
    else ElementTasks(ty, t, n - 1)
         + MemberTasks(ty.env[t.typ].members, t.typ, t.at + (n - 1) * SizeOf(ty, t.typ), t.at)
  }

  /** The tasks a task is replaced by without reading or writing anything. An array's own count replaces the task's. */
  function Flatten(ty: Types, t: Task): seq<Task> {
    match KindOf(ty, t.typ)
    case Array => [t.(typ := Direct(ty, t.typ), count := ty.env[t.typ].count, post := false)]
    case Enum => [t.(typ := Direct(ty, t.typ), post := false)]
    case Struct => ElementTasks(ty, t, t.count)
    case Pointer => if PtrUseOf(ty, t.typ) == Counted && !t.post then [t.(post := true)] else []
    case _ => []
  }

  /** A pointer behind the header of its container: its count can be read. */
  predicate Follows(ty: Types, t: Task) { KindOf(ty, t.typ).Pointer? && PtrUseOf(ty, t.typ) == Counted && t.post }

  // ---- serializing ----

  function Output(ty: Types, mem: Memory, t: Task): seq<Byte> {
    match KindOf(ty, t.typ)
    case Leaf => Load(mem, t.at, SizeOf(ty, t.typ) * t.count)
    case Pointer =>
      (match PtrUseOf(ty, t.typ)
       case Indexed(base) => Encode((LoadPtr(mem, t.at) - base) % WORD / DivBy(SizeOf(ty, Direct(ty, t.typ))), PTR)
       case Offset(base) => Encode((LoadPtr(mem, t.at) - base) % WORD, PTR)
       case Counted => []
       case Plain => Load(mem, t.at, SizeOf(ty, t.typ) * t.count))
    case _ => []
  }

  function DivBy(size: nat): nat { if size == 0 then 1 else size }

  function Pointee(ty: Types, mem: Memory, t: Task): Task {
    Task(Direct(ty, t.typ), CountAt(ty, mem, t), LoadPtr(mem, t.at), t.ctype, t.cptr, false)
  }

  function Pushes(ty: Types, mem: Memory, t: Task): seq<Task> {
    if Follows(ty, t) then [Pointee(ty, mem, t)] else Flatten(ty, t)
  }

  datatype Writing = Writing(tasks: seq<Task>, out: seq<Byte>)

  /** The serializer after `k` rounds of its loop. */
  function Serialize(ty: Types, mem: Memory, root: Task, k: nat): Writing {
    if k == 0 then Writing([root], [])
    else
      var w := Serialize(ty, mem, root, k - 1);
      if k - 1 < |w.tasks|
      then Writing(w.tasks + Pushes(ty, mem, w.tasks[k - 1]), w.out + Output(ty, mem, w.tasks[k - 1]))
      else w
  }

  // ---- deserializing ----

  /** The destination buffers, one after the other from address `base` on. */
  function HeapMemory(heap: seq<Byte>, base: nat): Memory {
    x => if base <= x < base + |heap| then heap[x - base] else 0
  }

  function Overwrite(heap: seq<Byte>, at: nat, s: seq<Byte>): (h: seq<Byte>)
    ensures |h| == |heap|
    ensures forall i | 0 <= i < |heap| :: h[i] == if at <= i < at + |s| then s[i - at] else heap[i]
  {
    seq(|heap|, i requires 0 <= i < |heap| => if at <= i < at + |s| then s[i - at] else heap[i])
  }

  /** How many bytes a task reads. */
  function Consumed(ty: Types, t: Task): nat {
    match KindOf(ty, t.typ)
    case Leaf => SizeOf(ty, t.typ) * t.count
    case Pointer =>
      (match PtrUseOf(ty, t.typ)
       case Counted => 0
       case Plain => SizeOf(ty, t.typ) * t.count
       case _ => PTR)
    case _ => 0
  }

  /** What a task writes, given what it reads and where the next buffer would be. */
  function Written(ty: Types, t: Task, input: seq<Byte>, next: nat): seq<Byte> {
    match KindOf(ty, t.typ)
    case Leaf => input
    case Pointer =>
      (match PtrUseOf(ty, t.typ)
       case Indexed(base) => Encode((Value(input) + base) * SizeOf(ty, Direct(ty, t.typ)) % WORD, PTR)
       case Offset(base) => Encode((Value(input) + base) % WORD, PTR)
       case Counted => if t.post then Encode(next, PTR) else []
       case Plain => input)
    case _ => []
  }

  /** A new buffer has room for one more element than the count. */
  function Room(ty: Types, t: Task, count: nat): nat { (count + 1) * SizeOf(ty, Direct(ty, t.typ)) }

  datatype Reading = Reading(tasks: seq<Task>, heap: seq<Byte>, off: nat)

  /** Destinations are offsets into the buffers; `base` is where those are in memory. */
  function HeapCount(ty: Types, heap: seq<Byte>, base: nat, t: Task): nat {
    CountAt(ty, HeapMemory(heap, base), t.(cptr := base + t.cptr))
  }

  function Deserialize(ty: Types, data: seq<Byte>, base: nat, root: Task, k: nat): Reading {
    if k == 0 then Reading([root], Repeat(0, SizeOf(ty, root.typ)), 0)
    else
      var r := Deserialize(ty, data, base, root, k - 1);
      if k - 1 < |r.tasks| then DeserializeTask(ty, data, base, r, r.tasks[k - 1]) else r
  }

  function DeserializeTask(ty: Types, data: seq<Byte>, base: nat, r: Reading, t: Task): Reading {
    var n := Consumed(ty, t);
    var heap := Overwrite(r.heap, t.at, Written(ty, t, Slice(data, r.off, r.off + n), base + |r.heap|));
    if Follows(ty, t) then
      var count := HeapCount(ty, r.heap, base, t);
      Reading(r.tasks + [Task(Direct(ty, t.typ), count, |r.heap|, t.ctype, t.cptr, false)],
              heap + Repeat(0, Room(ty, t, count)), r.off)
    else
      Reading(r.tasks + Flatten(ty, t), heap, r.off + n)
  }

  // ---- what the data is ----

  /** Data as a tree, cut at some depth: what is at each place, of what type, how many times. */
  datatype Tree =
    | Cut
    | Data(typ: nat, count: nat, bytes: seq<Byte>)
    | Ref(typ: nat, count: nat, tree: Tree)
    | Node(typ: nat, count: nat, trees: seq<Tree>)

  /** The data as the loops walk it. */
  function TreeOf(ty: Types, mem: Memory, t: Task, depth: nat): Tree
    decreases depth, 1, 0
  {
    if depth == 0 then Cut
    else
      match KindOf(ty, t.typ)
      case Leaf => Data(t.typ, t.count, Load(mem, t.at, SizeOf(ty, t.typ) * t.count))
      case Pointer =>
        (match PtrUseOf(ty, t.typ)
         case Counted => Ref(t.typ, t.count, TreeOf(ty, mem, Pointee(ty, mem, t), depth - 1))
         case Plain => Data(t.typ, t.count, Load(mem, t.at, SizeOf(ty, t.typ) * t.count))
         case _ => Data(t.typ, t.count, Load(mem, t.at, PTR)))
      case _ => Node(t.typ, t.count, TreesOf(ty, mem, Flatten(ty, t), depth - 1))
  }

  function TreesOf(ty: Types, mem: Memory, ts: seq<Task>, depth: nat): (trees: seq<Tree>)
    ensures |trees| == |ts|
    decreases depth, 2, |ts|
  {
    if ts == [] then [] else TreesOf(ty, mem, ts[..|ts| - 1], depth) + [TreeOf(ty, mem, ts[|ts| - 1], depth)]
  }

  // ---- what the data is meant to be ----

  /** Every element of a struct with itself as its members' container. */
  function OwnElements(ty: Types, t: Task, n: nat): seq<Task>
    requires Known(ty, t.typ)
  {
    if n == 0 then []
    else
      var at := t.at + (n - 1) * SizeOf(ty, t.typ);
      OwnElements(ty, t, n - 1) + MemberTasks(ty.env[t.typ].members, t.typ, at, at)
  }

  function Pointers(t: Task, n: nat): seq<Task> {
    if n == 0 then [] else Pointers(t, n - 1) + [t.(at := t.at + (n - 1) * PTR, count := 1)]
  }

  /** All of the data: every pointer of a run of pointers, every element of every array of a run of arrays, and
      counts looked up in the very struct the pointer is in. */
  function WholeTree(ty: Types, mem: Memory, t: Task, depth: nat): Tree
    decreases depth, 1, 0
  {
    if depth == 0 then Cut
    else
      match KindOf(ty, t.typ)
      case Leaf => Data(t.typ, t.count, Load(mem, t.at, SizeOf(ty, t.typ) * t.count))
      case Pointer =>
        (match PtrUseOf(ty, t.typ)
         case Counted =>
           if t.count == 1 then Ref(t.typ, t.count, WholeTree(ty, mem, Pointee(ty, mem, t), depth - 1))
           else Node(t.typ, t.count, WholeTrees(ty, mem, Pointers(t, t.count), depth - 1))
         case _ => Data(t.typ, t.count, Load(mem, t.at, PTR * t.count)))
      case Array =>
        var all := t.(typ := Direct(ty, t.typ), count := t.count * ty.env[t.typ].count, post := false);
        Node(t.typ, t.count, [WholeTree(ty, mem, all, depth - 1)])
      case Struct => Node(t.typ, t.count, WholeTrees(ty, mem, OwnElements(ty, t, t.count), depth - 1))
      case _ => Node(t.typ, t.count, WholeTrees(ty, mem, Flatten(ty, t), depth - 1))
  }

  function WholeTrees(ty: Types, mem: Memory, ts: seq<Task>, depth: nat): (trees: seq<Tree>)
    ensures |trees| == |ts|
    decreases depth, 2, |ts|
  {
    if ts == [] then [] else WholeTrees(ty, mem, ts[..|ts| - 1], depth) + [WholeTree(ty, mem, ts[|ts| - 1], depth)]
  }

  /** What the loops need to walk all there is at a task whose container really is at `own`: interpreted pointers come
      one at a time; so do arrays, unless they are empty; and where a count is looked up at element 0 of a run of
      structs, it is the count of the struct the pointer is in. */
  predicate Walked(ty: Types, mem: Memory, t: Task, own: nat, depth: nat)
    decreases depth, 0
  {
    depth > 0 ==>
      match KindOf(ty, t.typ)
      case Pointer =>
        (match PtrUseOf(ty, t.typ)
         case Plain => true
         case Counted =>
           && t.count == 1
           && (depth > 1 ==>
                 && CountAt(ty, mem, t) == CountAt(ty, mem, t.(cptr := own))
                 && Walked(ty, mem, Pointee(ty, mem, t), own, depth - 1))
         case _ => t.count == 1)
      case Array =>
        depth > 1 ==>
          && (t.count == 1 || ty.env[t.typ].count == 0)
          && Walked(ty, mem, Flatten(ty, t)[0], own, depth - 1)
      case Enum => Walked(ty, mem, Flatten(ty, t)[0], own, depth - 1)
      case Struct => AllWalked(ty, mem, ElementTasks(ty, t, t.count), OwnElements(ty, t, t.count), depth - 1)
      case _ => true
  }

  /** The same for tasks as the loops make them and as they are meant. */
  predicate AllWalked(ty: Types, mem: Memory, ts: seq<Task>, own: seq<Task>, depth: nat)
    decreases depth, 1
  {
    forall i | 0 <= i < |ts| && i < |own| :: Walked(ty, mem, ts[i], own[i].cptr, depth)
  }

  // ---- pointers written as indices ----

  /** When an index comes back as the pointer it was made from, in 64 bits. The reader adds the base before it
      multiplies by the size, so the base counts once too often for each byte of the size past the first; what the
      division dropped is missing, too. */
  predicate IndexReturns(ty: Types, mem: Memory, t: Task) {
    match PtrUseOf(ty, t.typ)
    case Indexed(b) =>
      var size := SizeOf(ty, Direct(ty, t.typ));
      var p := LoadPtr(mem, t.at);
      if size == 0 then p == 0 else (b * (size - 1) - (p - b) % WORD % size) % WORD == 0
    case _ => true
  }

  predicate Returns(ty: Types, mem: Memory, t: Task) { KindOf(ty, t.typ).Pointer? ==> IndexReturns(ty, mem, t) }

  predicate AllReturn(ty: Types, mem: Memory, ts: seq<Task>) { forall i | 0 <= i < |ts| :: Returns(ty, mem, ts[i]) }
}
