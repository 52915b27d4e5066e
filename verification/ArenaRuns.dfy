/** What an arena guarantees its users over any run of pushes, pops and writes. */
module ArenaRuns {
  import opened Basics
  import opened Arena

  // ---- popping ----

  /** A position an arena can have had: inside a block, past its header. Anything below the first header pops all. */
  ghost predicate ValidMark(s: State, pos: nat) {
    exists i | 0 <= i < |s.chain| :: Holds(s.chain[i], Target(pos))
  }

  predicate Holds(b: Block, pos: nat) { b.base + HEADER <= pos <= b.base + b.pos }

  lemma {:induction false} BasesRise(bs: seq<Block>, i: nat, j: nat)
    requires ChainOk(bs) && i < j < |bs|
    ensures bs[j].base >= bs[i].base + bs[i].res
    decreases j
  {
    if i < j - 1 {
      BasesRise(bs, i, j - 1);
    }
  }

  /** One block leaves the chain. */
  function DropLast(s: State): State
    requires |s.chain| > 1
  {
    s.(chain := s.chain[..|s.chain| - 1], free := if s.recycle then [Current(s).(pos := HEADER)] + s.free else s.free)
  }

  lemma DropLastOk(s: State)
    requires Inv(s) && |s.chain| > 1
    ensures Inv(DropLast(s))
  {
    var n := |s.chain| - 1;
    var d := DropLast(s);
    var b := Current(s).(pos := HEADER);
    assert Current(s) in s.chain;
    forall a | a in d.chain ensures a in s.chain && Apart(a, b) {
      var k :| 0 <= k < n && s.chain[k] == a;
    }
    if s.recycle {
      FreeOk(s.free, b);
    }
  }

  lemma FreeOk(free: seq<Block>, b: Block)
    requires BlockOk(b) && b.pos == HEADER && AllApart(free)
    requires forall x | x in free :: BlockOk(x) && x.pos == HEADER && Apart(b, x)
    ensures AllApart([b] + free) && forall x | x in [b] + free :: BlockOk(x) && x.pos == HEADER
  {
  }

  /** A prefix of the chain, without only blocks from `big` on. */
  ghost predicate StopsIn(s: State, chain: seq<Block>, big: nat) {
    && 0 < |chain| <= |s.chain| && chain == s.chain[..|chain|] && s.chain[|chain| - 1].base < big
    && forall i | |chain| <= i < |s.chain| :: s.chain[i].base >= big
  }

  lemma {:induction false} UnchainOk(s: State, big: nat)
    requires Inv(s) && big > 0
    ensures Inv(Unchain(s, big)) && StopsIn(s, Unchain(s, big).chain, big)
    decreases |s.chain|
  {
    FirstAtZero(s);
    hide Inv;
    if Current(s).base >= big {
      DropLastOk(s);
      UnchainOk(DropLast(s), big);
      assert Unchain(s, big) == Unchain(DropLast(s), big);
      hide Unchain, DropLast;
      StopsBefore(s, Unchain(s, big).chain, big);
    }
  }

  lemma StopsBefore(s: State, chain: seq<Block>, big: nat)
    requires |s.chain| > 1 && Current(s).base >= big && StopsIn(DropLast(s), chain, big)
    ensures StopsIn(s, chain, big)
  {
  }

  lemma FirstAtZero(s: State)
    requires Inv(s)
    ensures s.chain != [] && s.chain[0].base == 0
  {
  }

  lemma RoomAbove(s: State, i: nat)
    requires Inv(s) && i < |s.chain|
    ensures s.chain[i].pos <= s.chain[i].res
            && forall j | i < j < |s.chain| :: s.chain[j].base >= s.chain[i].base + s.chain[i].res
  {
    assert s.chain[i] in s.chain;
    forall j | i < j < |s.chain| ensures s.chain[j].base >= s.chain[i].base + s.chain[i].res {
      BasesRise(s.chain, i, j);
    }
  }

  lemma StopsOnce(s: State, chain: seq<Block>, big: nat, i: nat)
    requires Inv(s) && StopsIn(s, chain, big) && i < |s.chain| && Holds(s.chain[i], big)
    ensures chain == s.chain[..i + 1]
  {
    assert s.chain[i] in s.chain;
    if i < |chain| - 1 {
      BasesRise(s.chain, i, |chain| - 1);
    }
  }

  /** The pop stops at the block that holds the mark. */
  lemma StopsAt(s: State, pos: nat, i: nat)
    requires Inv(s) && i < |s.chain| && Holds(s.chain[i], Target(pos))
    ensures Unchain(s, Target(pos)).chain == s.chain[..i + 1] && PopAllowed(s, pos)
  {
    UnchainOk(s, Target(pos));
    StopsOnce(s, Unchain(s, Target(pos)).chain, Target(pos), i);
    hide Inv, Unchain, StopsIn;
    assert Current(Unchain(s, Target(pos))) == s.chain[i];
  }

  /** What is unchained for a mark in block `i`. */
  lemma UnchainedTo(s: State, pos: nat, i: nat)
    requires Inv(s) && i < |s.chain| && Holds(s.chain[i], Target(pos))
    ensures s.chain != [] && s.chain[0].base == 0
    ensures Inv(Unchain(s, Target(pos))) && PopAllowed(s, pos)
    ensures Unchain(s, Target(pos)).chain == s.chain[..i] + [s.chain[i]]
  {
    hide *;
    FirstAtZero(s);
    TargetPositive(pos);
    StopsAt(s, pos, i);
    UnchainOk(s, Target(pos));
    assert s.chain[..i + 1] == s.chain[..i] + [s.chain[i]];
  }

  lemma TargetPositive(pos: nat)
    ensures Target(pos) > 0
  {
  }

  /** One round of the pop's loop. */
  lemma UnchainNext(s: State, big: nat)
    requires s.chain != [] && s.chain[0].base < big
    ensures
      var c := Current(s);
      Unchain(s, big) == if c.base < big then s
        else Unchain(s.(chain := s.chain[..|s.chain| - 1],
                        free := if s.recycle then [c.(pos := HEADER)] + s.free else s.free), big)
  {
  }

  lemma PopToIs(s: State, pos: nat)
    requires s.chain != [] && s.chain[0].base == 0
    ensures
      var t := Unchain(s, Target(pos));
      && Target(pos) >= Current(t).base
      && PopTo(s, pos) == SetCurrent(t, Current(t).(pos := Target(pos) - Current(t).base))
      && (PopAllowed(s, pos) <==> Target(pos) - Current(t).base <= Current(t).pos)
  {
    TargetPositive(pos);
    hide Unchain, SetCurrent, Current, Target;
  }

  lemma MarkInside(b: Block, pos: nat)
    requires Holds(b, Target(pos))
    ensures HEADER <= Target(pos) - b.base <= b.pos
  {
  }

  lemma LastOfChain(t: State, a: seq<Block>, b: Block)
    requires t.chain == a + [b]
    ensures Current(t) == b && t.chain[..|t.chain| - 1] == a
  {
  }

  /** A pop to a mark in block `i` keeps that block and those before it, and the position is then the mark. */
  lemma PopToOk(s: State, pos: nat, i: nat)
    requires Inv(s) && i < |s.chain| && Holds(s.chain[i], Target(pos))
    ensures PopAllowed(s, pos) && Inv(PopTo(s, pos))
    ensures PopTo(s, pos).chain == s.chain[..i] + [s.chain[i].(pos := Target(pos) - s.chain[i].base)]
    ensures Pos(PopTo(s, pos)) == Target(pos)
  {
    hide *;
    UnchainedTo(s, pos, i);
    PopToIs(s, pos);
    MarkInside(s.chain[i], pos);
    LastOfChain(Unchain(s, Target(pos)), s.chain[..i], s.chain[i]);
    LowerCurrent(Unchain(s, Target(pos)), Target(pos) - s.chain[i].base);
  }

  lemma LowerCurrent(t: State, pos: nat)
    requires Inv(t) && HEADER <= pos <= Current(t).pos
    ensures
      var d := SetCurrent(t, Current(t).(pos := pos));
      Inv(d) && d.chain == t.chain[..|t.chain| - 1] + [Current(t).(pos := pos)] && Pos(d) == Current(t).base + pos
  {
    CurrentOk(t);
    LowerOk(Current(t), pos);
    hide Inv, BlockOk;
    SetCurrentOk(t, Current(t).(pos := pos));
  }

  lemma LowerOk(b: Block, pos: nat)
    requires BlockOk(b) && HEADER <= pos <= b.pos
    ensures BlockOk(b.(pos := pos))
  {
  }

  lemma CurrentOk(s: State)
    requires Inv(s)
    ensures s.chain != [] && BlockOk(Current(s))
  {
    assert Current(s) in s.chain;
  }

  lemma PoppedIn(s: State, pos: nat)
    requires Inv(s) && PopAllowed(s, pos) && Inv(PopTo(s, pos))
    ensures ValidMark(s, pos)
  {
    var t := Unchain(s, Target(pos));
    UnchainOk(s, Target(pos));
    CurrentOk(PopTo(s, pos));
    hide Inv, Unchain, ValidMark;
    var n := |t.chain| - 1;
    assert Current(t) == s.chain[n];
    assert Holds(s.chain[n], Target(pos));
    Marks(s, pos, n);
  }

  lemma Marks(s: State, pos: nat, i: nat)
    requires i < |s.chain| && Holds(s.chain[i], Target(pos))
    ensures ValidMark(s, pos)
  {
  }

  /** A pop passes the assertion and leaves a sound arena exactly when its target is a position of the arena.
      A target inside the header of a block passes the assertion too, and leaves the position in the header. */
  lemma PopToExactly(s: State, pos: nat)
    requires Inv(s)
    ensures (PopAllowed(s, pos) && Inv(PopTo(s, pos))) <==> ValidMark(s, pos)
  {
    if i :| 0 <= i < |s.chain| && Holds(s.chain[i], Target(pos)) {
      PopToOk(s, pos, i);
    }
    if PopAllowed(s, pos) && Inv(PopTo(s, pos)) {
      PoppedIn(s, pos);
    }
  }

  // ---- live allocations ----

  /** An allocation: where it starts as an arena position and as an address. */
  datatype Live = Live(at: nat, size: nat, addr: nat)

  ghost predicate InBlock(b: Block, r: Live) {
    b.base + HEADER <= r.at && r.at + r.size <= b.base + b.pos && r.addr == b.addr + (r.at - b.base)
  }

  ghost predicate LiveIn(s: State, r: Live) { exists i | 0 <= i < |s.chain| :: InBlock(s.chain[i], r) }

  predicate Clear(r: Live, q: Live) { r.at + r.size <= q.at || q.at + q.size <= r.at }

  ghost predicate LiveOk(s: State, live: set<Live>) {
    && (forall r | r in live :: LiveIn(s, r) && r.at + r.size <= Pos(s))
    && (forall r, q | r in live && q in live && r != q :: Clear(r, q))
  }

  datatype Op =
    | DoPush(size: nat, align: nat, zero: bool, addr: nat)
    | DoPop(pos: nat)
    | DoAlign(align: nat)
    | DoWrite(i: nat, off: nat, v: Byte)

  datatype Run = Run(s: State, live: set<Live>)

  /** What callers and the operating system owe: covered alignments, fresh reservations, marks the arena has. */
  ghost predicate Allowed(s: State, op: Op)
    requires Inv(s)
  {
    match op
    case DoPush(size, align, _, addr) => IsAlign(align) && CanReserve(s, size, align, addr)
    case DoPop(pos) => ValidMark(s, pos)
    case DoAlign(align) => IsAlign(align)
    case DoWrite(i, off, _) => i < |s.chain| && HEADER <= off < s.chain[i].cmt && off < |s.chain[i].bytes|
  }

  ghost function Pushed(s: State, op: Op): (State, Outcome)
    requires Inv(s) && op.DoPush? && Allowed(s, op)
  {
    ChainedOk(s, op.size, op.align, op.addr);
    CurrentOk(Chained(s, op.size, op.align, op.addr));
    Push(s, op.size, op.align, op.zero, op.addr)
  }

  ghost function NewLive(s: State, op: Op): Live
    requires Inv(s) && op.DoPush? && Allowed(s, op)
  {
    var b := Current(Chained(s, op.size, op.align, op.addr));
    Live(b.base + AlignUp(b.pos, op.align), op.size, b.addr + AlignUp(b.pos, op.align))
  }

  ghost function Step(r: Run, op: Op): Run
    requires Inv(r.s) && Allowed(r.s, op)
  {
    match op
    case DoPush(_, _, _, _) =>
      var (t, o) := Pushed(r.s, op);
      Run(t, if o.At? then r.live + {NewLive(r.s, op)} else r.live)
    case DoPop(pos) =>
      Run(PopTo(r.s, pos), set l | l in r.live && l.at + l.size <= Target(pos))
    case DoAlign(align) => r.(s := AlignForward(r.s, align))
    case DoWrite(i, off, v) => r.(s := Write(r.s, i, off, v))
  }

  lemma WriteOk(s: State, i: nat, off: nat, v: Byte)
    requires Inv(s) && i < |s.chain| && HEADER <= off < s.chain[i].cmt && off < |s.chain[i].bytes|
    ensures Inv(Write(s, i, off, v))
  {
    var d := Write(s, i, off, v);
    var b := d.chain[i];
    assert s.chain[i] in s.chain;
    forall a | a in d.chain ensures BlockOk(a) && forall x | x in s.free :: Apart(a, x) {
      if a != b {
        assert a in s.chain;
      }
    }
  }

  lemma AlignOk(s: State, align: nat)
    requires Inv(s) && IsAlign(align)
    ensures Inv(AlignForward(s, align)) && Pos(AlignForward(s, align)) >= Pos(s)
  {
    hide AlignUp;
    CurrentOk(s);
    AlignAbove(Current(s).pos, align);
    AlignBelow(Current(s).pos, Current(s).cmt, align);
    SetCurrentOk(s, Current(s).(pos := AlignUp(Current(s).pos, align)));
  }

  /** A push succeeds unless the arena may not chain and the block is full; the size to zero never wraps. What
      it returns is aligned, past the block's header and inside its committed bytes, and zero if asked for. */
  lemma PushOk(s: State, op: Op)
    requires Inv(s) && op.DoPush? && Allowed(s, op)
    ensures
      var (t, o) := Pushed(s, op);
      && Inv(t) && o != Wild
      && (o.At? <==> s.grows || Fits(Current(s), op.size, op.align))
      && (o.At? ==>
            && var b := Current(t);
               o.addr == NewLive(s, op).addr && o.addr % op.align == 0
               && InBlock(b, NewLive(s, op)) && b.addr + HEADER <= o.addr
                  && o.addr + op.size <= b.addr + b.cmt <= b.addr + |b.bytes|
               && Pos(t) == NewLive(s, op).at + op.size && Pos(s) <= NewLive(s, op).at
               && (op.zero ==> forall k | o.addr - b.addr <= k < o.addr - b.addr + op.size :: b.bytes[k] == 0))
  {
    hide AlignUp;
    var u := Chained(s, op.size, op.align, op.addr);
    ChainedOk(s, op.size, op.align, op.addr);
    CurrentOk(s);
    CurrentOk(u);
    var b := Current(u);
    CarveOk(b, op.size, op.align, op.zero);
    AlignAbove(b.pos, op.align);
    AlignedSum(b.addr, AlignUp(b.pos, op.align), op.align);
    SetCurrentOk(u, Carve(b, op.size, op.align, op.zero).0);
  }

  // ---- what a step keeps ----

  predicate Same(a: Block, b: Block) { b.addr == a.addr && b.base == a.base && b.pos == a.pos && b.res == a.res }

  /** `b` is `a` with more in its current block and more blocks after it. */
  ghost predicate Extends(a: State, b: State) {
    && 0 < |a.chain| <= |b.chain|
    && (forall i | 0 <= i < |a.chain| - 1 :: Same(a.chain[i], b.chain[i]))
    && var n := |a.chain| - 1;
       Same(a.chain[n], b.chain[n].(pos := a.chain[n].pos)) && b.chain[n].pos >= a.chain[n].pos
  }

  lemma ExtendsOn(a: State, b: State, c: State)
    requires Extends(a, b) && Extends(b, c)
    ensures Extends(a, c)
  {
  }

  lemma ExtendsPos(a: State, b: State)
    requires Inv(a) && Inv(b) && Extends(a, b)
    ensures Pos(a) <= Pos(b)
  {
    var n := |a.chain| - 1;
    CurrentOk(a);
    CurrentOk(b);
    RoomBelow(b, n);
  }

  /** No block before the current one reaches past the current block's base. */
  lemma RoomBelow(s: State, i: nat)
    requires Inv(s) && i < |s.chain|
    ensures i < |s.chain| - 1 ==> s.chain[i].base + s.chain[i].pos <= s.chain[|s.chain| - 1].base
  {
    assert s.chain[i] in s.chain;
    if i < |s.chain| - 1 {
      BasesRise(s.chain, i, |s.chain| - 1);
    }
  }

  lemma PushExtends(s: State, op: Op)
    requires Inv(s) && op.DoPush? && Allowed(s, op)
    ensures Extends(s, Pushed(s, op).0)
  {
    hide AlignUp;
    var u := Chained(s, op.size, op.align, op.addr);
    ChainedOk(s, op.size, op.align, op.addr);
    CurrentOk(u);
    CarveOk(Current(u), op.size, op.align, op.zero);
    hide Inv, Chained, Carve, BlockOk;
  }

  lemma AlignExtends(s: State, align: nat)
    requires Inv(s) && IsAlign(align)
    ensures Extends(s, AlignForward(s, align))
  {
    hide AlignUp;
    CurrentOk(s);
    AlignAbove(Current(s).pos, align);
  }

  lemma WriteExtends(s: State, i: nat, off: nat, v: Byte)
    requires s.chain != [] && i < |s.chain| && off < |s.chain[i].bytes|
    ensures Extends(s, Write(s, i, off, v))
  {
  }

  /** A mark past what `a` had lies in `a`'s last block or a later one. */
  lemma HolderAbove(a: State, s: State, i: nat, to: nat)
    requires Inv(a) && Inv(s) && Extends(a, s) && to >= Pos(a) && i < |s.chain| && Holds(s.chain[i], to)
    ensures i >= |a.chain| - 1
  {
    var n := |a.chain| - 1;
    if i < n {
      BasesRise(s.chain, i, n);
      RoomAbove(s, i);
      CurrentOk(a);
    }
  }

  /** Popping to a mark at or past `Pos(a)` leaves what `a` had. */
  lemma PopExtends(a: State, s: State, pos: nat)
    requires Inv(a) && Inv(s) && Extends(a, s) && ValidMark(s, pos) && Target(pos) >= Pos(a)
    ensures Extends(a, PopTo(s, pos))
  {
    var i :| 0 <= i < |s.chain| && Holds(s.chain[i], Target(pos));
    PopToOk(s, pos, i);
    HolderAbove(a, s, i, Target(pos));
    hide Inv, PopTo;
  }

  lemma StepExtends(a: State, r: Run, op: Op)
    requires Inv(a) && Inv(r.s) && Extends(a, r.s) && Allowed(r.s, op) && (op.DoPop? ==> Target(op.pos) >= Pos(a))
    ensures Extends(a, Step(r, op).s)
  {
    hide AlignUp;
    hide Inv, Extends, PopTo, AlignForward, Write, Pushed;
    CurrentOk(r.s);
    match op {
      case DoPush(_, _, _, _) => PushExtends(r.s, op); ExtendsOn(a, r.s, Step(r, op).s);
      case DoPop(pos) => PopExtends(a, r.s, pos);
      case DoAlign(align) => AlignExtends(r.s, align); ExtendsOn(a, r.s, Step(r, op).s);
      case DoWrite(i, off, v) => WriteExtends(r.s, i, off, v); ExtendsOn(a, r.s, Step(r, op).s);
    }
  }

  lemma ExtendsLive(a: State, b: State, r: Live)
    requires Extends(a, b) && LiveIn(a, r)
    ensures LiveIn(b, r)
  {
    var i :| 0 <= i < |a.chain| && InBlock(a.chain[i], r);
    assert InBlock(b.chain[i], r);
  }

  lemma ExtendsLiveOk(a: State, b: State, live: set<Live>)
    requires Inv(a) && Inv(b) && Extends(a, b) && LiveOk(a, live)
    ensures LiveOk(b, live)
  {
    ExtendsPos(a, b);
    forall r | r in live ensures LiveIn(b, r) {
      ExtendsLive(a, b, r);
    }
  }

  lemma PushLive(r: Run, op: Op)
    requires Inv(r.s) && LiveOk(r.s, r.live) && op.DoPush? && Allowed(r.s, op)
    ensures LiveOk(Step(r, op).s, Step(r, op).live)
  {
    hide AlignUp;
    var (t, o) := Pushed(r.s, op);
    PushOk(r.s, op);
    PushExtends(r.s, op);
    CurrentOk(t);
    hide Inv, Extends, Pushed, Allowed, NewLive, BlockOk;
    ExtendsLiveOk(r.s, t, r.live);
    if o.At? {
      assert InBlock(t.chain[|t.chain| - 1], NewLive(r.s, op));
    }
  }

  lemma PoppedLive(s: State, d: State, i: nat, big: nat, l: Live)
    requires Inv(s) && i < |s.chain| && Holds(s.chain[i], big) && LiveIn(s, l) && l.at + l.size <= big
    requires d.chain == s.chain[..i] + [s.chain[i].(pos := big - s.chain[i].base)]
    ensures LiveIn(d, l)
  {
    var k :| 0 <= k < |s.chain| && InBlock(s.chain[k], l);
    RoomAbove(s, i);
    hide Inv;
    assert k <= i;
    assert InBlock(d.chain[k], l);
  }

  lemma PopLive(s: State, live: set<Live>, pos: nat)
    requires Inv(s) && LiveOk(s, live) && ValidMark(s, pos)
    ensures LiveOk(PopTo(s, pos), set l | l in live && l.at + l.size <= Target(pos))
  {
    var i :| 0 <= i < |s.chain| && Holds(s.chain[i], Target(pos));
    PopToOk(s, pos, i);
    var d := PopTo(s, pos);
    hide Inv, PopTo, LiveIn, Holds;
    forall l | l in live && l.at + l.size <= Target(pos) ensures LiveIn(d, l) {
      PoppedLive(s, d, i, Target(pos), l);
    }
  }

  lemma StepOk(r: Run, op: Op)
    requires Inv(r.s) && LiveOk(r.s, r.live) && Allowed(r.s, op)
    ensures Inv(Step(r, op).s) && LiveOk(Step(r, op).s, Step(r, op).live)
  {
    hide AlignUp;
    hide Inv, LiveOk, PopTo, AlignForward, Write, Pushed, ValidMark;
    CurrentOk(r.s);
    match op {
      case DoPush(_, _, _, _) => PushOk(r.s, op); PushLive(r, op);
      case DoPop(pos) => PopKeeps(r.s, pos); PopLive(r.s, r.live, pos);
      case DoAlign(align) => AlignOk(r.s, align); AlignExtends(r.s, align); ExtendsLiveOk(r.s, Step(r, op).s, r.live);
      case DoWrite(i, off, v) =>
        WriteOk(r.s, i, off, v);
        WriteExtends(r.s, i, off, v);
        ExtendsLiveOk(r.s, Step(r, op).s, r.live);
    }
  }

  lemma PopKeeps(s: State, pos: nat)
    requires Inv(s) && ValidMark(s, pos)
    ensures Inv(PopTo(s, pos))
  {
    var i :| 0 <= i < |s.chain| && Holds(s.chain[i], Target(pos));
    PopToOk(s, pos, i);
  }

  // ---- whole runs ----

  ghost predicate Init(s: State) {
    && PageOk(s.page) && s.free == []
    && exists addr: nat, resSize: nat, cmtSize: nat ::
         && s.chain == [NewBlock(addr, resSize, cmtSize, 0, s.page)]
         && addr % HEADER == 0 && 0 < cmtSize <= resSize && cmtSize % HEADER == 0
  }

  lemma InitOk(s: State)
    requires Init(s)
    ensures Inv(s)
  {
    var addr: nat, resSize: nat, cmtSize: nat :|
      && s.chain == [NewBlock(addr, resSize, cmtSize, 0, s.page)]
      && addr % HEADER == 0 && 0 < cmtSize <= resSize && cmtSize % HEADER == 0;
    PageFacts(resSize, s.page);
    PageFacts(cmtSize, s.page);
    PageMono(cmtSize, resSize, s.page);
  }

  /** A run in which no pop goes below `floor`. */
  ghost predicate Runs(r: Run, ops: seq<Op>, d: Run, floor: nat)
    decreases |ops|
  {
    if ops == [] then d == r
    else
      && Inv(r.s) && Allowed(r.s, ops[0]) && (ops[0].DoPop? ==> Target(ops[0].pos) >= floor)
      && Runs(Step(r, ops[0]), ops[1..], d, floor)
  }

  lemma {:induction false} RunKeeps(r: Run, ops: seq<Op>, d: Run, floor: nat)
    requires Inv(r.s) && LiveOk(r.s, r.live) && Runs(r, ops, d, floor)
    ensures Inv(d.s) && LiveOk(d.s, d.live)
    decreases |ops|
  {
    hide AlignUp;
    hide Inv, LiveOk, Allowed, Step;
    if ops != [] {
      StepOk(r, ops[0]);
      RunKeeps(Step(r, ops[0]), ops[1..], d, floor);
    }
  }

  ghost predicate InCommitted(s: State, r: Live) {
    exists b :: b in s.chain && b.addr + HEADER <= r.addr && r.addr + r.size <= b.addr + b.pos <= b.addr + b.cmt
  }

  lemma LiveCommitted(s: State, r: Live)
    requires Inv(s) && LiveIn(s, r)
    ensures InCommitted(s, r)
  {
    var i :| 0 <= i < |s.chain| && InBlock(s.chain[i], r);
    assert s.chain[i] in s.chain;
  }

  predicate AddrApart(r: Live, q: Live) { r.addr + r.size <= q.addr || q.addr + q.size <= r.addr }

  lemma LiveApart(s: State, r: Live, q: Live, i: nat, j: nat)
    requires Inv(s) && i < |s.chain| && j < |s.chain| && InBlock(s.chain[i], r) && InBlock(s.chain[j], q) && Clear(r, q)
    ensures AddrApart(r, q)
  {
    assert BlockOk(s.chain[i]) && BlockOk(s.chain[j]) by {
      assert s.chain[i] in s.chain && s.chain[j] in s.chain;
    }
    assert i < j ==> Apart(s.chain[i], s.chain[j]);
    assert j < i ==> Apart(s.chain[j], s.chain[i]);
    hide Inv;
  }

  /** After any run from a fresh arena, the live allocations lie in committed memory of chained blocks, past
      their headers, and no two of them share an address. */
  lemma AllocationsAreApart(s: State, ops: seq<Op>, d: Run, r: Live, q: Live)
    requires Init(s) && Runs(Run(s, {}), ops, d, 0) && r in d.live && q in d.live && r != q
    ensures AddrApart(r, q) && InCommitted(d.s, r)
  {
    hide AlignUp;
    InitOk(s);
    RunKeeps(Run(s, {}), ops, d, 0);
    hide Inv, Runs, Init, InCommitted, InBlock;
    var i :| 0 <= i < |d.s.chain| && InBlock(d.s.chain[i], r);
    var j :| 0 <= j < |d.s.chain| && InBlock(d.s.chain[j], q);
    LiveApart(d.s, r, q, i, j);
    LiveCommitted(d.s, r);
  }

  /** No push, pop or alignment changes a byte below the position of a block that stays chained. */
  lemma BytesStay(r: Run, op: Op, i: nat, k: nat)
    requires Inv(r.s) && Allowed(r.s, op) && !op.DoWrite?
    requires i < |r.s.chain| && i < |Step(r, op).s.chain| && k < r.s.chain[i].pos && k < Step(r, op).s.chain[i].pos
    ensures k < |r.s.chain[i].bytes| == |Step(r, op).s.chain[i].bytes|
    ensures Step(r, op).s.chain[i].bytes[k] == r.s.chain[i].bytes[k]
  {
    hide AlignUp;
    assert BlockOk(r.s.chain[i]) by {
      assert r.s.chain[i] in r.s.chain;
    }
    match op {
      case DoPush(_, _, _, _) => PushBytes(r.s, op, i);
      case DoPop(pos) => PopBytes(r.s, pos, i);
      case DoAlign(_) =>
    }
  }

  lemma PushBytes(s: State, op: Op, i: nat)
    requires Inv(s) && op.DoPush? && Allowed(s, op) && i < |s.chain|
    ensures
      var t := Pushed(s, op).0;
      && i < |t.chain| && |t.chain[i].bytes| == |s.chain[i].bytes| >= s.chain[i].pos
      && forall k | 0 <= k < s.chain[i].pos :: t.chain[i].bytes[k] == s.chain[i].bytes[k]
  {
    hide AlignUp;
    assert BlockOk(s.chain[i]) by {
      assert s.chain[i] in s.chain;
    }
    ChainedOk(s, op.size, op.align, op.addr);
    var u := Chained(s, op.size, op.align, op.addr);
    CurrentOk(u);
    CarveOk(Current(u), op.size, op.align, op.zero);
    hide Inv, Chained, Carve;
  }

  lemma PopBytes(s: State, pos: nat, i: nat)
    requires Inv(s) && ValidMark(s, pos) && i < |s.chain|
    ensures i < |PopTo(s, pos).chain| ==> PopTo(s, pos).chain[i].bytes == s.chain[i].bytes
  {
    var j :| 0 <= j < |s.chain| && Holds(s.chain[j], Target(pos));
    PopToOk(s, pos, j);
    hide Inv, PopTo;
  }

  /** What the run of Restores has kept so far: the old allocations, and nothing new below the mark. */
  ghost predicate Above(a: Run, r: Run) {
    && Extends(a.s, r.s) && a.live <= r.live
    && a.s.chain != [] && forall l | l in r.live :: l in a.live || l.at >= Pos(a.s)
  }

  lemma StepAbove(a: Run, r: Run, op: Op)
    requires Inv(a.s) && LiveOk(a.s, a.live) && Inv(r.s) && Above(a, r) && Allowed(r.s, op)
    requires op.DoPop? ==> Target(op.pos) >= Pos(a.s)
    ensures Above(a, Step(r, op))
  {
    hide AlignUp;
    StepExtends(a.s, r, op);
    ExtendsPos(a.s, r.s);
    if op.DoPush? {
      PushOk(r.s, op);
    }
    hide Inv, Extends, Pushed, PopTo, Allowed, NewLive;
  }

  lemma {:induction false} RunAbove(a: Run, r: Run, ops: seq<Op>, d: Run)
    requires Inv(a.s) && LiveOk(a.s, a.live) && Inv(r.s) && LiveOk(r.s, r.live) && Above(a, r)
             && Runs(r, ops, d, Pos(a.s))
    ensures Above(a, d) && Inv(d.s)
    decreases |ops|
  {
    hide AlignUp;
    hide Inv, LiveOk, Allowed, Step, Above, Pos;
    if ops != [] {
      StepAbove(a, r, ops[0]);
      StepOk(r, ops[0]);
      RunAbove(a, Step(r, ops[0]), ops[1..], d);
    }
  }

  /** The blocks and positions of `a`, exactly. */
  ghost predicate SameChain(a: State, d: State) {
    |d.chain| == |a.chain| && forall i | 0 <= i < |a.chain| :: Same(a.chain[i], d.chain[i])
  }

  lemma PopToMark(a: State, s: State)
    requires Inv(a) && Inv(s) && Extends(a, s)
    ensures ValidMark(s, Pos(a)) && PopAllowed(s, Pos(a)) && SameChain(a, PopTo(s, Pos(a)))
            && Pos(PopTo(s, Pos(a))) == Pos(a)
  {
    CurrentOk(a);
    var n := |a.chain| - 1;
    assert Holds(s.chain[n], Target(Pos(a)));
    Marks(s, Pos(a), n);
    PopToOk(s, Pos(a), n);
    hide Inv, PopTo, ValidMark;
  }

  /** Popping to a position read earlier, after any run that stayed above it, brings back exactly the blocks and
      the position of that moment; what was live then still is, and what came later is gone, but for empty
      allocations at the very position. */
  lemma PopRestores(a: Run, ops: seq<Op>, d: Run)
    requires Inv(a.s) && LiveOk(a.s, a.live) && Runs(a, ops, d, Pos(a.s))
    ensures Inv(d.s) && ValidMark(d.s, Pos(a.s)) && PopAllowed(d.s, Pos(a.s))
    ensures
      var r := Step(d, DoPop(Pos(a.s)));
      && SameChain(a.s, r.s) && Pos(r.s) == Pos(a.s)
      && a.live <= r.live && forall l | l in r.live :: l in a.live || l.size == 0
  {
    hide AlignUp;
    CurrentOk(a.s);
    assert Above(a, a);
    RunAbove(a, a, ops, d);
    PopToMark(a.s, d.s);
    hide Inv, PopTo, Runs, ValidMark, Extends, SameChain;
  }

  // ---- where the zeroing goes wrong ----

  /** With a commit size that is not a multiple of the alignment the committed end is not aligned, and a zeroed
      push that aligns past it computes a size below zero (lines 141-146). */
  lemma UnalignedCommit()
    ensures
      var b := NewBlock(0, 65536, 5000, 0, 4096);
      var (b1, o1) := Carve(b, 8065, 1, false);
      var (b2, o2) := Carve(b1, 1807, 1, false);
      o1.At? && o2.At? && b2.cmt == b2.pos == 10000 && b2.cmtSize > 0 && Carve(b2, 8, 128, true).1 == Wild
  {
    var b := NewBlock(0, 65536, 5000, 0, 4096);
    assert b.cmt == 8192 && b.pos == 128 && b.res == 65536;
    assert AlignUp(128, 1) == 128 && Committed(b, 8193) == 10000;
    var b1 := Carve(b, 8065, 1, false).0;
    assert b1 == b.(cmt := 10000, pos := 8193);
    assert AlignUp(8193, 1) == 8193;
    var b2 := Carve(b1, 1807, 1, false).0;
    assert b2 == b.(cmt := 10000, pos := 10000);
    assert AlignUp(10000, 128) == 10112;
  }
}
