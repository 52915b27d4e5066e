/** Which commit sizes keep the size to zero from wrapping: those that are multiples of every alignment in use. */
module ArenaWild {
  import opened Basics
  import opened Arena
  import opened ArenaRuns

  // ---- arenas whose commits end at multiples of the largest alignment ----

  function Stop(k: nat, cmtSize: nat): nat { k * cmtSize }

  /** Between a new block's committed bytes and its end, no multiple of the commit size is odd. */
  ghost predicate SizesEven(resSize: nat, cmtSize: nat, page: nat, unit: nat)
    requires page > 0 && unit > 0
  {
    forall k: nat | AlignUp(cmtSize, page) < Stop(k, cmtSize) < AlignUp(resSize, page) :: Stop(k, cmtSize) % unit == 0
  }

  ghost predicate BlockEven(b: Block, page: nat, unit: nat) {
    && unit > 0 && page > 0 && 0 < b.cmtSize <= b.resSize
    && b.pos <= b.cmt <= b.res && HEADER <= b.cmt && b.cmt % unit == 0 && b.res % unit == 0
    && AlignUp(b.cmtSize, page) <= b.cmt && b.res == AlignUp(b.resSize, page)
    && SizesEven(b.resSize, b.cmtSize, page, unit)
  }

  ghost predicate Even(s: State, unit: nat) {
    && IsAlign(unit) && PageOk(s.page) && s.chain != [] && s.chain[0].base == 0
    && (forall b | b in s.chain :: BlockEven(b, s.page, unit)) && (forall b | b in s.free :: BlockEven(b, s.page, unit))
  }

  /** An operation with alignments up to `unit`, and pops that pass their assertion. */
  ghost predicate Can(s: State, op: Op, unit: nat) {
    match op
    case DoPush(_, align, _, _) => IsAlign(align) && align <= unit
    case DoPop(pos) => s.chain != [] && s.chain[0].base == 0 && PopAllowed(s, pos)
    case DoAlign(align) => IsAlign(align) && align <= unit
    case DoWrite(i, off, _) => i < |s.chain| && off < |s.chain[i].bytes|
  }

  /** A multiple of an alignment is one of every smaller alignment. */
  lemma Finer(x: nat, unit: nat, a: nat) returns (q: nat)
    requires IsAlign(unit) && IsAlign(a) && a <= unit && x % unit == 0
    ensures x == q * a
  {
    var m := unit / a;
    assert unit == m * a;
    DivBounds(x, unit);
    q := x / unit * m;
    Regroup(x / unit, m, a);
  }

  lemma Regroup(x: nat, m: nat, a: nat)
    ensures x * (m * a) == x * m * a
  {
  }

  lemma AlignWithin(p: nat, c: nat, unit: nat, a: nat)
    requires IsAlign(unit) && IsAlign(a) && a <= unit && c % unit == 0 && p <= c
    ensures AlignUp(p, a) <= c
  {
    var q := Finer(c, unit, a);
    AlignLeast(p, q, a);
  }

  /** Multiples of multiples. */
  lemma Multiples(k: nat, x: nat, unit: nat)
    requires unit > 0 && x % unit == 0
    ensures k * x % unit == 0
  {
    DivBounds(x, unit);
    Regroup(k, x / unit, unit);
    MulModZero(k * (x / unit), unit);
  }

  lemma PageIsEven(x: nat, page: nat, unit: nat)
    requires PageOk(page) && IsAlign(unit)
    ensures AlignUp(x, page) % unit == 0 && x <= AlignUp(x, page) && (x > 0 ==> HEADER <= AlignUp(x, page))
  {
    PageFacts(x, page);
    var q := MultipleOf(AlignUp(x, page), unit);
    hide AlignUp;
  }

  lemma CommittedEven(b: Block, end: nat, page: nat, unit: nat)
    requires BlockEven(b, page, unit)
    ensures b.cmt <= Committed(b, end) <= b.res && Committed(b, end) % unit == 0
    ensures end <= b.res ==> end <= Committed(b, end)
  {
    if b.cmt < end {
      var k := RoundsTo(end, b.cmtSize);
      assert Stop(k, b.cmtSize) >= end;
      hide AlignUp;
    }
  }

  /** Rounding up to a multiple of the commit size. */
  lemma RoundsTo(end: nat, cmtSize: nat) returns (k: nat)
    requires cmtSize > 0
    ensures Stop(k, cmtSize) == end + cmtSize - 1 - (end + cmtSize - 1) % cmtSize >= end
  {
    var y := end + cmtSize - 1;
    DivBounds(y, cmtSize);
    k := y / cmtSize;
  }

  lemma CarveEven(b: Block, size: nat, align: nat, zero: bool, page: nat, unit: nat)
    requires BlockEven(b, page, unit) && IsAlign(unit) && IsAlign(align) && align <= unit
    ensures Carve(b, size, align, zero).1 != Wild && BlockEven(Carve(b, size, align, zero).0, page, unit)
    ensures Carve(b, size, align, zero).0.base == b.base
  {
    AlignWithin(b.pos, b.cmt, unit, align);
    AlignAbove(b.pos, align);
    CommittedEven(b, AlignUp(b.pos, align) + size, page, unit);
    hide AlignUp, Committed, IsAlign, SizesEven;
  }

  lemma NewEven(addr: nat, resSize: nat, cmtSize: nat, base: nat, page: nat, unit: nat)
    requires PageOk(page) && IsAlign(unit) && 0 < cmtSize <= resSize && SizesEven(resSize, cmtSize, page, unit)
    ensures BlockEven(NewBlock(addr, resSize, cmtSize, base, page), page, unit)
  {
    PageIsEven(cmtSize, page, unit);
    PageIsEven(resSize, page, unit);
    PageMono(cmtSize, resSize, page);
    hide AlignUp, SizesEven;
  }

  lemma WholeEven(size: nat, page: nat, unit: nat)
    requires page > 0 && unit > 0
    ensures SizesEven(size, size, page, unit)
  {
  }

  lemma GrownEven(c: Block, size: nat, align: nat, addr: nat, page: nat, unit: nat)
    requires BlockEven(c, page, unit) && IsAlign(align) && PageOk(page) && IsAlign(unit)
    ensures BlockEven(GrownBlock(c, size, align, addr, page), page, unit)
  {
    AlignAbove(size + HEADER, align);
    var big := size + HEADER > c.resSize;
    WholeEven(BlockSize(size, align, c.resSize), page, unit);
    hide AlignUp, NewBlock, SizesEven;
    NewEven(addr, BlockSize(size, align, c.resSize), if big then BlockSize(size, align, c.resSize) else c.cmtSize,
            c.base + c.res, page, unit);
  }

  lemma ChainedEven(s: State, size: nat, align: nat, addr: nat, unit: nat)
    requires Even(s, unit) && IsAlign(align)
    ensures Even(Chained(s, size, align, addr), unit)
  {
    assert Current(s) in s.chain;
    GrownEven(Current(s), size, align, addr, s.page, unit);
    var found := FindFree(s.free, size, align);
    hide GrownBlock, Fits;
    if found.Some? {
      FreeFits(s.free, size, align);
      assert s.free[found.value] in s.free;
    }
    hide FindFree;
  }

  lemma SetEven(s: State, b: Block, unit: nat)
    requires Even(s, unit) && BlockEven(b, s.page, unit) && b.base == Current(s).base
    ensures Even(SetCurrent(s, b), unit)
  {
    var t := SetCurrent(s, b);
    forall x | x in t.chain ensures BlockEven(x, s.page, unit) {
      assert x == b || x in s.chain;
    }
  }

  lemma CurrentEven(s: State, unit: nat)
    requires Even(s, unit)
    ensures BlockEven(Current(s), s.page, unit)
  {
    assert Current(s) in s.chain;
  }

  /** A push wraps nothing. */
  lemma PushEven(s: State, op: Op, unit: nat)
    requires Even(s, unit) && op.DoPush? && Can(s, op, unit)
    ensures Current(Chained(s, op.size, op.align, op.addr)).cmtSize > 0
    ensures
      var (t, o) := Push(s, op.size, op.align, op.zero, op.addr);
      o != Wild && Even(t, unit)
  {
    ChainedEven(s, op.size, op.align, op.addr, unit);
    var t := Chained(s, op.size, op.align, op.addr);
    CurrentEven(t, unit);
    CarveEven(Current(t), op.size, op.align, op.zero, t.page, unit);
    hide Even, Carve, Chained;
    EvenIsThere(t, unit);
    SetEven(t, Carve(Current(t), op.size, op.align, op.zero).0, unit);
  }

  lemma EvenIsThere(s: State, unit: nat)
    requires Even(s, unit)
    ensures s.chain != [] && s.page > 0 && s.chain[0].base == 0
  {
  }

  lemma {:induction false} UnchainEven(s: State, big: nat, unit: nat)
    requires Even(s, unit) && s.chain[0].base < big
    ensures Even(Unchain(s, big), unit)
    decreases |s.chain|
  {
    var c := Current(s);
    if c.base >= big {
      var rest := s.(chain := s.chain[..|s.chain| - 1],
                     free := if s.recycle then [c.(pos := HEADER)] + s.free else s.free);
      assert c in s.chain;
      assert forall b | b in rest.chain :: b in s.chain;
      UnchainEven(rest, big, unit);
    }
  }

  lemma PopEven(s: State, pos: nat, unit: nat)
    requires Even(s, unit) && PopAllowed(s, pos)
    ensures Even(PopTo(s, pos), unit)
  {
    UnchainEven(s, Target(pos), unit);
    var t := Unchain(s, Target(pos));
    PopToIs(s, pos);
    CurrentEven(t, unit);
    assert Target(pos) - Current(t).base <= Current(t).pos;
    hide Even, Unchain, PopTo, PopAllowed;
    SetEven(t, Current(t).(pos := Target(pos) - Current(t).base), unit);
  }

  lemma AlignEven(s: State, align: nat, unit: nat)
    requires Even(s, unit) && IsAlign(align) && align <= unit
    ensures Even(AlignForward(s, align), unit)
  {
    CurrentEven(s, unit);
    AlignWithin(Current(s).pos, Current(s).cmt, unit, align);
    hide AlignUp;
    SetEven(s, Current(s).(pos := AlignUp(Current(s).pos, align)), unit);
  }

  lemma WriteEven(s: State, i: nat, off: nat, v: Byte, unit: nat)
    requires Even(s, unit) && i < |s.chain| && off < |s.chain[i].bytes|
    ensures Even(Write(s, i, off, v), unit)
  {
    var t := Write(s, i, off, v);
    assert s.chain[i] in s.chain;
    forall x | x in t.chain ensures BlockEven(x, s.page, unit) {
      assert x == t.chain[i] || x in s.chain;
    }
  }

  // ---- runs ----

  /** The arena after an operation; what a push returned is not looked at. */
  ghost function After(s: State, op: Op): State {
    match op
    case DoPush(size, align, zero, addr) =>
      if s.chain != [] && align > 0 && s.page > 0 && Current(Chained(s, size, align, addr)).cmtSize > 0
      then Push(s, size, align, zero, addr).0 else s
    case DoPop(pos) => if s.chain != [] && s.chain[0].base == 0 then PopTo(s, pos) else s
    case DoAlign(align) => if s.chain != [] && align > 0 then AlignForward(s, align) else s
    case DoWrite(i, off, v) => if i < |s.chain| && off < |s.chain[i].bytes| then Write(s, i, off, v) else s
  }

  ghost predicate Reaches(s: State, ops: seq<Op>, t: State, unit: nat)
    decreases |ops|
  {
    if ops == [] then t == s else Can(s, ops[0], unit) && Reaches(After(s, ops[0]), ops[1..], t, unit)
  }

  lemma StepEven(s: State, op: Op, unit: nat)
    requires Even(s, unit) && Can(s, op, unit)
    ensures Even(After(s, op), unit)
  {
    match op {
      case DoPush(_, _, _, _) => PushEven(s, op, unit);
      case DoPop(pos) => PopEven(s, pos, unit);
      case DoAlign(align) => AlignEven(s, align, unit);
      case DoWrite(i, off, v) => WriteEven(s, i, off, v, unit);
    }
  }

  lemma {:induction false} RunEven(s: State, ops: seq<Op>, t: State, unit: nat)
    requires Even(s, unit) && Reaches(s, ops, t, unit)
    ensures Even(t, unit)
    decreases |ops|
  {
    hide Even, Can, After;
    if ops != [] {
      StepEven(s, ops[0], unit);
      RunEven(After(s, ops[0]), ops[1..], t, unit);
    }
  }

  /** A new arena. */
  function Fresh(page: nat, recycle: bool, grows: bool, resSize: nat, cmtSize: nat): State
    requires page > 0
  {
    State(page, recycle, grows, [NewBlock(0, resSize, cmtSize, 0, page)], [])
  }

  /** In state `t` a push wraps the size to zero. */
  ghost predicate GoesWild(t: State, op: Op, unit: nat) {
    && op.DoPush? && Can(t, op, unit) && t.chain != [] && t.page > 0
    && Current(Chained(t, op.size, op.align, op.addr)).cmtSize > 0
    && Push(t, op.size, op.align, op.zero, op.addr).1 == Wild
  }

  /** Some run from a new arena, with alignments up to `unit`, comes to such a push. */
  ghost predicate CanGoWild(page: nat, recycle: bool, grows: bool, resSize: nat, cmtSize: nat, unit: nat)
    requires page > 0
  {
    exists ops: seq<Op>, t: State, op: Op ::
      Reaches(Fresh(page, recycle, grows, resSize, cmtSize), ops, t, unit) && GoesWild(t, op, unit)
  }

  lemma NeverWild(page: nat, recycle: bool, grows: bool, resSize: nat, cmtSize: nat, unit: nat)
    requires PageOk(page) && IsAlign(unit) && 0 < cmtSize <= resSize && SizesEven(resSize, cmtSize, page, unit)
    ensures !CanGoWild(page, recycle, grows, resSize, cmtSize, unit)
  {
    var s := Fresh(page, recycle, grows, resSize, cmtSize);
    FreshEven(page, recycle, grows, resSize, cmtSize, unit);
    hide Even, Fresh;
    forall ops: seq<Op>, t: State, op: Op ensures !(Reaches(s, ops, t, unit) && GoesWild(t, op, unit)) {
      NotWild(s, ops, t, op, unit);
    }
  }

  lemma FreshEven(page: nat, recycle: bool, grows: bool, resSize: nat, cmtSize: nat, unit: nat)
    requires PageOk(page) && IsAlign(unit) && 0 < cmtSize <= resSize && SizesEven(resSize, cmtSize, page, unit)
    ensures Even(Fresh(page, recycle, grows, resSize, cmtSize), unit)
  {
    NewEven(0, resSize, cmtSize, 0, page, unit);
    hide BlockEven, NewBlock, SizesEven;
    FirstBase(resSize, cmtSize, page);
  }

  lemma FirstBase(resSize: nat, cmtSize: nat, page: nat)
    requires page > 0
    ensures NewBlock(0, resSize, cmtSize, 0, page).base == 0
  {
  }

  lemma NotWild(s: State, ops: seq<Op>, t: State, op: Op, unit: nat)
    requires Even(s, unit)
    ensures !(Reaches(s, ops, t, unit) && GoesWild(t, op, unit))
  {
    hide Even, Reaches;
    if Reaches(s, ops, t, unit) && GoesWild(t, op, unit) {
      RunEven(s, ops, t, unit);
      PushEven(t, op, unit);
    }
  }

  // ---- a commit size that is no multiple ----

  lemma NextMultiple(m: nat, c: nat)
    ensures (m + 1) * c == m * c + c
  {
  }

  lemma SumRemainder(x: nat, y: nat, unit: nat)
    requires unit > 0 && x % unit == 0 && y % unit != 0
    ensures (x + y) % unit != 0
  {
    DivBounds(x, unit);
    DivBounds(x + y, unit);
    if (x + y) % unit == 0 {
      Less(x / unit, (x + y) / unit, unit, y);
      MulModZero((x + y) / unit - x / unit, unit);
    }
  }

  lemma Less(a: nat, b: nat, unit: nat, y: nat)
    requires unit > 0 && b * unit == a * unit + y
    ensures b >= a && y == (b - a) * unit
  {
    NextMultiple(b, unit);
    if b < a {
      MulMono(b + 1, a, unit);
    } else {
      Split(b - a, a, unit);
    }
  }

  lemma Split(d: nat, a: nat, unit: nat)
    ensures (d + a) * unit == d * unit + a * unit
  {
  }

  /** Committing up to a multiple of the commit size stops right there. */
  lemma CommitsTo(b: Block, m: nat, end: nat)
    requires b.cmtSize > 0 && end == m * b.cmtSize && b.cmt < end <= b.res
    ensures Committed(b, end) == end
  {
    var y := end + b.cmtSize - 1;
    DivBounds(y, b.cmtSize);
    SameQuotient(m, b.cmtSize - 1, y / b.cmtSize, y % b.cmtSize, b.cmtSize);
  }

  lemma SameQuotient(q: nat, r: nat, p: nat, t: nat, size: nat)
    requires r < size && t < size && q * size + r == p * size + t
    ensures r == t
  {
    if q < p {
      NextMultiple(q, size);
      MulMono(q + 1, p, size);
    } else if p < q {
      NextMultiple(p, size);
      MulMono(p + 1, q, size);
    }
  }

  /** Fill the arena to an odd commit, and the next aligned push begins past it. */
  lemma GoesOdd(page: nat, recycle: bool, grows: bool, resSize: nat, cmtSize: nat, unit: nat)
    requires PageOk(page) && IsAlign(unit) && 0 < cmtSize <= resSize && !SizesEven(resSize, cmtSize, page, unit)
    ensures CanGoWild(page, recycle, grows, resSize, cmtSize, unit)
  {
    var m: nat :| AlignUp(cmtSize, page) < Stop(m, cmtSize) < AlignUp(resSize, page) && Stop(m, cmtSize) % unit != 0;
    var end := Stop(m, cmtSize);
    PageIsEven(cmtSize, page, unit);
    PageIsEven(resSize, page, unit);
    hide AlignUp;
    var s := Fresh(page, recycle, grows, resSize, cmtSize);
    var fill, last := DoPush(end - HEADER, 1, false, 0), DoPush(0, unit, true, 0);
    FillsTo(s, m, end, fill);
    OddPush(After(s, fill), end, unit, last);
    OneStep(s, fill, After(s, fill), unit);
    hide Fresh, After, GoesWild, Reaches;
    assert Reaches(s, [fill], After(s, fill), unit) && GoesWild(After(s, fill), last, unit);
  }

  lemma OneStep(s: State, op: Op, t: State, unit: nat)
    requires Can(s, op, unit) && t == After(s, op)
    ensures Reaches(s, [op], t, unit)
  {
    hide Can, After;
    assert Reaches(t, [], t, unit);
    assert [op][1..] == [];
  }

  lemma FillsTo(s: State, m: nat, end: nat, fill: Op)
    requires s.page > 0 && |s.chain| == 1 && Current(s).pos == HEADER && Current(s).cmtSize > 0
    requires end == m * Current(s).cmtSize && Current(s).cmt < end <= Current(s).res && HEADER < end
    requires fill == DoPush(end - HEADER, 1, false, 0)
    ensures
      var t := After(s, fill);
      t.page == s.page && t.grows == s.grows && t.chain == [Current(s).(cmt := end, pos := end)]
  {
    assert AlignUp(HEADER, 1) == HEADER;
    CommitsTo(Current(s), m, end);
  }

  lemma AlignPast(x: nat, a: nat)
    requires a > 0 && x % a != 0
    ensures AlignUp(x, a) > x
  {
    AlignAbove(x, a);
  }

  lemma OddPush(t: State, end: nat, unit: nat, op: Op)
    requires IsAlign(unit) && t.page > 0 && |t.chain| == 1 && Current(t).pos == Current(t).cmt == end
    requires end % unit != 0 && 0 < Current(t).cmtSize && end < Current(t).res && Current(t).res % unit == 0
    requires op == DoPush(0, unit, true, 0)
    ensures GoesWild(t, op, unit)
  {
    var b := Current(t);
    AlignAbove(end, unit);
    AlignPast(end, unit);
    AlignWithin(end, b.res, unit, unit);
    var stop := AlignUp(end, unit);
    DivBounds(stop + b.cmtSize - 1, b.cmtSize);
    assert Chained(t, 0, unit, 0) == t;
    hide AlignUp, IsAlign;
  }

  // ---- which sizes those are ----

  /** The first multiple of the commit size past a new block's committed bytes that is odd, if its size is. */
  function FirstOdd(cmtSize: nat, page: nat, unit: nat): nat
    requires cmtSize > 0 && page > 0 && unit > 0
  {
    var m := AlignUp(cmtSize, page) / cmtSize + 1;
    if m * cmtSize % unit != 0 then m * cmtSize else (m + 1) * cmtSize
  }

  lemma PastCommit(cmt: nat, cmtSize: nat, k: nat)
    requires cmtSize > 0
    ensures k * cmtSize > cmt <==> k >= cmt / cmtSize + 1
  {
    var m := cmt / cmtSize + 1;
    DivBounds(cmt, cmtSize);
    NextMultiple(m - 1, cmtSize);
    if k >= m {
      MulMono(m, k, cmtSize);
    } else {
      MulMono(k, m - 1, cmtSize);
    }
  }

  /** No stop is odd exactly when the commit size is even or the block ends before one is. */
  lemma EvenExactly(resSize: nat, cmtSize: nat, page: nat, unit: nat)
    requires page > 0 && unit > 0 && cmtSize > 0
    ensures SizesEven(resSize, cmtSize, page, unit)
      <==> cmtSize % unit == 0 || AlignUp(resSize, page) <= FirstOdd(cmtSize, page, unit)
  {
    hide AlignUp;
    var cmt := AlignUp(cmtSize, page);
    var m := cmt / cmtSize + 1;
    PastCommit(cmt, cmtSize, m);
    PastCommit(cmt, cmtSize, m + 1);
    if cmtSize % unit == 0 {
      forall k: nat ensures Stop(k, cmtSize) % unit == 0 {
        Multiples(k, cmtSize, unit);
      }
    } else if AlignUp(resSize, page) <= FirstOdd(cmtSize, page, unit) {
      forall k: nat | cmt < Stop(k, cmtSize) < AlignUp(resSize, page) ensures Stop(k, cmtSize) % unit == 0 {
        OnlyFirst(k, m, cmt, cmtSize, FirstOdd(cmtSize, page, unit), unit);
      }
    } else {
      FirstIsOdd(m, cmtSize, unit);
      assert Stop(m, cmtSize) == m * cmtSize && Stop(m + 1, cmtSize) == (m + 1) * cmtSize;
    }
  }

  lemma OnlyFirst(k: nat, m: nat, cmt: nat, cmtSize: nat, first: nat, unit: nat)
    requires unit > 0 && cmtSize > 0 && m == cmt / cmtSize + 1 && cmt < Stop(k, cmtSize) < first
    requires first == if m * cmtSize % unit != 0 then m * cmtSize else (m + 1) * cmtSize
    ensures Stop(k, cmtSize) % unit == 0
  {
    PastCommit(cmt, cmtSize, k);
    MulMono(m, k, cmtSize);
    if k > m {
      MulMono(m + 1, k, cmtSize);
    }
  }

  lemma FirstIsOdd(m: nat, cmtSize: nat, unit: nat)
    requires unit > 0 && cmtSize % unit != 0
    ensures (if m * cmtSize % unit != 0 then m * cmtSize else (m + 1) * cmtSize) % unit != 0
  {
    if m * cmtSize % unit == 0 {
      NextMultiple(m, cmtSize);
      SumRemainder(m * cmtSize, cmtSize, unit);
    }
  }

  /** A new arena can go wrong exactly when its commit size is no multiple of the largest alignment in use, and its
      first block reaches past the first odd commit. */
  lemma ReserveExactly(page: nat, recycle: bool, grows: bool, resSize: nat, cmtSize: nat, unit: nat)
    requires PageOk(page) && IsAlign(unit) && 0 < cmtSize <= resSize
    ensures CanGoWild(page, recycle, grows, resSize, cmtSize, unit)
      <==> cmtSize % unit != 0 && FirstOdd(cmtSize, page, unit) < AlignUp(resSize, page)
  {
    hide CanGoWild, SizesEven, AlignUp, FirstOdd;
    EvenExactly(resSize, cmtSize, page, unit);
    if SizesEven(resSize, cmtSize, page, unit) {
      NeverWild(page, recycle, grows, resSize, cmtSize, unit);
    } else {
      GoesOdd(page, recycle, grows, resSize, cmtSize, unit);
    }
  }

  /** So the commit sizes that can go wrong in some arena are exactly those that are no such multiple. */
  lemma CommitExactly(page: nat, recycle: bool, grows: bool, cmtSize: nat, unit: nat)
    requires PageOk(page) && IsAlign(unit) && 0 < cmtSize
    ensures (exists resSize: nat :: resSize >= cmtSize && CanGoWild(page, recycle, grows, resSize, cmtSize, unit))
      <==> cmtSize % unit != 0
  {
    hide CanGoWild, AlignUp, FirstOdd;
    if cmtSize % unit != 0 {
      var resSize := FirstOdd(cmtSize, page, unit) + cmtSize + 1;
      PageFacts(resSize, page);
      ReserveExactly(page, recycle, grows, resSize, cmtSize, unit);
    } else {
      forall resSize: nat | resSize >= cmtSize ensures !CanGoWild(page, recycle, grows, resSize, cmtSize, unit) {
        ReserveExactly(page, recycle, grows, resSize, cmtSize, unit);
      }
    }
  }
}
