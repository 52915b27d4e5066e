/** The chained arena: blocks of reserved address space, committed as the position moves forward, chained when
    one is full, popped by absolute position and recycled through a free list. */
module Arena {
  import opened Basics

  const HEADER: nat := 128

  /** A block: `addr` is where its header sits, `base` the arena position of its first byte; `bytes` is the
      whole reserved range, header included. */
  datatype Block = Block(
    addr: nat, base: nat, pos: nat, cmt: nat, res: nat, cmtSize: nat, resSize: nat, bytes: seq<Byte>)

  /** `chain` runs from the first block to the current one, `free` from the last block freed. `recycle` is the
      build option of the free list, `grows` the absence of the no-chain flag. */
  datatype State = State(page: nat, recycle: bool, grows: bool, chain: seq<Block>, free: seq<Block>)

  datatype Outcome =
    | At(addr: nat)
    | Null           // not enough committed memory
    | Wild           // the size to zero wrapped around

  // ---- alignment ----

  /** The alignments the block sizing covers: powers of two up to the header size. */
  predicate IsAlign(a: nat) { a == 1 || a == 2 || a == 4 || a == 8 || a == 16 || a == 32 || a == 64 || a == 128 }

  function AlignUp(x: nat, a: nat): nat
    requires a > 0
  {
    (x + a - 1) / a * a
  }

  lemma MulModZero(n: nat, a: nat)
    requires a > 0
    ensures (n * a) % a == 0
  {
    var k := n * a / a;
    DivBracket(n * a, a);
    if k < n {
      MulMono(k + 1, n, a);
    } else {
      MulMono(n + 1, k + 1, a);
      assert (n + 1) * a == n * a + a;
    }
  }

  /** Every allowed alignment divides the header size. */
  lemma AlignDivides(a: nat) returns (m: nat)
    requires IsAlign(a)
    ensures m * a == HEADER
  {
    m := HEADER / a;
  }

  lemma MultipleOf(c: nat, a: nat) returns (q: nat)
    requires IsAlign(a) && c % HEADER == 0
    ensures c == q * a && c % a == 0
  {
    var m := AlignDivides(a);
    q := (c / HEADER) * m;
    assert (c / HEADER) * (m * a) == ((c / HEADER) * m) * a;
    MulModZero(q, a);
  }

  lemma AlignLeast(x: nat, q: nat, a: nat)
    requires a > 0 && x <= q * a
    ensures AlignUp(x, a) <= q * a
  {
    var k := (x + a - 1) / a;
    DivBracket(x + a - 1, a);
    assert (q + 1) * a == q * a + a;
    if k > q {
      MulMono(q + 1, k, a);
    }
    MulMono(k, q, a);
  }

  lemma AlignAbove(x: nat, a: nat)
    requires a > 0
    ensures x <= AlignUp(x, a) < x + a && AlignUp(x, a) % a == 0
  {
    var k := (x + a - 1) / a;
    DivBracket(x + a - 1, a);
    assert (k + 1) * a == k * a + a;
    MulModZero(k, a);
  }

  lemma AlignBelow(x: nat, c: nat, a: nat)
    requires IsAlign(a) && c % HEADER == 0 && x <= c
    ensures AlignUp(x, a) <= c
  {
    var q := MultipleOf(c, a);
    AlignLeast(x, q, a);
  }

  lemma AlignHeader(a: nat)
    requires IsAlign(a)
    ensures AlignUp(HEADER, a) == HEADER
  {
    AlignBelow(HEADER, HEADER, a);
    AlignAbove(HEADER, a);
  }

  lemma AlignedSum(x: nat, y: nat, a: nat)
    requires IsAlign(a) && x % HEADER == 0 && y % a == 0
    ensures (x + y) % a == 0
  {
    var q := MultipleOf(x, a);
    SumOfMultiples(x, y, q, y / a, a);
  }

  lemma SumOfMultiples(x: nat, y: nat, q: nat, r: nat, a: nat)
    requires a > 0 && x == q * a && r == y / a && y % a == 0
    ensures (x + y) % a == 0
  {
    DivBracket(y, a);
    Distribute(q, r, a);
    MulModZero(q + r, a);
  }

  lemma Distribute(q: nat, r: nat, a: nat)
    ensures (q + r) * a == q * a + r * a
  {
  }

  predicate PageOk(page: nat) { page > 0 && page % HEADER == 0 }

  lemma MulMod(n: nat, m: nat)
    requires m % HEADER == 0
    ensures (n * m) % HEADER == 0
  {
    var q := m / HEADER;
    assert n * m == (n * q) * HEADER;
    assert ((n * q) * HEADER) % HEADER == 0;
  }

  lemma PageFacts(x: nat, page: nat)
    requires PageOk(page)
    ensures x <= AlignUp(x, page) && AlignUp(x, page) % HEADER == 0
  {
    AlignAbove(x, page);
    MulMod((x + page - 1) / page, page);
  }

  lemma PageMono(x: nat, y: nat, page: nat)
    requires page > 0 && x <= y
    ensures AlignUp(x, page) <= AlignUp(y, page)
  {
    var k := (y + page - 1) / page;
    AlignAbove(y, page);
    AlignLeast(x, k, page);
  }

  // ---- blocks ----

  function Zeros(n: nat): (z: seq<Byte>)
    ensures |z| == n && forall i | 0 <= i < n :: z[i] == 0
  {
    seq(n, _ => 0)
  }

  /** A block fresh from the operating system. */
  function NewBlock(addr: nat, resSize: nat, cmtSize: nat, base: nat, page: nat): Block
    requires page > 0
  {
    Block(addr, base, HEADER, AlignUp(cmtSize, page), AlignUp(resSize, page), cmtSize, resSize,
          Zeros(AlignUp(resSize, page)))
  }

  predicate Fits(b: Block, size: nat, align: nat)
    requires align > 0
  {
    AlignUp(b.pos, align) + size <= b.res
  }

  /** The first free block that fits, from the last one freed. */
  function FindFree(free: seq<Block>, size: nat, align: nat): (i: Option<nat>)
    requires align > 0
    ensures i.Some? ==>
              && i.value < |free| && Fits(free[i.value], size, align)
              && forall k | 0 <= k < i.value :: !Fits(free[k], size, align)
    ensures i.None? ==> forall k | 0 <= k < |free| :: !Fits(free[k], size, align)
  {
    if free == [] then None
    else if Fits(free[0], size, align) then Some(0)
    else match FindFree(free[1..], size, align)
         case Some(k) => Some(k + 1)
         case None => None
  }

  function Current(s: State): Block
    requires s.chain != []
  {
    s.chain[|s.chain| - 1]
  }

  function BlockSize(size: nat, align: nat, usual: nat): nat
    requires align > 0
  {
    if size + HEADER > usual then AlignUp(size + HEADER, align) else usual
  }

  /** The commit size follows the reserve size when the request is too large for a usual block. */
  function GrownBlock(c: Block, size: nat, align: nat, addr: nat, page: nat): Block
    requires align > 0 && page > 0
  {
    var big := size + HEADER > c.resSize;
    NewBlock(addr, BlockSize(size, align, c.resSize), if big then BlockSize(size, align, c.resSize) else c.cmtSize,
             c.base + c.res, page)
  }

  /** Chain a recycled or a new block when the request does not fit. */
  function Chained(s: State, size: nat, align: nat, addr: nat): State
    requires s.chain != [] && align > 0 && s.page > 0
  {
    var c := Current(s);
    if Fits(c, size, align) || !s.grows then s
    else
      match if s.recycle then FindFree(s.free, size, align) else None
      case Some(i) => s.(chain := s.chain + [s.free[i].(base := c.base + c.res)], free := s.free[..i] + s.free[i + 1..])
      case None => s.(chain := s.chain + [GrownBlock(c, size, align, addr, s.page)])
  }

  /** Where committing stops. */
  function Committed(b: Block, end: nat): nat
    requires b.cmtSize > 0
  {
    if b.cmt < end then Min((end + b.cmtSize - 1) - (end + b.cmtSize - 1) % b.cmtSize, b.res) else b.cmt
  }

  function ZeroRange(bytes: seq<Byte>, from: nat, to: nat): (z: seq<Byte>)
    ensures |z| == |bytes|
    ensures forall i | 0 <= i < |bytes| :: z[i] == if from <= i < to then 0 else bytes[i]
  {
    seq(|bytes|, i requires 0 <= i < |bytes| => if from <= i < to then 0 else bytes[i])
  }

  /** Take `size` bytes of a block. */
  function Carve(b: Block, size: nat, align: nat, zero: bool): (Block, Outcome)
    requires align > 0 && b.cmtSize > 0
  {
    var start := AlignUp(b.pos, align);
    var end := start + size;
    var cmt := Committed(b, end);
    if cmt < end then (b.(cmt := cmt), Null)
    else if zero && Min(b.cmt, end) < start then (b.(cmt := cmt, pos := end), Wild)
    else (b.(cmt := cmt, pos := end, bytes := if zero then ZeroRange(b.bytes, start, Min(b.cmt, end)) else b.bytes),
          At(b.addr + start))
  }

  function SetCurrent(s: State, b: Block): State
    requires s.chain != []
  {
    s.(chain := s.chain[|s.chain| - 1 := b])
  }

  /** `addr` is where the operating system puts a new block, should one be needed. */
  function Push(s: State, size: nat, align: nat, zero: bool, addr: nat): (State, Outcome)
    requires s.chain != [] && align > 0 && s.page > 0 && Current(Chained(s, size, align, addr)).cmtSize > 0
  {
    var t := Chained(s, size, align, addr);
    var (b, o) := Carve(Current(t), size, align, zero);
    (SetCurrent(t, b), o)
  }

  function Pos(s: State): nat
    requires s.chain != []
  {
    Current(s).base + Current(s).pos
  }

  /** Free blocks that start at or past `big`. The first block starts at 0 and stays. */
  function Unchain(s: State, big: nat): (t: State)
    requires s.chain != [] && s.chain[0].base < big
    ensures t.chain != [] && t.chain[0] == s.chain[0] && Current(t).base < big
    decreases |s.chain|
  {
    var c := Current(s);
    if c.base < big then s
    else Unchain(s.(chain := s.chain[..|s.chain| - 1],
                    free := if s.recycle then [c.(pos := HEADER)] + s.free else s.free), big)
  }

  function Target(pos: nat): nat { if pos < HEADER then HEADER else pos }

  /** The assertion at the end of the pop. */
  predicate PopAllowed(s: State, pos: nat)
    requires s.chain != [] && s.chain[0].base == 0
  {
    var t := Unchain(s, Target(pos));
    Target(pos) - Current(t).base <= Current(t).pos
  }

  function PopTo(s: State, pos: nat): State
    requires s.chain != [] && s.chain[0].base == 0
  {
    var t := Unchain(s, Target(pos));
    SetCurrent(t, Current(t).(pos := Target(pos) - Current(t).base))
  }

  /** Pop an amount; more than there is pops nothing. */
  function PopTarget(s: State, amount: nat): nat
    requires s.chain != []
  {
    if amount < Pos(s) then Pos(s) - amount else Pos(s)
  }

  function AlignForward(s: State, align: nat): State
    requires s.chain != [] && align > 0
  {
    SetCurrent(s, Current(s).(pos := AlignUp(Current(s).pos, align)))
  }

  /** The arena's user writes one byte of committed memory. */
  function Write(s: State, i: nat, off: nat, v: Byte): State
    requires i < |s.chain| && off < |s.chain[i].bytes|
  {
    s.(chain := s.chain[i := s.chain[i].(bytes := s.chain[i].bytes[off := v])])
  }

  // ---- the invariant ----

  ghost predicate BlockOk(b: Block) {
    && HEADER <= b.pos <= b.cmt <= b.res == |b.bytes|
    && b.addr % HEADER == 0 && b.res % HEADER == 0 && b.cmt % HEADER == 0
    && 0 < b.cmtSize <= b.resSize && (b.cmtSize % HEADER == 0 || (b.cmt == b.res && b.cmtSize == b.resSize))
    && HEADER <= b.resSize
    && forall i | b.cmt <= i < b.res :: b.bytes[i] == 0
  }

  predicate Apart(a: Block, b: Block) { a.addr + a.res <= b.addr || b.addr + b.res <= a.addr }

  ghost predicate AllApart(bs: seq<Block>) { forall i, j | 0 <= i < j < |bs| :: Apart(bs[i], bs[j]) }

  ghost predicate Separate(as': seq<Block>, bs: seq<Block>) { forall a, b | a in as' && b in bs :: Apart(a, b) }

  /** Each block of the chain continues the positions of the one before. */
  ghost predicate ChainOk(bs: seq<Block>) {
    && bs != [] && bs[0].base == 0
    && forall i | 0 < i < |bs| :: bs[i].base == bs[i - 1].base + bs[i - 1].res
  }

  ghost predicate Inv(s: State) {
    && PageOk(s.page) && ChainOk(s.chain)
    && (forall b | b in s.chain :: BlockOk(b))
    && (forall b | b in s.free :: BlockOk(b) && b.pos == HEADER)
    && AllApart(s.chain) && AllApart(s.free) && Separate(s.chain, s.free)
  }

  /** What the operating system promises of a new reservation: page-aligned, and apart from all others. */
  ghost predicate Reservable(s: State, addr: nat, size: nat) {
    addr % HEADER == 0 && forall b | b in s.chain || b in s.free :: addr + size <= b.addr || b.addr + b.res <= addr
  }

  /** The reservation a push may need. */
  ghost predicate CanReserve(s: State, size: nat, align: nat, addr: nat)
    requires s.chain != [] && align > 0 && s.page > 0
  {
    Reservable(s, addr, AlignUp(BlockSize(size, align, Current(s).resSize), s.page))
  }

  // ---- pushing ----

  lemma CommittedOk(b: Block, end: nat)
    requires BlockOk(b)
    ensures
      var c := Committed(b, end);
      && b.cmt <= c <= b.res && c % HEADER == 0 && (end <= b.res ==> end <= c)
      && (b.cmt == b.res ==> c == b.res) && (end > b.res ==> c == b.res)
  {
    var y := end + b.cmtSize - 1;
    var x := y - y % b.cmtSize;
    assert x == y / b.cmtSize * b.cmtSize && x >= end;
    if b.cmtSize % HEADER == 0 {
      MulMod(y / b.cmtSize, b.cmtSize);
    }
  }

  /** Taking memory from a sound block: never a wrapped size, never memory that is not committed, and nothing
      below the old position changes. */
  lemma CarveOk(b: Block, size: nat, align: nat, zero: bool)
    requires BlockOk(b) && IsAlign(align)
    ensures
      var (d, o) := Carve(b, size, align, zero);
      && BlockOk(d) && d.addr == b.addr && d.base == b.base && d.res == b.res && d.pos >= b.pos
      && (if Fits(b, size, align) then o == At(b.addr + AlignUp(b.pos, align)) && d.pos == AlignUp(b.pos, align) + size
          else o == Null && d.pos == b.pos)
      && (forall k | 0 <= k < b.pos :: d.bytes[k] == b.bytes[k])
      && (o.At? && zero ==> forall k | AlignUp(b.pos, align) <= k < d.pos :: d.bytes[k] == 0)
  {
    AlignAbove(b.pos, align);
    AlignBelow(b.pos, b.cmt, align);
    CommittedOk(b, AlignUp(b.pos, align) + size);
  }

  /** A new block is sound, and the request that needed it fits. */
  lemma GrownBlockOk(c: Block, size: nat, align: nat, addr: nat, page: nat)
    requires BlockOk(c) && IsAlign(align) && PageOk(page) && addr % HEADER == 0
    ensures
      var g := GrownBlock(c, size, align, addr, page);
      BlockOk(g) && Fits(g, size, align) && g.base == c.base + c.res
  {
    hide AlignUp;
    AlignHeader(align);
    AlignAbove(size + HEADER, align);
    PageFacts(BlockSize(size, align, c.resSize), page);
    PageFacts(c.cmtSize, page);
    PageMono(c.cmtSize, c.resSize, page);
  }

  lemma GrownApart(s: State, size: nat, align: nat, addr: nat)
    requires s.chain != [] && align > 0 && s.page > 0 && CanReserve(s, size, align, addr)
    ensures
      var g := GrownBlock(Current(s), size, align, addr, s.page);
      forall b | b in s.chain || b in s.free :: Apart(g, b) && Apart(b, g)
  {
    hide AlignUp;
  }

  lemma GrownOk(s: State, size: nat, align: nat, addr: nat)
    requires Inv(s) && IsAlign(align) && CanReserve(s, size, align, addr)
    ensures
      var g := GrownBlock(Current(s), size, align, addr, s.page);
      && BlockOk(g) && Fits(g, size, align) && g.base == Current(s).base + Current(s).res
      && forall b | b in s.chain || b in s.free :: Apart(g, b) && Apart(b, g)
  {
    assert BlockOk(Current(s)) && PageOk(s.page) && addr % HEADER == 0 by {
      assert Current(s) in s.chain;
    }
    GrownApart(s, size, align, addr);
    hide Inv, AlignUp, CanReserve, Fits, BlockOk, GrownBlock;
    GrownBlockOk(Current(s), size, align, addr, s.page);
  }

  lemma LinkOk(s: State, b: Block, free: seq<Block>)
    requires Inv(s) && BlockOk(b) && b.base == Current(s).base + Current(s).res
    requires (forall a | a in s.chain || a in free :: Apart(a, b) && Apart(b, a))
    requires (forall a | a in free :: a in s.free) && AllApart(free)
    ensures Inv(s.(chain := s.chain + [b], free := free))
  {
  }

  lemma RecycleOk(s: State, i: nat)
    requires Inv(s) && i < |s.free|
    ensures
      var b := s.free[i].(base := Current(s).base + Current(s).res);
      Inv(s.(chain := s.chain + [b], free := s.free[..i] + s.free[i + 1..])) && b.pos == HEADER
  {
    var b := s.free[i].(base := Current(s).base + Current(s).res);
    var rest := s.free[..i] + s.free[i + 1..];
    assert s.free[i] in s.free;
    forall a | a in rest ensures a in s.free && Apart(a, b) && Apart(b, a) {
      RestIn(s.free, i, a);
    }
    LinkOk(s, b, rest);
  }

  lemma ChainedOk(s: State, size: nat, align: nat, addr: nat)
    requires Inv(s) && IsAlign(align) && CanReserve(s, size, align, addr)
    ensures
      var t := Chained(s, size, align, addr);
      && Inv(t) && (s.grows ==> Fits(Current(t), size, align))
      && (t == s || (t.chain == s.chain + [Current(t)] && Current(t).base == Current(s).base + Current(s).res
                     && Current(t).pos == HEADER))
      && t.page == s.page && t.grows == s.grows && t.recycle == s.recycle
  {
    hide *;
    Positive(s, align);
    if !Fits(Current(s), size, align) && s.grows {
      var found := if s.recycle then FindFree(s.free, size, align) else None;
      if found.Some? {
        ChainedRecycles(s, size, align, addr, found.value);
      } else {
        ChainedGrows(s, size, align, addr);
      }
    } else {
      ChainedSame(s, size, align, addr);
    }
  }

  lemma Positive(s: State, align: nat)
    requires Inv(s) && IsAlign(align)
    ensures s.chain != [] && s.page > 0 && align > 0
  {
    hide BlockOk, AllApart, Separate;
  }

  lemma ChainedSame(s: State, size: nat, align: nat, addr: nat)
    requires s.chain != [] && align > 0 && s.page > 0 && (Fits(Current(s), size, align) || !s.grows)
    ensures Chained(s, size, align, addr) == s
  {
    hide Fits;
  }

  lemma LastOf(s: State, b: Block)
    ensures Current(s.(chain := s.chain + [b])) == b
  {
  }

  lemma ChainedRecycles(s: State, size: nat, align: nat, addr: nat, i: nat)
    requires Inv(s) && IsAlign(align) && s.chain != [] && s.page > 0 && !Fits(Current(s), size, align) && s.grows
             && s.recycle
    requires FindFree(s.free, size, align) == Some(i)
    ensures
      var t := Chained(s, size, align, addr);
      && Inv(t) && Fits(Current(t), size, align) && t.chain == s.chain + [Current(t)]
      && Current(t).base == Current(s).base + Current(s).res && Current(t).pos == HEADER
      && t.page == s.page && t.grows == s.grows && t.recycle == s.recycle
  {
    hide Inv, Fits, BlockOk, GrownBlock;
    FreeFits(s.free, size, align);
    hide FindFree;
    RecycleOk(s, i);
    FitsLinked(s.free[i], Current(s).base + Current(s).res, size, align);
    LastOf(s.(free := s.free[..i] + s.free[i + 1..]), s.free[i].(base := Current(s).base + Current(s).res));
  }

  lemma ChainedGrows(s: State, size: nat, align: nat, addr: nat)
    requires Inv(s) && IsAlign(align) && CanReserve(s, size, align, addr) && s.chain != [] && s.page > 0
    requires !Fits(Current(s), size, align) && s.grows && (s.recycle ==> FindFree(s.free, size, align) == None)
    ensures
      var t := Chained(s, size, align, addr);
      && Inv(t) && Fits(Current(t), size, align) && t.chain == s.chain + [Current(t)]
      && Current(t).base == Current(s).base + Current(s).res && Current(t).pos == HEADER
      && t.page == s.page && t.grows == s.grows && t.recycle == s.recycle
  {
    hide Inv, Fits, BlockOk, GrownBlock, CanReserve, FindFree;
    GrownLinks(s, size, align, addr);
    LastOf(s, GrownBlock(Current(s), size, align, addr, s.page));
  }

  lemma FreeFits(free: seq<Block>, size: nat, align: nat)
    requires align > 0
    ensures
      var i := FindFree(free, size, align);
      i.Some? ==> i.value < |free| && Fits(free[i.value], size, align)
  {
  }

  lemma FitsLinked(b: Block, base: nat, size: nat, align: nat)
    requires align > 0
    ensures Fits(b.(base := base), size, align) == Fits(b, size, align)
  {
  }

  lemma GrownLinks(s: State, size: nat, align: nat, addr: nat)
    requires Inv(s) && IsAlign(align) && CanReserve(s, size, align, addr)
    ensures
      var g := GrownBlock(Current(s), size, align, addr, s.page);
      Inv(s.(chain := s.chain + [g])) && Fits(g, size, align) && g.pos == HEADER
        && g.base == Current(s).base + Current(s).res
  {
    GrownOk(s, size, align, addr);
    var g := GrownBlock(Current(s), size, align, addr, s.page);
    assert g.pos == HEADER;
    LinkOk(s, g, s.free);
    assert s.(chain := s.chain + [g], free := s.free) == s.(chain := s.chain + [g]);
  }

  lemma RestIn(free: seq<Block>, i: nat, a: Block)
    requires i < |free| && a in free[..i] + free[i + 1..] && AllApart(free)
    ensures a in free && Apart(a, free[i])
  {
    var rest := free[..i] + free[i + 1..];
    var k :| 0 <= k < |rest| && rest[k] == a;
    assert a == free[if k < i then k else k + 1];
  }

  lemma SetCurrentOk(s: State, b: Block)
    requires Inv(s) && BlockOk(b) && b.addr == Current(s).addr && b.res == Current(s).res && b.base == Current(s).base
    ensures Inv(SetCurrent(s, b))
  {
    var n := |s.chain| - 1;
    var t := SetCurrent(s, b);
    assert s.chain[n] in s.chain;
    forall a | a in t.chain ensures BlockOk(a) && forall x | x in s.free :: Apart(a, x) {
      if a != b {
        assert a in s.chain;
      }
    }
  }
}
