/** Pushes with any alignment, those above the header size among them: when the block that is chained is too small. */
module ArenaAlign {
  import opened Basics
  import opened Arena

  lemma CarveFails(b: Block, size: nat, align: nat, zero: bool)
    requires b.cmt <= b.res && b.cmtSize > 0 && align > 0
    ensures Carve(b, size, align, zero).1 == Null <==> !Fits(b, size, align)
  {
    var end := AlignUp(b.pos, align) + size;
    DivBounds(end + b.cmtSize - 1, b.cmtSize);
    hide AlignUp;
  }

  /** A new block takes the request that it was made for. */
  predicate GrownFits(size: nat, align: nat, usual: nat, page: nat)
    requires align > 0 && page > 0
  {
    AlignUp(HEADER, align) + size <= AlignUp(BlockSize(size, align, usual), page)
  }

  lemma GrownTakes(c: Block, size: nat, align: nat, addr: nat, page: nat)
    requires 0 < c.cmtSize <= c.resSize && align > 0 && page > 0
    ensures
      var g := GrownBlock(c, size, align, addr, page);
      && g.cmt <= g.res && g.cmtSize > 0
      && (Fits(g, size, align) <==> GrownFits(size, align, c.resSize, page))
  {
    AlignAbove(size + HEADER, align);
    PageMono(c.cmtSize, c.resSize, page);
    hide AlignUp;
  }

  /** A block of the free list takes the request. */
  predicate FreeTakes(s: State, size: nat, align: nat)
    requires align > 0
  {
    s.recycle && exists i | 0 <= i < |s.free| :: Fits(s.free[i], size, align)
  }

  lemma SoundCurrent(s: State)
    requires Inv(s)
    ensures s.chain != [] && s.page > 0 && Current(s).cmt <= Current(s).res
            && 0 < Current(s).cmtSize <= Current(s).resSize
    ensures forall i | 0 <= i < |s.free| :: s.free[i].cmt <= s.free[i].res && s.free[i].cmtSize > 0
  {
    assert Current(s) in s.chain;
    forall i | 0 <= i < |s.free| ensures s.free[i].cmt <= s.free[i].res && s.free[i].cmtSize > 0 {
      assert s.free[i] in s.free;
    }
  }

  /** What the block is that a push takes its bytes from. */
  lemma ChainedTakes(s: State, size: nat, align: nat, addr: nat)
    requires Inv(s) && align > 0
    ensures s.chain != [] && s.page > 0 && Chained(s, size, align, addr).chain != []
    ensures
      var c := Current(Chained(s, size, align, addr));
      && c.cmt <= c.res && c.cmtSize > 0
      && (Fits(c, size, align) <==>
            || Fits(Current(s), size, align)
            || (s.grows && (FreeTakes(s, size, align) || GrownFits(size, align, Current(s).resSize, s.page))))
  {
    SoundCurrent(s);
    GrownTakes(Current(s), size, align, addr, s.page);
    hide Inv, AlignUp, GrownBlock, GrownFits;
    if s.recycle {
      var found := FindFree(s.free, size, align);
      FoundFits(s.free, size, align);
      hide FindFree;
    }
  }

  lemma FoundFits(free: seq<Block>, size: nat, align: nat)
    requires align > 0
    ensures FindFree(free, size, align).Some? <==> exists i | 0 <= i < |free| :: Fits(free[i], size, align)
    ensures forall b: nat | FindFree(free, size, align).Some? ::
              Fits(free[FindFree(free, size, align).value].(base := b), size, align)
  {
    hide AlignUp;
  }

  /** With any alignment, a push fails exactly when the current block is full and no chained one will do: chaining is
      forbidden, or no free block takes the request and a new one does not either. */
  lemma PushFailsExactly(s: State, size: nat, align: nat, zero: bool, addr: nat)
    requires Inv(s) && align > 0
    ensures s.chain != [] && s.page > 0
    ensures Chained(s, size, align, addr).chain != [] && Current(Chained(s, size, align, addr)).cmtSize > 0
    ensures Push(s, size, align, zero, addr).1 == Null <==>
      && !Fits(Current(s), size, align)
      && (s.grows ==> !FreeTakes(s, size, align) && !GrownFits(size, align, Current(s).resSize, s.page))
  {
    hide Inv, Chained, Carve, Fits, GrownFits, FreeTakes;
    ChainedTakes(s, size, align, addr);
    CarveFails(Current(Chained(s, size, align, addr)), size, align, zero);
  }

  // ---- when a new block does ----

  lemma AlignFixed(x: nat, a: nat)
    requires a > 0 && x % a == 0
    ensures AlignUp(x, a) == x
  {
    AlignAbove(x, a);
    DivBounds(x, a);
    AlignLeast(x, x / a, a);
  }

  /** Up to the header size, always. */
  lemma SmallAlways(size: nat, align: nat, usual: nat, page: nat)
    requires IsAlign(align) && PageOk(page)
    ensures GrownFits(size, align, usual, page)
  {
    AlignHeader(align);
    BlockTakes(size, align, usual);
    PageFacts(BlockSize(size, align, usual), page);
    hide AlignUp, BlockSize, IsAlign, PageOk;
  }

  lemma BlockTakes(size: nat, align: nat, usual: nat)
    requires align > 0
    ensures HEADER + size <= BlockSize(size, align, usual)
  {
    AlignAbove(size + HEADER, align);
    hide AlignUp;
  }

  lemma AlignHeaderUp(align: nat)
    requires align >= HEADER
    ensures AlignUp(HEADER, align) == align
  {
    AlignAbove(HEADER, align);
    AlignLeast(HEADER, 1, align);
    assert (HEADER + align - 1) / align * align >= align by {
      DivBounds(HEADER + align - 1, align);
      QuotientPositive(HEADER + align - 1, align);
    }
  }

  lemma QuotientPositive(x: nat, a: nat)
    requires x >= a > 0
    ensures x / a * a >= a
  {
    DivBounds(x, a);
    MulMono(1, x / a, a);
  }

  /** How far up a request and a header are rounded. */
  lemma AlignsTo(size: nat, align: nat)
    requires align >= HEADER
    ensures align + size <= AlignUp(size + HEADER, align) <==> size % align == 0 || size % align > align - HEADER
  {
    var q, r := size / align, size % align;
    DivBounds(size, align);
    Successor(q, align);
    if r <= align - HEADER {
      AlignWithinNext(size + HEADER, q, align);
    } else {
      Successor(q + 1, align);
      AlignWithinNext(size + HEADER, q + 1, align);
    }
  }

  lemma Successor(q: nat, a: nat)
    ensures (q + 1) * a == q * a + a
  {
  }

  lemma AlignWithinNext(x: nat, q: nat, a: nat)
    requires a > 0 && q * a < x <= q * a + a
    ensures AlignUp(x, a) == q * a + a
  {
    Successor(q, a);
    AlignAbove(x, a);
    AlignLeast(x, q + 1, a);
    var k := (x + a - 1) / a;
    if k <= q {
      MulMono(k, q, a);
    } else {
      MulMono(q + 1, k, a);
    }
  }

  lemma StillMultiple(x: nat, align: nat, page: nat)
    requires align > 0 && page > 0 && align % page == 0
    ensures AlignUp(AlignUp(x, align), page) == AlignUp(x, align)
  {
    var k := (x + align - 1) / align;
    DivBounds(align, page);
    assert k * align == k * (align / page) * page by {
      Regrouped(k, align / page, page);
    }
    MulModZero(k * (align / page), page);
    AlignFixed(k * align, page);
  }

  lemma Regrouped(k: nat, m: nat, page: nat)
    ensures k * (m * page) == k * m * page
  {
  }

  /** Above the header size, for a multiple of the page: a request too large for a usual block is taken exactly when it
      ends on a multiple of the alignment, or less than a header before one; a smaller one when the alignment leaves
      room for it. */
  lemma WideExactly(size: nat, align: nat, usual: nat, page: nat)
    requires PageOk(page) && align >= HEADER && align % page == 0
    ensures GrownFits(size, align, usual, page) <==>
      if size + HEADER > usual then size % align == 0 || size % align > align - HEADER
      else align + size <= AlignUp(usual, page)
  {
    AlignHeaderUp(align);
    if size + HEADER > usual {
      StillMultiple(size + HEADER, align, page);
      AlignsTo(size, align);
    }
    hide AlignUp;
  }

  function Arena64K(recycle: bool): State {
    State(4096, recycle, true, [NewBlock(0, 0x1_0000, 0x1_0000, 0, 4096)], [])
  }

  lemma Arena64KOk(recycle: bool)
    ensures Inv(Arena64K(recycle)) && Current(Arena64K(recycle)).pos == HEADER
    ensures Current(Arena64K(recycle)).res == Current(Arena64K(recycle)).resSize == 0x1_0000
  {
    AlignFixed(0x1_0000, 4096);
    hide AlignUp;
  }

  /** One byte more than eight times the alignment, pushed on a new arena of 64 KiB that may chain, finds no block. */
  lemma WideIsTooSmall(recycle: bool, zero: bool, addr: nat)
    ensures
      var s := Arena64K(recycle);
      && Chained(s, 0x1_0001, 0x2000, addr).chain != [] && Current(Chained(s, 0x1_0001, 0x2000, addr)).cmtSize > 0
      && Push(s, 0x1_0001, 0x2000, zero, addr).1 == Null
  {
    var s := Arena64K(recycle);
    Arena64KOk(recycle);
    AlignHeaderUp(0x2000);
    hide Inv, Chained, Push, GrownFits, AlignUp, NewBlock;
    PushFailsExactly(s, 0x1_0001, 0x2000, zero, addr);
    WideExactly(0x1_0001, 0x2000, 0x1_0000, 4096);
  }
}
