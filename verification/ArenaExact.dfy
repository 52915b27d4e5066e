/** What an arena does beyond staying sound: it reuses blocks, frees them in order, commits and writes no more than
    it has to. */
module ArenaExact {
  import opened Basics
  import opened Arena
  import opened ArenaRuns

  // ---- recycling ----

  /** A request the current block has no room for is met from the free list if anything there fits: from the block
      freed last of those that fit. The others stay in their order. */
  lemma ReusesLastFreed(s: State, size: nat, align: nat, addr: nat, i: nat)
    requires Inv(s) && IsAlign(align) && s.grows && s.recycle && i < |s.free|
    requires AlignUp(Current(s).pos, align) + size > Current(s).res
    requires AlignUp(s.free[i].pos, align) + size <= s.free[i].res
    requires forall k | 0 <= k < i :: AlignUp(s.free[k].pos, align) + size > s.free[k].res
    ensures
      var t := Chained(s, size, align, addr);
      && t.chain == s.chain + [s.free[i].(base := Current(s).base + Current(s).res)]
      && t.free == s.free[..i] + s.free[i + 1..]
  {
    hide AlignUp;
  }

  /** Blocks with nothing in them. */
  function Emptied(bs: seq<Block>): (r: seq<Block>)
    ensures |r| == |bs| && forall i | 0 <= i < |bs| :: r[i] == bs[i].(pos := HEADER)
  {
    seq(|bs|, i requires 0 <= i < |bs| => bs[i].(pos := HEADER))
  }

  /** One block freed. */
  function OneFreed(s: State): State
    requires s.chain != []
  {
    s.(chain := s.chain[..|s.chain| - 1], free := if s.recycle then [Current(s).(pos := HEADER)] + s.free else s.free)
  }

  lemma {:induction false} Frees(s: State, big: nat, i: nat)
    requires s.chain != [] && s.chain[0].base < big && i < |s.chain|
    requires Unchain(s, big).chain == s.chain[..i + 1]
    ensures Unchain(s, big).free == (if s.recycle then Emptied(s.chain[i + 1..]) else []) + s.free
    decreases |s.chain|
  {
    hide *;
    UnchainStep(s, big);
    if Current(s).base < big {
      NoneFreed(s, i);
    } else {
      var d := OneFreed(s);
      OneFreedIs(s, big);
      Shorter(d, big);
      assert d.chain[..i + 1] == s.chain[..i + 1];
      Frees(d, big, i);
      MoreFreed(s, i);
    }
  }

  lemma UnchainStep(s: State, big: nat)
    requires s.chain != [] && s.chain[0].base < big
    ensures Unchain(s, big) == if Current(s).base < big then s else Unchain(OneFreed(s), big)
  {
    UnchainNext(s, big);
    hide Unchain;
  }

  lemma NoneFreed(s: State, i: nat)
    requires i < |s.chain| && s.chain == s.chain[..i + 1]
    ensures s.free == (if s.recycle then Emptied(s.chain[i + 1..]) else []) + s.free
  {
    assert |s.chain[..i + 1]| == i + 1;
    assert Emptied(s.chain[i + 1..]) + s.free == s.free && [] + s.free == s.free;
  }

  lemma OneFreedIs(s: State, big: nat)
    requires s.chain != [] && s.chain[0].base < big && Current(s).base >= big
    ensures
      var d := OneFreed(s);
      && d.chain != [] && d.chain[0] == s.chain[0] && d.recycle == s.recycle && |d.chain| == |s.chain| - 1
      && d.chain == s.chain[..|s.chain| - 1]
  {
  }

  lemma MoreFreed(s: State, i: nat)
    requires i + 1 < |s.chain|
    ensures (if s.recycle then Emptied(OneFreed(s).chain[i + 1..]) else []) + OneFreed(s).free
            == (if s.recycle then Emptied(s.chain[i + 1..]) else []) + s.free
  {
    var c := Current(s);
    var bs := s.chain[..|s.chain| - 1][i + 1..];
    assert s.chain[i + 1..] == bs + [c];
    EmptiedAppend(bs, c);
    hide Emptied;
    assert Emptied(bs) + ([c.(pos := HEADER)] + s.free) == Emptied(bs) + [c.(pos := HEADER)] + s.free;
  }

  lemma {:induction false} Shorter(s: State, big: nat)
    requires s.chain != [] && s.chain[0].base < big
    ensures |Unchain(s, big).chain| <= |s.chain|
    decreases |s.chain|
  {
    hide *;
    UnchainStep(s, big);
    if Current(s).base >= big {
      OneFreedIs(s, big);
      Shorter(OneFreed(s), big);
    }
  }

  lemma EmptiedAppend(bs: seq<Block>, c: Block)
    ensures Emptied(bs + [c]) == Emptied(bs) + [c.(pos := HEADER)]
  {
  }

  /** A pop to a mark in block `i` frees the blocks behind it, all of them and no other, the oldest of them first in the
      free list; without a free list they are given back. */
  lemma PopFrees(s: State, pos: nat, i: nat)
    requires Inv(s) && i < |s.chain| && Holds(s.chain[i], Target(pos))
    ensures s.chain != [] && s.chain[0].base == 0
    ensures PopTo(s, pos).free == (if s.recycle then Emptied(s.chain[i + 1..]) else []) + s.free
  {
    hide *;
    UnchainedTo(s, pos, i);
    TargetPositive(pos);
    assert s.chain[..i + 1] == s.chain[..i] + [s.chain[i]];
    Frees(s, Target(pos), i);
    PopToIs(s, pos);
    OnlyCurrent(Unchain(s, Target(pos)), Current(Unchain(s, Target(pos))).(
      pos := Target(pos) - Current(Unchain(s, Target(pos))).base));
  }

  lemma OnlyCurrent(s: State, b: Block)
    requires s.chain != []
    ensures SetCurrent(s, b).free == s.free
  {
  }

  /** An amount is popped if there is more than that, down to the first header at most; otherwise nothing is. */
  lemma PopsAmount(s: State, amount: nat)
    requires Inv(s) && ValidMark(s, if amount < Pos(s) then Pos(s) - amount else Pos(s))
    ensures
      var t := PopTo(s, PopTarget(s, amount));
      Pos(t) == if amount >= Pos(s) then Pos(s) else if Pos(s) - amount < 128 then 128 else Pos(s) - amount
  {
    CurrentOk(s);
    var pos := PopTarget(s, amount);
    var i :| 0 <= i < |s.chain| && Holds(s.chain[i], Target(pos));
    PopToOk(s, pos, i);
    hide Inv, PopTo;
  }

  // ---- memory ----

  /** Memory is committed up to the least multiple of the commit size that is enough, or to the end of the block. */
  lemma CommitsLeast(b: Block, end: nat)
    requires b.cmtSize > 0 && b.cmt <= b.res
    ensures
      var c := Committed(b, end);
      && (end <= b.cmt ==> c == b.cmt)
      && (end > b.cmt && c != b.res ==> c % b.cmtSize == 0 && end <= c < end + b.cmtSize)
      && c <= b.res && (end <= b.res ==> end <= c)
  {
    var y := end + b.cmtSize - 1;
    DivBracket(y, b.cmtSize);
    DivBounds(y, b.cmtSize);
    var x := y / b.cmtSize * b.cmtSize;
    assert y - y % b.cmtSize == x;
    MulModZero(y / b.cmtSize, b.cmtSize);
  }

  /** A push changes no byte but those it zeroes, and those only if asked to. */
  lemma CarveTouches(b: Block, size: nat, align: nat, zero: bool, k: nat)
    requires BlockOk(b) && IsAlign(align) && k < |b.bytes|
    requires !zero || k < AlignUp(b.pos, align) || k >= AlignUp(b.pos, align) + size
    ensures
      var d := Carve(b, size, align, zero).0;
      && |d.bytes| == |b.bytes| && d.bytes[k] == b.bytes[k]
      && (AlignUp(b.pos, align) + size <= b.cmt ==> d.cmt == b.cmt)
  {
    hide AlignUp;
  }

  /** Aligning moves the position within its block to the next multiple. */
  lemma AlignsForward(s: State, align: nat)
    requires Inv(s) && IsAlign(align)
    ensures
      var t := AlignForward(s, align);
      && Pos(s) <= Pos(t) < Pos(s) + align && (Pos(t) - Current(s).base) % align == 0
      && |t.chain| == |s.chain| && t.free == s.free
  {
    CurrentOk(s);
    AlignAbove(Current(s).pos, align);
    hide AlignUp, Inv;
  }
}
