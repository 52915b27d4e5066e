/** The arena in place: its blocks' fields change under the methods, which do what the functions of module Arena say. */
module ArenaObject {
  import opened Basics
  import opened Arena
  import opened ArenaRuns

  class ChainedArena {
    const page: nat
    const recycle: bool
    const grows: bool
    var chain: seq<Block>
    var free: seq<Block>

    constructor (page: nat, recycle: bool, grows: bool, addr: nat, resSize: nat, cmtSize: nat)
      requires PageOk(page) && addr % HEADER == 0 && 0 < cmtSize <= resSize && cmtSize % HEADER == 0
      ensures Init(View()) && Inv(View()) && View().grows == grows && View().recycle == recycle
    {
      this.page, this.recycle, this.grows := page, recycle, grows;
      chain, free := [NewBlock(addr, resSize, cmtSize, 0, page)], [];
      new;
      InitOk(View());
    }

    function View(): State
      reads this
    {
      State(page, recycle, grows, chain, free)
    }

    /** Search the free list from the last block freed, and unlink what fits. */
    method TakeFree(size: nat, align: nat) returns (found: Option<Block>)
      requires align > 0
      modifies this`free
      ensures
        match FindFree(old(free), size, align)
        case Some(i) => found == Some(old(free)[i]) && free == old(free)[..i] + old(free)[i + 1..]
        case None => found == None && free == old(free)
    {
      var i := 0;
      while i < |free|
        invariant i <= |free| && free == old(free)
        invariant forall k | 0 <= k < i :: !Fits(free[k], size, align)
      {
        if Fits(free[i], size, align) {
          var b := free[i];
          free := free[..i] + free[i + 1..];
          return Some(b);
        }
        i := i + 1;
      }
      return None;
    }

    /** The first part of a push: chain another block if the request does not fit. */
    method Chain(size: nat, align: nat, addr: nat)
      requires chain != [] && align > 0 && page > 0
      modifies this`chain, this`free
      ensures View() == Chained(old(View()), size, align, addr)
    {
      var current := chain[|chain| - 1];
      if current.res < AlignUp(current.pos, align) + size && grows {
        var next := None;
        if recycle {
          next := TakeFree(size, align);
        }
        if next.None? {
          next := Some(GrownBlock(current, size, align, addr, page));
        }
        chain := chain + [next.value.(base := current.base + current.res)];
      }
    }

    /** The second part: commit, zero and take the bytes from the current block. */
    method TakeBytes(size: nat, align: nat, zero: bool) returns (o: Outcome)
      requires chain != [] && align > 0 && Current(View()).cmtSize > 0
      modifies this`chain
      ensures chain != [] && (chain[|chain| - 1], o) == Carve(Current(old(View())), size, align, zero)
      ensures View() == SetCurrent(old(View()), chain[|chain| - 1])
    {
      var current := chain[|chain| - 1];
      var start := AlignUp(current.pos, align);
      var end := start + size;
      var sizeToZero := if zero then Min(current.cmt, end) - start else 0;
      if current.cmt < end {
        current := current.(cmt := Committed(current, end));
      }
      if current.cmt < end {
        o := Null;
      } else {
        o := At(current.addr + start);
        current := current.(pos := end);
        if sizeToZero < 0 {
          o := Wild;
        } else if zero {
          current := current.(bytes := ZeroRange(current.bytes, start, start + sizeToZero));
        }
      }
      chain := chain[|chain| - 1 := current];
    }

    method Push(size: nat, align: nat, zero: bool, addr: nat) returns (o: Outcome)
      requires Inv(View()) && IsAlign(align) && CanReserve(View(), size, align, addr)
      modifies this`chain, this`free
      ensures Inv(View())
      ensures (View(), o) == Pushed(old(View()), DoPush(size, align, zero, addr))
    {
      PushOk(View(), DoPush(size, align, zero, addr));
      ChainedOk(View(), size, align, addr);
      CurrentOk(Chained(View(), size, align, addr));
      hide Inv, CanReserve, IsAlign, Chained, Carve;
      Chain(size, align, addr);
      o := TakeBytes(size, align, zero);
    }

/** Unchain and free the blocks that start at or past `big`. */
    method UnchainPast(big: nat)
      requires chain != [] && chain[0].base < big
      modifies this`chain, this`free
      ensures View() == Unchain(old(View()), big)
    {
      ghost var s := View();
      hide Unchain;
      while chain[|chain| - 1].base >= big
        invariant chain != [] && chain[0].base < big
        invariant Unchain(View(), big) == Unchain(s, big)
        decreases |chain|
      {
        UnchainNext(View(), big);
        var current := chain[|chain| - 1];
        chain := chain[..|chain| - 1];
        if recycle {
          free := [current.(pos := HEADER)] + free;
        }
      }
      UnchainNext(View(), big);
    }

    method PopTo(pos: nat) returns (ok: bool)
      requires Inv(View())
      modifies this`chain, this`free
      ensures ok <==> PopAllowed(old(View()), pos)
      ensures ok ==> View() == Arena.PopTo(old(View()), pos)
      ensures ValidMark(old(View()), pos) ==> ok && Inv(View())
    {
      ghost var s := View();
      FirstAtZero(s);
      PopToExactly(s, pos);
      PopToIs(s, pos);
      TargetPositive(pos);
      hide Inv, ValidMark, Arena.PopTo, Unchain, PopAllowed, Target;
      var big := Target(pos);
      UnchainPast(big);
      var current := chain[|chain| - 1];
      var newPos := big - current.base;
      if newPos > current.pos {
        return false;
      }
      chain := chain[|chain| - 1 := current.(pos := newPos)];
      return true;
    }

    method Position() returns (pos: nat)
      requires Inv(View())
      ensures pos == Pos(View()) && ValidMark(View(), pos)
    {
      CurrentOk(View());
      Marks(View(), Pos(View()), |chain| - 1);
      return chain[|chain| - 1].base + chain[|chain| - 1].pos;
    }

    /** Pop an amount off the end; more than there is pops nothing. */
    method Pop(amount: nat) returns (ok: bool)
      requires Inv(View())
      modifies this`chain, this`free
      ensures ok <==> PopAllowed(old(View()), PopTarget(old(View()), amount))
      ensures ok ==> View() == Arena.PopTo(old(View()), PopTarget(old(View()), amount))
    {
      var posOld := Position();
      var posNew := posOld;
      if amount < posOld {
        posNew := posOld - amount;
      }
      ok := PopTo(posNew);
    }

    method Clear() returns (ok: bool)
      requires Inv(View())
      modifies this`chain, this`free
      ensures ok && Inv(View()) && Pos(View()) == HEADER && chain == [old(chain[0]).(pos := HEADER)]
    {
      FirstAtZero(View());
      assert Holds(chain[0], HEADER) by {
        assert chain[0] in chain;
      }
      Marks(View(), 0, 0);
      PopToOk(View(), 0, 0);
      ok := PopTo(0);
    }
  }
}
