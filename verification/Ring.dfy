/** A ring buffer holds the end of an unbounded log. */
module Ring {
  import opened Basics

  /** The last bytes of the log are in the ring, each at its position modulo the ring's size. */
  ghost predicate Holds(ring: seq<Byte>, log: seq<Byte>) {
    |ring| > 0 && forall i | 0 <= i < |log| && |log| <= i + |ring| :: ring[i % |ring|] == log[i]
  }

  /** Positions less than a ring apart do not meet. */
  lemma Distinct(i: nat, j: nat, size: nat)
    requires i < j < i + size
    ensures i % size != j % size
  {
    var q := i / size;
    DivBounds(i, size);
    DivBounds(j, size);
    if i % size == j % size {
      assert j - i == (j / size - q) * size by { Difference(i, j, size, i % size); }
      Multiple(j / size - q, size, j - i);
    }
  }

  lemma Difference(i: nat, j: nat, size: nat, r: nat)
    requires size > 0 && i == i / size * size + r && j == j / size * size + r
    ensures j - i == (j / size - i / size) * size
  {
  }

  lemma Multiple(k: int, size: nat, d: nat)
    requires d == k * size && 0 < d
    ensures d >= size
  {
    if k >= 1 {
      MulMono(1, k, size);
    }
  }

  /** Positions across the split. */
  lemma WrapAt(pos: nat, k: nat, size: nat)
    requires size > 0 && k < size
    ensures
      var off := pos % size;
      (pos + k) % size == if off + k < size then off + k else off + k - size
  {
    var off := pos % size;
    DivBounds(pos, size);
    if off + k < size {
      Remainder(pos / size, off + k, size);
    } else {
      Remainder(pos / size + 1, off + k - size, size);
      assert (pos / size + 1) * size == pos / size * size + size;
    }
  }

  lemma Remainder(q: nat, r: nat, size: nat)
    requires r < size
    ensures (q * size + r) % size == r
  {
    var x := q * size + r;
    DivBounds(x, size);
    SameQuotient(q, r, x / size, x % size, size);
  }

  lemma SameQuotient(q: nat, r: nat, p: nat, s: nat, size: nat)
    requires r < size && s < size && q * size + r == p * size + s
    ensures r == s
  {
    if r < s {
      Subtract(q, p, size, s - r);
      Multiple(q - p, size, s - r);
    } else if s < r {
      Subtract(p, q, size, r - s);
      Multiple(p - q, size, r - s);
    }
  }

  lemma Subtract(q: nat, p: nat, size: nat, d: nat)
    requires q * size == p * size + d
    ensures d == (q - p) * size
  {
  }

  /** The ring after a write, in two parts where it wraps. */
  function Written(ring: seq<Byte>, pos: nat, src: seq<Byte>): (r: seq<Byte>)
    requires |ring| > 0 && |src| <= |ring|
    ensures |r| == |ring|
  {
    var off := pos % |ring|;
    var pre := Min(|ring| - off, |src|);
    seq(|ring|, i requires 0 <= i < |ring| =>
      if i < |src| - pre then src[pre + i] else if off <= i < off + pre then src[i - off] else ring[i])
  }

  /** A write at the end of the log keeps the last ring's worth. */
  lemma WrittenHolds(ring: seq<Byte>, log: seq<Byte>, pos: nat, src: seq<Byte>)
    requires Holds(ring, log) && |src| <= |ring| && pos % |ring| == |log| % |ring|
    ensures Holds(Written(ring, pos, src), log + src)
  {
    var now, off := Written(ring, pos, src), pos % |ring|;
    var pre := Min(|ring| - off, |src|);
    assert Copied(ring, now, src, off, pre);
    forall i | 0 <= i < |log + src| && |log + src| <= i + |ring| ensures now[i % |ring|] == (log + src)[i] {
      StaysOrNew(ring, now, log, src, i, off, pre);
    }
  }

  class RingBuffer {
    const base: array<Byte>
    /** Everything ever written. */
    ghost var log: seq<Byte>

    ghost predicate Valid()
      reads this, base
    {
      Holds(base[..], log)
    }

    constructor (size: nat)
      requires size > 0
      ensures Valid() && fresh(base) && base.Length == size && log == []
    {
      base := new Byte[size];
      log := [];
    }

    /** Writes in two parts where the ring wraps; at the place where the log ends, that goes on. */
    method Write(pos: nat, src: seq<Byte>) returns (n: nat)
      requires Valid() && |src| <= base.Length
      modifies this, base
      ensures base[..] == Written(old(base[..]), pos, src) && log == old(log) + src && n == |src|
      ensures pos % base.Length == old(|log|) % base.Length ==> Valid()
    {
      var size := base.Length;
      var off := pos % size;
      var before := size - off;
      var pre := Min(before, |src|);
      ghost var was := base[..];
      Copy(base, off, src[..pre]);
      Copy(base, 0, src[pre..]);
      assert base[..] == Written(was, pos, src);
      if pos % size == |log| % size {
        WrittenHolds(was, log, pos, src);
      }
      log := log + src;
      n := |src|;
    }

    /** Any bytes of the last ring's worth are read back as they were written, across the wrap too. */
    method Read(pos: nat, count: nat) returns (dst: seq<Byte>)
      requires Valid() && count <= base.Length
      ensures |dst| == count
      ensures forall at: nat | at % base.Length == pos % base.Length && at + count <= |log| <= at + base.Length ::
                dst == log[at..at + count]
    {
      var size := base.Length;
      var off := pos % size;
      var before := size - off;
      var pre := Min(before, count);
      dst := base[off..off + pre] + base[..count - pre];
      forall at: nat | at % size == pos % size && at + count <= |log| <= at + size ensures dst == log[at..at + count] {
        Reads(base[..], log, at, count, off, pre);
      }
    }
  }

  lemma Reads(ring: seq<Byte>, log: seq<Byte>, at: nat, count: nat, off: nat, pre: nat)
    requires Holds(ring, log) && at + count <= |log| <= at + |ring| && off == at % |ring| && count <= |ring|
    requires pre == Min(|ring| - off, count)
    ensures ring[off..off + pre] + ring[..count - pre] == log[at..at + count]
  {
    var dst := ring[off..off + pre] + ring[..count - pre];
    forall k | 0 <= k < count ensures dst[k] == log[at + k] {
      WrapAt(at, k, |ring|);
    }
  }

  method Copy(a: array<Byte>, at: nat, s: seq<Byte>)
    requires at + |s| <= a.Length
    modifies a
    ensures forall i | 0 <= i < a.Length :: a[i] == if at <= i < at + |s| then s[i - at] else old(a[i])
  {
    var k := 0;
    while k < |s|
      invariant 0 <= k <= |s|
      invariant forall i | 0 <= i < a.Length :: a[i] == if at <= i < at + k then s[i - at] else old(a[i])
    {
      a[at + k] := s[k];
      k := k + 1;
    }
  }

  /** What the two copies do to the ring. */
  ghost predicate Copied(was: seq<Byte>, now: seq<Byte>, src: seq<Byte>, off: nat, pre: nat) {
    && |was| == |now| && pre <= |src| <= |now| && off + pre <= |now| && |src| - pre <= off
    && forall i | 0 <= i < |now| ::
         now[i] == if i < |src| - pre then src[pre + i] else if off <= i < off + pre then src[i - off] else was[i]
  }

  lemma StaysOrNew(was: seq<Byte>, now: seq<Byte>, log: seq<Byte>, src: seq<Byte>, i: nat, off: nat, pre: nat)
    requires Holds(was, log) && Copied(was, now, src, off, pre) && off == |log| % |now|
             && pre == Min(|now| - off, |src|)
    requires i < |log| + |src| <= i + |now|
    ensures now[i % |now|] == (log + src)[i]
  {
    var size := |now|;
    if i >= |log| {
      WrapAt(|log|, i - |log|, size);
    } else {
      Untouched(was, now, log, src, i, off, pre);
    }
  }

  /** An older byte still in reach is not one that was overwritten. */
  lemma Untouched(was: seq<Byte>, now: seq<Byte>, log: seq<Byte>, src: seq<Byte>, i: nat, off: nat, pre: nat)
    requires |now| > 0 && Copied(was, now, src, off, pre) && off == |log| % |now| && pre == Min(|now| - off, |src|)
    requires i < |log| && |log| + |src| <= i + |now|
    ensures now[i % |now|] == was[i % |now|]
  {
    var size := |now|;
    var at := i % size;
    if at < |src| - pre {
      WrapAt(|log|, pre + at, size);
      Distinct(i, |log| + pre + at, size);
    } else if off <= at < off + pre {
      WrapAt(|log|, at - off, size);
      Distinct(i, |log| + at - off, size);
    }
  }

  // ---- positions of 64 bits ----

  const WORD: nat := 0x1_0000_0000_0000_0000

  /** The last bytes of the log are where their 64-bit positions say. */
  ghost predicate Holds64(ring: seq<Byte>, log: seq<Byte>) {
    |ring| > 0 && forall i | 0 <= i < |log| && |log| <= i + |ring| :: ring[i % WORD % |ring|] == log[i]
  }

  /** Writes at 64-bit positions keep the last ring's worth, however long the log grows. */
  ghost predicate KeepsLog(size: nat) {
    forall ring: seq<Byte>, log: seq<Byte>, src: seq<Byte> |
      0 < |ring| == size && Holds64(ring, log) && |src| <= |ring| ::
      Holds64(Written(ring, |log| % WORD, src), log + src)
  }

  lemma WrapsTogether(n: nat, word: nat, size: nat)
    requires size > 0 && word > 0 && word % size == 0
    ensures n % word % size == n % size
  {
    DivBounds(n, word);
    DivBounds(word, size);
    DivBounds(n % word, size);
    InSteps(n, n / word, word, word / size, n % word, n % word / size, n % word % size, size);
  }

  lemma InSteps(n: nat, q: nat, word: nat, k: nat, rest: nat, p: nat, r: nat, size: nat)
    requires r < size && n == q * word + rest && word == k * size && rest == p * size + r
    ensures n % size == r
  {
    Regroup(q, k, p, size);
    Remainder(q * k + p, r, size);
  }

  lemma Regroup(q: nat, k: nat, p: nat, size: nat)
    ensures q * (k * size) + p * size == (q * k + p) * size
  {
  }

  lemma SameHolds(ring: seq<Byte>, log: seq<Byte>)
    requires |ring| > 0 && WORD % |ring| == 0
    ensures Holds64(ring, log) <==> Holds(ring, log)
  {
    forall i: nat ensures i % WORD % |ring| == i % |ring| {
      WrapsTogether(i, WORD, |ring|);
    }
  }

  lemma DividesKeeps(size: nat)
    requires size > 0 && WORD % size == 0
    ensures KeepsLog(size)
  {
    forall ring: seq<Byte>, log: seq<Byte>, src: seq<Byte> |
      0 < |ring| == size && Holds64(ring, log) && |src| <= |ring|
      ensures Holds64(Written(ring, |log| % WORD, src), log + src)
    {
      SameHolds(ring, log);
      WrapsTogether(|log|, WORD, size);
      WrittenHolds(ring, log, |log| % WORD, src);
      SameHolds(Written(ring, |log| % WORD, src), log + src);
    }
  }

  function Zeros(n: nat): (z: seq<Byte>)
    ensures |z| == n && forall i | 0 <= i < n :: z[i] == 0
  {
    seq(n, _ => 0)
  }

  lemma ZerosHold(size: nat, n: nat)
    requires size > 0
    ensures Holds64(Zeros(size), Zeros(n))
  {
  }

  lemma FirstWritten(ring: seq<Byte>, b: Byte)
    requires |ring| > 0
    ensures Written(ring, 0, [b])[0] == b
  {
  }

  /** Otherwise the byte at position 2^64 falls on one that is still in reach. */
  lemma NoDivisorLoses(size: nat)
    requires 0 < size < WORD && WORD % size != 0
    ensures !KeepsLog(size)
  {
    BackByRest(WORD, size);
    ZerosHold(size, WORD);
    FirstWritten(Zeros(size), 1);
    hide Written, Zeros;
    Overwritten(Written(Zeros(size), 0, [1]), Zeros(WORD) + [1], WORD - WORD % size);
    assert |Zeros(WORD)| % WORD == 0;
  }

  lemma Overwritten(ring: seq<Byte>, log: seq<Byte>, i: nat)
    requires |ring| > 0 && i < |log| <= i + |ring| && i < WORD && i % |ring| == 0 && ring[0] != log[i]
    ensures !Holds64(ring, log)
  {
    assert i % WORD == i;
  }

  lemma BackByRest(word: nat, size: nat)
    requires 0 < size && word % size > 0
    ensures word % size < size && word % size <= word && (word - word % size) % size == 0
  {
    DivBounds(word, size);
    Remainder(word / size, 0, size);
  }

  /** A ring of any size below 2^64 keeps its log past position 2^64 exactly when its size divides that. */
  lemma WrapExactly(size: nat)
    requires 0 < size < WORD
    ensures KeepsLog(size) <==> WORD % size == 0
  {
    if WORD % size == 0 {
      DividesKeeps(size);
    } else {
      NoDivisorLoses(size);
    }
  }
}
