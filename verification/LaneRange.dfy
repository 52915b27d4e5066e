/** How lanes split a range of indices between them. */
module LaneRange {
  import opened Basics

  datatype Range = Range(min: int, max: int)

  /** The indices of `[0, mCount)` that lane `nIdx` of `nCount` takes, clamps included. */
  function LaneIndices(nIdx: nat, nCount: nat, mCount: nat): Range
    requires nCount > 0
  {
    var perLane := mCount / nCount;
    var leftover := mCount - perLane * nCount;
    var before := Min(nIdx, leftover);
    var base := Min(nIdx * perLane + before, mCount);
    var end := Min(base + perLane + (if nIdx < leftover then 1 else 0), mCount);
    Range(base, end)
  }

  predicate In(x: nat, r: Range) { r.min <= x < r.max }

  /** The lane an index falls to. */
  function LaneOf(x: nat, nCount: nat, mCount: nat): nat
    requires nCount > 0 && x < mCount
  {
    var perLane := mCount / nCount;
    var leftover := mCount % nCount;
    var long := leftover * (perLane + 1);
    if x < long then x / (perLane + 1) else if perLane > 0 then leftover + (x - long) / perLane else 0
  }

  lemma Quotient(x: nat, a: nat, q: nat)
    requires a > 0
    ensures x / a == q <==> q * a <= x < (q + 1) * a
  {
    var k := x / a;
    assert k * a <= x < (k + 1) * a;
    if q < k {
      MulMono(q + 1, k, a);
    } else if k < q {
      MulMono(k + 1, q, a);
    }
  }

  lemma Products(i: nat, n: nat, q: nat)
    ensures (i + 1) * q == i * q + q && (i < n ==> i * q + q <= n * q) && (i >= n ==> i * q >= n * q)
  {
    if i < n {
      MulMono(i + 1, n, q);
    } else {
      MulMono(n, i, q);
    }
  }

  lemma Division(m: nat, n: nat)
    requires n > 0
    ensures m == n * (m / n) + m % n && m % n == m - m / n * n && 0 <= m % n < n
  {
  }

  /** The closed form of a lane's piece: the first `r` lanes take one index more than `q`. */
  function Piece(i: nat, q: nat, r: nat): Range {
    Range(i * q + Min(i, r), i * q + Min(i, r) + q + if i < r then 1 else 0)
  }

  lemma Unclamped(i: nat, n: nat, m: nat)
    requires i < n
    ensures LaneIndices(i, n, m) == Piece(i, m / n, m % n)
  {
    Division(m, n);
    Products(i, n, m / n);
  }

  lemma PiecesFollow(i: nat, n: nat, q: nat, r: nat)
    requires i < n && r < n
    ensures
      var p := Piece(i, q, r);
      && 0 <= p.min <= p.max <= n * q + r && q <= p.max - p.min <= q + 1
      && (i == 0 ==> p.min == 0) && (i == n - 1 ==> p.max == n * q + r)
      && Piece(i + 1, q, r).min == p.max
  {
    Products(i, n, q);
  }

  /** Lanes take consecutive pieces of `[0, mCount)`, none of them longer than another by more than one. */
  lemma Consecutive(i: nat, n: nat, m: nat)
    requires i < n
    ensures
      var r := LaneIndices(i, n, m);
      && 0 <= r.min <= r.max <= m
      && (i == 0 ==> r.min == 0) && (i == n - 1 ==> r.max == m)
      && (i + 1 < n ==> LaneIndices(i + 1, n, m).min == r.max)
      && m / n <= r.max - r.min <= m / n + 1
  {
    hide *;
    PiecesOf(i, n, m, m / n, m % n);
    Unclamped(i, n, m);
    if i + 1 < n {
      Unclamped(i + 1, n, m);
    }
  }

  lemma PiecesOf(i: nat, n: nat, m: nat, q: nat, r: nat)
    requires i < n && q == m / n && r == m % n
    ensures
      var p := Piece(i, q, r);
      && 0 <= p.min <= p.max <= m && q <= p.max - p.min <= q + 1
      && (i == 0 ==> p.min == 0) && (i == n - 1 ==> p.max == m)
      && Piece(i + 1, q, r).min == p.max
  {
    hide Piece;
    Division(m, n);
    PiecesFollow(i, n, q, r);
  }

  /** Lane numbers past the last get nothing. */
  lemma NoSuchLane(i: nat, n: nat, m: nat)
    requires 0 < n <= i
    ensures LaneIndices(i, n, m) == Range(m, m)
  {
    Division(m, n);
    Products(i, n, m / n);
  }

  lemma ShortLane(x: nat, i: nat, q: nat, r: nat)
    requires q > 0 && r <= i && r * q + r <= x
    ensures (x - (r * q + r)) / q == i - r <==> i * q + r <= x < i * q + r + q
  {
    var y := x - (r * q + r);
    Quotient(y, q, i - r);
    assert (i - r) * q == i * q - r * q && (i - r + 1) * q == (i - r) * q + q;
  }

  lemma LongLane(x: nat, i: nat, q: nat)
    ensures x / (q + 1) == i <==> i * q + i <= x < i * q + i + q + 1
  {
    Quotient(x, q + 1, i);
    assert i * (q + 1) == i * q + i && (i + 1) * (q + 1) == i * (q + 1) + q + 1;
  }

  lemma LongHas(x: nat, i: nat, k: nat, q: nat, r: nat)
    requires k * q + k <= x < k * q + k + q + 1 && x < r * q + r
    ensures In(x, Piece(i, q, r)) <==> i == k
  {
    Products(k, r, q);
    Products(i, r, q);
    Products(k, i, q);
    Products(i, k, q);
  }

  lemma ShortHas(x: nat, i: nat, k: nat, q: nat, r: nat)
    requires k >= r && k * q + r <= x < k * q + r + q
    ensures In(x, Piece(i, q, r)) <==> i == k
  {
    Products(i, r, q);
    Products(r, k, q);
    Products(k, i, q);
    Products(i, k, q);
  }

  lemma PieceHas(x: nat, i: nat, q: nat, r: nat)
    requires x >= r * (q + 1) ==> q > 0
    ensures In(x, Piece(i, q, r)) <==>
      i == if x < r * (q + 1) then x / (q + 1) else r + (x - r * (q + 1)) / q
  {
    hide Piece;
    Distribute(r, q);
    if x < r * (q + 1) {
      LongLane(x, x / (q + 1), q);
      LongHas(x, i, x / (q + 1), q, r);
    } else {
      var k := r + (x - r * (q + 1)) / q;
      ShortLane(x, k, q, r);
      ShortHas(x, i, k, q, r);
    }
  }

  /** Every index belongs to exactly one lane. */
  lemma EachIndexOnce(x: nat, i: nat, n: nat, m: nat)
    requires i < n && x < m
    ensures LaneOf(x, n, m) < n
    ensures In(x, LaneIndices(i, n, m)) <==> LaneOf(x, n, m) == i
  {
    hide LaneIndices, Piece;
    Unclamped(i, n, m);
    LaneInBounds(x, n, m);
    PieceHas(x, i, m / n, m % n);
  }

  lemma LongLaneBound(x: nat, k: nat, q: nat, r: nat)
    requires k * q + k <= x < r * q + r
    ensures k < r
  {
    Products(k, r, q);
  }

  lemma ShortLaneBound(x: nat, k: nat, q: nat, r: nat, n: nat)
    requires k * q + r <= x < n * q + r
    ensures k < n
  {
    Products(k, n, q);
  }

  lemma LongPlace(x: nat, q: nat, r: nat)
    requires x < r * q + r
    ensures x / (q + 1) < r
  {
    LongLane(x, x / (q + 1), q);
    LongLaneBound(x, x / (q + 1), q, r);
  }

  lemma NoIndices(n: nat, q: nat)
    requires q == 0
    ensures n * q == 0
  {
  }

  lemma ShortPlace(x: nat, n: nat, q: nat, r: nat)
    requires r < n && r * q + r <= x < n * q + r
    ensures q > 0 && r + (x - (r * q + r)) / q < n
  {
    if q == 0 {
      NoIndices(n, q);
      NoIndices(r, q);
    } else {
      var k := r + (x - (r * q + r)) / q;
      ShortLane(x, k, q, r);
      ShortLaneBound(x, k, q, r, n);
    }
  }

  lemma Distribute(r: nat, q: nat)
    ensures r * (q + 1) == r * q + r
  {
  }

  lemma LaneInBounds(x: nat, n: nat, m: nat)
    requires 0 < n && x < m
    ensures LaneOf(x, n, m) < n && (x >= m % n * (m / n + 1) ==> m / n > 0)
  {
    var q, r := m / n, m % n;
    Division(m, n);
    Distribute(r, q);
    if x < r * (q + 1) {
      LongPlace(x, q, r);
    } else {
      ShortPlace(x, n, q, r);
    }
  }
}
