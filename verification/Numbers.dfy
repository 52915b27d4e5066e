/** Printing and parsing unsigned integers. */
module Numbers {
  import opened Basics
  import opened Bytes

  const CHAR_0: Byte := 48
  const CHAR_B: Byte := 98
  const CHAR_O: Byte := 111
  const CHAR_X: Byte := 120

  // ---- what is printed ----

  function RadixPrefix(radix: nat): seq<Byte> {
    if radix == 16 then [CHAR_0, CHAR_X] else if radix == 8 then [CHAR_0, CHAR_O]
      else if radix == 2 then [CHAR_0, CHAR_B] else []
  }

  function GroupSize(radix: nat): (g: nat)
    ensures g == 3 || g == 4
  {
    if radix == 2 || radix == 8 || radix == 16 then 4 else 3
  }

  /** A separator before every full group from the right but one that has nothing on its left. */
  function Grouped(t: seq<Byte>, g: nat, sep: Byte): seq<Byte>
    requires g > 0
  {
    if sep == 0 || |t| <= g then t else Grouped(t[..|t| - g], g, sep) + [sep] + t[|t| - g..]
  }

  function Digits(u: nat, radix: nat): seq<Byte>
    requires 2 <= radix <= 16
  {
    Text(DigitsOf(u, radix))
  }

  function Zeros(u: nat, radix: nat, min: nat): nat
    requires 2 <= radix <= 16
  {
    if min > |Digits(u, radix)| then min - |Digits(u, radix)| else 0
  }

  /** The text that is meant: prefix, zeros, digits in groups. */
  function Printed(u: nat, radix: nat, min: nat, sep: Byte): seq<Byte>
    requires 2 <= radix <= 16
  {
    RadixPrefix(radix) + Repeat(CHAR_0, Zeros(u, radix, min)) + Grouped(Digits(u, radix), GroupSize(radix), sep)
  }

  /** Separators in `n` digits. */
  function Separators(n: nat, g: nat, sep: Byte): nat
    requires g > 0
  {
    if sep == 0 || n == 0 then 0 else (n - 1) / g
  }

  /** The separators that room is made for among the leading zeros, but that are never written. */
  function Gap(u: nat, radix: nat, min: nat, sep: Byte): int
    requires 2 <= radix <= 16
  {
    var g := GroupSize(radix);
    var n := |Digits(u, radix)|;
    Separators(n + Zeros(u, radix, min), g, sep) - Separators(n, g, sep)
  }

  lemma {:induction false} GroupedSize(t: seq<Byte>, g: nat, sep: Byte)
    requires g == 3 || g == 4
    ensures |Grouped(t, g, sep)| == |t| + Separators(|t|, g, sep)
    decreases |t|
  {
    if sep != 0 && |t| > g {
      GroupedSize(t[..|t| - g], g, sep);
    }
  }

  function Without(s: seq<Byte>, sep: Byte): seq<Byte> {
    if s == [] then [] else (if s[0] == sep then [] else [s[0]]) + Without(s[1..], sep)
  }

  lemma {:induction false} WithoutAppend(a: seq<Byte>, b: seq<Byte>, sep: Byte)
    ensures Without(a + b, sep) == Without(a, sep) + Without(b, sep)
  {
    if a == [] {
      assert a + b == b;
    } else {
      assert (a + b)[1..] == a[1..] + b;
      WithoutAppend(a[1..], b, sep);
    }
  }

  lemma {:induction false} NothingToDrop(s: seq<Byte>, sep: Byte)
    requires sep !in s
    ensures Without(s, sep) == s
  {
    if s != [] {
      NothingToDrop(s[1..], sep);
    }
  }

  /** Dropping the separators leaves the digits. */
  lemma {:induction false} GroupsHoldDigits(t: seq<Byte>, g: nat, sep: Byte)
    requires g > 0 && sep !in t
    ensures Without(Grouped(t, g, sep), sep) == t
    decreases |t|
  {
    hide *;
    if sep == 0 || |t| <= g {
      NotGrouped(t, g, sep);
      NothingToDrop(t, sep);
    } else {
      var head, tail := t[..|t| - g], t[|t| - g..];
      assert t == head + tail;
      GroupsHoldDigits(head, g, sep);
      NothingToDrop(tail, sep);
      GroupedLong(t, g, sep, head, tail);
      WithoutAppend(Grouped(head, g, sep) + [sep], tail, sep);
      WithoutAppend(Grouped(head, g, sep), [sep], sep);
      OnlySeparator(sep);
      assert head + [] == head;
    }
  }

  lemma OnlySeparator(sep: Byte)
    ensures Without([sep], sep) == []
  {
  }

  lemma NotGrouped(t: seq<Byte>, g: nat, sep: Byte)
    requires g > 0 && (sep == 0 || |t| <= g)
    ensures Grouped(t, g, sep) == t
  {
  }

  lemma GroupedLong(t: seq<Byte>, g: nat, sep: Byte, head: seq<Byte>, tail: seq<Byte>)
    requires g > 0 && sep != 0 && t == head + tail && |tail| == g && head != []
    ensures Grouped(t, g, sep) == Grouped(head, g, sep) + [sep] + tail
  {
    assert t[..|t| - g] == head && t[|t| - g..] == tail;
  }

  lemma GroupedShort(t: seq<Byte>, g: nat, sep: Byte)
    requires g > 0 && |t| <= g
    ensures Grouped(t, g, sep) == t
  {
  }

  lemma SameRemainder(n: nat, g: nat)
    requires (g == 3 || g == 4) && n > g
    ensures (n - g) % g == n % g
  {
  }

  /** What one more digit on the left adds: behind a full group, a separator too. */
  function Added(x: Byte, n: nat, g: nat, sep: Byte): seq<Byte>
    requires g > 0
  {
    if n > 0 && n % g == 0 then [x, sep] else [x]
  }

  lemma {:induction false} GroupMore(x: Byte, t: seq<Byte>, g: nat, sep: Byte)
    requires (g == 3 || g == 4) && sep != 0
    ensures Grouped([x] + t, g, sep) == Added(x, |t|, g, sep) + Grouped(t, g, sep)
    decreases |t|
  {
    hide Grouped;
    if |t| > g {
      var head, tail := t[..|t| - g], t[|t| - g..];
      assert t == head + tail && [x] + t == ([x] + head) + tail;
      GroupMore(x, head, g, sep);
      SameRemainder(|t|, g);
      GroupedLong(t, g, sep, head, tail);
      GroupedLong([x] + t, g, sep, [x] + head, tail);
      hide Added;
      Regroup(Added(x, |t|, g, sep), Grouped(head, g, sep), [sep], tail);
    } else {
      GroupedShort(t, g, sep);
      if |t| == g {
        GroupedShort([x], g, sep);
        GroupedLong([x] + t, g, sep, [x], t);
        assert Added(x, |t|, g, sep) == [x, sep];
      } else {
        GroupedShort([x] + t, g, sep);
      }
    }
  }

  lemma Regroup<T>(a: seq<T>, b: seq<T>, c: seq<T>, d: seq<T>)
    ensures a + b + c + d == a + (b + c + d)
  {
  }

  // ---- the printer ----

  method CountDigits(u: nat, radix: nat) returns (n: nat)
    requires 2 <= radix <= 16
    ensures n == |DigitsOf(u, radix)|
  {
    n := 1;
    var reduce: nat := u;
    while reduce / radix != 0
      invariant n + |DigitsOf(reduce, radix)| == |DigitsOf(u, radix)| + 1
      decreases reduce
    {
      DivShrinks(reduce, radix);
      reduce := reduce / radix;
      n := n + 1;
    }
    assert reduce < radix by {
      if reduce >= radix {
        Quotient(reduce, radix);
      }
    }
  }

  lemma Quotient(x: nat, radix: nat)
    requires 2 <= radix <= x
    ensures x / radix > 0
  {
    DivBounds(x, radix);
  }

  lemma SmallQuotient(x: nat, radix: nat)
    requires x < radix
    ensures x / radix == 0 && x % radix == x
  {
    DivBounds(x, radix);
    if x / radix > 0 {
      MulMono(1, x / radix, radix);
    }
  }

  /** Digits still to come on the left of those there are. */
  ghost predicate Partial(u: nat, reduce: nat, radix: nat, t: seq<Byte>)
    requires 2 <= radix <= 16
  {
    Digits(reduce, radix) + t == Digits(u, radix)
  }

  lemma TextAppend(a: seq<nat>, b: seq<nat>)
    requires (forall i | 0 <= i < |a| :: a[i] < 16) && (forall i | 0 <= i < |b| :: b[i] < 16)
    ensures Text(a + b) == Text(a) + Text(b)
  {
  }

  /** One digit more is there, and either it was the last or the rest is still to come. */
  lemma NextDigit(u: nat, reduce: nat, radix: nat, t: seq<Byte>)
    requires 2 <= radix <= 16 && Partial(u, reduce, radix, t) && reduce % radix < radix
    ensures reduce / radix != 0
            ==> reduce / radix < reduce && Partial(u, reduce / radix, radix, [Symbol(reduce % radix)] + t)
    ensures reduce / radix == 0 ==> [Symbol(reduce % radix)] + t == Digits(u, radix)
  {
    if reduce < radix {
      SmallQuotient(reduce, radix);
      assert Digits(reduce, radix) == [Symbol(reduce)];
    } else {
      Quotient(reduce, radix);
      DivShrinks(reduce, radix);
      TextAppend(DigitsOf(reduce / radix, radix), [reduce % radix]);
      assert Text([reduce % radix]) == [Symbol(reduce % radix)];
      Join(Digits(reduce / radix, radix), [Symbol(reduce % radix)], t);
    }
  }

  lemma Join<T>(a: seq<T>, b: seq<T>, c: seq<T>)
    ensures a + b + c == a + (b + c)
  {
  }

  /** Where the printer is: `w` is what stands at the end of the buffer, `t` the digits in it, `until` the digits
      until the next separator. */
  ghost predicate Writing(w: seq<Byte>, t: seq<Byte>, until: nat, g: nat, sep: Byte)
    requires g > 0
  {
    if sep == 0 then w == t
    else if t == [] then w == [] && until == g
    else if until == g then |t| % g == 0 && w == [sep] + Grouped(t, g, sep)
    else until < g && (|t| + until) % g == 0 && w == Grouped(t, g, sep)
  }

  lemma WriteDigit(w: seq<Byte>, t: seq<Byte>, until: nat, g: nat, sep: Byte, x: Byte, until': nat)
    requires (g == 3 || g == 4) && Writing(w, t, until, g, sep) && (until > 0 || sep == 0)
    requires sep != 0 ==> until' == until - 1
    ensures Writing([x] + w, [x] + t, until', g, sep) && (sep != 0 ==> until' < g)
  {
    hide Grouped;
    if sep != 0 {
      GroupMore(x, t, g, sep);
      GroupedShort([], g, sep);
      Remainders(|t|, until, g);
      assert [x, sep] + Grouped(t, g, sep) == [x] + ([sep] + Grouped(t, g, sep));
    }
  }

  lemma Remainders(n: nat, until: nat, g: nat)
    requires (g == 3 || g == 4) && 0 < until <= g
    ensures until < g && (n + until) % g == 0 ==> n % g != 0
    ensures n % g == 0 ==> (n + g) % g == 0
  {
  }

  lemma WriteSeparator(w: seq<Byte>, t: seq<Byte>, g: nat, sep: Byte)
    requires (g == 3 || g == 4) && Writing(w, t, 0, g, sep) && sep != 0
    ensures t != [] && Writing([sep] + w, t, g, g, sep)
  {
  }

  /** There is room for one more byte as long as a digit is missing. */
  lemma RoomLeft(w: seq<Byte>, t: seq<Byte>, until: nat, g: nat, sep: Byte, n: nat, size: nat)
    requires (g == 3 || g == 4) && Writing(w, t, until, g, sep) && |t| < n && size >= n + Separators(n, g, sep)
    ensures |w| < size
  {
    if sep != 0 && t != [] {
      GroupedSize(t, g, sep);
    }
  }

  /** When the last digit is out, what was written is all of the digits in groups. */
  lemma AllWritten(w: seq<Byte>, t: seq<Byte>, until: nat, g: nat, sep: Byte)
    requires (g == 3 || g == 4) && Writing(w, t, until, g, sep) && t != [] && (sep == 0 || until < g)
    ensures w == Grouped(t, g, sep)
  {
  }

  /** The digits, from the right, into the end of a buffer. */
  method FillDigits(str: array<Byte>, size: nat, u: nat, radix: nat, sep: Byte)
    requires size + 1 == str.Length && 2 <= radix <= 16
    requires size >= |Digits(u, radix)| + Separators(|Digits(u, radix)|, GroupSize(radix), sep)
    modifies str
    ensures |Grouped(Digits(u, radix), GroupSize(radix), sep)| <= size
    ensures str[size - |Grouped(Digits(u, radix), GroupSize(radix), sep)|..size]
            == Grouped(Digits(u, radix), GroupSize(radix), sep)
    ensures str[..size - |Grouped(Digits(u, radix), GroupSize(radix), sep)|]
         == old(str[..])[..size - |Grouped(Digits(u, radix), GroupSize(radix), sep)|]
    ensures str[size] == old(str[size])
  {
    hide *;
    var g := GroupSize(radix);
    var reduce: nat, until: nat, idx: nat := u, g, 0;
    ghost var t: seq<Byte> := [];
    Start(u, radix, g, sep);
    assert str[size..size] == [];
    while idx < size
      invariant idx < size && (t != [] ==> reduce > 0)
      invariant Writing(str[size - idx..size], t, until, g, sep) && Partial(u, reduce, radix, t)
      invariant str[size] == old(str[size]) && str[..size - idx] == old(str[..])[..size - idx]
      decreases size - idx
    {
      ghost var w := str[size - idx..size];
      ghost var left := str[..size - idx];
      if until == 0 && sep != 0 {
        WriteSeparator(w, t, g, sep);
        str[size - idx - 1] := sep;
        until := g + 1;
        assert str[size - idx - 1..size] == [sep] + w;
      } else {
        DivBounds(reduce, radix);
        NextDigit(u, reduce, radix, t);
        var x := Symbol(reduce % radix);
        WriteDigit(w, t, until, g, sep, x, if until == 0 then U64_MAX else until - 1);
        t := [x] + t;
        str[size - idx - 1] := x;
        reduce := reduce / radix;
        assert str[size - idx - 1..size] == [x] + w;
      }
      assert str[..size - idx - 1] == left[..size - idx - 1];
      until := if until == 0 then U64_MAX else until - 1;
      idx := idx + 1;
      if reduce == 0 {
        break;
      }
      Missing(u, reduce, radix, t);
      RoomLeft(str[size - idx..size], t, until, g, sep, |Digits(u, radix)|, size);
    }
    AllWritten(str[size - idx..size], t, until, g, sep);
    assert t == Digits(u, radix);
  }

  lemma Missing(u: nat, reduce: nat, radix: nat, t: seq<Byte>)
    requires 2 <= radix <= 16 && Partial(u, reduce, radix, t)
    ensures |t| < |Digits(u, radix)|
  {
  }

  lemma Start(u: nat, radix: nat, g: nat, sep: Byte)
    requires 2 <= radix <= 16 && g > 0
    ensures Writing([], [], g, g, sep) && Partial(u, u, radix, []) && |Digits(u, radix)| > 0
  {
  }

  lemma NeededSeparators(total: nat, g: nat)
    requires (g == 3 || g == 4) && total > 0
    ensures (total - 1) / g == if total / g > 0 && total % g == 0 then total / g - 1 else total / g
  {
  }

  lemma GapIsRoom(u: nat, radix: nat, min: nat, sep: Byte)
    requires 2 <= radix <= 16
    ensures Gap(u, radix, min, sep) >= 0
    ensures sep == 0 || min <= |Digits(u, radix)| ==> Gap(u, radix, min, sep) == 0
  {
    hide Digits;
    var g, n := GroupSize(radix), |Digits(u, radix)|;
    if sep != 0 && n > 0 {
      DivMono(n - 1, n + Zeros(u, radix, min) - 1, g);
    }
  }

  lemma DivMono(a: nat, b: nat, g: nat)
    requires (g == 3 || g == 4) && a <= b
    ensures a / g <= b / g
  {
  }

  /** What stood in memory from `at` on. */
  function Left(was: nat -> Byte, at: nat, n: nat): (s: seq<Byte>)
    ensures |s| == n && forall i | 0 <= i < n :: s[i] == was(at + i)
  {
    seq(n, i requires 0 <= i < n => was(at + i))
  }

  /** The text that is returned: prefix, zeros, the bytes that room was made for and that were in memory before, and
      the digits in groups. */
  function Rendered(u: nat, radix: nat, min: nat, sep: Byte, was: nat -> Byte): seq<Byte>
    requires 2 <= radix <= 16
  {
    GapIsRoom(u, radix, min, sep);
    var front := RadixPrefix(radix) + Repeat(CHAR_0, Zeros(u, radix, min));
    front + Left(was, |front|, Gap(u, radix, min, sep)) + Grouped(Digits(u, radix), GroupSize(radix), sep)
  }

  /** Every byte is written, whatever was in memory, exactly when no separator would fall among the leading zeros; then
      it is the text that is meant. */
  lemma WrittenExactly(u: nat, radix: nat, min: nat, sep: Byte)
    requires 2 <= radix <= 16
    ensures (forall was, was' :: Rendered(u, radix, min, sep, was) == Rendered(u, radix, min, sep, was'))
      <==> Gap(u, radix, min, sep) == 0
    ensures Gap(u, radix, min, sep) == 0
            ==> forall was :: Rendered(u, radix, min, sep, was) == Printed(u, radix, min, sep)
  {
    GapIsRoom(u, radix, min, sep);
    var front := RadixPrefix(radix) + Repeat(CHAR_0, Zeros(u, radix, min));
    var digits := Grouped(Digits(u, radix), GroupSize(radix), sep);
    hide Grouped, Digits, RadixPrefix, Zeros;
    if Gap(u, radix, min, sep) > 0 {
      var a: nat -> Byte, b: nat -> Byte := _ => 0, _ => 1;
      assert Rendered(u, radix, min, sep, a)[|front|] == 0;
      assert Rendered(u, radix, min, sep, b)[|front|] == 1;
    } else {
      forall was: nat -> Byte ensures Rendered(u, radix, min, sep, was) == Printed(u, radix, min, sep) {
        assert front + Left(was, |front|, 0) == front;
      }
    }
  }

  /** The number 1 in four digits with commas is `000`, a byte of whatever was there, and `1`. */
  lemma OneIsLeftOut(was: nat -> Byte)
    ensures Gap(1, 10, 4, 44) == 1 && Rendered(1, 10, 4, 44, was) == [48, 48, 48, was(3), 49]
  {
    assert DigitsOf(1, 10) == [1];
    assert Digits(1, 10) == [49];
    assert Left(was, 3, 1) == [was(3)];
  }

  method Str8FromU64(u: nat, radix: nat, min: nat, sep: Byte, was: nat -> Byte) returns (result: seq<Byte>)
    requires u <= U64_MAX && 2 <= radix <= 16
    ensures result == Rendered(u, radix, min, sep, was)
  {
    hide *;
    var prefix, g := RadixPrefix(radix), GroupSize(radix);
    var n := CountDigits(u, radix);
    Plan(u, radix, min, sep, n);
    var zeros := if min > n then min - n else 0;
    var separators := NeededFor(n + zeros, g, sep);
    ghost var digits := Grouped(Digits(u, radix), g, sep);
    var size := |prefix| + zeros + separators + n;
    var str := new Byte[size + 1](i => was(i));
    ghost var before := str[..];
    str[size] := 0;
    ghost var begun := str[..];
    FillDigits(str, size, u, radix, sep);
    ghost var filled := str[..];
    FillRest(str, size, prefix, zeros);
    result := str[..size];
    Middle(str[..], filled, begun, |prefix| + zeros, size - |digits|, size);
    assert begun[|prefix| + zeros..size - |digits|] == before[|prefix| + zeros..size - |digits|];
    Assemble(u, radix, min, sep, was, result, prefix, zeros, before, size, digits);
  }

  /** The end of a buffer was filled up to `b`, then its front up to `a`. */
  lemma Middle(s: seq<Byte>, filled: seq<Byte>, begun: seq<Byte>, a: nat, b: nat, size: nat)
    requires a <= b <= size <= |s| == |filled| == |begun|
    requires s[a..size] == filled[a..size] && filled[..b] == begun[..b]
    ensures s[..size][a..b] == begun[a..b] && s[..size][b..] == filled[b..size] && s[..size][..a] == s[..a]
  {
    forall k | a <= k < b ensures s[k] == begun[k] {
      assert s[a..size][k - a] == filled[a..size][k - a];
      assert filled[..b][k] == begun[..b][k];
    }
    forall k | b <= k < size ensures s[k] == filled[k] {
      assert s[a..size][k - a] == filled[a..size][k - a];
    }
  }

  lemma Assemble(u: nat, radix: nat, min: nat, sep: Byte, was: nat -> Byte, result: seq<Byte>, prefix: seq<Byte>,
                 zeros: nat,
                 before: seq<Byte>, size: nat, digits: seq<Byte>)
    requires 2 <= radix <= 16 && prefix == RadixPrefix(radix) && zeros == Zeros(u, radix, min)
    requires digits == Grouped(Digits(u, radix), GroupSize(radix), sep)
    requires size == |prefix| + zeros + |digits| + Gap(u, radix, min, sep) && Gap(u, radix, min, sep) >= 0
    requires |before| > size && forall i | 0 <= i < size :: before[i] == was(i)
    requires |result| == size && result[..|prefix| + zeros] == prefix + Repeat(CHAR_0, zeros)
    requires result[|prefix| + zeros..size - |digits|] == before[|prefix| + zeros..size - |digits|]
    requires result[size - |digits|..] == digits
    ensures result == Rendered(u, radix, min, sep, was)
  {
    hide Grouped, Digits, RadixPrefix, Zeros, Gap;
    var a, b := |prefix| + zeros, size - |digits|;
    assert Left(was, a, b - a) == before[a..b];
    assert result == result[..a] + result[a..b] + result[b..];
  }

  method NeededFor(total: nat, g: nat, sep: Byte) returns (separators: nat)
    requires (g == 3 || g == 4) && total > 0
    ensures separators == Separators(total, g, sep)
  {
    separators := 0;
    if sep != 0 {
      separators := total / g;
      if separators > 0 && total % g == 0 {
        separators := separators - 1;
      }
      NeededSeparators(total, g);
    }
  }

  /** The sizes the printer computes. */
  lemma Plan(u: nat, radix: nat, min: nat, sep: Byte, n: nat)
    requires 2 <= radix <= 16 && n == |DigitsOf(u, radix)|
    ensures n == |Digits(u, radix)| > 0 && Zeros(u, radix, min) == (if min > n then min - n else 0)
    ensures 3 <= GroupSize(radix) <= 4 && Gap(u, radix, min, sep) >= 0
    ensures
      var g, zeros := GroupSize(radix), Zeros(u, radix, min);
      && |Printed(u, radix, min, sep)| == |RadixPrefix(radix)| + zeros + |Grouped(Digits(u, radix), g, sep)|
      && |Grouped(Digits(u, radix), g, sep)| == n + Separators(n, g, sep)
      && Printed(u, radix, min, sep) == RadixPrefix(radix) + Repeat(CHAR_0, zeros) + Grouped(Digits(u, radix), g, sep)
      && |Repeat(CHAR_0, zeros)| == zeros
      && Gap(u, radix, min, sep) == Separators(n + zeros, g, sep) - Separators(n, g, sep)
  {
    hide DigitsOf, Grouped, Text, Separators;
    GapIsRoom(u, radix, min, sep);
    GroupedSize(Digits(u, radix), GroupSize(radix), sep);
  }

  method FillRest(str: array<Byte>, size: nat, prefix: seq<Byte>, zeros: nat)
    requires size < str.Length && |prefix| + zeros <= size
    modifies str
    ensures str[..|prefix| + zeros] == prefix + Repeat(CHAR_0, zeros)
    ensures str[|prefix| + zeros..size] == old(str[..])[|prefix| + zeros..size]
  {
    var i := 0;
    while i < zeros
      invariant 0 <= i <= zeros && str[|prefix|..|prefix| + i] == Repeat(CHAR_0, i)
      invariant str[|prefix| + zeros..size] == old(str[..])[|prefix| + zeros..size]
    {
      str[|prefix| + i] := CHAR_0;
      i := i + 1;
    }
    i := 0;
    while i < |prefix|
      invariant 0 <= i <= |prefix| && str[..i] == prefix[..i]
      invariant str[|prefix|..|prefix| + zeros] == Repeat(CHAR_0, zeros)
      invariant str[|prefix| + zeros..size] == old(str[..])[|prefix| + zeros..size]
    {
      str[i] := prefix[i];
      i := i + 1;
    }
    assert str[..|prefix| + zeros] == str[..|prefix|] + str[|prefix|..|prefix| + zeros];
  }

  // ---- the parser ----

  predicate IsInteger(s: seq<Byte>, radix: nat) {
    s != [] && 1 < radix <= 16 && forall i | 0 <= i < |s| :: s[i] < 0x80 && SymbolValue(s[i]) < radix
  }

  method Str8IsInteger(s: seq<Byte>, radix: nat) returns (result: bool)
    ensures result == IsInteger(s, radix)
  {
    result := false;
    if |s| > 0 && 1 < radix <= 16 {
      result := true;
      var i := 0;
      while i < |s|
        invariant 0 <= i <= |s| && result && forall j | 0 <= j < i :: s[j] < 0x80 && SymbolValue(s[j]) < radix
      {
        if !(s[i] < 0x80) || SymbolValue(s[i]) >= radix {
          result := false;
          break;
        }
        i := i + 1;
      }
    }
  }

  method U64FromStr8(s: seq<Byte>, radix: nat) returns (x: nat)
    requires 1 < radix <= 16
    ensures x == ParseU64(s, radix) == ValueOf(ValuesOf(s), radix) % (U64_MAX + 1)
  {
    hide SymbolValue, ValueOf;
    ParseModulo(s, radix);
    x := 0;
    var i := 0;
    while i < |s|
      invariant 0 <= i <= |s| && x == ParseU64(s[..i], radix)
    {
      assert s[..i + 1][..i] == s[..i];
      x := (x * radix + SymbolValue(s[i])) % (U64_MAX + 1);
      i := i + 1;
    }
    assert s[..|s|] == s;
  }

  predicate Marked(s: seq<Byte>, letter: Byte)
    requires 97 <= letter <= 122
  {
    |s| >= 2 && s[0] == CHAR_0 && (s[1] == letter || s[1] == letter - 32)
  }

  /** Hexadecimal or binary behind a marked prefix, octal behind a zero that is not alone, decimal otherwise. */
  function Parsed(s: seq<Byte>): Option<nat> {
    var (radix, skip) :=
      if Marked(s, CHAR_X) then (16, 2) else if Marked(s, CHAR_B) then (2, 2)
      else if |s| > 1 && s[0] == CHAR_0 then (8, 1) else (10, 0);
    if IsInteger(s[skip..], radix) then Some(ParseU64(s[skip..], radix)) else None
  }

  method TryU64FromStr8(s: seq<Byte>) returns (r: Option<nat>)
    ensures r == Parsed(s)
  {
    var radix, skip := 10, 0;
    if Marked(s, CHAR_X) {
      radix, skip := 16, 2;
    } else if Marked(s, CHAR_B) {
      radix, skip := 2, 2;
    } else if |s| > 1 && s[0] == CHAR_0 {
      radix, skip := 8, 1;
    }
    var ok := Str8IsInteger(s[skip..], radix);
    r := None;
    if ok {
      var x := U64FromStr8(s[skip..], radix);
      r := Some(x);
    }
  }

  // ---- print, then parse ----

  predicate Below(d: seq<nat>, radix: nat) { forall i | 0 <= i < |d| :: d[i] < radix }

  lemma TextIsInteger(d: seq<nat>, radix: nat)
    requires 1 < radix <= 16 && d != [] && Below(d, 16)
    ensures IsInteger(Text(d), radix) <==> Below(d, radix)
  {
    forall i | 0 <= i < |d| ensures Text(d)[i] < 0x80 && SymbolValue(Text(d)[i]) == d[i] {
      SymbolsAgree(d[i]);
    }
    hide SymbolValue, Symbol;
    if IsInteger(Text(d), radix) {
      forall i | 0 <= i < |d| ensures d[i] < radix {
        assert SymbolValue(Text(d)[i]) < radix;
      }
    }
  }

  /** Zeros on the left of a number. */
  function Pad(d: seq<nat>, zeros: nat): (p: seq<nat>)
    ensures |p| == zeros + |d|
  {
    if zeros == 0 then d else [0] + Pad(d, zeros - 1)
  }

  lemma {:induction false} PadBelow(d: seq<nat>, zeros: nat, radix: nat)
    requires radix > 0
    ensures Below(Pad(d, zeros), radix) <==> Below(d, radix)
  {
    if zeros > 0 {
      PadBelow(d, zeros - 1, radix);
      var p := Pad(d, zeros - 1);
      assert forall i | 0 <= i < |p| :: p[i] == Pad(d, zeros)[i + 1];
    }
  }

  lemma {:induction false} PadText(d: seq<nat>, zeros: nat)
    requires Below(d, 16)
    ensures Below(Pad(d, zeros), 16) && Text(Pad(d, zeros)) == Repeat(CHAR_0, zeros) + Text(d)
  {
    if zeros > 0 {
      PadText(d, zeros - 1);
    }
  }

  lemma {:induction false} ZeroFirst(d: seq<nat>, radix: nat)
    ensures ValueOf([0] + d, radix) == ValueOf(d, radix)
  {
    if d != [] {
      ZeroFirst(d[..|d| - 1], radix);
      assert ([0] + d)[..|d|] == [0] + d[..|d| - 1];
    } else {
      assert ValueOf([0], radix) == ValueOf([], radix) * radix + 0;
    }
  }

  lemma {:induction false} PadValue(d: seq<nat>, zeros: nat, radix: nat)
    ensures ValueOf(Pad(d, zeros), radix) == ValueOf(d, radix)
  {
    if zeros > 0 {
      PadValue(d, zeros - 1, radix);
      ZeroFirst(Pad(d, zeros - 1), radix);
    }
  }

  function Padded0(d: seq<nat>, zeros: nat): seq<Byte>
    requires Below(d, 16)
  {
    Repeat(CHAR_0, zeros) + Text(d)
  }

  /** Padded digits in one radix, parsed in another. */
  lemma PaddedParses(d: seq<nat>, zeros: nat, radix: nat)
    requires 1 < radix <= 16 && d != [] && Below(d, 16) && ValueOf(d, radix) <= U64_MAX
    ensures IsInteger(Padded0(d, zeros), radix) <==> Below(d, radix)
    ensures Below(d, radix) ==> ParseU64(Padded0(d, zeros), radix) == ValueOf(d, radix)
  {
    var p := Pad(d, zeros);
    PadText(d, zeros);
    PadBelow(d, zeros, radix);
    PadValue(d, zeros, radix);
    hide ValueOf, Pad, Text, IsInteger, ParseU64;
    TextIsInteger(p, radix);
    if Below(d, radix) {
      ParseText(p, radix);
    }
  }

  lemma DigitsBelow(u: nat, radix: nat)
    requires 1 < radix <= 16
    ensures Below(DigitsOf(u, radix), radix) && Below(DigitsOf(u, radix), 16) && DigitsOf(u, radix) != []
    ensures ValueOf(DigitsOf(u, radix), radix) == u
  {
    ValueOfDigits(u, radix);
    hide ValueOf;
  }

  lemma PrintedIs(u: nat, radix: nat, min: nat)
    requires 2 <= radix <= 16
    ensures Below(DigitsOf(u, radix), 16)
    ensures Printed(u, radix, min, 0) == RadixPrefix(radix) + Padded0(DigitsOf(u, radix), Zeros(u, radix, min))
  {
    DigitsBelow(u, radix);
    hide DigitsOf, Text, Zeros;
  }

  /** In radix 2 and 16 every number comes back, with any number of leading zeros. */
  lemma PrefixedRoundTrip(u: nat, radix: nat, min: nat)
    requires u <= U64_MAX && (radix == 2 || radix == 16)
    ensures Parsed(Printed(u, radix, min, 0)) == Some(u)
  {
    hide DigitsOf, ValueOf, Below, Padded0, Zeros, IsInteger, ParseU64, Printed;
    DigitsBelow(u, radix);
    PrintedIs(u, radix, min);
    var d, zeros := DigitsOf(u, radix), Zeros(u, radix, min);
    PaddedParses(d, zeros, radix);
    assert Printed(u, radix, min, 0)[2..] == Padded0(d, zeros);
  }

  /** Octal is printed with a prefix the parser does not know. */
  lemma OctalIsLost(u: nat, min: nat)
    ensures Parsed(Printed(u, 8, min, 0)) == None
  {
    var s := Printed(u, 8, min, 0);
    assert s[1..][0] == CHAR_O;
    assert SymbolValue(CHAR_O) == 0xFF;
    assert !IsInteger(s[1..], 8);
  }

  lemma {:induction false} FirstDigit(u: nat, radix: nat)
    requires radix > 1 && u > 0
    ensures DigitsOf(u, radix)[0] > 0
    decreases u
  {
    if u >= radix {
      Quotient(u, radix);
      DivShrinks(u, radix);
      FirstDigit(u / radix, radix);
    }
  }

  lemma {:induction false} SmallerRadix(d: seq<nat>, radix: nat, small: nat)
    requires 0 < small < radix
    ensures ValueOf(d, small) <= ValueOf(d, radix)
    ensures d != [] && d[0] > 0 ==> ValueOf(d, small) > 0
    ensures |d| > 1 && d[0] > 0 ==> ValueOf(d, small) < ValueOf(d, radix)
  {
    if d != [] {
      var rest := d[..|d| - 1];
      SmallerRadix(rest, radix, small);
      Products(ValueOf(rest, small), ValueOf(rest, radix), small, radix);
      if |d| == 1 {
        assert ValueOf(d, small) == d[0];
      } else {
        assert rest[0] == d[0];
      }
    }
  }

  lemma Products(a: nat, b: nat, small: nat, radix: nat)
    requires a <= b && small < radix
    ensures a * small <= b * radix
    ensures a > 0 ==> a * small < b * radix
    ensures a > 0 && small > 0 ==> a * small > 0
  {
    MulMono(a, b, radix);
    assert a * radix == a * small + a * (radix - small);
  }

  /** In radix 10 a number comes back exactly when it is not padded, or a single digit that is the same in octal. */
  lemma DecimalRoundTrip(u: nat, min: nat)
    requires u <= U64_MAX
    ensures Parsed(Printed(u, 10, min, 0)) == Some(u) <==> u < 8 || min <= |Digits(u, 10)|
  {
    hide DigitsOf, ValueOf, Padded0, IsInteger, ParseU64, Printed, Text, Below;
    DigitsBelow(u, 10);
    PrintedIs(u, 10, min);
    var d, zeros := DigitsOf(u, 10), Zeros(u, 10, min);
    assert Printed(u, 10, min, 0) == Padded0(d, zeros);
    if zeros == 0 {
      NotPadded(u, d);
      PaddedParses(d, 0, 10);
    } else {
      SmallerRadix(d, 10, 8);
      PaddedParses(d, zeros - 1, 8);
      OctalDigits(u);
      PaddedTail(d, zeros);
    }
  }

  lemma PaddedTail(d: seq<nat>, zeros: nat)
    requires Below(d, 16) && Below(d, 10) && d != [] && zeros > 0
    ensures
      var s := Padded0(d, zeros);
      |s| > 1 && s[0] == CHAR_0 && s[1..] == Padded0(d, zeros - 1) && !Marked(s, CHAR_X) && !Marked(s, CHAR_B)
  {
    assert Text(d)[0] == 48 + d[0];
  }

  /** A decimal number without padding is not taken for another radix. */
  lemma NotPadded(u: nat, d: seq<nat>)
    requires d == DigitsOf(u, 10) && Below(d, 16) && Below(d, 10)
    ensures
      var s := Padded0(d, 0);
      s[0..] == s && !Marked(s, CHAR_X) && !Marked(s, CHAR_B) && !(|s| > 1 && s[0] == CHAR_0)
  {
    var s := Padded0(d, 0);
    assert s == Text(d);
    if u > 0 {
      FirstDigit(u, 10);
      hide DigitsOf;
      assert s[0] == 48 + d[0];
    }
  }

  lemma OctalDigits(u: nat)
    ensures Below(DigitsOf(u, 10), 8) && ValueOf(DigitsOf(u, 10), 8) == u <==> u < 8
  {
    var d := DigitsOf(u, 10);
    ValueOfDigits(u, 10);
    if u < 10 {
      assert d == [u];
      assert ValueOf([u], 8) == ValueOf([], 8) * 8 + u;
    } else {
      FirstDigit(u, 10);
      SmallerRadix(d, 10, 8);
    }
  }

  // ---- the printed text, place by place ----

  function FromRight(s: seq<Byte>, d: nat): Byte
    requires d < |s|
  {
    s[|s| - 1 - d]
  }

  predicate Separates(d: nat, g: nat)
    requires g == 3 || g == 4
  {
    if g == 3 then d % 4 == 3 else d % 5 == 4
  }

  lemma JoinedFromRight(a: seq<Byte>, x: Byte, b: seq<Byte>, d: nat)
    requires d < |a + [x] + b|
    ensures FromRight(a + [x] + b, d) == if d < |b| then FromRight(b, d) else if d == |b| then x
                                         else FromRight(a, d - |b| - 1)
  {
  }

  lemma NextSeparates(d: nat, g: nat)
    requires g == 3 || g == 4
    ensures d < g ==> !Separates(d, g)
    ensures d == g ==> Separates(d, g)
    ensures d > g ==> (Separates(d, g) <==> Separates(d - g - 1, g))
  {
  }

  /** Counted from the right, exactly every place behind a full group is a separator. */
  lemma {:induction false} SeparatorAt(t: seq<Byte>, g: nat, sep: Byte, d: nat)
    requires (g == 3 || g == 4) && sep != 0 && d < |Grouped(t, g, sep)|
    ensures if Separates(d, g) then FromRight(Grouped(t, g, sep), d) == sep else FromRight(Grouped(t, g, sep), d) in t
    decreases |t|
  {
    hide *;
    NextSeparates(d, g);
    if |t| <= g {
      NotGrouped(t, g, sep);
      FromRightIn(t, d);
    } else {
      var head, tail := t[..|t| - g], t[|t| - g..];
      assert t == head + tail;
      GroupedLong(t, g, sep, head, tail);
      JoinedFromRight(Grouped(head, g, sep), sep, tail, d);
      if d < g {
        FromRightIn(tail, d);
      } else if d > g {
        SeparatorAt(head, g, sep, d - g - 1);
      }
    }
  }

  lemma FromRightIn(s: seq<Byte>, d: nat)
    requires d < |s|
    ensures FromRight(s, d) in s
  {
  }

  predicate IsDigitText(t: seq<Byte>) { forall c | c in t :: 48 <= c <= 57 || 97 <= c <= 102 }

  lemma DigitsAreText(u: nat, radix: nat)
    requires 2 <= radix <= 16
    ensures IsDigitText(Digits(u, radix)) && Digits(u, radix) != []
  {
    hide DigitsOf;
  }

  /** What is printed in the four radices: the prefix, then lower-case digits, with a separator behind every three
      decimal digits from the right, or behind every four others. */
  lemma PrintedPlaces(u: nat, radix: nat, sep: Byte, d: nat)
    requires (radix == 2 || radix == 8 || radix == 10 || radix == 16) && sep != 0
    ensures
      var p, k := Printed(u, radix, 0, sep), if radix == 10 then 0 else 2;
      && |p| > k
      && (radix != 10 ==> p[0] == 48 && p[1] == if radix == 16 then 120 else if radix == 8 then 111 else 98)
      && (d < |p| - k ==>
            if (if radix == 10 then d % 4 == 3 else d % 5 == 4) then p[|p| - 1 - d] == sep
            else 48 <= p[|p| - 1 - d] <= 57 || 97 <= p[|p| - 1 - d] <= 102)
  {
    var t, g := Digits(u, radix), GroupSize(radix);
    DigitsAreText(u, radix);
    GroupedSize(t, g, sep);
    PrintedParts(u, radix, sep);
    hide Printed, Grouped, Digits;
    if d < |Grouped(t, g, sep)| {
      SeparatorAt(t, g, sep, d);
    }
  }

  lemma PrintedParts(u: nat, radix: nat, sep: Byte)
    requires 2 <= radix <= 16
    ensures Printed(u, radix, 0, sep) == RadixPrefix(radix) + Grouped(Digits(u, radix), GroupSize(radix), sep)
  {
    hide Grouped, Digits;
  }

  /** Zeros fill the text up to the width that is asked for, and no further. */
  lemma PrintedWidth(u: nat, radix: nat, min: nat)
    requires 2 <= radix <= 16
    ensures |Printed(u, radix, min, 0)| == |RadixPrefix(radix)| + if min > |DigitsOf(u, radix)| then min
                                                                else |DigitsOf(u, radix)|
  {
  }

  // ---- any text ----

  function Lower(c: Byte): Byte { if 65 <= c <= 90 then c + 32 else c }

  function Lowered(s: seq<Byte>): (t: seq<Byte>)
    ensures |t| == |s| && forall i | 0 <= i < |s| :: t[i] == Lower(s[i])
  {
    seq(|s|, i requires 0 <= i < |s| => Lower(s[i]))
  }

  lemma SameDigit(c: Byte)
    ensures SymbolValue(Lower(c)) == SymbolValue(c) && (Lower(c) < 0x80 <==> c < 0x80)
  {
  }

  lemma {:induction false} SameValue(s: seq<Byte>, radix: nat)
    ensures ParseU64(Lowered(s), radix) == ParseU64(s, radix)
  {
    if s != [] {
      var n := |s| - 1;
      SameDigit(s[n]);
      assert Lowered(s)[..n] == Lowered(s[..n]);
      SameValue(s[..n], radix);
    }
  }

  lemma SameInteger(s: seq<Byte>, radix: nat)
    ensures IsInteger(Lowered(s), radix) <==> IsInteger(s, radix)
  {
    forall i | 0 <= i < |s|
      ensures SymbolValue(Lowered(s)[i]) == SymbolValue(s[i]) && (Lowered(s)[i] < 0x80 <==> s[i] < 0x80)
    {
      SameDigit(s[i]);
    }
    hide SymbolValue, Lower;
    if IsInteger(Lowered(s), radix) {
      forall i | 0 <= i < |s| ensures s[i] < 0x80 && SymbolValue(s[i]) < radix {
        assert Lowered(s)[i] < 0x80 && SymbolValue(Lowered(s)[i]) < radix;
      }
    }
  }

  lemma SameBehind(s: seq<Byte>, skip: nat, radix: nat)
    requires skip <= |s|
    ensures ParseU64(Lowered(s)[skip..], radix) == ParseU64(s[skip..], radix)
    ensures IsInteger(Lowered(s)[skip..], radix) <==> IsInteger(s[skip..], radix)
  {
    assert Lowered(s)[skip..] == Lowered(s[skip..]);
    SameValue(s[skip..], radix);
    SameInteger(s[skip..], radix);
  }

  lemma SameMarks(s: seq<Byte>)
    ensures Marked(Lowered(s), CHAR_X) <==> Marked(s, CHAR_X)
    ensures Marked(Lowered(s), CHAR_B) <==> Marked(s, CHAR_B)
    ensures |s| > 0 ==> (Lowered(s)[0] == CHAR_0 <==> s[0] == CHAR_0)
  {
  }

  /** Letters of a number may be of either case, those of its prefix included. */
  lemma CaseDoesNotMatter(s: seq<Byte>)
    ensures Parsed(Lowered(s)) == Parsed(s)
  {
    hide ParseU64, IsInteger, Marked, Lowered;
    SameMarks(s);
    if Marked(s, CHAR_X) {
      IsMarked(s, CHAR_X);
      SameBehind(s, 2, 16);
    } else if Marked(s, CHAR_B) {
      IsMarked(s, CHAR_B);
      SameBehind(s, 2, 2);
    } else if |s| > 1 && s[0] == CHAR_0 {
      SameBehind(s, 1, 8);
    } else {
      SameBehind(s, 0, 10);
    }
  }

  lemma IsMarked(s: seq<Byte>, letter: Byte)
    requires 97 <= letter <= 122 && Marked(s, letter)
    ensures |s| >= 2
  {
  }

  /** Only digits and the letters of digits and prefixes make a number, and there must be a digit. */
  lemma OnlyDigits(s: seq<Byte>, i: nat)
    requires Parsed(s).Some? && i < |s|
    ensures 48 <= s[i] <= 57 || 97 <= Lower(s[i]) <= 102 || (i == 1 && Lower(s[i]) == 120)
    ensures 48 <= s[|s| - 1] <= 57 || 97 <= Lower(s[|s| - 1]) <= 102
  {
    var (radix, skip) :=
      if Marked(s, CHAR_X) then (16, 2) else if Marked(s, CHAR_B) then (2, 2)
      else if |s| > 1 && s[0] == CHAR_0 then (8, 1) else (10, 0);
    var t := s[skip..];
    assert t[|t| - 1] == s[|s| - 1];
    if i >= skip {
      assert t[i - skip] == s[i];
    }
  }
}
