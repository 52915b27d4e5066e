/** Bytes, the integers laid out in them, and digits. */
module Bytes {
  import opened Basics

  const U16_MAX: nat := 0xFFFF
  const U32_MAX: nat := 0xFFFF_FFFF
  const U64_MAX: nat := 0xFFFF_FFFF_FFFF_FFFF

  const SPACE: Byte := 32
  const NEWLINE: Byte := 10
  const SLASH: Byte := 47

  function Repeat(b: Byte, n: nat): (r: seq<Byte>)
    ensures |r| == n && forall i | 0 <= i < n :: r[i] == b
  {
    seq(n, _ => b)
  }

  /** A range of bytes, clamped to what there is. */
  function Slice(s: seq<Byte>, from: nat, to: nat): seq<Byte> {
    if Min(from, |s|) <= Min(to, |s|) then s[Min(from, |s|)..Min(to, |s|)] else []
  }

  /** The three parts of a concatenation. */
  lemma Parts<T>(a: seq<T>, b: seq<T>, c: seq<T>)
    ensures
      var s := a + b + c;
      && s[..|a|] == a && s[|a|..|a| + |b|] == b && s[|a| + |b|..] == c && |s| == |a| + |b| + |c|
      && s == a + (b + c)
  {
  }

  /** A piece of a piece. */
  lemma Piece<T>(s: seq<T>, b: seq<T>, from: nat, i: nat, j: nat)
    requires from + |b| <= |s| && s[from..from + |b|] == b && i <= j <= |b|
    ensures s[from + i..from + j] == b[i..j]
  {
    forall k | i <= k < j ensures s[from + k] == b[k] {
      assert s[from..from + |b|][k] == b[k];
    }
  }

  /** A number is read off the four bytes it stands in. */
  lemma Read32At(s: seq<Byte>, off: nat, x: nat)
    requires off + 4 <= |s| && x <= U32_MAX && s[off..off + 4] == LE32(x)
    ensures Read32(s, off) == x
  {
    ReadLE32(x);
    var t := s[off..off + 4];
    assert s[off] == t[0] && s[off + 1] == t[1] && s[off + 2] == t[2] && s[off + 3] == t[3];
  }

  lemma ReadBE32At(s: seq<Byte>, off: nat, x: nat)
    requires off + 4 <= |s| && x <= U32_MAX && s[off..off + 4] == BE32(x)
    ensures ReadBE32(s, off) == x
  {
    ReadsBE32(x);
    var t := s[off..off + 4];
    assert s[off] == t[0] && s[off + 1] == t[1] && s[off + 2] == t[2] && s[off + 3] == t[3];
  }

  lemma Read16At(s: seq<Byte>, off: nat, x: nat)
    requires off + 2 <= |s| && x <= U16_MAX && s[off..off + 2] == LE16(x)
    ensures Read16(s, off) == x
  {
    ReadLE16(x);
    var t := s[off..off + 2];
    assert s[off] == t[0] && s[off + 1] == t[1];
  }

  // ---- fixed-width integers ----

  function LE16(x: nat): (s: seq<Byte>)
    requires x <= U16_MAX
    ensures |s| == 2
  {
    var high: int := x / 0x100;
    [x % 0x100, high]
  }

  function LE32(x: nat): (s: seq<Byte>)
    requires x <= U32_MAX
    ensures |s| == 4
  {
    var a: int := x / 0x100;
    var b: int := a / 0x100;
    var c: int := b / 0x100;
    [x % 0x100, a % 0x100, b % 0x100, c]
  }

  function BE32(x: nat): (s: seq<Byte>)
    requires x <= U32_MAX
    ensures |s| == 4
  {
    var s := LE32(x);
    [s[3], s[2], s[1], s[0]]
  }

  function Read16(s: seq<Byte>, off: nat): nat
    requires off + 2 <= |s|
  {
    var low: int, high: int := s[off], s[off + 1];
    low + 0x100 * high
  }

  function Read32(s: seq<Byte>, off: nat): nat
    requires off + 4 <= |s|
  {
    Read16(s, off) + 0x1_0000 * Read16(s, off + 2)
  }

  function ReadBE32(s: seq<Byte>, off: nat): nat
    requires off + 4 <= |s|
  {
    Read32([s[off + 3], s[off + 2], s[off + 1], s[off]], 0)
  }

  lemma ReadLE16(x: nat)
    requires x <= U16_MAX
    ensures Read16(LE16(x), 0) == x
  {
  }

  lemma ReadLE32(x: nat)
    requires x <= U32_MAX
    ensures Read32(LE32(x), 0) == x
  {
  }

  lemma ReadsBE32(x: nat)
    requires x <= U32_MAX
    ensures ReadBE32(BE32(x), 0) == x
  {
    ReadLE32(x);
    assert [BE32(x)[3], BE32(x)[2], BE32(x)[1], BE32(x)[0]] == LE32(x);
  }

  // ---- digits ----

  function DigitsOf(n: nat, radix: nat): (d: seq<nat>)
    requires radix > 1
    ensures d != [] && forall i | 0 <= i < |d| :: d[i] < radix
    decreases n
  {
    if n < radix then [n] else DivShrinks(n, radix); DigitsOf(n / radix, radix) + [n % radix]
  }

  lemma DivShrinks(n: nat, radix: nat)
    requires 1 < radix <= n
    ensures n / radix < n
  {
    DivBounds(n, radix);
    if n / radix >= n {
      MulMono(2, radix, n);
      MulMono(n, n / radix, radix);
    }
  }

  function ValueOf(d: seq<nat>, radix: nat): nat {
    if d == [] then 0 else ValueOf(d[..|d| - 1], radix) * radix + d[|d| - 1]
  }

  lemma {:induction false} ValueOfDigits(n: nat, radix: nat)
    requires radix > 1
    ensures ValueOf(DigitsOf(n, radix), radix) == n
    decreases n
  {
    if n < radix {
      assert ValueOf([n], radix) == ValueOf([], radix) * radix + n;
    } else {
      DivShrinks(n, radix);
      DivBounds(n, radix);
      ValueOfDigits(n / radix, radix);
      assert DigitsOf(n, radix)[..|DigitsOf(n, radix)| - 1] == DigitsOf(n / radix, radix);
    }
  }

  /** A number below a power of the radix has no more digits than the exponent. */
  lemma {:induction false} FewDigits(n: nat, radix: nat, k: nat)
    requires radix > 1 && k > 0 && n < Pow(radix, k)
    ensures |DigitsOf(n, radix)| <= k
    decreases k
  {
    if n >= radix {
      assert k > 1 by {
        assert Pow(radix, 1) == radix * Pow(radix, 0);
      }
      assert n / radix < Pow(radix, k - 1) by {
        if n / radix >= Pow(radix, k - 1) {
          MulMono(Pow(radix, k - 1), n / radix, radix);
        }
      }
      FewDigits(n / radix, radix, k - 1);
    }
  }

  function Pow(b: nat, e: nat): nat { if e == 0 then 1 else b * Pow(b, e - 1) }

  // ---- zero-terminated strings ----

  /** The bytes before the first zero. */
  function CStr(s: seq<Byte>): (r: seq<Byte>)
    ensures |r| <= |s| && r == s[..|r|] && 0 !in r && (|r| < |s| ==> s[|r|] == 0)
  {
    if s == [] || s[0] == 0 then [] else [s[0]] + CStr(s[1..])
  }

  lemma {:induction false} CStrStops(name: seq<Byte>, rest: seq<Byte>)
    requires 0 !in name && (rest == [] || rest[0] == 0)
    ensures CStr(name + rest) == name
  {
    if name == [] {
      assert name + rest == rest;
    } else {
      assert (name + rest)[1..] == name[1..] + rest;
      CStrStops(name[1..], rest);
    }
  }

  // ---- digits as text ----

  /** The value of a character as a digit, by the table the parser uses; 0xFF for no digit. */
  function SymbolValue(c: Byte): nat {
    var x := c % 128;
    if 48 <= x <= 57 then x - 48
    else if 65 <= x <= 70 then x - 55
    else if 97 <= x <= 102 then x - 87
    else 0xFF
  }

  /** Digits as the printer writes them, letters in lower case. */
  function Symbol(d: nat): Byte
    requires d < 16
  {
    if d < 10 then 48 + d else 87 + d
  }

  function Text(d: seq<nat>): (s: seq<Byte>)
    requires forall i | 0 <= i < |d| :: d[i] < 16
    ensures |s| == |d| && forall i | 0 <= i < |d| :: s[i] == Symbol(d[i])
  {
    seq(|d|, i requires 0 <= i < |d| => Symbol(d[i]))
  }

  /** The unsigned parser: no check of the characters, and 64-bit wrap-around. */
  function ParseU64(s: seq<Byte>, radix: nat): nat {
    if s == [] then 0 else (ParseU64(s[..|s| - 1], radix) * radix + SymbolValue(s[|s| - 1])) % (U64_MAX + 1)
  }

  lemma SymbolsAgree(d: nat)
    requires d < 16
    ensures SymbolValue(Symbol(d)) == d
  {
  }

  function ValuesOf(s: seq<Byte>): (d: seq<nat>)
    ensures |d| == |s| && forall i | 0 <= i < |d| :: d[i] == SymbolValue(s[i])
  {
    seq(|s|, i requires 0 <= i < |s| => SymbolValue(s[i]))
  }

  /** The parser gives the positional value of any characters modulo 2^64, however many there are. */
  lemma {:induction false} ParseModulo(s: seq<Byte>, radix: nat)
    ensures ParseU64(s, radix) == ValueOf(ValuesOf(s), radix) % (U64_MAX + 1)
  {
    if s != [] {
      var last := |s| - 1;
      ParseModulo(s[..last], radix);
      assert ValuesOf(s)[..last] == ValuesOf(s[..last]);
      ModStep(ValueOf(ValuesOf(s[..last]), radix), radix, SymbolValue(s[last]), U64_MAX + 1);
    }
  }

  lemma ModStep(x: nat, radix: nat, digit: nat, m: nat)
    requires m > 0
    ensures (x % m * radix + digit) % m == (x * radix + digit) % m
  {
    var q := x / m;
    assert x * radix + digit == x % m * radix + digit + q * radix * m by {
      assert x == m * q + x % m;
    }
    ModMore(x % m * radix + digit, q * radix, m);
  }

  lemma ModMore(x: int, k: int, m: nat)
    requires m > 0
    ensures (x + k * m) % m == x % m
  {
    var q := (x + k * m) / m - x / m - k;
    assert q * m == x % m - (x + k * m) % m;
    if q >= 1 {
      MulMono(1, q, m);
    } else if q <= -1 {
      MulMono(1, -q, m);
    }
  }

  lemma ParseText(d: seq<nat>, radix: nat)
    requires 1 < radix <= 16 && (forall i | 0 <= i < |d| :: d[i] < radix) && ValueOf(d, radix) <= U64_MAX
    ensures ParseU64(Text(d), radix) == ValueOf(d, radix)
  {
    ParseModulo(Text(d), radix);
    forall i | 0 <= i < |d| ensures ValuesOf(Text(d))[i] == d[i] {
      SymbolsAgree(d[i]);
    }
    assert ValuesOf(Text(d)) == d;
  }

  /** Decimal text. */
  function Dec(n: nat): (s: seq<Byte>)
    ensures s != [] && forall i | 0 <= i < |s| :: 48 <= s[i] <= 57
  {
    Text(DigitsOf(n, 10))
  }

  lemma ParseDec(n: nat)
    requires n <= U64_MAX
    ensures ParseU64(Dec(n), 10) == n
  {
    ValueOfDigits(n, 10);
    ParseText(DigitsOf(n, 10), 10);
  }

  lemma PowersOfTen()
    ensures Pow(10, 4) == 10000 && Pow(10, 9) == 1000000000 && Pow(10, 10) == 10000000000
  {
    assert Pow(10, 1) == 10;
    assert Pow(10, 2) == 100;
    assert Pow(10, 3) == 1000;
    assert Pow(10, 4) == 10000;
    assert Pow(10, 5) == 100000;
    assert Pow(10, 6) == 1000000;
    assert Pow(10, 7) == 10000000;
    assert Pow(10, 8) == 100000000;
    assert Pow(10, 9) == 1000000000;
  }

  lemma DecLength(n: nat)
    ensures n <= U32_MAX ==> |Dec(n)| <= 10
    ensures n < 10000 ==> |Dec(n)| <= 4
    ensures n < 1000000000 ==> |Dec(n)| <= 9
  {
    PowersOfTen();
    if n < 10000 {
      FewDigits(n, 10, 4);
    }
    if n < 1000000000 {
      FewDigits(n, 10, 9);
    }
    if n <= U32_MAX {
      FewDigits(n, 10, 10);
    }
  }

  // ---- fields padded with spaces ----

  predicate IsSpace(c: Byte) { c == 32 || c == 10 || c == 9 || c == 13 || c == 12 || c == 11 }

  function SkipSpaces(s: seq<Byte>): seq<Byte> { if s != [] && IsSpace(s[0]) then SkipSpaces(s[1..]) else s }

  function ChopSpaces(s: seq<Byte>): seq<Byte> {
    if s != [] && IsSpace(s[|s| - 1]) then ChopSpaces(s[..|s| - 1]) else s
  }

  /** Text on the left of a field, spaces to its right; longer text is not cut. */
  function Padded(s: seq<Byte>, width: nat): (p: seq<Byte>)
    ensures |s| <= width ==> |p| == width
  {
    if |s| <= width then s + Repeat(SPACE, width - |s|) else s
  }

  /** How a field is read: up to a zero, without the spaces around. */
  function Field(s: seq<Byte>): seq<Byte> { ChopSpaces(SkipSpaces(CStr(s))) }

  /** What survives in a field of its own. */
  predicate FieldText(s: seq<Byte>, width: nat) {
    0 < |s| <= width && 0 !in s && !IsSpace(s[0]) && !IsSpace(s[|s| - 1])
  }

  lemma {:induction false} ChopPadding(s: seq<Byte>, n: nat)
    requires s != [] && !IsSpace(s[|s| - 1])
    ensures ChopSpaces(s + Repeat(SPACE, n)) == s
    decreases n
  {
    var t := s + Repeat(SPACE, n);
    if n == 0 {
      assert t == s;
    } else {
      ChopPadding(s, n - 1);
      assert t[..|t| - 1] == s + Repeat(SPACE, n - 1);
    }
  }

  lemma FieldOfPadded(s: seq<Byte>, width: nat)
    requires FieldText(s, width)
    ensures Field(Padded(s, width)) == s
  {
    var p := Padded(s, width);
    CStrStops(p, []);
    assert p + [] == p;
    assert SkipSpaces(p) == p;
    ChopPadding(s, width - |s|);
  }

  lemma DecIsField(n: nat, width: nat)
    requires |Dec(n)| <= width
    ensures FieldText(Dec(n), width)
  {
  }
}
