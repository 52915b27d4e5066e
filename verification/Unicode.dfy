/** UTF-8, UTF-16 and UTF-32. Shifts and masks are written as arithmetic; so is an or of fields with no bit in
    common. */
module Unicode {
  import opened Basics

  type Unit = u: int | 0 <= u < 0x1_0000
  type Code = c: int | 0 <= c < 0x1_0000_0000

  type Text8 = seq<Byte>
  type Text16 = seq<Unit>
  type Text32 = seq<Code>

  /** What the UTF-8 decoder returns for bytes that are no character. */
  const Bad: Code := 0xFFFF_FFFF

  datatype Decoded = Decoded(inc: nat, codepoint: Code)

  // ---- one character ----

  /** The class of a leading byte: 0 for continuations, 5 for none. */
  function Class(b: Byte): nat {
    if b < 0x80 then 1 else if b < 0xC0 then 0 else if b < 0xE0 then 2 else if b < 0xF0 then 3 else if b < 0xF8 then 4
      else 5
  }

  predicate IsCont(b: Byte) { Class(b) == 0 }

  /** The low six bits. */
  function Low6(b: Byte): int { b % 0x40 }

  function Utf8Decode(s: Text8): (d: Decoded)
    requires s != []
    ensures 1 <= d.inc <= |s| && d.inc <= 4
    ensures Encodable16(d.codepoint)
  {
    var b: int := s[0];
    match Class(s[0])
    case 1 => Decoded(1, b)
    case 2 =>
      if 1 < |s| && IsCont(s[1]) then Decoded(2, b % 0x20 * 0x40 + Low6(s[1])) else Decoded(1, Bad)
    case 3 =>
      if 2 < |s| && IsCont(s[1]) && IsCont(s[2])
      then Decoded(3, b % 0x10 * 0x1000 + Low6(s[1]) * 0x40 + Low6(s[2]))
      else Decoded(1, Bad)
    case 4 =>
      if 3 < |s| && IsCont(s[1]) && IsCont(s[2]) && IsCont(s[3])
      then Decoded(4, b % 0x08 * 0x4_0000 + Low6(s[1]) * 0x1000 + Low6(s[2]) * 0x40 + Low6(s[3]))
      else Decoded(1, Bad)
    case _ => Decoded(1, Bad)
  }

  /** A continuation byte with the low six bits of `x`. */
  function Cont(x: int): Byte { 0x80 + x % 0x40 }

  function Utf8Encode(c: Code): (s: Text8)
    ensures 1 <= |s| <= 4
  {
    var x: int := c;
    if x <= 0x7F then [x]
    else if x <= 0x7FF then [0xC0 + x / 0x40, Cont(x)]
    else if x <= 0xFFFF then [0xE0 + x / 0x1000, Cont(x / 0x40), Cont(x)]
    else if x <= 0x10_FFFF then [0xF0 + x / 0x4_0000, Cont(x / 0x1000), Cont(x / 0x40), Cont(x)]
    else [0x3F]
  }

  function Utf16Decode(s: Text16): (d: Decoded)
    requires s != []
    ensures 1 <= d.inc <= |s| && d.inc <= 2
    ensures d.codepoint <= 0xF_FFFF && (d.inc == 1 ==> d.codepoint <= 0xFFFF)
  {
    if 1 < |s| && IsHigh(s[0]) && IsLow(s[1]) then Decoded(2, PairValue(s[0], s[1]))
    else
      var u: int := s[0];
      Decoded(1, u)
  }

  /** The halves of a pair: line 1904 joins them, and the 0x10000 that is to be added, with an or. The bit of the
      0x10000 is the one the high half contributes where its own bit 6 is set. */
  function PairValue(a: Unit, b: Unit): Code
    requires IsHigh(a) && IsLow(b)
  {
    var high: int, low: int := a - 0xD800, b - 0xDC00;
    high * 0x400 + low + (if high / 0x40 % 2 == 1 then 0 else 0x1_0000)
  }

  // ---- the or, as a number ----

  function OrOfHalves(high: bv32, low: bv32): bv32 { (high << 10) | (low + 0x1_0000) }

  lemma OrParts(high: bv32, low: bv32)
    requires high < 0x400 && low < 0x400
    ensures OrOfHalves(high, low) < 0x10_0000
    ensures OrOfHalves(high, low) >> 10 == high | 0x40 && OrOfHalves(high, low) & 0x3FF == low
  {
  }

  lemma TenBits(x: bv32)
    requires x < 0x10_0000
    ensures x as int == ((x >> 10) as int) * 0x400 + ((x & 0x3FF) as int)
  {
  }

  lemma SetBit(high: bv32)
    requires high < 0x400
    ensures (high as int) < 0x400
    ensures (high | 0x40) as int == (high as int) + (if (high as int) / 0x40 % 2 == 1 then 0 else 0x40)
  {
    SetBitOr(high);
    BitSix(high);
  }

  lemma SetBitOr(high: bv32)
    requires high < 0x400
    ensures (high | 0x40) as int == (high as int) + (if (high >> 6) & 1 == 1 then 0 else 0x40)
  {
  }

  lemma BitSix(high: bv32)
    requires high < 0x400
    ensures (high >> 6) & 1 == 1 <==> (high as int) / 0x40 % 2 == 1
  {
  }

  lemma Small(low: bv32)
    requires low < 0x400
    ensures (low as int) < 0x400
  {
  }

  /** The or, its halves and what is above its low half, as numbers. */
  lemma OrAsNumbers(high: bv32, low: bv32) returns (x: int, h: int, l: int, top: int)
    requires high < 0x400 && low < 0x400
    ensures x == OrOfHalves(high, low) as int && h == high as int && l == low as int
    ensures 0 <= h < 0x400 && 0 <= l < 0x400
    ensures top == h + (if h / 0x40 % 2 == 1 then 0 else 0x40) && x == top * 0x400 + l
  {
    hide OrOfHalves;
    Small(low);
    SetBit(high);
    OrParts(high, low);
    TenBits(OrOfHalves(high, low));
    x, h, l, top := OrOfHalves(high, low) as int, high as int, low as int, (high | 0x40) as int;
  }

  lemma PairIs(x: int, h: int, l: int, top: int)
    requires 0 <= h < 0x400 && 0 <= l < 0x400
    requires top == h + (if h / 0x40 % 2 == 1 then 0 else 0x40) && x == top * 0x400 + l
    ensures PairValue(0xD800 + h, 0xDC00 + l) == x
  {
    hide PairValue;
    PairOf(h, l);
  }

  /** The pair's value is the or of the two halves. */
  lemma PairIsOr(high: bv32, low: bv32)
    requires high < 0x400 && low < 0x400
    ensures (high as int) < 0x400 && (low as int) < 0x400
    ensures PairValue(0xD800 + (high as int), 0xDC00 + (low as int)) == OrOfHalves(high, low) as int
  {
    hide OrOfHalves, PairValue;
    var x, h, l, top := OrAsNumbers(high, low);
    PairIs(x, h, l, top);
  }

  predicate IsHigh(u: Unit) { 0xD800 <= u < 0xDC00 }

  predicate IsLow(u: Unit) { 0xDC00 <= u < 0xE000 }

  /** What fits in a pair, and the mark for no character. */
  predicate Encodable16(c: Code) { c <= 0x1F_FFFF || c == Bad }

  function Utf16Encode(c: Code): (s: Text16)
    requires Encodable16(c)
    ensures 1 <= |s| <= 2
  {
    var x: int := c;
    if x == Bad then [0x3F]
    else if x < 0x1_0000 then [x]
    else [0xD800 + (x - 0x1_0000) / 0x400, 0xDC00 + (x - 0x1_0000) % 0x400]
  }

  lemma Cont6(x: int)
    ensures IsCont(Cont(x)) && Low6(Cont(x)) == x % 0x40
  {
  }

  /** The low bits of a leading byte. */
  lemma Lead(mark: int, x: int, low: int)
    requires (mark == 0xC0 && low == 0x20) || (mark == 0xE0 && low == 0x10) || (mark == 0xF0 && low == 0x08)
    requires 0 <= x < low
    ensures (mark + x) % low == x
  {
  }

  lemma Sixes(x: int)
    ensures x == x / 0x40 * 0x40 + x % 0x40
    ensures x == x / 0x1000 * 0x1000 + x / 0x40 % 0x40 * 0x40 + x % 0x40
    ensures x == x / 0x4_0000 * 0x4_0000 + x / 0x1000 % 0x40 * 0x1000 + x / 0x40 % 0x40 * 0x40 + x % 0x40
  {
  }

  lemma OneOrTwo(c: Code, rest: Text8)
    requires c <= 0x7FF || c > 0x10_FFFF
    ensures Utf8Decode(Utf8Encode(c) + rest).inc == |Utf8Encode(c)|
    ensures Utf8Decode(Utf8Encode(c) + rest).codepoint == c <==> c <= 0x10_FFFF
  {
    var x: int := c;
    Sixes(x);
    Cont6(x);
    hide Cont, IsCont, Low6, Encodable16;
    if 0x7F < x <= 0x7FF {
      Lead(0xC0, x / 0x40, 0x20);
    }
  }

  lemma Three(c: Code, rest: Text8)
    requires 0x7FF < c <= 0xFFFF
    ensures Utf8Decode(Utf8Encode(c) + rest).inc == |Utf8Encode(c)|
    ensures Utf8Decode(Utf8Encode(c) + rest).codepoint == c
  {
    var x: int := c;
    Sixes(x);
    Cont6(x);
    Cont6(x / 0x40);
    hide Cont, IsCont, Low6, Encodable16;
    Lead(0xE0, x / 0x1000, 0x10);
  }

  lemma Four(c: Code, rest: Text8)
    requires 0xFFFF < c <= 0x10_FFFF
    ensures Utf8Decode(Utf8Encode(c) + rest).inc == |Utf8Encode(c)|
    ensures Utf8Decode(Utf8Encode(c) + rest).codepoint == c
  {
    var x: int := c;
    Sixes(x);
    Cont6(x);
    Cont6(x / 0x40);
    Cont6(x / 0x1000);
    hide Cont, IsCont, Low6, Encodable16;
    Lead(0xF0, x / 0x4_0000, 0x08);
  }

  /** One encoded character is read back whatever follows it, exactly when it is no larger than U+10FFFF. */
  lemma Utf8RoundTrip(c: Code, rest: Text8)
    ensures Utf8Decode(Utf8Encode(c) + rest).inc == |Utf8Encode(c)|
    ensures Utf8Decode(Utf8Encode(c) + rest).codepoint == c <==> c <= 0x10_FFFF
  {
    hide Utf8Decode, Utf8Encode;
    if 0x7FF < c <= 0xFFFF {
      Three(c, rest);
    } else if 0xFFFF < c <= 0x10_FFFF {
      Four(c, rest);
    } else {
      OneOrTwo(c, rest);
    }
  }

  /** Supplementary planes with an odd number. */
  predicate OddPlane(c: Code) { 0x1_0000 <= c <= 0x10_FFFF && c / 0x1_0000 % 2 == 1 }

  lemma Tens(v: int)
    requires 0 <= v < 0x10_0000
    ensures v / 0x400 < 0x400 && v / 0x400 / 0x40 == v / 0x1_0000 && v == v / 0x400 * 0x400 + v % 0x400
  {
  }

  /** A code point above the first plane comes back from its pair exactly when its plane is odd; otherwise it comes
      back one plane lower. */
  lemma PairRoundTrip(c: Code)
    requires 0x1_0000 <= c <= 0x10_FFFF
    ensures
      var s := Utf16Encode(c);
      && |s| == 2 && IsHigh(s[0]) && IsLow(s[1])
      && PairValue(s[0], s[1]) == if OddPlane(c) then c else c - 0x1_0000
  {
    var v: int := c - 0x1_0000;
    Tens(v);
    PairOf(v / 0x400, v % 0x400);
    NextPlane(c);
    hide PairValue, IsHigh, IsLow;
  }

  lemma PairOf(high: int, low: int)
    requires 0 <= high < 0x400 && 0 <= low < 0x400
    ensures IsHigh(0xD800 + high) && IsLow(0xDC00 + low)
    ensures PairValue(0xD800 + high, 0xDC00 + low)
            == high * 0x400 + low + (if high / 0x40 % 2 == 1 then 0 else 0x1_0000)
  {
  }

  lemma NextPlane(x: int)
    requires x >= 0x1_0000
    ensures (x - 0x1_0000) / 0x1_0000 % 2 == 1 <==> x / 0x1_0000 % 2 == 0
  {
    PlaneBelow(x);
    Parity(x / 0x1_0000);
  }

  lemma PlaneBelow(x: int)
    ensures (x - 0x1_0000) / 0x1_0000 == x / 0x1_0000 - 1
  {
  }

  lemma Parity(k: int)
    ensures (k - 1) % 2 == 1 <==> k % 2 == 0
  {
  }

  // ---- whole strings ----

  function Encode8(s: Text32): Text8 { if s == [] then [] else Utf8Encode(s[0]) + Encode8(s[1..]) }

  function Decode8(b: Text8): (s: Text32)
    ensures |s| <= |b| && forall i | 0 <= i < |s| :: Encodable16(s[i])
  {
    if b == [] then [] else [Utf8Decode(b).codepoint] + Decode8(b[Utf8Decode(b).inc..])
  }

  predicate AllEncodable16(s: Text32) { forall i | 0 <= i < |s| :: Encodable16(s[i]) }

  function Encode16(s: Text32): Text16
    requires AllEncodable16(s)
  {
    if s == [] then [] else Utf16Encode(s[0]) + Encode16(s[1..])
  }

  function Decode16(u: Text16): (s: Text32)
    ensures forall i | 0 <= i < |s| :: s[i] <= 0xF_FFFF
  {
    if u == [] then [] else [Utf16Decode(u).codepoint] + Decode16(u[Utf16Decode(u).inc..])
  }

  predicate Valid(s: Text32) { forall i | 0 <= i < |s| :: s[i] <= 0x10_FFFF }

  /** Text comes back from UTF-8 exactly when it has no code point above U+10FFFF. */
  lemma {:induction false} Text8RoundTrip(s: Text32)
    ensures Decode8(Encode8(s)) == s <==> Valid(s)
  {
    hide Utf8Encode, Utf8Decode;
    if s != [] {
      var head, rest := Utf8Encode(s[0]), Encode8(s[1..]);
      Utf8RoundTrip(s[0], rest);
      Text8RoundTrip(s[1..]);
      var d := Utf8Decode(head + rest);
      assert (head + rest)[d.inc..] == rest;
      assert Decode8(Encode8(s)) == [d.codepoint] + Decode8(rest);
      SameHead(d.codepoint, s[0], Decode8(rest), s[1..]);
      assert s == [s[0]] + s[1..];
      assert Valid(s) <==> s[0] <= 0x10_FFFF && Valid(s[1..]) by {
        assert forall i | 0 <= i < |s[1..]| :: s[1..][i] == s[i + 1];
        if s[0] <= 0x10_FFFF && Valid(s[1..]) {
          forall i | 0 <= i < |s| ensures s[i] <= 0x10_FFFF {
            if i > 0 {
              assert s[i] == s[1..][i - 1];
            }
          }
        }
      }
    }
  }

  lemma SameHead<T>(x: T, y: T, s: seq<T>, t: seq<T>)
    ensures [x] + s == [y] + t <==> x == y && s == t
  {
    if [x] + s == [y] + t {
      assert ([x] + s)[0] == ([y] + t)[0];
      assert ([x] + s)[1..] == ([y] + t)[1..];
    }
  }

  lemma SameText(a: Text32, b: Text32)
    requires Valid(a) && Valid(b)
    ensures Encode8(a) == Encode8(b) <==> a == b
  {
    Text8RoundTrip(a);
    Text8RoundTrip(b);
  }

  // ---- strict UTF-8 ----

  /** The byte sequences of the syntax in section 4 of RFC 3629, encoded surrogates among them: no encoding longer than
      needed, none above U+10FFFF. The number is that of the bytes, 0 for none. */
  function StrictSize(b: Text8): (n: nat)
    ensures n <= |b|
  {
    if b == [] then 0
    else if b[0] < 0x80 then 1
    else if 0xC2 <= b[0] < 0xE0 && |b| > 1 && IsCont(b[1]) then 2
    else if 0xE0 <= b[0] < 0xF0 && |b| > 2 && IsCont(b[1]) && IsCont(b[2]) && (b[0] == 0xE0 ==> b[1] >= 0xA0) then 3
    else if 0xF0 <= b[0] < 0xF5 && |b| > 3 && IsCont(b[1]) && IsCont(b[2]) && IsCont(b[3])
            && (b[0] == 0xF0 ==> b[1] >= 0x90) && (b[0] == 0xF4 ==> b[1] < 0x90) then 4
    else 0
  }

  predicate Strict(b: Text8) { b == [] || (StrictSize(b) > 0 && Strict(b[StrictSize(b)..])) }

  lemma TwoBytes(b0: int, b1: int)
    requires 0xC0 <= b0 < 0xE0 && 0x80 <= b1 < 0xC0
    ensures
      var x := b0 % 0x20 * 0x40 + b1 % 0x40;
      if b0 >= 0xC2 then 0x7F < x <= 0x7FF && 0xC0 + x / 0x40 == b0 && 0x80 + x % 0x40 == b1 else x <= 0x7F
  {
  }

  lemma ThreeBytes(b0: int, b1: int, b2: int)
    requires 0xE0 <= b0 < 0xF0 && 0x80 <= b1 < 0xC0 && 0x80 <= b2 < 0xC0
    ensures
      var x := b0 % 0x10 * 0x1000 + b1 % 0x40 * 0x40 + b2 % 0x40;
      if b0 > 0xE0 || b1 >= 0xA0
      then 0x7FF < x <= 0xFFFF && 0xE0 + x / 0x1000 == b0 && 0x80 + x / 0x40 % 0x40 == b1 && 0x80 + x % 0x40 == b2
      else x <= 0x7FF
  {
    Pieces3(b0 - 0xE0, b1 - 0x80, b2 - 0x80);
  }

  lemma Pieces3(a: int, b: int, c: int)
    requires 0 <= a && 0 <= b < 0x40 && 0 <= c < 0x40
    ensures
      var x := a * 0x1000 + b * 0x40 + c;
      x / 0x1000 == a && x / 0x40 == a * 0x40 + b && x / 0x40 % 0x40 == b && x % 0x40 == c
  {
    assert a * 0x1000 + b * 0x40 + c == (a * 0x40 + b) * 0x40 + c;
  }

  lemma FourBytes(b0: int, b1: int, b2: int, b3: int)
    requires 0xF0 <= b0 < 0xF8 && 0x80 <= b1 < 0xC0 && 0x80 <= b2 < 0xC0 && 0x80 <= b3 < 0xC0
    ensures
      var x := b0 % 0x08 * 0x4_0000 + b1 % 0x40 * 0x1000 + b2 % 0x40 * 0x40 + b3 % 0x40;
      if b0 < 0xF5 && (b0 == 0xF0 ==> b1 >= 0x90) && (b0 == 0xF4 ==> b1 < 0x90)
      then 0xFFFF < x <= 0x10_FFFF && 0xF0 + x / 0x4_0000 == b0 && 0x80 + x / 0x1000 % 0x40 == b1
           && 0x80 + x / 0x40 % 0x40 == b2 && 0x80 + x % 0x40 == b3
      else x <= 0xFFFF || x > 0x10_FFFF
  {
    Pieces4(b0 - 0xF0, b1 - 0x80, b2 - 0x80, b3 - 0x80);
    Residues(b0, b1, b2, b3);
  }

  lemma Residues(b0: int, b1: int, b2: int, b3: int)
    requires 0xF0 <= b0 < 0xF8 && 0x80 <= b1 < 0xC0 && 0x80 <= b2 < 0xC0 && 0x80 <= b3 < 0xC0
    ensures b0 % 0x08 == b0 - 0xF0 && b1 % 0x40 == b1 - 0x80 && b2 % 0x40 == b2 - 0x80 && b3 % 0x40 == b3 - 0x80
  {
  }

  lemma Pieces4(a: int, b: int, c: int, d: int)
    requires 0 <= a && 0 <= b < 0x40 && 0 <= c < 0x40 && 0 <= d < 0x40
    ensures
      var x := a * 0x4_0000 + b * 0x1000 + c * 0x40 + d;
      x / 0x4_0000 == a && x / 0x1000 % 0x40 == b && x / 0x40 % 0x40 == c && x % 0x40 == d
  {
    Pieces3(a * 0x40 + b, c, d);
    assert (a * 0x40 + b) / 0x40 == a && (a * 0x40 + b) % 0x40 == b;
    var x := a * 0x4_0000 + b * 0x1000 + c * 0x40 + d;
    assert x / 0x1000 == a * 0x40 + b;
    assert x / 0x4_0000 == x / 0x1000 / 0x40;
  }

  /** A sequence of the syntax is what its code point is encoded as; of anything else the first byte changes. */
  lemma HeadReturns(b: Text8)
    requires b != []
    ensures
      var d := Utf8Decode(b);
      if StrictSize(b) > 0 then d.inc == StrictSize(b) && Utf8Encode(d.codepoint) == b[..d.inc]
      else Utf8Encode(d.codepoint)[0] != b[0]
  {
    var b0: int := b[0];
    if 0xC0 <= b0 < 0xE0 && |b| > 1 && IsCont(b[1]) {
      TwoBytes(b0, b[1]);
    } else if 0xE0 <= b0 < 0xF0 && |b| > 2 && IsCont(b[1]) && IsCont(b[2]) {
      HeadOfThree(b);
    } else if 0xF0 <= b0 < 0xF8 && |b| > 3 && IsCont(b[1]) && IsCont(b[2]) && IsCont(b[3]) {
      HeadOfFour(b);
    }
  }

  lemma HeadOfThree(b: Text8)
    requires |b| > 2 && 0xE0 <= b[0] < 0xF0 && IsCont(b[1]) && IsCont(b[2])
    ensures
      var d := Utf8Decode(b);
      if StrictSize(b) > 0 then d.inc == StrictSize(b) && Utf8Encode(d.codepoint) == b[..d.inc]
      else Utf8Encode(d.codepoint)[0] != b[0]
  {
    ThreeBytes(b[0], b[1], b[2]);
  }

  lemma HeadOfFour(b: Text8)
    requires |b| > 3 && 0xF0 <= b[0] < 0xF8 && IsCont(b[1]) && IsCont(b[2]) && IsCont(b[3])
    ensures
      var d := Utf8Decode(b);
      if StrictSize(b) > 0 then d.inc == StrictSize(b) && Utf8Encode(d.codepoint) == b[..d.inc]
      else Utf8Encode(d.codepoint)[0] != b[0]
  {
    FourBytes(b[0], b[1], b[2], b[3]);
    FourDecoded(b);
    FourEncoded(Utf8Decode(b).codepoint);
    hide Utf8Decode, Utf8Encode;
  }

  lemma FourDecoded(b: Text8)
    requires |b| > 3 && 0xF0 <= b[0] < 0xF8 && IsCont(b[1]) && IsCont(b[2]) && IsCont(b[3])
    ensures
      var b0: int, b1: int, b2: int, b3: int := b[0], b[1], b[2], b[3];
      && Utf8Decode(b).inc == 4
      && Utf8Decode(b).codepoint == b0 % 0x08 * 0x4_0000 + b1 % 0x40 * 0x1000 + b2 % 0x40 * 0x40 + b3 % 0x40
  {
  }

  lemma FourEncoded(c: Code)
    ensures
      var x: int := c;
      && (0xFFFF < x <= 0x10_FFFF ==>
            Utf8Encode(c) == [0xF0 + x / 0x4_0000, 0x80 + x / 0x1000 % 0x40, 0x80 + x / 0x40 % 0x40, 0x80 + x % 0x40])
      && (x <= 0xFFFF || x > 0x10_FFFF ==> Utf8Encode(c)[0] < 0xF0)
  {
  }

  /** Bytes come back from being decoded and encoded again exactly when they are strict UTF-8. */
  lemma {:induction false} Bytes8RoundTrip(b: Text8)
    ensures Encode8(Decode8(b)) == b <==> Strict(b)
    decreases |b|
  {
    hide Utf8Encode, Utf8Decode, StrictSize;
    if b != [] {
      HeadReturns(b);
      var d := Utf8Decode(b);
      var rest := b[d.inc..];
      assert Decode8(b)[1..] == Decode8(rest);
      Bytes8RoundTrip(rest);
      assert Encode8(Decode8(b)) == Utf8Encode(d.codepoint) + Encode8(Decode8(rest));
      if StrictSize(b) > 0 {
        SamePrefix(b[..d.inc], Encode8(Decode8(rest)), rest);
        assert b == b[..d.inc] + rest;
      }
    }
  }

  lemma SamePrefix<T>(p: seq<T>, s: seq<T>, t: seq<T>)
    ensures p + s == p + t <==> s == t
  {
    if p + s == p + t {
      assert (p + s)[|p|..] == s && (p + t)[|p|..] == t;
    }
  }

  // ---- UTF-16 ----

  /** What comes back from UTF-16: the first plane and the odd ones, and no high surrogate right before a low one. */
  predicate Survives16(s: Text32) {
    && (forall i | 0 <= i < |s| :: Kept16(s[i]))
    && (forall i | 0 <= i < |s| - 1 :: !Merges(s[i], s[i + 1]))
  }

  predicate Kept16(c: Code) { c < 0x1_0000 || OddPlane(c) }

  predicate Merges(a: Code, b: Code) { 0xD800 <= a < 0xDC00 && 0xDC00 <= b < 0xE000 }

  lemma SurvivesStep(s: Text32)
    requires s != []
    ensures Survives16(s) <==> Kept16(s[0]) && (|s| > 1 ==> !Merges(s[0], s[1])) && Survives16(s[1..])
  {
    hide Kept16, Merges;
    var t := s[1..];
    assert forall i | 0 <= i < |t| :: t[i] == s[i + 1];
    if Kept16(s[0]) && (|s| > 1 ==> !Merges(s[0], s[1])) && Survives16(t) {
      forall i | 0 <= i < |s| ensures Kept16(s[i]) {
        assert i > 0 ==> Kept16(t[i - 1]);
      }
      forall i | 0 <= i < |s| - 1 ensures !Merges(s[i], s[i + 1]) {
        assert i > 0 ==> !Merges(t[i - 1], t[i]);
      }
    }
    if Survives16(s) {
      forall i | 0 <= i < |t| - 1 ensures !Merges(t[i], t[i + 1]) {
        assert !Merges(s[i + 1], s[i + 2]);
      }
    }
  }

  /** The first unit of encoded text is low only if its first code point is. */
  lemma FirstUnit(c: Code)
    requires c <= 0x10_FFFF
    ensures IsLow(Utf16Encode(c)[0]) <==> 0xDC00 <= c < 0xE000
  {
  }

  /** Reading the first code point of encoded text. */
  lemma FirstDecodes(c: Code, rest: Text16)
    requires c <= 0x10_FFFF
    ensures
      var d := Utf16Decode(Utf16Encode(c) + rest);
      if rest != [] && 0xD800 <= c < 0xDC00 && IsLow(rest[0]) then d.codepoint != c
      else d.inc == |Utf16Encode(c)| && (d.codepoint == c <==> Kept16(c))
  {
    if c >= 0x1_0000 {
      PairRoundTrip(c);
      hide PairValue;
    }
  }

  lemma ValidRest(s: Text32)
    requires Valid(s)
    ensures AllEncodable16(s) && (s != [] ==> Valid(s[1..]) && AllEncodable16(s[1..]))
  {
  }

  /** Text comes back from UTF-16 exactly when it survives. */
  lemma {:induction false} Text16RoundTrip(s: Text32)
    requires Valid(s)
    ensures AllEncodable16(s) && (Decode16(Encode16(s)) == s <==> Survives16(s))
  {
    hide Utf16Encode, Utf16Decode, Kept16, IsLow, IsHigh, Valid;
    ValidRest(s);
    if s != [] {
      var head, rest := Utf16Encode(s[0]), Encode16(s[1..]);
      assert s[0] <= 0x10_FFFF by {
        ValidHead(s);
      }
      FirstDecodes(s[0], rest);
      SurvivesStep(s);
      Text16RoundTrip(s[1..]);
      RestStarts(s[1..]);
      var d := Utf16Decode(head + rest);
      assert s == [s[0]] + s[1..];
      assert Decode16(Encode16(s)) == [d.codepoint] + Decode16((head + rest)[d.inc..]);
      SameHead(d.codepoint, s[0], Decode16((head + rest)[d.inc..]), s[1..]);
      assert d.inc == |head| ==> (head + rest)[d.inc..] == rest;
    }
  }

  lemma ValidHead(s: Text32)
    requires Valid(s) && s != []
    ensures s[0] <= 0x10_FFFF
  {
  }

  lemma RestStarts(s: Text32)
    requires Valid(s) && AllEncodable16(s)
    ensures Encode16(s) == [] <==> s == []
    ensures s != [] ==> (IsLow(Encode16(s)[0]) <==> 0xDC00 <= s[0] < 0xE000)
  {
    if s != [] {
      FirstUnit(s[0]);
    }
  }

  lemma {:induction false} SurvivesDecoded(s: Text32)
    requires forall i | 0 <= i < |s| :: s[i] <= 0xF_FFFF
    ensures Valid(s)
  {
  }

  /** From UTF-8 to UTF-16 and back is the identity on the encodings of valid texts exactly when they survive. */
  lemma Across(s: Text32)
    requires Valid(s)
    ensures Encode8(Decode16(Encode16(Decode8(Encode8(s))))) == Encode8(s) <==> Survives16(s)
  {
    hide Encode8, Decode8, Encode16, Decode16, Survives16;
    Text8RoundTrip(s);
    Text16RoundTrip(s);
    SurvivesDecoded(Decode16(Encode16(s)));
    SameText(Decode16(Encode16(s)), s);
  }

  lemma StrictHead(c: Code, rest: Text8)
    ensures StrictSize(Utf8Encode(c) + rest) == |Utf8Encode(c)| > 0
  {
    var x: int := c;
    if 0x7FF < x <= 0xFFFF {
      Cont6(x / 0x40);
    } else if 0xFFFF < x <= 0x10_FFFF {
      Cont6(x / 0x1000);
    }
  }

  /** Whatever is encoded, the bytes are strict. */
  lemma {:induction false} EncodedIsStrict(s: Text32)
    ensures Strict(Encode8(s))
  {
    hide StrictSize, Utf8Encode;
    if s != [] {
      var head, rest := Utf8Encode(s[0]), Encode8(s[1..]);
      EncodedIsStrict(s[1..]);
      StrictHead(s[0], rest);
      assert (head + rest)[|head|..] == rest;
    }
  }

  /** From UTF-8 to UTF-16 and back: which byte strings come back, of all that there are. */
  lemma AcrossExactly(b: Text8)
    ensures Encode8(Decode16(Encode16(Decode8(b)))) == b <==> Strict(b) && Survives16(Decode8(b))
  {
    hide Encode8, Decode8, Encode16, Decode16, Survives16, Strict;
    EncodedIsStrict(Decode16(Encode16(Decode8(b))));
    Bytes8RoundTrip(b);
    if Strict(b) {
      Text8RoundTrip(Decode8(b));
      Across(Decode8(b));
    }
  }

  /** Bit 6 of a high half, which the decoder takes for the 0x10000. */
  predicate BitSixClear(u: Unit) { IsHigh(u) && (u - 0xD800) / 0x40 % 2 == 0 }

  predicate PairAt(u: Text16, i: nat) { i + 1 < |u| && IsHigh(u[i]) && IsLow(u[i + 1]) }

  predicate PairsClear(u: Text16) { forall i | 0 <= i < |u| && PairAt(u, i) :: BitSixClear(u[i]) }

  lemma PairReturns(a: Unit, b: Unit)
    requires IsHigh(a) && IsLow(b)
    ensures 0x1_0000 <= PairValue(a, b) <= 0xF_FFFF
    ensures Utf16Encode(PairValue(a, b)) == [a, b] <==> BitSixClear(a)
  {
    var h: int, l: int := a - 0xD800, b - 0xDC00;
    PairIsBig(h);
    Halves(h, l);
    Halves(h - 0x40, l);
  }

  lemma PairIsBig(h: int)
    requires 0 <= h < 0x400
    ensures h / 0x40 % 2 == 1 ==> h >= 0x40
  {
  }

  lemma Halves(h: int, l: int)
    requires 0 <= l < 0x400
    ensures (h * 0x400 + l) / 0x400 == h && (h * 0x400 + l) % 0x400 == l
  {
  }

  /** The pairs of a text, from its first character on. */
  lemma PairsStep(u: Text16)
    requires u != []
    ensures
      var rest := u[Utf16Decode(u).inc..];
      PairsClear(u) <==> (PairAt(u, 0) ==> BitSixClear(u[0])) && PairsClear(rest)
  {
    hide PairValue, BitSixClear;
    var d := Utf16Decode(u).inc;
    var rest := u[d..];
    assert forall i | 0 <= i < |rest| :: rest[i] == u[d + i];
    assert forall i: nat | i < |rest| :: PairAt(rest, i) <==> PairAt(u, d + i);
    if (PairAt(u, 0) ==> BitSixClear(u[0])) && PairsClear(rest) {
      forall i | 0 <= i < |u| && PairAt(u, i) ensures BitSixClear(u[i]) {
        if i >= d {
          assert PairAt(rest, i - d);
        }
      }
    }
    if PairsClear(u) {
      forall i | 0 <= i < |rest| && PairAt(rest, i) ensures BitSixClear(rest[i]) {
        assert PairAt(u, d + i);
      }
    }
  }

  lemma UnitReturns(u: Text16)
    requires u != []
    ensures
      var d := Utf16Decode(u);
      if PairAt(u, 0) then |Utf16Encode(d.codepoint)| == d.inc == 2
                           && (Utf16Encode(d.codepoint) == u[..2] <==> BitSixClear(u[0]))
      else d.inc == 1 && Utf16Encode(d.codepoint) == u[..1]
  {
    if PairAt(u, 0) {
      PairReturns(u[0], u[1]);
      hide PairValue, BitSixClear, IsHigh, IsLow;
      assert u[..2] == [u[0], u[1]];
    }
  }

  /** Units come back from being decoded exactly when bit 6 of the high half of every pair is clear. */
  lemma {:induction false} Units16RoundTrip(u: Text16)
    ensures Encode16(Decode16(u)) == u <==> PairsClear(u)
    decreases |u|
  {
    hide Utf16Encode, Utf16Decode, PairAt, BitSixClear, PairsClear;
    if u == [] {
      NoPairs();
    } else {
      var d := Utf16Decode(u);
      var rest := u[d.inc..];
      Units16RoundTrip(rest);
      UnitReturns(u);
      PairsStep(u);
      assert Decode16(u)[1..] == Decode16(rest);
      var head := Utf16Encode(d.codepoint);
      assert Encode16(Decode16(u)) == head + Encode16(Decode16(rest));
      assert u == u[..d.inc] + rest;
      SameParts(head, u[..d.inc], Encode16(Decode16(rest)), rest);
    }
  }

  lemma NoPairs()
    ensures PairsClear([])
  {
  }

  lemma SameParts<T>(p: seq<T>, q: seq<T>, s: seq<T>, t: seq<T>)
    requires |p| == |q|
    ensures p + s == q + t <==> p == q && s == t
  {
    if p + s == q + t {
      assert (p + s)[..|p|] == (q + t)[..|q|];
      assert (p + s)[|p|..] == (q + t)[|q|..];
    }
  }

  /** From UTF-16 to UTF-8 and back is the identity on exactly those units, unpaired surrogates among them. */
  lemma BackExactly(u: Text16)
    ensures Encode16(Decode8(Encode8(Decode16(u)))) == u <==> PairsClear(u)
  {
    hide Encode8, Decode8, Encode16, Decode16, PairsClear;
    SurvivesDecoded(Decode16(u));
    Text8RoundTrip(Decode16(u));
    Units16RoundTrip(u);
  }

  // ---- what is no character ----

  predicate Continues(b: Text8, i: nat) { i < |b| && 0x80 <= b[i] < 0xC0 }

  /** No character begins the text: its first byte is a continuation or begins nothing, or what it begins is cut off. */
  predicate NoCharacter(b: Text8)
    requires b != []
  {
    || 0x80 <= b[0] < 0xC0 || b[0] >= 0xF8
    || (0xC0 <= b[0] < 0xE0 && !Continues(b, 1))
    || (0xE0 <= b[0] < 0xF0 && !(Continues(b, 1) && Continues(b, 2)))
    || (0xF0 <= b[0] && !(Continues(b, 1) && Continues(b, 2) && Continues(b, 3)))
  }

  /** Where no character begins, one byte is passed over and gives a question mark, in either encoding; the text goes on
      behind it. Everywhere else a character is read. */
  lemma QuestionExactly(b: Text8)
    requires b != []
    ensures Utf8Decode(b).codepoint == 0xFFFF_FFFF <==> NoCharacter(b)
    ensures NoCharacter(b) ==>
      && Encode8(Decode8(b)) == [0x3F] + Encode8(Decode8(b[1..]))
      && Encode16(Decode8(b)) == [0x3F] + Encode16(Decode8(b[1..]))
  {
    assert NoCharacter(b) <==> Utf8Decode(b) == Decoded(1, 0xFFFF_FFFF);
    hide Utf8Decode, NoCharacter;
    assert Decode8(b) == [Utf8Decode(b).codepoint] + Decode8(b[Utf8Decode(b).inc..]);
    assert Decode8(b)[1..] == Decode8(b[Utf8Decode(b).inc..]);
  }

  /** What is above the last code point is written as a question mark, too. */
  lemma TooLarge(c: Code)
    requires c > 0x10_FFFF
    ensures Utf8Encode(c) == [0x3F]
  {
  }

  // ---- the conversions ----

  method Put<T>(str: array<T>, at: nat, s: seq<T>)
    requires at + |s| <= str.Length
    modifies str
    ensures str[..at + |s|] == old(str[..at]) + s
  {
    var i := 0;
    while i < |s|
      invariant i <= |s| && str[..at + i] == old(str[..at]) + s[..i]
    {
      str[at + i] := s[i];
      i := i + 1;
    }
  }

  lemma Assoc<T>(a: seq<T>, b: seq<T>, c: seq<T>)
    ensures a + (b + c) == (a + b) + c
  {
  }

  /** Four bytes for each code point are enough. */
  method Str8From32(text: Text32) returns (result: Text8)
    ensures result == Encode8(text)
  {
    hide Utf8Encode;
    result := [];
    if |text| > 0 {
      var cap := |text| * 4;
      var str := new Byte[cap + 1];
      var size: nat, i: nat := 0, 0;
      while i < |text|
        invariant i <= |text| && size <= 4 * i && str[..size] + Encode8(text[i..]) == Encode8(text)
      {
        var c := Utf8Encode(text[i]);
        assert text[i..][1..] == text[i + 1..];
        Assoc(str[..size], c, Encode8(text[i + 1..]));
        Put(str, size, c);
        size := size + |c|;
        i := i + 1;
      }
      str[size] := 0;
      result := str[..size];
    }
  }

  /** One code point for each byte is enough. */
  method Str32From8(text: Text8) returns (result: Text32)
    ensures result == Decode8(text)
  {
    hide Utf8Decode;
    result := [];
    if |text| > 0 {
      var cap := |text|;
      var str := new Code[cap + 1];
      var size: nat, i: nat := 0, 0;
      while i < |text|
        invariant size <= i <= |text| && str[..size] + Decode8(text[i..]) == Decode8(text)
      {
        var d := Utf8Decode(text[i..]);
        assert text[i..][d.inc..] == text[i + d.inc..];
        str[size] := d.codepoint;
        size := size + 1;
        i := i + d.inc;
      }
      str[size] := 0;
      result := str[..size];
    }
  }

  /** The conversion character by character. */
  function Units(text: Text8): (u: Text16)
    ensures u == Encode16(Decode8(text))
  {
    if text == [] then []
    else
      var d := Utf8Decode(text);
      assert Decode8(text)[1..] == Decode8(text[d.inc..]);
      Utf16Encode(d.codepoint) + Units(text[d.inc..])
  }

  lemma NextUnits(text: Text8, i: nat)
    requires i < |text|
    ensures
      var d := Utf8Decode(text[i..]);
      Units(text[i..]) == Utf16Encode(d.codepoint) + Units(text[i + d.inc..])
  {
    hide Utf16Encode, Utf8Decode;
    assert text[i..][Utf8Decode(text[i..]).inc..] == text[i + Utf8Decode(text[i..]).inc..];
  }

  /** Two units for each byte are enough. */
  method Str16From8(text: Text8) returns (result: Text16)
    ensures result == Encode16(Decode8(text))
  {
    hide Utf8Decode, Utf16Encode, Decode8, Encode16, Units;
    result := [];
    NoUnits();
    if |text| > 0 {
      var cap := |text| * 2;
      var str := new Unit[cap + 1];
      var size: nat, i: nat := 0, 0;
      assert text[0..] == text;
      while i < |text|
        invariant size <= 2 * i <= 2 * |text| && str[..size] + Units(text[i..]) == Units(text)
      {
        NextUnits(text, i);
        var d := Utf8Decode(text[i..]);
        var c := Utf16Encode(d.codepoint);
        Assoc(str[..size], c, Units(text[i + d.inc..]));
        Put(str, size, c);
        size := size + |c|;
        i := i + d.inc;
      }
      str[size] := 0;
      result := str[..size];
    }
  }

  lemma NoUnits()
    ensures Units([]) == []
  {
  }

  /** Three bytes for each unit are enough. */
  method Str8From16(text: Text16) returns (result: Text8)
    ensures result == Encode8(Decode16(text))
  {
    hide Utf8Encode, Utf16Decode, Encode8, Decode16;
    result := [];
    NoBytes();
    if |text| > 0 {
      var cap := |text| * 3;
      var str := new Byte[cap + 1];
      var size: nat, i: nat := 0, 0;
      assert text[0..] == text;
      while i < |text|
        invariant size <= 3 * i <= 3 * |text| && str[..size] + Encode8(Decode16(text[i..])) == Encode8(Decode16(text))
      {
        var d := Utf16Decode(text[i..]);
        assert text[i..][d.inc..] == text[i + d.inc..];
        var c := Utf8Encode(d.codepoint);
        NextBytes(text[i..]);
        ShortUnits(text[i..]);
        Assoc(str[..size], c, Encode8(Decode16(text[i + d.inc..])));
        Put(str, size, c);
        size := size + |c|;
        i := i + d.inc;
      }
      str[size] := 0;
      result := str[..size];
    }
  }

  lemma NoBytes()
    ensures Encode8(Decode16([])) == []
  {
  }

  lemma NextBytes(text: Text16)
    requires text != []
    ensures Encode8(Decode16(text))
            == Utf8Encode(Utf16Decode(text).codepoint) + Encode8(Decode16(text[Utf16Decode(text).inc..]))
  {
    hide Utf16Decode, Utf8Encode;
    assert Decode16(text)[1..] == Decode16(text[Utf16Decode(text).inc..]);
  }

  lemma ShortUnits(text: Text16)
    requires text != []
    ensures |Utf8Encode(Utf16Decode(text).codepoint)| <= 3 * Utf16Decode(text).inc
  {
    hide Utf16Decode;
  }
}
