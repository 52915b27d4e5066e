/** Escaping text and reading it back. */
module Escapes {
  import opened Basics

  const BACKSLASH: Byte := 92
  const RETURN: Byte := 13

  // ---- one character ----

  /** The character behind the backslash; none for a zero, which is dropped. */
  function Replacement(b: Byte): seq<Byte> {
    match b
    case 7 => [BACKSLASH, 97]
    case 8 => [BACKSLASH, 98]
    case 12 => [BACKSLASH, 102]
    case 10 => [BACKSLASH, 110]
    case 13 => [BACKSLASH, 114]
    case 9 => [BACKSLASH, 116]
    case 11 => [BACKSLASH, 118]
    case 92 => [BACKSLASH, 92]
    case 34 => [BACKSLASH, 34]
    case _ => []
  }

  predicate Splits(b: Byte) { b == 0 || Replacement(b) != [] }

  function EscapedByte(b: Byte): seq<Byte> { if Splits(b) then Replacement(b) else [b] }

  function Escaped(s: seq<Byte>): seq<Byte> { if s == [] then [] else EscapedByte(s[0]) + Escaped(s[1..]) }

  /** What an escape stands for; zero for one that is not known. */
  function Meaning(b: Byte): Byte {
    match b
    case 97 => 7
    case 98 => 8
    case 101 => 27
    case 102 => 12
    case 110 => 10
    case 114 => 13
    case 116 => 9
    case 118 => 11
    case 92 => 92
    case 39 => 39
    case 34 => 34
    case 63 => 63
    case _ => 0
  }

  /** Unescaped text. A carriage return is dropped, and behind a backslash at the very end the byte `past` the text
      is looked at. */
  function Raw(s: seq<Byte>, past: Byte): seq<Byte> {
    if s == [] then []
    else if s[0] == BACKSLASH then
      if |s| == 1 then [Meaning(past)] else [Meaning(s[1])] + Raw(s[2..], past)
    else if s[0] == RETURN then Raw(s[1..], past)
    else [s[0]] + Raw(s[1..], past)
  }

  function Joined(parts: seq<seq<Byte>>): seq<Byte> {
    if parts == [] then [] else Joined(parts[..|parts| - 1]) + parts[|parts| - 1]
  }

  lemma JoinedMore(parts: seq<seq<Byte>>, part: seq<Byte>)
    ensures Joined(parts + [part]) == Joined(parts) + part
  {
    assert (parts + [part])[..|parts|] == parts;
  }

  // ---- the round trip ----

  function WithoutZeros(s: seq<Byte>): seq<Byte> {
    if s == [] then [] else (if s[0] == 0 then [] else [s[0]]) + WithoutZeros(s[1..])
  }

  lemma ByteBack(b: Byte, rest: seq<Byte>, past: Byte)
    ensures Raw(EscapedByte(b) + rest, past) == (if b == 0 then [] else [b]) + Raw(rest, past)
  {
    var e := EscapedByte(b);
    if Splits(b) && b != 0 {
      assert (e + rest)[2..] == rest;
    } else if b == 0 {
      assert e + rest == rest;
    } else {
      assert (e + rest)[1..] == rest;
    }
  }

  /** Unescaping gives back the text without its zeros. */
  lemma {:induction false} EscapeRoundTrip(s: seq<Byte>, past: Byte)
    ensures Raw(Escaped(s), past) == WithoutZeros(s)
  {
    hide EscapedByte, Raw;
    if s != [] {
      ByteBack(s[0], Escaped(s[1..]), past);
      EscapeRoundTrip(s[1..], past);
    } else {
      RawNothing(past);
    }
  }

  lemma RawNothing(past: Byte)
    ensures Raw([], past) == []
  {
  }

  lemma {:induction false} ZerosShorten(s: seq<Byte>)
    ensures |WithoutZeros(s)| <= |s| && (WithoutZeros(s) == s <==> 0 !in s)
  {
    if s != [] {
      ZerosShorten(s[1..]);
      if s[0] != 0 {
        assert s == [s[0]] + s[1..];
        if WithoutZeros(s) == s {
          assert WithoutZeros(s)[1..] == WithoutZeros(s[1..]);
        }
      }
    }
  }

  /** So text comes back exactly when it holds no zero. */
  lemma EscapeInverts(s: seq<Byte>, past: Byte)
    ensures Raw(Escaped(s), past) == s <==> 0 !in s
  {
    EscapeRoundTrip(s, past);
    ZerosShorten(s);
  }

  /** Every backslash that begins an escape has its character behind it. */
  predicate Paired(s: seq<Byte>) {
    s == [] || (if s[0] == BACKSLASH then |s| > 1 && Paired(s[2..]) else Paired(s[1..]))
  }

  /** What is behind a text is looked at exactly when its last backslash is unpaired. */
  lemma {:induction false} PastMatters(s: seq<Byte>)
    ensures Paired(s) <==> PastFree(s)
  {
    hide Meaning;
    if s == [] {
    } else if s[0] == BACKSLASH {
      if |s| == 1 {
        LastByte(s);
      } else {
        PastMatters(s[2..]);
        SamePast([Meaning(s[1])], s, s[2..]);
      }
    } else if s[0] == RETURN {
      PastMatters(s[1..]);
      SamePast([], s, s[1..]);
    } else {
      PastMatters(s[1..]);
      SamePast([s[0]], s, s[1..]);
    }
  }

  /** The text is read the same whatever is behind it. */
  ghost predicate PastFree(s: seq<Byte>) { forall p: Byte, q: Byte :: Raw(s, p) == Raw(s, q) }

  lemma LastByte(s: seq<Byte>)
    requires s == [BACKSLASH]
    ensures !PastFree(s)
  {
    assert Raw(s, 97) == [7] && Raw(s, 98) == [8];
  }

  lemma SamePast(head: seq<Byte>, s: seq<Byte>, rest: seq<Byte>)
    requires forall p: Byte :: Raw(s, p) == head + Raw(rest, p)
    ensures PastFree(s) <==> PastFree(rest)
  {
    hide Raw;
    if PastFree(s) {
      forall p: Byte, q: Byte ensures Raw(rest, p) == Raw(rest, q) {
        assert Raw(s, p) == Raw(s, q) && Raw(s, p) == head + Raw(rest, p) && Raw(s, q) == head + Raw(rest, q);
        assert Raw(rest, p) == (head + Raw(rest, p))[|head|..] == (head + Raw(rest, q))[|head|..] == Raw(rest, q);
      }
    }
    if PastFree(rest) {
      forall p: Byte, q: Byte ensures Raw(s, p) == Raw(s, q) {
        assert Raw(rest, p) == Raw(rest, q) && Raw(s, p) == head + Raw(rest, p) && Raw(s, q) == head + Raw(rest, q);
      }
    }
  }

  lemma PairedByte(b: Byte, rest: seq<Byte>)
    ensures Paired(EscapedByte(b) + rest) == Paired(rest)
  {
    var e := EscapedByte(b);
    if Splits(b) && b != 0 {
      assert (e + rest)[2..] == rest;
    } else if b == 0 {
      assert e + rest == rest;
    } else {
      assert (e + rest)[1..] == rest;
    }
  }

  /** Escaped text has no unpaired backslash: reading it back never looks past its end. */
  lemma {:induction false} EscapedIsPaired(s: seq<Byte>)
    ensures Paired(Escaped(s))
  {
    hide EscapedByte;
    if s != [] {
      PairedByte(s[0], Escaped(s[1..]));
      EscapedIsPaired(s[1..]);
    }
  }

  // ---- the loops ----

  lemma {:induction false} EscapedMore(s: seq<Byte>, b: Byte)
    ensures Escaped(s + [b]) == Escaped(s) + EscapedByte(b)
  {
    hide EscapedByte;
    if s == [] {
      assert [b][1..] == [];
      assert Escaped([b]) == EscapedByte(b) + Escaped([]);
    } else {
      assert (s + [b])[1..] == s[1..] + [b];
      EscapedMore(s[1..], b);
    }
  }

  method EscapedFromRaw(s: seq<Byte>) returns (result: seq<Byte>)
    ensures result == Escaped(s)
  {
    hide Joined, Escaped, Replacement;
    var parts: seq<seq<Byte>> := [];
    var start: nat, idx: nat := 0, 0;
    Empty();
    while idx <= |s|
      invariant start <= idx <= |s| + 1
      invariant idx <= |s| ==> Joined(parts) + s[start..idx] == Escaped(s[..idx])
      invariant idx == |s| + 1 ==> Joined(parts) == Escaped(s)
    {
      var byte := if idx < |s| then s[idx] else 0;
      if Splits(byte) {
        var substr := s[start..idx];
        start := idx + 1;
        JoinedMore(parts, substr);
        parts := parts + [substr];
        if Replacement(byte) != [] {
          JoinedMore(parts, Replacement(byte));
          parts := parts + [Replacement(byte)];
        }
      }
      if idx < |s| {
        EscapedMore(s[..idx], byte);
        assert s[..idx] + [byte] == s[..idx + 1];
        assert !Splits(byte) ==> s[start..idx + 1] == s[start..idx] + [byte];
      } else {
        assert s[..idx] == s;
        assert Replacement(0) == [] by { ZeroIsDropped(); }
      }
      idx := idx + 1;
    }
    result := Joined(parts);
  }

  lemma ZeroIsDropped()
    ensures Replacement(0) == []
  {
  }

  lemma Empty()
    ensures Joined([]) == [] && Escaped([]) == []
  {
  }

  /** A run of plain bytes, an escape or a return, or the end. */
  method RawFromEscaped(s: seq<Byte>, past: Byte) returns (result: seq<Byte>)
    ensures result == Raw(s, past)
  {
    hide Joined, Meaning, Raw;
    var strs: seq<seq<Byte>> := [];
    var start: nat, idx: nat := 0, 0;
    Empty();
    assert s[0..] == s;
    while idx <= |s|
      invariant start <= idx <= |s| + 1
      invariant idx <= |s| ==> Joined(strs) + s[start..idx] + Raw(s[idx..], past) == Raw(s, past)
      invariant idx == |s| + 1 ==> Joined(strs) == Raw(s, past)
    {
      RawStep(s, idx, past);
      ghost var was := Joined(strs);
      ghost var run := s[start..idx];
      if idx == |s| || s[idx] == BACKSLASH || s[idx] == RETURN {
        var str := s[start..idx];
        JoinedMore(strs, str);
        if |str| != 0 {
          strs := strs + [str];
        }
        start := idx + 1;
      }
      if idx < |s| && s[idx] == BACKSLASH {
        var next := if idx + 1 < |s| then s[idx + 1] else past;
        JoinedMore(strs, [Meaning(next)]);
        strs := strs + [[Meaning(next)]];
        idx := idx + 1;
        start := start + 1;
      } else if idx < |s| && s[idx] != RETURN {
        assert s[start..idx + 1] == run + [s[idx]];
      }
      idx := idx + 1;
    }
    result := Joined(strs);
  }

  lemma RawStep(s: seq<Byte>, i: nat, past: Byte)
    requires i <= |s|
    ensures
      if i == |s| then Raw(s[i..], past) == []
      else if s[i] == BACKSLASH then
        if i + 1 == |s| then Raw(s[i..], past) == [Meaning(past)]
          else Raw(s[i..], past) == [Meaning(s[i + 1])] + Raw(s[i + 2..], past)
      else if s[i] == RETURN then Raw(s[i..], past) == Raw(s[i + 1..], past)
      else Raw(s[i..], past) == [s[i]] + Raw(s[i + 1..], past)
  {
    hide Meaning;
    if i < |s| {
      assert s[i..][1..] == s[i + 1..];
      if i + 1 < |s| {
        assert s[i..][2..] == s[i + 2..];
      }
    }
  }

  // ---- what is written and what is meant ----

  /** The letters that may stand behind a backslash, and what each stands for. */
  const LETTERS: string := "abefnrtv\\'\"?"
  const BYTES: seq<Byte> := [7, 8, 27, 12, 10, 13, 9, 11, 92, 39, 34, 63]

  /** One of the twelve escapes gives its byte and any other gives zero, also those the printer never writes; a carriage
      return gives nothing and every other byte itself. */
  lemma EscapesMean(c: Byte, rest: seq<Byte>, past: Byte)
    ensures
      forall i | 0 <= i < 12 ::
        LETTERS[i] as int == c ==> Raw([92, c] + rest, past) == [BYTES[i]] + Raw(rest, past)
    ensures (forall i | 0 <= i < 12 :: LETTERS[i] as int != c) ==> Raw([92, c] + rest, past) == [0] + Raw(rest, past)
    ensures c != 92 ==> Raw([c] + rest, past) == (if c == 13 then [] else [c]) + Raw(rest, past)
  {
    assert ([92, c] + rest)[2..] == rest && ([c] + rest)[1..] == rest;
    assert Raw([92, c] + rest, past) == [Meaning(c)] + Raw(rest, past);
    hide Raw;
    assert LETTERS[0] as int == 97 && LETTERS[1] as int == 98 && LETTERS[2] as int == 101 && LETTERS[3] as int == 102;
    assert LETTERS[4] as int == 110 && LETTERS[5] as int == 114 && LETTERS[6] as int == 116 && LETTERS[7] as int == 118;
    assert LETTERS[8] as int == 92 && LETTERS[9] as int == 39 && LETTERS[10] as int == 34 && LETTERS[11] as int == 63;
  }

  /** Nothing in escaped text rings, moves the cursor or ends the line, and every quote has a backslash in front. */
  lemma {:induction false} EscapedIsClean(s: seq<Byte>, i: nat)
    requires i < |Escaped(s)|
    ensures Escaped(s)[i] != 0 && !(7 <= Escaped(s)[i] <= 13)
    ensures Escaped(s)[i] == 34 ==> i > 0 && Escaped(s)[i - 1] == 92
  {
    var e := EscapedByte(s[0]);
    if i >= |e| {
      EscapedIsClean(s[1..], i - |e|);
    }
  }
}
