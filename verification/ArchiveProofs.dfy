/** What the archive writer lays out, the archive parser reads back. */
module ArchiveProofs {
  import opened Basics
  import opened Bytes
  import opened Archive

  /** One member as laid out: its name field and its data. */
  datatype Entry = Entry(name: seq<Byte>, data: seq<Byte>)

  function EntryBytes(e: Entry, st: Stamp): seq<Byte> {
    Header(e.name, st.time, st.mode, |e.data|) + e.data + PadOf(|e.data|)
  }

  function Flat(es: seq<Entry>, st: Stamp): seq<Byte> {
    if es == [] then [] else EntryBytes(es[0], st) + Flat(es[1..], st)
  }

  predicate StampOk(st: Stamp) { st.time <= U32_MAX && st.mode < 10000 }

  predicate EntryOk(e: Entry) { FieldText(e.name, 16) && |e.data| < 1000000000 }

  predicate EntriesOk(es: seq<Entry>) { forall i | 0 <= i < |es| :: EntryOk(es[i]) }

  lemma {:induction false} FlatAppend(a: seq<Entry>, b: seq<Entry>, st: Stamp)
    ensures Flat(a + b, st) == Flat(a, st) + Flat(b, st)
  {
    if a == [] {
      assert a + b == b;
    } else {
      assert (a + b)[0] == a[0] && (a + b)[1..] == a[1..] + b;
      FlatAppend(a[1..], b, st);
    }
  }

  // ---- headers ----

  lemma HeaderLength(name: seq<Byte>, st: Stamp, size: nat)
    requires FieldText(name, 16) && StampOk(st) && size < 1000000000
    ensures |Header(name, st.time, st.mode, size)| == HEADER
  {
    DecLength(st.time);
    DecLength(0);
    DecLength(st.mode);
    DecLength(size);
  }

  lemma HeaderFields(name: seq<Byte>, st: Stamp, size: nat)
    requires FieldText(name, 16) && StampOk(st) && size < 1000000000
    ensures
      var h := Header(name, st.time, st.mode, size);
      && |h| == HEADER && h[..16] == Padded(name, 16) && h[16..28] == Padded(Dec(st.time), 12)
      && h[28..34] == Padded(Dec(0), 6) && h[34..40] == Padded(Dec(0), 6) && h[40..48] == Padded(Dec(st.mode), 8)
      && h[48..58] == Padded(Dec(size), 10) && h[58..60] == END
  {
    DecLength(st.time);
    DecLength(0);
    DecLength(st.mode);
    DecLength(size);
    hide Padded, Dec;
    SevenFields(Padded(name, 16), Padded(Dec(st.time), 12), Padded(Dec(0), 6), Padded(Dec(st.mode), 8),
                Padded(Dec(size), 10), END);
  }

  lemma SevenFields(a: seq<Byte>, b: seq<Byte>, c: seq<Byte>, d: seq<Byte>, e: seq<Byte>, f: seq<Byte>)
    requires |a| == 16 && |b| == 12 && |c| == 6 && |d| == 8 && |e| == 10 && |f| == 2
    ensures
      var h := a + b + c + c + d + e + f;
      |h| == 60 && h[..16] == a && h[16..28] == b && h[28..34] == c && h[34..40] == c && h[40..48] == d
        && h[48..58] == e && h[58..60] == f
  {
  }

  /** What every header of an archive says besides name and size. */
  function FieldsOf(name: seq<Byte>, st: Stamp, size: nat): Fields {
    Fields(name, st.time, 0, 0, Dec(st.mode), size)
  }

  function ParsedWith(name: seq<Byte>, st: Stamp, off: nat, data: seq<Byte>): Parsed {
    Parsed(name, st.time, 0, 0, Dec(st.mode), off, data)
  }

  lemma HeaderParses(name: seq<Byte>, st: Stamp, size: nat)
    requires FieldText(name, 16) && StampOk(st) && size < 1000000000
    ensures
      var h := Header(name, st.time, st.mode, size);
      |h| == HEADER && ParseHeader(h) == Some(FieldsOf(name, st, size))
  {
    HeaderFields(name, st, size);
    DecLength(st.time);
    DecLength(0);
    DecLength(st.mode);
    DecLength(size);
    DecIsField(st.time, 12);
    DecIsField(0, 6);
    DecIsField(st.mode, 8);
    DecIsField(size, 10);
    hide Header, Padded, Dec;
    FieldOfPadded(name, 16);
    FieldOfPadded(Dec(st.time), 12);
    FieldOfPadded(Dec(0), 6);
    FieldOfPadded(Dec(st.mode), 8);
    FieldOfPadded(Dec(size), 10);
    ParseDec(st.time);
    ParseDec(0);
    ParseDec(size);
    CStrStops(END, []);
    assert END + [] == END;
  }

  lemma EntryLength(e: Entry, st: Stamp)
    requires EntryOk(e) && StampOk(st)
    ensures |EntryBytes(e, st)| == HEADER + Even(|e.data|) && |EntryBytes(e, st)| == Even(HEADER + |e.data|)
  {
    HeaderLength(e.name, st, |e.data|);
  }

  // ---- iterating ----

  lemma EntryPlaced(raw: seq<Byte>, pre: seq<Byte>, e: Entry, rest: seq<Byte>, st: Stamp)
    requires EntryOk(e) && StampOk(st) && raw == pre + EntryBytes(e, st) + rest
    ensures |pre| + HEADER + |e.data| <= |raw|
    ensures raw[|pre|..|pre| + HEADER] == Header(e.name, st.time, st.mode, |e.data|)
    ensures raw[|pre| + HEADER..|pre| + HEADER + |e.data|] == e.data
  {
    var h := Header(e.name, st.time, st.mode, |e.data|);
    var bytes := EntryBytes(e, st);
    HeaderLength(e.name, st, |e.data|);
    Parts(h, e.data, PadOf(|e.data|));
    hide Header, EntryBytes, FieldText;
    Parts(pre, bytes, rest);
    Piece(raw, bytes, |pre|, 0, HEADER);
    Piece(raw, bytes, |pre|, HEADER, HEADER + |e.data|);
  }

  lemma NextEntry(raw: seq<Byte>, pre: seq<Byte>, e: Entry, rest: seq<Byte>, st: Stamp)
    requires EntryOk(e) && StampOk(st) && raw == pre + EntryBytes(e, st) + rest
    ensures IterNext(raw, |pre|) == Some((ParsedWith(e.name, st, |pre|, e.data), |pre| + |EntryBytes(e, st)|))
  {
    hide Header, EntryBytes, EntryOk, IterNext;
    EntryPlaced(raw, pre, e, rest, st);
    EntryLength(e, st);
    NextPlaced(raw, |pre|, e, st);
  }

  lemma NextPlaced(raw: seq<Byte>, off: nat, e: Entry, st: Stamp)
    requires EntryOk(e) && StampOk(st) && off + HEADER + |e.data| <= |raw|
    requires raw[off..off + HEADER] == Header(e.name, st.time, st.mode, |e.data|)
    requires raw[off + HEADER..off + HEADER + |e.data|] == e.data
    ensures IterNext(raw, off) == Some((ParsedWith(e.name, st, off, e.data), off + Even(HEADER + |e.data|)))
  {
    hide *;
    EntryParses(e, st);
    SliceIs(raw, off + HEADER, e.data);
    NextParsed(raw, off, e, st);
  }

  lemma EntryParses(e: Entry, st: Stamp)
    requires EntryOk(e) && StampOk(st)
    ensures
      var h := Header(e.name, st.time, st.mode, |e.data|);
      |h| == HEADER && ParseHeader(h) == Some(FieldsOf(e.name, st, |e.data|))
  {
    HeaderParses(e.name, st, |e.data|);
  }

  lemma SliceIs(raw: seq<Byte>, off: nat, data: seq<Byte>)
    requires off + |data| <= |raw| && raw[off..off + |data|] == data
    ensures Slice(raw, off, off + |data|) == data
  {
  }

  lemma NextParsed(raw: seq<Byte>, off: nat, e: Entry, st: Stamp)
    requires off + HEADER + |e.data| <= |raw|
    requires ParseHeader(raw[off..off + HEADER]) == Some(FieldsOf(e.name, st, |e.data|))
    requires Slice(raw, off + HEADER, off + HEADER + |e.data|) == e.data
    ensures IterNext(raw, off) == Some((ParsedWith(e.name, st, off, e.data), off + Even(HEADER + |e.data|)))
  {
    hide Slice, Even, ParseHeader;
  }

  lemma FlatFrom(es: seq<Entry>, st: Stamp)
    requires es != []
    ensures Flat(es, st) == EntryBytes(es[0], st) + Flat(es[1..], st)
  {
  }

  function ParsedOf(es: seq<Entry>, st: Stamp, off: nat): (ps: seq<Parsed>)
    ensures |ps| == |es|
  {
    if es == [] then []
    else [ParsedWith(es[0].name, st, off, es[0].data)] + ParsedOf(es[1..], st, off + |EntryBytes(es[0], st)|)
  }

  lemma {:induction false} ParsedAt(es: seq<Entry>, st: Stamp, off: nat, i: nat)
    requires i < |es|
    ensures ParsedOf(es, st, off)[i] == ParsedWith(es[i].name, st, off + |Flat(es[..i], st)|, es[i].data)
  {
    hide EntryBytes;
    if i == 0 {
      assert es[..0] == [];
    } else {
      ParsedAt(es[1..], st, off + |EntryBytes(es[0], st)|, i - 1);
      FlatFrom(es[..i], st);
      assert es[..i][1..] == es[1..][..i - 1];
    }
  }

  lemma IterEnds(raw: seq<Byte>)
    ensures IterAll(raw, |raw|) == []
  {
  }

  lemma {:induction false} IterFlat(raw: seq<Byte>, pre: seq<Byte>, es: seq<Entry>, st: Stamp)
    requires EntriesOk(es) && StampOk(st) && raw == pre + Flat(es, st)
    ensures IterAll(raw, |pre|) == ParsedOf(es, st, |pre|)
    decreases |es|
  {
    hide EntryBytes, EntryOk, EntriesOk, IterNext, StampOk;
    if es == [] {
      IterEnds(raw);
    } else {
      var e, rest := EntryBytes(es[0], st), Flat(es[1..], st);
      FirstOk(es);
      Parts(pre, e, rest);
      NextEntry(raw, pre, es[0], rest, st);
      IterFlat(raw, pre + e, es[1..], st);
    }
  }

  lemma FirstOk(es: seq<Entry>)
    requires EntriesOk(es) && es != []
    ensures EntryOk(es[0]) && EntriesOk(es[1..])
  {
  }

  // ---- names ----

  /** Names that survive: not empty, no zero or line end, no slash or space in front. */
  predicate NameOk(name: seq<Byte>) {
    name != [] && 0 !in name && NEWLINE !in name && name[0] != SLASH && !IsSpace(name[0])
  }

  /** Every name seen begins in the text at its place, followed by a slash and a line end. */
  ghost predicate SeenOk(text: seq<Byte>, seen: map<seq<Byte>, nat>) {
    forall name | name in seen ::
      seen[name] + |name| + 2 <= |text| && text[seen[name]..seen[name] + |name| + 2] == name + [SLASH, NEWLINE]
  }

  lemma SeenGrows(text: seq<Byte>, seen: map<seq<Byte>, nat>, name: seq<Byte>)
    requires SeenOk(text, seen)
    ensures SeenOk(text + name + [SLASH, NEWLINE], seen[name := |text|])
  {
    var text' := text + name + [SLASH, NEWLINE];
    var seen' := seen[name := |text|];
    forall x | x in seen'
      ensures seen'[x] + |x| + 2 <= |text'| && text'[seen'[x]..seen'[x] + |x| + 2] == x + [SLASH, NEWLINE] {
      if x == name {
        Parts(text, name, [SLASH, NEWLINE]);
        assert text'[|text|..] == name + [SLASH, NEWLINE];
      } else {
        Parts(text, name, [SLASH, NEWLINE]);
        Piece(text', text, 0, seen[x], seen[x] + |x| + 2);
      }
    }
  }

  lemma {:induction false} LongNamesOk(ms: seq<Member>, n: nat)
    requires n <= |ms|
    ensures SeenOk(LongNames(ms, n).0, LongNames(ms, n).1)
    ensures forall i | 0 <= i < n && |ms[i].name| + 1 > MAX_SHORT :: ms[i].name in LongNames(ms, n).1
  {
    hide SeenOk;
    if n == 0 {
      NothingSeen();
    } else {
      LongNamesOk(ms, n - 1);
      var (text, seen) := LongNames(ms, n - 1);
      SeenGrows(text, seen, ms[n - 1].name);
    }
  }

  lemma NothingSeen()
    ensures SeenOk([], map[])
  {
  }

  /** The text only grows, and what has been seen stays where it is. */
  lemma {:induction false} LongNamesGrow(ms: seq<Member>, i: nat, n: nat)
    requires i <= n <= |ms|
    ensures LongNames(ms, i).0 <= LongNames(ms, n).0
    ensures forall x | x in LongNames(ms, i).1 ::
            x in LongNames(ms, n).1 && LongNames(ms, n).1[x] == LongNames(ms, i).1[x]
    decreases n
  {
    if i < n {
      LongNamesGrow(ms, i, n - 1);
    }
  }

  lemma {:induction false} UpToLineStops(s: seq<Byte>, rest: seq<Byte>)
    requires 0 !in s && NEWLINE !in s && (rest == [] || rest[0] == 0 || rest[0] == NEWLINE)
    ensures UpToLine(s + rest) == s
  {
    if s != [] {
      assert (s + rest)[1..] == s[1..] + rest;
      UpToLineStops(s[1..], rest);
    } else {
      assert s + rest == rest;
    }
  }

  /** The offset a long name field carries. */
  function LongOffset(ms: seq<Member>, i: nat): nat
    requires i < |ms|
  {
    var (text, seen) := LongNames(ms, i);
    if ms[i].name in seen then seen[ms[i].name] else |text|
  }

  lemma LongOffsetSeen(ms: seq<Member>, i: nat)
    requires i < |ms| && |ms[i].name| + 1 > MAX_SHORT
    ensures
      var seen := LongNames(ms, |ms|).1;
      ms[i].name in seen && seen[ms[i].name] == LongOffset(ms, i)
  {
    LongNamesOk(ms, i + 1);
    LongNamesGrow(ms, i, i + 1);
    LongNamesGrow(ms, i + 1, |ms|);
    hide SeenOk;
  }

  lemma LongOffsetFinds(ms: seq<Member>, i: nat)
    requires i < |ms| && |ms[i].name| + 1 > MAX_SHORT
    ensures
      var long := LongNames(ms, |ms|).0;
      var off := LongOffset(ms, i);
      off + |ms[i].name| + 2 <= |long| && long[off..off + |ms[i].name| + 2] == ms[i].name + [SLASH, NEWLINE]
  {
    hide LongNames, LongOffset;
    LongNamesOk(ms, |ms|);
    LongOffsetSeen(ms, i);
  }

  lemma LineRead(long: seq<Byte>, off: nat, name: seq<Byte>)
    requires off + |name| + 2 <= |long| && long[off..off + |name| + 2] == name + [SLASH, NEWLINE]
    requires 0 !in name && NEWLINE !in name
    ensures UpToLine(long[off..]) == name + [SLASH]
  {
    var tail := [NEWLINE] + long[off + |name| + 2..];
    assert long[off..] == long[off..off + |name| + 2] + long[off + |name| + 2..];
    assert name + [SLASH, NEWLINE] == name + [SLASH] + [NEWLINE];
    assert long[off..] == (name + [SLASH]) + tail;
    UpToLineStops(name + [SLASH], tail);
  }

  lemma LongDecodes(long: seq<Byte>, off: nat, name: seq<Byte>)
    requires off + |name| + 2 <= |long| <= U32_MAX && long[off..off + |name| + 2] == name + [SLASH, NEWLINE]
    requires 0 !in name && NEWLINE !in name
    ensures FieldText([SLASH] + Dec(off), 16) && DecodeName(long, [SLASH] + Dec(off)) == name
  {
    var field := [SLASH] + Dec(off);
    DecLength(off);
    ParseDec(off);
    LineRead(long, off, name);
    hide Dec, UpToLine, ParseU64;
    assert field[1..] == Dec(off);
    assert RawName(long, field) == name + [SLASH];
    assert (name + [SLASH])[..|name|] == name;
  }

  lemma ShortDecodes(long: seq<Byte>, name: seq<Byte>)
    requires NameOk(name) && |name| + 1 <= MAX_SHORT
    ensures FieldText(name + [SLASH], 16) && DecodeName(long, name + [SLASH]) == name
  {
    var field := name + [SLASH];
    assert field[0] == name[0];
    assert field[..|name|] == name;
  }

  /** Names in archives of other writers: a name without slashes is the member's name; behind a slash stands, in
      decimal, where in the long names it begins, and it goes up to a zero, a line end or the end of them. */
  lemma ForeignName(long: seq<Byte>, pre: seq<Byte>, name: seq<Byte>, rest: seq<Byte>)
    requires SLASH !in name && 0 !in name && NEWLINE !in name && (rest == [] || rest[0] == 0 || rest[0] == NEWLINE)
    requires long == pre + name + rest && |pre| < |long| <= U32_MAX
    ensures DecodeName(long, name) == name
    ensures DecodeName(long, [SLASH] + Dec(|pre|)) == name
  {
    ParseDec(|pre|);
    UpToLineStops(name, rest);
    hide Dec, UpToLine, ParseU64;
    assert ([SLASH] + Dec(|pre|))[1..] == Dec(|pre|);
    assert long[|pre|..] == name + rest;
  }

  /** The name a member was pushed with is what its name field decodes to. */
  lemma NameDecodes(ms: seq<Member>, i: nat)
    requires i < |ms| && NameOk(ms[i].name) && |LongNames(ms, |ms|).0| <= U32_MAX
    ensures FieldText(NameField(ms, i), 16)
    ensures DecodeName(LongNames(ms, |ms|).0, NameField(ms, i)) == ms[i].name
  {
    hide LongNames, DecodeName, FieldText, Dec;
    if |ms[i].name| + 1 <= MAX_SHORT {
      ShortDecodes(LongNames(ms, |ms|).0, ms[i].name);
    } else {
      LongOffsetFinds(ms, i);
      LongDecodes(LongNames(ms, |ms|).0, LongOffset(ms, i), ms[i].name);
    }
  }

  // ---- the layout ----

  function MemberEntry(ms: seq<Member>, i: nat): Entry
    requires i < |ms|
  {
    Entry(NameField(ms, i), ms[i].data)
  }

  function MemberEntries(ms: seq<Member>, n: nat): (es: seq<Entry>)
    requires n <= |ms|
    ensures |es| == n && forall i | 0 <= i < n :: es[i] == MemberEntry(ms, i)
  {
    seq(n, i requires 0 <= i < n => MemberEntry(ms, i))
  }

  predicate MembersOk(ms: seq<Member>) {
    |LongNames(ms, |ms|).0| < 1000000000 && forall i | 0 <= i < |ms| :: NameOk(ms[i].name) && |ms[i].data| < 1000000000
  }

  lemma EntriesAreOk(ms: seq<Member>)
    requires MembersOk(ms)
    ensures EntriesOk(MemberEntries(ms, |ms|))
  {
    hide EntryOk, MembersOk, MemberEntry;
    forall i | 0 <= i < |ms| ensures EntryOk(MemberEntry(ms, i)) {
      MemberEntryOk(ms, i);
    }
  }

  lemma PadAgrees(before: seq<Byte>, h: seq<Byte>, data: seq<Byte>)
    requires |before| % 2 == 0 && |h| == HEADER
    ensures
      var all := before + h + data + PadOf(|before| + |h| + |data|);
      all == before + (h + data + PadOf(|data|)) && |all| % 2 == 0
  {
    assert (|before| + |h| + |data|) % 2 == |data| % 2;
  }

  lemma MemberEntryOk(ms: seq<Member>, i: nat)
    requires MembersOk(ms) && i < |ms|
    ensures EntryOk(MemberEntry(ms, i))
  {
    NameDecodes(ms, i);
  }

  lemma OneMore(ms: seq<Member>, st: Stamp, n: nat)
    requires MembersOk(ms) && StampOk(st) && 0 < n <= |ms| && |MemberData(ms, st, n - 1)| % 2 == 0
    ensures MemberData(ms, st, n) == MemberData(ms, st, n - 1) + EntryBytes(MemberEntry(ms, n - 1), st)
    ensures |MemberData(ms, st, n)| % 2 == 0
  {
    hide Header, EntryOk, MembersOk, StampOk, PadOf, NameField, ParseHeader;
    var e := MemberEntry(ms, n - 1);
    MemberEntryOk(ms, n - 1);
    EntryParses(e, st);
    PadAgrees(MemberData(ms, st, n - 1), Header(e.name, st.time, st.mode, |e.data|), e.data);
  }

  lemma EntriesGrow(ms: seq<Member>, st: Stamp, n: nat)
    requires 0 < n <= |ms|
    ensures Flat(MemberEntries(ms, n), st)
            == Flat(MemberEntries(ms, n - 1), st) + EntryBytes(MemberEntry(ms, n - 1), st)
  {
    hide EntryBytes, MemberEntry;
    assert MemberEntries(ms, n) == MemberEntries(ms, n - 1) + [MemberEntry(ms, n - 1)];
    FlatAppend(MemberEntries(ms, n - 1), [MemberEntry(ms, n - 1)], st);
    FlatOne(MemberEntry(ms, n - 1), st);
  }

  lemma FlatOne(e: Entry, st: Stamp)
    ensures Flat([e], st) == EntryBytes(e, st)
  {
    assert Flat([e], st) == EntryBytes(e, st) + Flat([], st);
  }

  lemma {:induction false} MemberDataIsFlat(ms: seq<Member>, st: Stamp, n: nat)
    requires MembersOk(ms) && StampOk(st) && n <= |ms|
    ensures MemberData(ms, st, n) == Flat(MemberEntries(ms, n), st) && |MemberData(ms, st, n)| % 2 == 0
  {
    if n == 0 {
    } else {
      hide *;
      MemberDataIsFlat(ms, st, n - 1);
      OneMore(ms, st, n);
      EntriesGrow(ms, st, n);
    }
  }

  lemma InFrontIsFlat(name: seq<Byte>, data: seq<Byte>, st: Stamp, behind: nat)
    requires EntryOk(Entry(name, data)) && StampOk(st) && behind % 2 == 0
    ensures InFront(name, data, st, behind) == Flat([Entry(name, data)], st)
    ensures |InFront(name, data, st, behind)| == Even(HEADER + |data|)
  {
    var e := Entry(name, data);
    hide Header, EntryOk, StampOk, ParseHeader, Flat;
    EntryParses(e, st);
    FlatOne(e, st);
    assert (behind + |data| + HEADER) % 2 == |data| % 2;
  }

  // ---- sorted symbols take the same room ----

  lemma {:induction false} RemoveName(b: seq<Symbol>, j: nat)
    requires j < |b|
    ensures |NameBuffer(b)| == |NameBuffer(b[..j] + b[j + 1..])| + |b[j].name| + 1
  {
    if j == 0 {
      assert b[..j] + b[j + 1..] == b[1..];
    } else {
      RemoveName(b[1..], j - 1);
      var rest := b[..j] + b[j + 1..];
      assert rest[0] == b[0] && rest[1..] == b[1..][..j - 1] + b[1..][j..];
    }
  }

  lemma IndexOf<T>(x: T, b: seq<T>) returns (j: nat)
    requires x in multiset(b)
    ensures j < |b| && b[j] == x
  {
    j :| 0 <= j < |b| && b[j] == x;
  }

  /** Taking the first element of one and its like from the other leaves the same elements. */
  lemma TakeSame<T>(a: seq<T>, b: seq<T>) returns (j: nat)
    requires a != [] && multiset(a) == multiset(b)
    ensures j < |b| && b[j] == a[0] && multiset(a[1..]) == multiset(b[..j] + b[j + 1..])
  {
    assert a[0] in multiset(a);
    j := IndexOf(a[0], b);
    var x := multiset{a[0]};
    assert multiset(a) == x + multiset(a[1..]) by {
      assert a == [a[0]] + a[1..];
    }
    assert multiset(b) == x + multiset(b[..j] + b[j + 1..]) by {
      assert b == b[..j] + [b[j]] + b[j + 1..];
    }
    assert multiset(a[1..]) == multiset(a) - x;
    assert multiset(b[..j] + b[j + 1..]) == multiset(b) - x;
  }

  lemma SameLength<T>(a: seq<T>, b: seq<T>)
    requires multiset(a) == multiset(b)
    ensures |a| == |b|
  {
    assert |multiset(a)| == |multiset(b)|;
  }

  lemma {:induction false} SameRoom(a: seq<Symbol>, b: seq<Symbol>)
    requires IsSorting(a, b)
    ensures |NameBuffer(a)| == |NameBuffer(b)| && |a| == |b|
  {
    SameLength(a, b);
    if a != [] {
      var j := TakeSame(a, b);
      RemoveName(b, j);
      SameRoom(a[1..], b[..j] + b[j + 1..]);
    }
  }

  // ---- the layout of the whole archive ----

  function Optional(there: bool, e: Entry): seq<Entry> { if there then [e] else [] }

  function FrontEntries(lib: Library, st: Stamp, emitSecond: bool, byMember: seq<Symbol>,
                        byName: seq<Symbol>): seq<Entry>
    requires Fits(lib, st, emitSecond, byMember) && Fits(lib, st, emitSecond, byName)
  {
    [Entry([SLASH], FirstData(lib, st, emitSecond, byMember))]
    + (if emitSecond then [Entry([SLASH], SecondData(lib, st, byName))] else [])
    + Optional(LongText(lib) != [], Entry([SLASH, SLASH], LongText(lib)))
  }

  function AllEntries(lib: Library, st: Stamp, emitSecond: bool, byMember: seq<Symbol>, byName: seq<Symbol>): seq<Entry>
    requires Fits(lib, st, emitSecond, byMember) && Fits(lib, st, emitSecond, byName)
  {
    FrontEntries(lib, st, emitSecond, byMember, byName) + MemberEntries(lib.members, |lib.members|)
  }

  /** What the writer may assume and must be given: good names, and the symbols sorted in two ways. */
  ghost predicate Ready(lib: Library, st: Stamp, emitSecond: bool, byMember: seq<Symbol>, byName: seq<Symbol>) {
    && MembersOk(lib.members)
    && IsSorting(byMember, lib.symbols) && IsSorting(byName, lib.symbols)
    && Fits(lib, st, emitSecond, byMember) && Fits(lib, st, emitSecond, byName)
  }

  lemma FrontOk(lib: Library, st: Stamp, emitSecond: bool, byMember: seq<Symbol>, byName: seq<Symbol>)
    requires Ready(lib, st, emitSecond, byMember, byName)
    ensures StampOk(st) && EntryOk(Entry([SLASH], FirstData(lib, st, emitSecond, byMember)))
    ensures emitSecond ==> EntryOk(Entry([SLASH], SecondData(lib, st, byName)))
    ensures LongText(lib) != [] ==> EntryOk(Entry([SLASH, SLASH], LongText(lib)))
    ensures |FirstData(lib, st, emitSecond, byMember)| == 4 + 4 * |lib.symbols| + |NameBuffer(lib.symbols)|
    ensures emitSecond ==>
      |SecondData(lib, st, byName)| == 4 + 4 * |lib.members| + 4 + 2 * |lib.symbols| + |NameBuffer(lib.symbols)|
  {
    hide MembersOk, NameBuffer, LongText, BE32, LE32, Words, WordsBE, Halves, SymbolOffsets, MemberOffsets,
         MemberNumbers;
    hide AllBelow, InRange, IsSorting, MemberOffset;
    SameRoom(byMember, lib.symbols);
    SameRoom(byName, lib.symbols);
  }

  /** The long-names member, when there is one. */
  lemma LongIsFlat(lib: Library, st: Stamp)
    requires StampOk(st) && MembersOk(lib.members)
    requires LongText(lib) != [] ==> EntryOk(Entry([SLASH, SLASH], LongText(lib)))
    ensures
      var long := Long(lib, st);
      && long == Flat(Optional(LongText(lib) != [], Entry([SLASH, SLASH], LongText(lib))), st) && |long| % 2 == 0
      && |long| == if |LongText(lib)| > 0 then Even(HEADER + |LongText(lib)|) else 0
  {
    hide LongText, MemberData, StampOk, EntryOk, MembersOk, InFront, EntryBytes;
    MemberDataIsFlat(lib.members, st, |lib.members|);
    if LongText(lib) != [] {
      InFrontIsFlat([SLASH, SLASH], LongText(lib), st, |MemberData(lib.members, st, |lib.members|)|);
    }
  }

  lemma FlatThree(a: seq<Entry>, b: seq<Entry>, c: seq<Entry>, st: Stamp)
    ensures Flat(a + b + c, st) == Flat(a, st) + Flat(b, st) + Flat(c, st)
  {
    hide Flat;
    FlatAppend(a + b, c, st);
    FlatAppend(a, b, st);
  }

  lemma ReadyHas(lib: Library, st: Stamp, emitSecond: bool, byMember: seq<Symbol>, byName: seq<Symbol>)
    requires Ready(lib, st, emitSecond, byMember, byName)
    ensures MembersOk(lib.members) && StampOk(st)
  {
    FrontOk(lib, st, emitSecond, byMember, byName);
  }

  lemma OkAppend(a: seq<Entry>, b: seq<Entry>)
    requires EntriesOk(a) && EntriesOk(b)
    ensures EntriesOk(a + b)
  {
    hide EntryOk;
  }

  lemma OkOne(e: Entry)
    requires EntryOk(e)
    ensures EntriesOk([e]) && EntriesOk([])
  {
    hide EntryOk;
  }

  lemma FrontEntriesOk(lib: Library, st: Stamp, emitSecond: bool, byMember: seq<Symbol>, byName: seq<Symbol>)
    requires Ready(lib, st, emitSecond, byMember, byName)
    ensures EntriesOk(FrontEntries(lib, st, emitSecond, byMember, byName))
  {
    hide EntryOk, EntriesOk, FirstData, SecondData, LongText, Fits;
    FrontOk(lib, st, emitSecond, byMember, byName);
    var first := Entry([SLASH], FirstData(lib, st, emitSecond, byMember));
    OkOne(first);
    var seconds := if emitSecond then [Entry([SLASH], SecondData(lib, st, byName))] else [];
    if emitSecond {
      OkOne(seconds[0]);
    }
    OkAppend([first], seconds);
    if LongText(lib) != [] {
      OkOne(Entry([SLASH, SLASH], LongText(lib)));
    }
    OkAppend([first] + seconds, Optional(LongText(lib) != [], Entry([SLASH, SLASH], LongText(lib))));
  }

  /** The second linker member, when there is one. */
  lemma SecondIsFlat(there: bool, data: seq<Byte>, st: Stamp, behind: nat)
    requires StampOk(st) && behind % 2 == 0 && (there ==> EntryOk(Entry([SLASH], data)))
    ensures (if there then InFront([SLASH], data, st, behind) else [])
            == Flat(Optional(there, Entry([SLASH], data)), st)
    ensures |Flat(Optional(there, Entry([SLASH], data)), st)| == if there then Even(HEADER + |data|) else 0
  {
    hide StampOk, EntryOk, InFront, EntryBytes;
    if there {
      InFrontIsFlat([SLASH], data, st, behind);
    }
  }

  /** The front of the archive, and that it takes the room the writer reserved. */
  lemma FrontIsFlat(lib: Library, st: Stamp, emitSecond: bool, byMember: seq<Symbol>, byName: seq<Symbol>)
    requires Ready(lib, st, emitSecond, byMember, byName)
    ensures
      var front := Flat(FrontEntries(lib, st, emitSecond, byMember, byName), st);
      var members := MemberData(lib.members, st, |lib.members|);
      && Serialized(lib, st, emitSecond, byMember, byName) == SIG + (front + members)
      && 8 + |front| == BaseOffset(|lib.members|, |lib.symbols|, |NameBuffer(lib.symbols)|, |LongText(lib)|, emitSecond)
  {
    hide EntryOk, StampOk, FirstData, SecondData, LongText, MemberData, NameBuffer, InFront, Flat, Long, Fits,
         MembersOk, Optional;
    ReadyHas(lib, st, emitSecond, byMember, byName);
    FrontOk(lib, st, emitSecond, byMember, byName);
    var members := MemberData(lib.members, st, |lib.members|);
    var first := FirstData(lib, st, emitSecond, byMember);
    var second := if emitSecond then SecondData(lib, st, byName) else [];
    var longEntry := Entry([SLASH, SLASH], LongText(lib));
    LongIsFlat(lib, st);
    MemberDataIsFlat(lib.members, st, |lib.members|);
    InFrontIsFlat([SLASH], first, st, 8);
    SecondIsFlat(emitSecond, second, st, |Long(lib, st) + members|);
    FrontParts(lib, st, emitSecond, byMember, byName, second);
    FlatThree([Entry([SLASH], first)], Optional(emitSecond, Entry([SLASH], second)),
              Optional(LongText(lib) != [], longEntry), st);
  }

  lemma FrontParts(lib: Library, st: Stamp, emitSecond: bool, byMember: seq<Symbol>, byName: seq<Symbol>,
                   second: seq<Byte>)
    requires Fits(lib, st, emitSecond, byMember) && Fits(lib, st, emitSecond, byName)
    requires emitSecond ==> second == SecondData(lib, st, byName)
    ensures FrontEntries(lib, st, emitSecond, byMember, byName)
         == [Entry([SLASH], FirstData(lib, st, emitSecond, byMember))] + Optional(emitSecond, Entry([SLASH], second))
          + Optional(LongText(lib) != [], Entry([SLASH, SLASH], LongText(lib)))
  {
    hide FirstData, SecondData, LongText, Fits;
  }

  lemma LayoutIsFlat(lib: Library, st: Stamp, emitSecond: bool, byMember: seq<Symbol>, byName: seq<Symbol>)
    requires Ready(lib, st, emitSecond, byMember, byName)
    ensures StampOk(st) && EntriesOk(AllEntries(lib, st, emitSecond, byMember, byName))
    ensures Serialized(lib, st, emitSecond, byMember, byName)
            == SIG + Flat(AllEntries(lib, st, emitSecond, byMember, byName), st)
  {
    hide Ready, MembersOk, EntriesOk, StampOk, FrontEntries, Serialized, Flat, MemberData, MemberEntries, Fits, EntryOk;
    ReadyHas(lib, st, emitSecond, byMember, byName);
    ReadyFits(lib, st, emitSecond, byMember, byName);
    FrontEntriesOk(lib, st, emitSecond, byMember, byName);
    FrontIsFlat(lib, st, emitSecond, byMember, byName);
    EntriesAreOk(lib.members);
    MemberDataIsFlat(lib.members, st, |lib.members|);
    OkAppend(FrontEntries(lib, st, emitSecond, byMember, byName), MemberEntries(lib.members, |lib.members|));
    FlatAppend(FrontEntries(lib, st, emitSecond, byMember, byName), MemberEntries(lib.members, |lib.members|), st);
  }

  lemma ReadyFits(lib: Library, st: Stamp, emitSecond: bool, byMember: seq<Symbol>, byName: seq<Symbol>)
    requires Ready(lib, st, emitSecond, byMember, byName)
    ensures Fits(lib, st, emitSecond, byMember) && Fits(lib, st, emitSecond, byName)
  {
  }

  lemma PrefixOfAll(front: seq<Entry>, ms: seq<Member>, i: nat)
    requires i < |ms|
    ensures
      var all := front + MemberEntries(ms, |ms|);
      |front| + i < |all| && all[|front| + i] == MemberEntry(ms, i)
        && all[..|front| + i] == front + MemberEntries(ms, i)
  {
    hide MemberEntry;
  }

  /** The file offset the writer computes for a member is where its header lands. */
  lemma MemberLands(lib: Library, st: Stamp, emitSecond: bool, byMember: seq<Symbol>, byName: seq<Symbol>, i: nat)
    requires Ready(lib, st, emitSecond, byMember, byName) && i < |lib.members|
    ensures
      var all := AllEntries(lib, st, emitSecond, byMember, byName);
      var k := |FrontEntries(lib, st, emitSecond, byMember, byName)|;
      k + i < |all| && all[k + i] == MemberEntry(lib.members, i)
        && 8 + |Flat(all[..k + i], st)| == MemberOffset(lib, st, emitSecond, i)
  {
    hide Ready, MembersOk, StampOk, FrontEntries, Serialized, Flat, MemberData, MemberEntry, MemberEntries, BaseOffset,
         Fits;
    ReadyHas(lib, st, emitSecond, byMember, byName);
    ReadyFits(lib, st, emitSecond, byMember, byName);
    FrontIsFlat(lib, st, emitSecond, byMember, byName);
    var front := FrontEntries(lib, st, emitSecond, byMember, byName);
    MemberDataIsFlat(lib.members, st, i);
    PrefixOfAll(front, lib.members, i);
    FlatAppend(front, MemberEntries(lib.members, i), st);
  }

  // ---- round trips ----

  /** The archive's time and mode, the latter as decimal text, and no owner. */
  predicate Stamped(p: Parsed, st: Stamp) {
    p.time == st.time && p.user == 0 && p.group == 0 && p.mode == Dec(st.mode) && ParseU64(p.mode, 10) == st.mode
  }

  /** `p` is member `i` as pushed, found where the writer said. */
  ghost predicate IsMember(p: Parsed, lib: Library, st: Stamp, emitSecond: bool, i: nat)
    requires i < |lib.members|
  {
    && p.data == lib.members[i].data && DecodeName(LongText(lib), p.name) == lib.members[i].name
    && p.offset == MemberOffset(lib, st, emitSecond, i) && Stamped(p, st)
  }

  lemma MemberNameDecodes(lib: Library, i: nat)
    requires MembersOk(lib.members) && i < |lib.members|
    ensures DecodeName(LongText(lib), NameField(lib.members, i)) == lib.members[i].name
  {
    NameDecodes(lib.members, i);
  }

  /** The parsed members, linker members and long names first and then one for each member pushed, all with the
      archive's stamp. */
  ghost predicate AsPushed(ps: seq<Parsed>, lib: Library, st: Stamp, emitSecond: bool, front: seq<Entry>) {
    && |ps| == |front| + |lib.members|
    && (forall j | 0 <= j < |front| :: IsFront(ps[j], st, front[j]))
    && (forall j | |front| <= j < |ps| :: IsMember(ps[j], lib, st, emitSecond, j - |front|))
  }

  predicate IsFront(p: Parsed, st: Stamp, e: Entry) { p.name == e.name && p.data == e.data && Stamped(p, st) }

  lemma ParsedStamped(name: seq<Byte>, st: Stamp, off: nat, data: seq<Byte>)
    requires StampOk(st)
    ensures Stamped(ParsedWith(name, st, off, data), st)
  {
    ParseDec(st.mode);
  }

  lemma StartsWithSig(raw: seq<Byte>, rest: seq<Byte>)
    requires raw == SIG + rest
    ensures IterInit(raw) == 8
  {
    assert raw[..8] == SIG;
  }

  /** The entry at `at`, as parsed. */
  lemma AllParsedAt(lib: Library, st: Stamp, emitSecond: bool, byMember: seq<Symbol>, byName: seq<Symbol>, j: nat)
    requires Ready(lib, st, emitSecond, byMember, byName) && j < |AllEntries(lib, st, emitSecond, byMember, byName)|
    ensures
      var front := FrontEntries(lib, st, emitSecond, byMember, byName);
      var p := ParsedOf(AllEntries(lib, st, emitSecond, byMember, byName), st, 8)[j];
      if j < |front| then IsFront(p, st, front[j])
      else j - |front| < |lib.members| && IsMember(p, lib, st, emitSecond, j - |front|)
  {
    hide Ready, MembersOk, StampOk, EntriesOk, FrontEntries, Serialized, Flat, ParsedOf, IsMember, Fits, EntryBytes,
         MemberOffset;
    ReadyHas(lib, st, emitSecond, byMember, byName);
    ReadyFits(lib, st, emitSecond, byMember, byName);
    var front := FrontEntries(lib, st, emitSecond, byMember, byName);
    var all := AllEntries(lib, st, emitSecond, byMember, byName);
    ParsedAt(all, st, 8, j);
    ParsedStamped(all[j].name, st, 8 + |Flat(all[..j], st)|, all[j].data);
    hide Stamped;
    if j >= |front| {
      MemberLands(lib, st, emitSecond, byMember, byName, j - |front|);
      MemberFound(ParsedOf(all, st, 8)[j], lib, st, emitSecond, j - |front|);
    }
  }

  /** Iterating a serialized archive yields the linker members, the long names if there are any, and then every
      member in order, with its data and its name. */
  lemma IterationRoundTrip(lib: Library, st: Stamp, emitSecond: bool, byMember: seq<Symbol>, byName: seq<Symbol>)
    requires Ready(lib, st, emitSecond, byMember, byName)
    ensures
      var raw := Serialized(lib, st, emitSecond, byMember, byName);
      IterInit(raw) == 8
      && AsPushed(IterAll(raw, 8), lib, st, emitSecond, FrontEntries(lib, st, emitSecond, byMember, byName))
  {
    hide Ready, MembersOk, StampOk, EntriesOk, FrontEntries, Serialized, Flat, IterAll, ParsedOf, IsMember, Fits,
         IterInit;
    ReadyFits(lib, st, emitSecond, byMember, byName);
    var raw := Serialized(lib, st, emitSecond, byMember, byName);
    var front := FrontEntries(lib, st, emitSecond, byMember, byName);
    var all := AllEntries(lib, st, emitSecond, byMember, byName);
    LayoutIsFlat(lib, st, emitSecond, byMember, byName);
    StartsWithSig(raw, Flat(all, st));
    IterFlat(raw, SIG, all, st);
    var ps := ParsedOf(all, st, 8);
    forall j | 0 <= j < |all|
      ensures if j < |front| then IsFront(ps[j], st, front[j])
              else j - |front| < |lib.members| && IsMember(ps[j], lib, st, emitSecond, j - |front|)
    {
      AllParsedAt(lib, st, emitSecond, byMember, byName, j);
    }
  }

  lemma MemberFound(p: Parsed, lib: Library, st: Stamp, emitSecond: bool, i: nat)
    requires MembersOk(lib.members) && StampOk(st) && i < |lib.members|
    requires p == ParsedWith(NameField(lib.members, i), st, MemberOffset(lib, st, emitSecond, i), lib.members[i].data)
    ensures IsMember(p, lib, st, emitSecond, i)
  {
    hide MembersOk, StampOk, MemberOffset, NameField, DecodeName, LongText, Dec;
    MemberNameDecodes(lib, i);
    ParsedStamped(NameField(lib.members, i), st, MemberOffset(lib, st, emitSecond, i), lib.members[i].data);
  }

  lemma FlatSplit(es: seq<Entry>, i: nat, st: Stamp)
    requires i < |es|
    ensures Flat(es, st) == Flat(es[..i], st) + EntryBytes(es[i], st) + Flat(es[i + 1..], st)
  {
    hide EntryBytes;
    assert es == es[..i] + es[i..] && es[i..][1..] == es[i + 1..];
    FlatAppend(es[..i], es[i..], st);
    FlatFrom(es[i..], st);
  }

  /** Behind data of odd length, the linker members' and the long names' included, stands one zero. */
  lemma PadIsZero(lib: Library, st: Stamp, emitSecond: bool, byMember: seq<Symbol>, byName: seq<Symbol>, j: nat)
    requires Ready(lib, st, emitSecond, byMember, byName)
    requires j < |IterAll(Serialized(lib, st, emitSecond, byMember, byName), 8)|
    ensures
      var raw := Serialized(lib, st, emitSecond, byMember, byName);
      var p := IterAll(raw, 8)[j];
      |p.data| % 2 == 1 ==> p.offset + 60 + |p.data| < |raw| && raw[p.offset + 60 + |p.data|] == 0
  {
    hide *;
    ReadyHas(lib, st, emitSecond, byMember, byName);
    ReadyFits(lib, st, emitSecond, byMember, byName);
    var raw, all := Serialized(lib, st, emitSecond, byMember, byName),
      AllEntries(lib, st, emitSecond, byMember, byName);
    LayoutIsFlat(lib, st, emitSecond, byMember, byName);
    SigLength();
    IterFlat(raw, SIG, all, st);
    ParsedAt(all, st, 8, j);
    WithIs(all[j].name, st, 8 + |Flat(all[..j], st)|, all[j].data);
    if |all[j].data| % 2 == 1 {
      PadFound(raw, all, st, j);
    }
  }

  lemma SigLength()
    ensures |SIG| == 8
  {
  }

  lemma WithIs(name: seq<Byte>, st: Stamp, off: nat, data: seq<Byte>)
    ensures ParsedWith(name, st, off, data).offset == off && ParsedWith(name, st, off, data).data == data
  {
  }

  lemma PadFound(raw: seq<Byte>, es: seq<Entry>, st: Stamp, i: nat)
    requires EntriesOk(es) && StampOk(st) && raw == SIG + Flat(es, st) && i < |es| && |es[i].data| % 2 == 1
    ensures
      var at := 8 + |Flat(es[..i], st)| + 60 + |es[i].data|;
      at < |raw| && raw[at] == 0
  {
    FlatSplit(es, i, st);
    HeaderLength(es[i].name, st, |es[i].data|);
    hide Flat, Header, FieldText, StampOk;
  }

  /** On any bytes: there is a member exactly where a whole header stands that ends in a backquote and a line end. Its
      data is what there is of as many bytes as the size field says in decimal, and the next member is behind all of
      them, an even number of bytes on. */
  lemma NextExactly(raw: seq<Byte>, off: nat)
    ensures IterNext(raw, off).Some? <==> off + 60 <= |raw| && raw[off + 58] == 96 && raw[off + 59] == 10
    ensures IterNext(raw, off).Some? ==>
      && var p, size := IterNext(raw, off).value, ParseU64(Field(raw[off + 48..off + 58]), 10);
         && p.0.offset == off && p.1 == off + 60 + size + size % 2
         && p.0.data == raw[off + 60..Min(|raw|, off + 60 + size)]
  {
    if off + HEADER <= |raw| {
      var h := raw[off..off + HEADER];
      assert h[48..58] == raw[off + 48..off + 58];
      EndExactly(h[58], h[59]);
      assert h[58..60] == [h[58], h[59]];
      hide ParseU64, Field;
    }
  }

  lemma EndExactly(a: Byte, b: Byte)
    ensures CStr([a, b]) == END <==> a == 96 && b == 10
  {
    assert [a, b][1..] == [b];
  }

  /** Without the signature nothing is iterated. */
  lemma NoSignature(raw: seq<Byte>)
    requires |raw| < 8 || raw[..8] != [33, 60, 97, 114, 99, 104, 62, 10]
    ensures IterAll(raw, IterInit(raw)) == []
  {
    IterEnds(raw);
  }

  /** Reading the member at the offset the writer recorded for it finds that member. */
  lemma OffsetResolves(lib: Library, st: Stamp, emitSecond: bool, byMember: seq<Symbol>, byName: seq<Symbol>, i: nat)
    requires Ready(lib, st, emitSecond, byMember, byName) && i < |lib.members|
    ensures
      var next := IterNext(Serialized(lib, st, emitSecond, byMember, byName), MemberOffset(lib, st, emitSecond, i));
      next.Some? && IsMember(next.value.0, lib, st, emitSecond, i)
  {
    hide *;
    ReadyHas(lib, st, emitSecond, byMember, byName);
    ReadyFits(lib, st, emitSecond, byMember, byName);
    var all := AllEntries(lib, st, emitSecond, byMember, byName);
    var at := |FrontEntries(lib, st, emitSecond, byMember, byName)| + i;
    LayoutIsFlat(lib, st, emitSecond, byMember, byName);
    MemberLands(lib, st, emitSecond, byMember, byName, i);
    EntryFound(Serialized(lib, st, emitSecond, byMember, byName), all, st, at);
    MemberIsEntry(lib, i);
    MemberFound(ParsedWith(all[at].name, st, 8 + |Flat(all[..at], st)|, all[at].data), lib, st, emitSecond, i);
  }

  lemma MemberIsEntry(lib: Library, i: nat)
    requires i < |lib.members|
    ensures MemberEntry(lib.members, i) == Entry(NameField(lib.members, i), lib.members[i].data)
  {
  }

  lemma EntryFound(raw: seq<Byte>, es: seq<Entry>, st: Stamp, i: nat)
    requires EntriesOk(es) && StampOk(st) && raw == SIG + Flat(es, st) && i < |es|
    ensures
      var off := 8 + |Flat(es[..i], st)|;
      var next := IterNext(raw, off);
      next.Some? && next.value.0 == ParsedWith(es[i].name, st, off, es[i].data)
  {
    hide StampOk, EntryOk, Flat, EntryBytes, IterNext;
    FlatSplit(es, i, st);
    var pre := SIG + Flat(es[..i], st);
    assert raw == pre + EntryBytes(es[i], st) + Flat(es[i + 1..], st);
    NextEntry(raw, pre, es[i], Flat(es[i + 1..], st), st);
  }

  // ---- the linker members ----

  lemma {:induction false} WordAt(xs: seq<nat>, k: nat)
    requires AllBelow(xs, U32_MAX) && k < |xs|
    ensures Words(xs)[4 * k..4 * k + 4] == LE32(xs[k])
  {
    if k < |xs| - 1 {
      WordAt(xs[..|xs| - 1], k);
    }
  }

  lemma {:induction false} WordBEAt(xs: seq<nat>, k: nat)
    requires AllBelow(xs, U32_MAX) && k < |xs|
    ensures WordsBE(xs)[4 * k..4 * k + 4] == BE32(xs[k])
  {
    if k < |xs| - 1 {
      WordBEAt(xs[..|xs| - 1], k);
    }
  }

  lemma {:induction false} HalfAt(xs: seq<nat>, k: nat)
    requires AllBelow(xs, U16_MAX) && k < |xs|
    ensures Halves(xs)[2 * k..2 * k + 2] == LE16(xs[k])
  {
    if k < |xs| - 1 {
      HalfAt(xs[..|xs| - 1], k);
    }
  }

  lemma WordsRead(data: seq<Byte>, at: nat, xs: seq<nat>)
    requires AllBelow(xs, U32_MAX) && at + 4 * |xs| <= |data| && data[at..at + 4 * |xs|] == Words(xs)
    ensures ReadWords(data, at, |xs|) == xs
  {
    hide Words, Read32, LE32;
    forall k | 0 <= k < |xs| ensures ReadWords(data, at, |xs|)[k] == xs[k] {
      WordRead(data, at, xs, k);
    }
  }

  lemma WordRead(data: seq<Byte>, at: nat, xs: seq<nat>, k: nat)
    requires AllBelow(xs, U32_MAX) && at + 4 * |xs| <= |data| && data[at..at + 4 * |xs|] == Words(xs) && k < |xs|
    ensures Read32(data, at + 4 * k) == xs[k]
  {
    hide Words, Read32, LE32;
    WordAt(xs, k);
    Piece(data, Words(xs), at, 4 * k, 4 * k + 4);
    Read32At(data, at + 4 * k, xs[k]);
  }

  lemma HalvesRead(data: seq<Byte>, at: nat, xs: seq<nat>)
    requires AllBelow(xs, U16_MAX) && at + 2 * |xs| <= |data| && data[at..at + 2 * |xs|] == Halves(xs)
    ensures ReadHalves(data, at, |xs|) == xs
  {
    hide Halves, Read16, LE16;
    forall k | 0 <= k < |xs| ensures ReadHalves(data, at, |xs|)[k] == xs[k] {
      HalfRead(data, at, xs, k);
    }
  }

  lemma HalfRead(data: seq<Byte>, at: nat, xs: seq<nat>, k: nat)
    requires AllBelow(xs, U16_MAX) && at + 2 * |xs| <= |data| && data[at..at + 2 * |xs|] == Halves(xs) && k < |xs|
    ensures Read16(data, at + 2 * k) == xs[k]
  {
    hide Halves, Read16, LE16;
    HalfAt(xs, k);
    Piece(data, Halves(xs), at, 2 * k, 2 * k + 2);
    Read16At(data, at + 2 * k, xs[k]);
  }

  lemma WordBERead(data: seq<Byte>, at: nat, xs: seq<nat>, k: nat)
    requires AllBelow(xs, U32_MAX) && at + 4 * |xs| <= |data| && data[at..at + 4 * |xs|] == WordsBE(xs) && k < |xs|
    ensures ReadBE32(data, at + 4 * k) == xs[k]
  {
    hide WordsBE, ReadBE32, BE32;
    WordBEAt(xs, k);
    Piece(data, WordsBE(xs), at, 4 * k, 4 * k + 4);
    ReadBE32At(data, at + 4 * k, xs[k]);
  }

  lemma FirstOffsets(data: seq<Byte>, count: nat, xs: seq<nat>)
    requires count == |xs| && AllBelow(xs, U32_MAX) && |data| >= 4 + 4 * |xs| && data[4..4 + 4 * |xs|] == WordsBE(xs)
    ensures forall k | 0 <= k < |xs| :: 8 + 4 * k <= |data| && ReadBE32(data, 4 + 4 * k) == xs[k]
  {
    hide WordsBE, ReadBE32, BE32;
    forall k | 0 <= k < |xs| ensures ReadBE32(data, 4 + 4 * k) == xs[k] {
      WordBERead(data, 4, xs, k);
    }
  }

  lemma FirstSlices(data: seq<Byte>, count: nat)
    requires |data| >= 4 + 4 * count
    ensures |Slice(data, 4, 4 + 4 * count)| == 4 * count && Slice(data, 4 + 4 * count, |data|) == data[4 + 4 * count..]
  {
  }

  lemma FirstParsesAt(data: seq<Byte>, count: nat, xs: seq<nat>, names: seq<Byte>)
    requires count == |xs| <= U32_MAX && AllBelow(xs, U32_MAX) && |data| == 4 + 4 * |xs| + |names|
    requires data[..4] == BE32(count) && data[4..4 + 4 * |xs|] == WordsBE(xs) && data[4 + 4 * |xs|..] == names
    ensures ParseFirst(data) == Table(count, xs, names)
  {
    hide WordsBE, ReadBE32, BE32, AllBelow, Slice;
    ReadBE32At(data, 0, count);
    FirstOffsets(data, count, xs);
    FirstSlices(data, count);
    assert ParseFirst(data).offsets == xs;
  }

  lemma FirstParses(count: nat, xs: seq<nat>, names: seq<Byte>)
    requires count == |xs| <= U32_MAX && AllBelow(xs, U32_MAX)
    ensures ParseFirst(BE32(count) + WordsBE(xs) + names) == Table(count, xs, names)
  {
    hide WordsBE, BE32, ParseFirst;
    Parts(BE32(count), WordsBE(xs), names);
    FirstParsesAt(BE32(count) + WordsBE(xs) + names, count, xs, names);
  }

  /** The five parts of the second linker member's data. */
  predicate Laid(data: seq<Byte>, xs: seq<nat>, ys: seq<nat>, names: seq<Byte>) {
    && |xs| <= U32_MAX && |ys| <= U32_MAX && AllBelow(xs, U32_MAX) && AllBelow(ys, U16_MAX)
    && |data| == 8 + 4 * |xs| + 2 * |ys| + |names|
    && data[..4] == LE32(|xs|) && data[4..4 + 4 * |xs|] == Words(xs)
    && data[4 + 4 * |xs|..8 + 4 * |xs|] == LE32(|ys|)
    && data[8 + 4 * |xs|..8 + 4 * |xs| + 2 * |ys|] == Halves(ys) && data[8 + 4 * |xs| + 2 * |ys|..] == names
  }

  lemma LaidCounts(data: seq<Byte>, xs: seq<nat>, ys: seq<nat>, names: seq<Byte>)
    requires Laid(data, xs, ys, names)
    ensures |data| == 8 + 4 * |xs| + 2 * |ys| + |names| && data[8 + 4 * |xs| + 2 * |ys|..] == names
    ensures Read32(data, 0) == |xs| && Read32(data, 4 + 4 * |xs|) == |ys|
  {
    hide LE32, Words, Halves, AllBelow, Read32;
    assert data[0..4] == data[..4];
    Read32At(data, 0, |xs|);
    Read32At(data, 4 + 4 * |xs|, |ys|);
  }

  lemma LaidWords(data: seq<Byte>, xs: seq<nat>, ys: seq<nat>, names: seq<Byte>)
    requires Laid(data, xs, ys, names)
    ensures ReadWords(data, 4, |xs|) == xs
  {
    hide LE32, Words, Halves, AllBelow, ReadWords;
    WordsRead(data, 4, xs);
  }

  lemma LaidHalves(data: seq<Byte>, xs: seq<nat>, ys: seq<nat>, names: seq<Byte>)
    requires Laid(data, xs, ys, names)
    ensures ReadHalves(data, 8 + 4 * |xs|, |ys|) == ys
  {
    hide LE32, Words, Halves, AllBelow, ReadHalves;
    HalvesRead(data, 8 + 4 * |xs|, ys);
  }

  lemma SecondParsesAt(data: seq<Byte>, xs: seq<nat>, ys: seq<nat>, names: seq<Byte>)
    requires Laid(data, xs, ys, names)
    ensures ParseSecond(data) == Table2(xs, ys, names)
  {
    hide *;
    LaidCounts(data, xs, ys, names);
    LaidWords(data, xs, ys, names);
    LaidHalves(data, xs, ys, names);
    SecondCounts(data, |xs|, |ys|);
    SlicesOf(data, |xs|, |ys|, |names|);
  }

  lemma SecondCounts(data: seq<Byte>, n: nat, m: nat)
    requires |data| >= 8 + 4 * n && Read32(data, 0) == n && Read32(data, 4 + 4 * n) == m
    ensures ParseSecond(data)
         == Table2(ReadWords(data, 4, |Slice(data, 4, 4 + 4 * n)| / 4),
                   ReadHalves(data, 8 + 4 * n, |Slice(data, 8 + 4 * n, 8 + 4 * n + 2 * m)| / 2),
                   Slice(data, 8 + 4 * n + 2 * m, |data|))
  {
    hide ReadWords, ReadHalves, Read32, Slice;
  }

  lemma SlicesOf(data: seq<Byte>, n: nat, m: nat, rest: nat)
    requires |data| == 8 + 4 * n + 2 * m + rest
    ensures |Slice(data, 4, 4 + 4 * n)| / 4 == n && |Slice(data, 8 + 4 * n, 8 + 4 * n + 2 * m)| / 2 == m
    ensures Slice(data, 8 + 4 * n + 2 * m, |data|) == data[8 + 4 * n + 2 * m..]
  {
    assert |Slice(data, 4, 4 + 4 * n)| == 4 * n && |Slice(data, 8 + 4 * n, 8 + 4 * n + 2 * m)| == 2 * m;
    hide Slice;
  }

  lemma FiveParts<T>(a: seq<T>, b: seq<T>, c: seq<T>, d: seq<T>, e: seq<T>)
    ensures
      var s := a + b + c + d + e;
      var i, j, k, l := |a|, |a| + |b|, |a| + |b| + |c|, |a| + |b| + |c| + |d|;
      && |s| == l + |e| && s[..i] == a && s[i..j] == b && s[j..k] == c && s[k..l] == d && s[l..] == e
  {
  }

  lemma SecondParses(xs: seq<nat>, ys: seq<nat>, names: seq<Byte>)
    requires |xs| <= U32_MAX && |ys| <= U32_MAX && AllBelow(xs, U32_MAX) && AllBelow(ys, U16_MAX)
    ensures ParseSecond(LE32(|xs|) + Words(xs) + LE32(|ys|) + Halves(ys) + names) == Table2(xs, ys, names)
  {
    hide LE32, Words, Halves, ParseSecond;
    FiveParts(LE32(|xs|), Words(xs), LE32(|ys|), Halves(ys), names);
    SecondParsesAt(LE32(|xs|) + Words(xs) + LE32(|ys|) + Halves(ys) + names, xs, ys, names);
  }

  predicate NamesOk(symbols: seq<Symbol>) { forall k | 0 <= k < |symbols| :: 0 !in symbols[k].name }

  lemma NextString(name: seq<Byte>, rest: seq<Byte>, k: nat)
    requires 0 !in name
    ensures CStr(name + [0] + rest) == name
    ensures k > 0 ==> NthString(name + [0] + rest, k) == NthString(rest, k - 1)
  {
    assert name + [0] + rest == name + ([0] + rest);
    CStrStops(name, [0] + rest);
    assert (name + [0] + rest)[|name| + 1..] == rest;
  }

  lemma NamesFirst(symbols: seq<Symbol>)
    requires symbols != []
    ensures NameBuffer(symbols) == symbols[0].name + [0] + NameBuffer(symbols[1..])
  {
  }

  lemma {:induction false} NthName(symbols: seq<Symbol>, k: nat)
    requires NamesOk(symbols) && k < |symbols|
    ensures NthString(NameBuffer(symbols), k) == symbols[k].name
    decreases k
  {
    hide NameBuffer, CStr;
    NamesFirst(symbols);
    NextString(symbols[0].name, NameBuffer(symbols[1..]), k);
    if k > 0 {
      NthName(symbols[1..], k - 1);
    }
  }

  /** The file offset a linker member gives for its k-th symbol. */
  function FirstLookup(t: Table, k: nat): Option<nat> { if k < |t.offsets| then Some(t.offsets[k]) else None }

  function SecondLookup(t: Table2, k: nat): Option<nat> {
    if k < |t.numbers| && 1 <= t.numbers[k] <= |t.offsets| then Some(t.offsets[t.numbers[k] - 1]) else None
  }

  /** The member behind an offset of the archive is member `i` as pushed. */
  ghost predicate Resolves(raw: seq<Byte>, off: Option<nat>, lib: Library, st: Stamp, emitSecond: bool, i: nat)
    requires i < |lib.members|
  {
    off.Some? && IterNext(raw, off.value).Some? && IsMember(IterNext(raw, off.value).value.0, lib, st, emitSecond, i)
  }

  /** Every symbol in the first linker member has its name, and the file offset of its own member's header. */
  lemma FirstLinkerResolves(lib: Library, st: Stamp, emitSecond: bool, byMember: seq<Symbol>, byName: seq<Symbol>,
                            k: nat)
    requires Ready(lib, st, emitSecond, byMember, byName) && NamesOk(byMember) && k < |byMember|
    ensures
      var raw := Serialized(lib, st, emitSecond, byMember, byName);
      var table := ParseFirst(FirstData(lib, st, emitSecond, byMember));
      && table.count == |table.offsets| == |lib.symbols|
      && NthString(table.strings, k) == byMember[k].name
      && Resolves(raw, FirstLookup(table, k), lib, st, emitSecond, byMember[k].member)
  {
    hide ParseFirst, Serialized, IterNext, IsMember, NthString, NameBuffer, MemberOffset, Ready;
    ReadyFits(lib, st, emitSecond, byMember, byName);
    FirstParses(|byMember|, SymbolOffsets(lib, st, emitSecond, byMember), NameBuffer(byMember));
    NthName(byMember, k);
    OffsetResolves(lib, st, emitSecond, byMember, byName, byMember[k].member);
  }

  /** So it does in the second linker member, through its member number. */
  lemma SecondLinkerResolves(lib: Library, st: Stamp, byMember: seq<Symbol>, byName: seq<Symbol>, k: nat)
    requires Ready(lib, st, true, byMember, byName) && NamesOk(byName) && k < |byName|
    ensures
      var raw := Serialized(lib, st, true, byMember, byName);
      var table := ParseSecond(SecondData(lib, st, byName));
      && |table.numbers| == |lib.symbols| && |table.offsets| == |lib.members|
      && NthString(table.strings, k) == byName[k].name
      && Resolves(raw, SecondLookup(table, k), lib, st, true, byName[k].member)
  {
    hide ParseSecond, Serialized, IterNext, IsMember, NthString, NameBuffer, MemberOffset, Ready;
    ReadyFits(lib, st, true, byMember, byName);
    SecondParses(MemberOffsets(lib, st, true), MemberNumbers(byName), NameBuffer(byName));
    NthName(byName, k);
    OffsetResolves(lib, st, true, byMember, byName, byName[k].member);
  }

  lemma MemberIsNoTable(lib: Library, st: Stamp, emitSecond: bool, p: Parsed)
    requires MembersOk(lib.members) && |lib.members| > 0 && IsMember(p, lib, st, emitSecond, 0)
    ensures LongText(lib) == [] ==> p.name != [SLASH] && p.name != [SLASH, SLASH]
  {
    hide LongNames;
    assert NameOk(lib.members[0].name);
  }

  /** What parsing finds among the first members, from their names and data alone. */
  lemma FindsTables(raw: seq<Byte>, ps: seq<Parsed>, first: seq<Byte>, seconds: seq<seq<Byte>>, longs: seq<seq<Byte>>)
    requires ps == IterAll(raw, IterInit(raw)) && |seconds| <= 1 && |longs| <= 1 && |ps| >= 1 + |seconds| + |longs|
    requires ps[0].name == [SLASH] && ps[0].data == first
    requires |seconds| == 1 ==> ps[1].name == [SLASH] && ps[1].data == seconds[0]
    requires |longs| == 1 ==> ps[1 + |seconds|].name == [SLASH, SLASH] && ps[1 + |seconds|].data == longs[0]
    requires longs == [] && |ps| > 1 + |seconds| ==>
               ps[1 + |seconds|].name != [SLASH] && ps[1 + |seconds|].name != [SLASH, SLASH]
    ensures
      var parse := ParseArchive(raw);
      && parse.hasSecond == (|seconds| == 1) && parse.first == ParseFirst(first)
      && (|seconds| == 1 ==> parse.second == ParseSecond(seconds[0]))
      && parse.long == if |longs| == 1 then longs[0] else []
  {
    hide IterAll, IterInit, ParseFirst, ParseSecond;
  }

  /** Parsing the archive finds both linker members and the long names, whichever of them there are. */
  lemma ParseFindsTables(lib: Library, st: Stamp, emitSecond: bool, byMember: seq<Symbol>, byName: seq<Symbol>)
    requires Ready(lib, st, emitSecond, byMember, byName)
    ensures
      var parse := ParseArchive(Serialized(lib, st, emitSecond, byMember, byName));
      && parse.hasSecond == emitSecond
      && parse.first == ParseFirst(FirstData(lib, st, emitSecond, byMember))
      && (emitSecond ==> parse.second == ParseSecond(SecondData(lib, st, byName)))
      && parse.long == LongText(lib)
  {
    hide Ready, MembersOk, StampOk, Serialized, IterAll, IterInit, IsMember, Fits, ParseArchive, FirstData, SecondData,
         LongText, ParseFirst, ParseSecond;
    ReadyHas(lib, st, emitSecond, byMember, byName);
    ReadyFits(lib, st, emitSecond, byMember, byName);
    IterationRoundTrip(lib, st, emitSecond, byMember, byName);
    var raw := Serialized(lib, st, emitSecond, byMember, byName);
    var ps := IterAll(raw, IterInit(raw));
    var front := FrontEntries(lib, st, emitSecond, byMember, byName);
    var seconds := if emitSecond then [SecondData(lib, st, byName)] else [];
    var longs := if LongText(lib) != [] then [LongText(lib)] else [];
    assert |front| == 1 + |seconds| + |longs|;
    if |lib.members| > 0 {
      MemberIsNoTable(lib, st, emitSecond, ps[|front|]);
    }
    FindsTables(raw, ps, FirstData(lib, st, emitSecond, byMember), seconds, longs);
  }

  // ---- the long-names flag ----

  predicate IsShort(name: seq<Byte>) { |name| + 1 <= MAX_SHORT }

  /** There is a long-names text exactly when some name is not short. */
  lemma {:induction false} LongTextExactly(ms: seq<Member>, n: nat)
    requires n <= |ms|
    ensures LongNames(ms, n).0 == [] <==> forall i | 0 <= i < n :: IsShort(ms[i].name)
    ensures LongNames(ms, n).0 == [] ==> LongNames(ms, n).1 == map[]
  {
    if n > 0 {
      LongTextExactly(ms, n - 1);
    }
  }

  /** The flag says whether there are long names exactly for an archive all of whose names are short. */
  lemma LongFlagExactly(lib: Library, st: Stamp, emitSecond: bool, byMember: seq<Symbol>, byName: seq<Symbol>)
    requires Ready(lib, st, emitSecond, byMember, byName)
    ensures
      var parse := ParseArchive(Serialized(lib, st, emitSecond, byMember, byName));
      (parse.hasLong <==> parse.long != []) <==> forall i | 0 <= i < |lib.members| :: IsShort(lib.members[i].name)
  {
    hide Ready, Serialized, IsShort, ParseFirst, ParseSecond, FirstData, SecondData, IterAll, IterInit, LongNames;
    ReadyFits(lib, st, emitSecond, byMember, byName);
    ParseFindsTables(lib, st, emitSecond, byMember, byName);
    LongTextExactly(lib.members, |lib.members|);
  }

  /** A name of 15 bytes is in the long names, and the flag says that there are none. */
  lemma LongFlagIsLost(st: Stamp, emitSecond: bool)
    requires StampOk(st)
    ensures
      var name := Repeat(97, 15);
      var lib := Library([Member(name, [])], []);
      && Ready(lib, st, emitSecond, [], [])
      && var parse := ParseArchive(Serialized(lib, st, emitSecond, [], []));
         parse.long == name + [SLASH, NEWLINE] && !parse.hasLong
  {
    var name := Repeat(97, 15);
    var lib := Library([Member(name, [])], []);
    assert LongNames(lib.members, 0) == ([], map[]);
    assert LongNames(lib.members, 1).0 == name + [SLASH, NEWLINE];
    assert MemberData(lib.members, st, 0) == [];
    assert NameBuffer([]) == [];
    assert AllBelow(MemberOffsets(lib, st, emitSecond), U32_MAX);
    hide LongNames, MemberData, NameBuffer, Serialized, ParseArchive;
    ParseFindsTables(lib, st, emitSecond, [], []);
    FlagIsNever(Serialized(lib, st, emitSecond, [], []));
  }

  lemma FlagIsNever(raw: seq<Byte>)
    ensures !ParseArchive(raw).hasLong
  {
    hide IterAll, IterInit, ParseFirst, ParseSecond;
  }
}
