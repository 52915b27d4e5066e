/** The archive writer and parser of sections 7.1 to 7.5 of the PE/COFF Specification. */
module Archive {
  import opened Basics
  import opened Bytes

  datatype Member = Member(name: seq<Byte>, data: seq<Byte>)

  datatype Symbol = Symbol(name: seq<Byte>, member: nat)

  const HEADER: nat := 60
  const SIG: seq<Byte> := [33, 60, 97, 114, 99, 104, 62, 10]
  const END: seq<Byte> := [96, 10]
  const MAX_SHORT: nat := 15

  // ---- writing ----

  function Header(name: seq<Byte>, time: nat, mode: nat, size: nat): seq<Byte> {
    Padded(name, 16) + Padded(Dec(time), 12) + Padded(Dec(0), 6) + Padded(Dec(0), 6) + Padded(Dec(mode), 8)
    + Padded(Dec(size), 10) + END
  }

  function PadOf(size: nat): seq<Byte> { Repeat(0, size % 2) }

  /** The long-names text of the first `n` members, and where each name seen so far begins in it. */
  function LongNames(ms: seq<Member>, n: nat): (seq<Byte>, map<seq<Byte>, nat>)
    requires n <= |ms|
  {
    if n == 0 then ([], map[])
    else
      var (text, seen) := LongNames(ms, n - 1);
      var name := ms[n - 1].name;
      if |name| + 1 <= MAX_SHORT || name in seen then (text, seen)
      else (text + name + [SLASH, NEWLINE], seen[name := |text|])
  }

  /** The name field of member `i`. */
  function NameField(ms: seq<Member>, i: nat): seq<Byte>
    requires i < |ms|
  {
    var name := ms[i].name;
    var (text, seen) := LongNames(ms, i);
    if |name| + 1 <= MAX_SHORT then name + [SLASH]
    else [SLASH] + Dec(if name in seen then seen[name] else |text|)
  }

  datatype Stamp = Stamp(time: nat, mode: nat)

  /** Header, data and padding of the first `n` members. */
  function MemberData(ms: seq<Member>, st: Stamp, n: nat): seq<Byte>
    requires n <= |ms|
  {
    if n == 0 then []
    else
      var before := MemberData(ms, st, n - 1);
      var m := ms[n - 1];
      var header := Header(NameField(ms, n - 1), st.time, st.mode, |m.data|);
      before + header + m.data + PadOf(|before| + |header| + |m.data|)
  }

  /** A member pushed in front of data that is already laid out. */
  function InFront(name: seq<Byte>, data: seq<Byte>, st: Stamp, behind: nat): seq<Byte> {
    var header := Header(name, st.time, st.mode, |data|);
    header + data + PadOf(behind + |data| + |header|)
  }

  function NameBuffer(symbols: seq<Symbol>): seq<Byte> {
    if symbols == [] then [] else symbols[0].name + [0] + NameBuffer(symbols[1..])
  }

  function Words(xs: seq<nat>): (s: seq<Byte>)
    requires forall i | 0 <= i < |xs| :: xs[i] <= U32_MAX
    ensures |s| == 4 * |xs|
  {
    if xs == [] then [] else Words(xs[..|xs| - 1]) + LE32(xs[|xs| - 1])
  }

  function WordsBE(xs: seq<nat>): (s: seq<Byte>)
    requires forall i | 0 <= i < |xs| :: xs[i] <= U32_MAX
    ensures |s| == 4 * |xs|
  {
    if xs == [] then [] else WordsBE(xs[..|xs| - 1]) + BE32(xs[|xs| - 1])
  }

  function Halves(xs: seq<nat>): (s: seq<Byte>)
    requires forall i | 0 <= i < |xs| :: xs[i] <= U16_MAX
    ensures |s| == 2 * |xs|
  {
    if xs == [] then [] else Halves(xs[..|xs| - 1]) + LE16(xs[|xs| - 1])
  }

  function Even(n: nat): nat { n + n % 2 }

  /** Where the first member starts in the file, computed from sizes alone. */
  function BaseOffset(memberCount: nat, symbolCount: nat, names: nat, long: nat, emitSecond: bool): nat {
    8 + Even(HEADER + 4 + 4 * symbolCount + names)
    + (if emitSecond then Even(HEADER + 4 + 4 * memberCount + 4 + 2 * symbolCount + names) else 0)
    + if long > 0 then Even(HEADER + long) else 0
  }

  /** What a writer has collected: members in order, and the symbols they define. */
  datatype Library = Library(members: seq<Member>, symbols: seq<Symbol>)

  /** File offset of a member's header. */
  function MemberOffset(lib: Library, st: Stamp, emitSecond: bool, i: nat): nat
    requires i < |lib.members|
  {
    BaseOffset(|lib.members|, |lib.symbols|, |NameBuffer(lib.symbols)|, |LongText(lib)|, emitSecond)
      + |MemberData(lib.members, st, i)|
  }

  function LongText(lib: Library): seq<Byte> { LongNames(lib.members, |lib.members|).0 }

  ghost predicate IsSorting(sorted: seq<Symbol>, symbols: seq<Symbol>) { multiset(sorted) == multiset(symbols) }

  function MemberOffsets(lib: Library, st: Stamp, emitSecond: bool): (xs: seq<nat>)
    ensures |xs| == |lib.members| && forall i | 0 <= i < |xs| :: xs[i] == MemberOffset(lib, st, emitSecond, i)
  {
    seq(|lib.members|, i requires 0 <= i < |lib.members| => MemberOffset(lib, st, emitSecond, i))
  }

  predicate InRange(lib: Library, symbols: seq<Symbol>) {
    forall i | 0 <= i < |symbols| :: symbols[i].member < |lib.members|
  }

  function SymbolOffsets(lib: Library, st: Stamp, emitSecond: bool, symbols: seq<Symbol>): (xs: seq<nat>)
    requires InRange(lib, symbols)
    ensures |xs| == |symbols|
            && forall k | 0 <= k < |xs| :: xs[k] == MemberOffset(lib, st, emitSecond, symbols[k].member)
  {
    seq(|symbols|, k requires 0 <= k < |symbols| => MemberOffset(lib, st, emitSecond, symbols[k].member))
  }

  function MemberNumbers(symbols: seq<Symbol>): (xs: seq<nat>)
    ensures |xs| == |symbols| && forall k | 0 <= k < |xs| :: xs[k] == symbols[k].member + 1
  {
    seq(|symbols|, k requires 0 <= k < |symbols| => symbols[k].member + 1)
  }

  predicate AllBelow(xs: seq<nat>, max: nat) { forall i | 0 <= i < |xs| :: xs[i] <= max }

  /** The checked casts and assertions of the writer. */
  predicate Serializable(lib: Library, st: Stamp, emitSecond: bool) {
    && st.time <= U32_MAX && st.mode < 10000
    && InRange(lib, lib.symbols) && |lib.symbols| <= U32_MAX && |lib.members| <= U32_MAX
    && AllBelow(MemberOffsets(lib, st, emitSecond), U32_MAX)
    && (emitSecond ==> |lib.symbols| > 0 ==> forall k | 0 <= k < |lib.symbols| :: lib.symbols[k].member + 1 <= U16_MAX)
    && (forall i | 0 <= i < |lib.members| :: |lib.members[i].data| < 1000000000)
    && |LongText(lib)| < 1000000000
    && 8 + 4 * |lib.members| + 6 * |lib.symbols| + |NameBuffer(lib.symbols)| < 1000000000
  }

  predicate Fits(lib: Library, st: Stamp, emitSecond: bool, symbols: seq<Symbol>) {
    && Serializable(lib, st, emitSecond) && InRange(lib, symbols) && |symbols| == |lib.symbols|
    && AllBelow(SymbolOffsets(lib, st, emitSecond, symbols), U32_MAX)
    && (emitSecond ==> AllBelow(MemberNumbers(symbols), U16_MAX))
  }

  /** `symbols` sorted by the member they are in. */
  function FirstData(lib: Library, st: Stamp, emitSecond: bool, symbols: seq<Symbol>): seq<Byte>
    requires Fits(lib, st, emitSecond, symbols)
  {
    BE32(|symbols|) + WordsBE(SymbolOffsets(lib, st, emitSecond, symbols)) + NameBuffer(symbols)
  }

  /** `symbols` sorted by name. */
  function SecondData(lib: Library, st: Stamp, symbols: seq<Symbol>): seq<Byte>
    requires Fits(lib, st, true, symbols)
  {
    LE32(|lib.members|) + Words(MemberOffsets(lib, st, true)) + LE32(|symbols|) + Halves(MemberNumbers(symbols))
      + NameBuffer(symbols)
  }

  function Long(lib: Library, st: Stamp): seq<Byte> {
    if LongText(lib) != []
    then InFront([SLASH, SLASH], LongText(lib), st, |MemberData(lib.members, st, |lib.members|)|)
    else []
  }

  /** The whole archive. */
  function Serialized(lib: Library, st: Stamp, emitSecond: bool, byMember: seq<Symbol>, byName: seq<Symbol>): seq<Byte>
    requires Fits(lib, st, emitSecond, byMember) && Fits(lib, st, emitSecond, byName)
  {
    var members := Long(lib, st) + MemberData(lib.members, st, |lib.members|);
    SIG
    + InFront([SLASH], FirstData(lib, st, emitSecond, byMember), st, 8)
    + (if emitSecond then InFront([SLASH], SecondData(lib, st, byName), st, |members|) else [])
    + members
  }

  // ---- reading ----

  datatype Parsed = Parsed(name: seq<Byte>, time: nat, user: nat, group: nat, mode: seq<Byte>, offset: nat,
                           data: seq<Byte>)

  datatype Fields = Fields(name: seq<Byte>, time: nat, user: nat, group: nat, mode: seq<Byte>, size: nat)

  /** The fields of a header that ends as it should. */
  function ParseHeader(h: seq<Byte>): Option<Fields>
    requires |h| == HEADER
  {
    if CStr(h[58..60]) == END
    then Some(Fields(Field(h[..16]), ParseU64(Field(h[16..28]), 10), ParseU64(Field(h[28..34]), 10),
                     ParseU64(Field(h[34..40]), 10), Field(h[40..48]), ParseU64(Field(h[48..58]), 10)))
    else None
  }

  /** The next member, and the offset behind it. */
  function IterNext(raw: seq<Byte>, off: nat): Option<(Parsed, nat)> {
    if off + HEADER <= |raw| then
      match ParseHeader(raw[off..off + HEADER])
      case None => None
      case Some(f) =>
        Some((Parsed(f.name, f.time, f.user, f.group, f.mode, off, Slice(raw, off + HEADER, off + HEADER + f.size)),
              off + Even(HEADER + f.size)))
    else None
  }

  /** Walk the members from an offset until a header is not there or not well ended. */
  function IterAll(raw: seq<Byte>, off: nat): seq<Parsed>
    decreases |raw| - off
  {
    match IterNext(raw, off)
    case None => []
    case Some(p) => [p.0] + IterAll(raw, p.1)
  }

  function IterInit(raw: seq<Byte>): nat { if |raw| >= 8 && raw[..8] == SIG then 8 else |raw| }

  /** Text up to a zero or a line end. */
  function UpToLine(s: seq<Byte>): seq<Byte> {
    if s == [] || s[0] == 0 || s[0] == NEWLINE then [] else [s[0]] + UpToLine(s[1..])
  }

  function RawName(long: seq<Byte>, name: seq<Byte>): seq<Byte> {
    if name != [] && name[0] == SLASH && ParseU64(name[1..], 10) < |long|
    then UpToLine(long[ParseU64(name[1..], 10)..])
    else name
  }

  function DecodeName(long: seq<Byte>, name: seq<Byte>): seq<Byte> {
    var raw := RawName(long, name);
    if raw != [] && raw[|raw| - 1] == SLASH then raw[..|raw| - 1] else raw
  }

  /** A linker member as parsed: file offsets of the symbols' members, and the names. */
  datatype Table = Table(count: nat, offsets: seq<nat>, strings: seq<Byte>)

  function ParseFirst(data: seq<Byte>): Table {
    if |data| < 4 then Table(0, [], Slice(data, 0, |data|))
    else
      var count := ReadBE32(data, 0);
      var n := |Slice(data, 4, 4 + 4 * count)| / 4;
      Table(count, seq(n, k requires 0 <= k < n => if 8 + 4 * k <= |data| then ReadBE32(data, 4 + 4 * k) else 0),
            Slice(data, 4 + 4 * count, |data|))
  }

  datatype Table2 = Table2(offsets: seq<nat>, numbers: seq<nat>, strings: seq<Byte>)

  function ReadWords(data: seq<Byte>, off: nat, n: nat): (xs: seq<nat>)
    ensures |xs| == n
  {
    seq(n, k requires 0 <= k < n => if off + 4 * k + 4 <= |data| then Read32(data, off + 4 * k) else 0)
  }

  function ReadHalves(data: seq<Byte>, off: nat, n: nat): (xs: seq<nat>)
    ensures |xs| == n
  {
    seq(n, k requires 0 <= k < n => if off + 2 * k + 2 <= |data| then Read16(data, off + 2 * k) else 0)
  }

  function ReadCount(data: seq<Byte>, off: nat): nat { if off + 4 <= |data| then Read32(data, off) else 0 }

  /** The cursor moves past a count only if the count is there. */
  function PastCount(data: seq<Byte>, off: nat): nat { if off + 4 <= |data| then off + 4 else off }

  function ParseSecond(data: seq<Byte>): Table2 {
    var members := ReadCount(data, 0);
    var at := PastCount(data, 0);
    var mid := at + 4 * members;
    var symbols := ReadCount(data, mid);
    var at2 := PastCount(data, mid);
    var end := at2 + 2 * symbols;
    Table2(ReadWords(data, at, |Slice(data, at, mid)| / 4), ReadHalves(data, at2, |Slice(data, at2, end)| / 2),
           Slice(data, end, |data|))
  }

  /** The k-th zero-terminated name of a string table. */
  function NthString(table: seq<Byte>, k: nat): seq<Byte> {
    var first := CStr(table);
    if k == 0 then first
    else if |first| < |table| then NthString(table[|first| + 1..], k - 1)
    else []
  }

  /** The linker members and long names among the first three members. The long-names flag is never set
      (line 929). */
  datatype ArchiveParse = ArchiveParse(hasSecond: bool, hasLong: bool, first: Table, second: Table2, long: seq<Byte>)

  function ParseArchive(raw: seq<Byte>): ArchiveParse {
    var all := IterAll(raw, IterInit(raw));
    var ps := if |all| > 3 then all[..3] else all;
    var i := if 0 < |ps| && ps[0].name == [SLASH] then 1 else 0;
    var j := if i < |ps| && ps[i].name == [SLASH] then i + 1 else i;
    ArchiveParse(
      j > i,
      false,
      ParseFirst(if i > 0 then ps[0].data else []),
      if j > i then ParseSecond(ps[i].data) else Table2([], [], []),
      if j < |ps| && ps[j].name == [SLASH, SLASH] then ps[j].data else [])
  }
}
