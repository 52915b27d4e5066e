/** The symbol table widened to 32-bit records, in which section numbers take four bytes. */
module ObjectWide {
  import opened Basics
  import opened Bytes
  import opened ObjectFile
  import P = ObjectProofs

  const WIDE_SIZE: nat := 20

  type Record = r: seq<Byte> | |r| == SYMBOL_SIZE witness Repeat(0, SYMBOL_SIZE)
  type Wide = r: seq<Byte> | |r| == WIDE_SIZE witness Repeat(0, WIDE_SIZE)

  // ---- one record ----

  function RecordAt(table: seq<Byte>, i: nat): Record
    requires SYMBOL_SIZE * (i + 1) <= |table|
  {
    table[SYMBOL_SIZE * i..SYMBOL_SIZE * (i + 1)]
  }

  /** The fields of a symbol, copied one by one. */
  function WideSymbol(r: Record): Wide { r[..12] + LE32(WideOf(r)) + r[14..] }

  function WideOf(r: Record): (n: nat)
    ensures n <= U32_MAX
  {
    WideNumber(Read16(r, 12))
  }

  /** Auxiliary records keep their 18 bytes; two zeros follow. */
  function WideAux(r: Record): Wide { r + [0, 0] }

  function ParseWide(strings: seq<Byte>, w: Wide): ParsedSymbol {
    ParsedSymbol(ParseSymbolName(strings, w[..SHORT]), Read32(w, 8), Read32(w, 12), Read16(w, 16), w[18], w[19])
  }

  function ParseNarrow(strings: seq<Byte>, r: Record): ParsedSymbol {
    ParsedSymbol(ParseSymbolName(strings, r[..SHORT]), Read32(r, 8), WideOf(r), Read16(r, 14), r[16], r[17])
  }

  lemma WideParses(strings: seq<Byte>, r: Record)
    ensures ParseWide(strings, WideSymbol(r)) == ParseNarrow(strings, r)
  {
    hide LE32, WideOf, ParseSymbolName;
    var w := WideSymbol(r);
    assert w[..SHORT] == r[..SHORT];
    assert w[12..16] == LE32(WideOf(r));
    Read32At(w, 12, WideOf(r));
  }

  // ---- the table ----

  /** Where the symbol behind symbol `i` begins, or the end of the table. */
  function Behind(table: seq<Byte>, n: nat, i: nat): (hi: nat)
    requires i < n && SYMBOL_SIZE * n <= |table|
    ensures i < hi <= n
  {
    Min(n, i + 1 + table[SYMBOL_SIZE * i + 17])
  }

  /** The walk over a widened table. */
  function ParseWides(strings: seq<Byte>, v: seq<Wide>, index: nat): seq<ParsedSymbol>
    decreases |v| - index
  {
    if index < |v| then
      var p := ParseWide(strings, v[index]);
      [p] + ParseWides(strings, v, index + 1 + p.aux)
    else []
  }

  /** Record `k` is a symbol that the walk from symbol `i` comes to. */
  predicate Reaches(table: seq<Byte>, n: nat, i: nat, k: nat)
    requires i <= n && SYMBOL_SIZE * n <= |table|
    decreases n - i
  {
    i < n && (i == k || Reaches(table, n, Behind(table, n, i), k))
  }

  lemma FirstReached(table: seq<Byte>, n: nat)
    requires SYMBOL_SIZE * n <= |table|
    ensures n > 0 ==> Reaches(table, n, 0, 0)
  {
  }

  lemma {:induction false} StepReaches(table: seq<Byte>, n: nat, i: nat, k: nat)
    requires i <= n && SYMBOL_SIZE * n <= |table| && Reaches(table, n, i, k)
    ensures i <= k < n && (Behind(table, n, k) < n ==> Reaches(table, n, i, Behind(table, n, k)))
    decreases n - i
  {
    hide Behind;
    if i == k {
      assert Behind(table, n, k) < n ==> Reaches(table, n, Behind(table, n, k), Behind(table, n, k));
    } else {
      StepReaches(table, n, Behind(table, n, i), k);
    }
  }

  /** The walk does not stop between a symbol and the one behind it. */
  lemma {:induction false} StepsOver(table: seq<Byte>, n: nat, i: nat, k: nat, j: nat)
    requires i <= n && SYMBOL_SIZE * n <= |table| && Reaches(table, n, i, k) && k < n && k < j < Behind(table, n, k)
    ensures !Reaches(table, n, i, j)
    decreases n - i
  {
    hide Behind;
    StepReaches(table, n, i, k);
    if i != k {
      StepsOver(table, n, Behind(table, n, i), k, j);
    } else if Reaches(table, n, Behind(table, n, i), j) {
      StepReaches(table, n, Behind(table, n, i), j);
    }
  }

  /** Record `j` of the widened table. */
  function WideRecord(table: seq<Byte>, n: nat, j: nat): Wide
    requires j < n && SYMBOL_SIZE * n <= |table|
  {
    if Reaches(table, n, 0, j) then WideSymbol(RecordAt(table, j)) else WideAux(RecordAt(table, j))
  }

  predicate IsWidened(v: seq<Wide>, table: seq<Byte>, n: nat)
    requires SYMBOL_SIZE * n <= |table|
  {
    |v| == n && forall j | 0 <= j < n :: v[j] == WideRecord(table, n, j)
  }

  // ---- in a file ----

  function Table(raw: seq<Byte>, info: Info): seq<Byte> {
    Slice(raw, info.symbolsOff, info.symbolsOff + SYMBOL_SIZE * info.symbols)
  }

  predicate Inside(raw: seq<Byte>, info: Info) { info.symbolsOff + SYMBOL_SIZE * info.symbols <= |raw| }

  lemma TableAt(raw: seq<Byte>, info: Info, k: nat)
    requires Inside(raw, info) && k < info.symbols
    ensures |Table(raw, info)| == SYMBOL_SIZE * info.symbols && SYMBOL_SIZE * (k + 1) <= |Table(raw, info)|
    ensures RecordAt(Table(raw, info), k)
            == raw[info.symbolsOff + SYMBOL_SIZE * k..info.symbolsOff + SYMBOL_SIZE * (k + 1)]
    ensures ParseSymbol(raw, info, k) == Some(ParseNarrow(StringTable(raw, info), RecordAt(Table(raw, info), k)))
  {
    hide ParseSymbolName, StringTable;
    var at := info.symbolsOff + SYMBOL_SIZE * k;
    var r := RecordAt(Table(raw, info), k);
    assert r == raw[at..at + SYMBOL_SIZE];
    assert r[..SHORT] == raw[at..at + SHORT];
  }

  /** From record `k` on, the widened table reads as the table in the file. */
  lemma {:induction false} WideFrom(raw: seq<Byte>, info: Info, v: seq<Wide>, k: nat)
    requires Inside(raw, info) && |Table(raw, info)| == SYMBOL_SIZE * info.symbols
    requires IsWidened(v, Table(raw, info), info.symbols)
    requires k < info.symbols ==> Reaches(Table(raw, info), info.symbols, 0, k)
    ensures ParseWides(StringTable(raw, info), v, k) == ParseSymbols(raw, info, k)
    decreases info.symbols - k
  {
    hide Table, Inside, StringTable, ParseWide, ParseNarrow, ParseSymbol, WideSymbol, WideAux, Reaches, RecordAt;
    if k < info.symbols {
      var t := Table(raw, info);
      TableAt(raw, info, k);
      WideParses(StringTable(raw, info), RecordAt(t, k));
      StepReaches(t, info.symbols, 0, k);
      AuxOf(StringTable(raw, info), t, k);
      WideFrom(raw, info, v, k + 1 + ParseNarrow(StringTable(raw, info), RecordAt(t, k)).aux);
    }
  }

  lemma AuxOf(strings: seq<Byte>, table: seq<Byte>, k: nat)
    requires SYMBOL_SIZE * (k + 1) <= |table|
    ensures ParseNarrow(strings, RecordAt(table, k)).aux == table[SYMBOL_SIZE * k + 17]
  {
  }

  /** The symbol table of an object that is accepted lies inside the file. */
  lemma TableInside(raw: seq<Byte>, info: Info)
    requires ParseInfo(raw) == Some(info)
    ensures Inside(raw, info) && |Table(raw, info)| == SYMBOL_SIZE * info.symbols
  {
    assert IsObject(raw);
    hide IsBigObject, KnownMachine, SectionRangeOk, Read32, Read16;
  }

  predicate TableWidened(v: seq<Wide>, raw: seq<Byte>, info: Info) {
    |Table(raw, info)| == SYMBOL_SIZE * info.symbols && IsWidened(v, Table(raw, info), info.symbols)
  }

  /** In every file that is accepted the widened table reads the same as the narrow one: symbol for symbol, in one
      walk. */
  lemma WideReads(raw: seq<Byte>, info: Info, v: seq<Wide>)
    requires ParseInfo(raw) == Some(info) && TableWidened(v, raw, info)
    ensures ParseWides(StringTable(raw, info), v, 0) == ParseSymbols(raw, info, 0)
  {
    hide Table, IsWidened, ParseInfo, Inside;
    TableInside(raw, info);
    WideFrom(raw, info, v, 0);
  }

  /** Behind a symbol stand its auxiliary records as they were, with two zeros behind each. */
  lemma AuxesKept(table: seq<Byte>, n: nat, v: seq<Wide>, k: nat, j: nat)
    requires SYMBOL_SIZE * n <= |table| && IsWidened(v, table, n)
    requires Reaches(table, n, 0, k) && k < n && k < j < Behind(table, n, k)
    ensures v[j][..SYMBOL_SIZE] == RecordAt(table, j) && v[j][SYMBOL_SIZE..] == [0, 0]
  {
    hide Reaches, Behind;
    StepsOver(table, n, 0, k, j);
  }

  /** From a written object the widened table gives every symbol as it was pushed. */
  lemma WideRoundTrip(o: Object, v: seq<Wide>)
    requires P.Good(o) && TableWidened(v, P.SerializedOf(o), P.InfoOf(o))
    ensures ParseWides(StringTable(P.SerializedOf(o), P.InfoOf(o)), v, 0) == P.AllParsed(o.symbols, 0)
  {
    hide P.Good, TableWidened, Serialized, ParseWides, ParseSymbols, ParseInfo, StringTable;
    P.GoodIsSerializable(o);
    P.Accepted(o);
    WideReads(P.SerializedOf(o), P.InfoOf(o), v);
    P.SymbolsRoundTrip(o);
  }

  // ---- the loop ----

  /** Widen what there is of a table of `count` records. The records that are not there stay what the memory held. */
  method WidenSymbols(raw: seq<Byte>, off: nat, count: nat, was: nat -> Wide) returns (v: array<Wide>, n: nat)
    ensures fresh(v) && v.Length == count && n == |Slice(raw, off, off + SYMBOL_SIZE * count)| / SYMBOL_SIZE <= count
    ensures IsWidened(v[..n], Slice(raw, off, off + SYMBOL_SIZE * count), n)
    ensures forall j | n <= j < count :: v[j] == was(j)
  {
    hide Reaches, WideSymbol, WideAux, RecordAt;
    var table := Slice(raw, off, off + SYMBOL_SIZE * count);
    n := |table| / SYMBOL_SIZE;
    v := new Wide[count](i requires 0 <= i < count => was(i));
    assert forall j | 0 <= j < count :: v[j] == was(j);
    var i := 0;
    FirstReached(table, n);
    while i < n
      invariant i < n ==> Reaches(table, n, 0, i)
      invariant forall j | 0 <= j < Min(i, n) :: v[j] == WideRecord(table, n, j)
      invariant forall j | n <= j < count :: v[j] == was(j)
    {
      v[i] := WideSymbol(RecordAt(table, i));
      var j, hi := i + 1, Behind(table, n, i);
      while j < hi
        invariant i + 1 <= j <= hi
        invariant forall x | 0 <= x < j :: v[x] == WideRecord(table, n, x)
        invariant forall x | n <= x < count :: v[x] == was(x)
      {
        StepsOver(table, n, 0, i, j);
        v[j] := WideAux(RecordAt(table, j));
        j := j + 1;
      }
      StepReaches(table, n, 0, i);
      i := i + 1 + table[SYMBOL_SIZE * i + 17];
    }
  }
}
