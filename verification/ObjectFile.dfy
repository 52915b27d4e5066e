/** The object writer and the object parser: sections 3.3, 4, 5.2 and 5.4 to 5.6 of the PE/COFF Specification. */
module ObjectFile {
  import opened Basics
  import opened Bytes

  // ---- what a writer has collected ----

  datatype Location = Nowhere | InSection(section: nat) | Absolute | Undefined | Common

  /** What an auxiliary record of a symbol is made from; symbols and sections are named by their place in the
      writer's lists. Only the first record of a weak or static symbol is looked at. */
  datatype Aux = Weak(tag: Option<nat>, characteristics: nat) | Definition(selection: nat, associate: nat) | Blank

  datatype Symbol = Symbol(name: seq<Byte>, value: nat, loc: Location, typ: nat, storage: nat, aux: seq<Aux>)

  datatype Reloc = Reloc(applyOff: nat, symbol: nat, typ: nat)

  datatype Section = Section(name: seq<Byte>, flags: nat, data: seq<Byte>, relocs: seq<Reloc>)

  datatype Object = Object(time: nat, machine: nat, sections: seq<Section>, symbols: seq<Symbol>)

  const STATIC: nat := 0x03
  const WEAK_EXTERNAL: nat := 0x69
  const ASSOCIATIVE: nat := 5
  const UNINITIALIZED: nat := 0x80
  const RELOC_OVERFLOW: nat := 0x0100_0000
  const SHORT: nat := 8
  const FILE_HEADER: nat := 20
  const SECTION_HEADER: nat := 40
  const SYMBOL_SIZE: nat := 18
  const RELOC_SIZE: nat := 10

  // ---- strings ----

  /** The long names of the first `n` symbols, zero-terminated. */
  function SymbolStrings(ss: seq<Symbol>, n: nat): seq<Byte>
    requires n <= |ss|
  {
    if n == 0 then []
    else SymbolStrings(ss, n - 1) + if |ss[n - 1].name| > SHORT then ss[n - 1].name + [0] else []
  }

  function SectionStrings(ss: seq<Section>, n: nat): seq<Byte>
    requires n <= |ss|
  {
    if n == 0 then []
    else SectionStrings(ss, n - 1) + if |ss[n - 1].name| > SHORT then ss[n - 1].name + [0] else []
  }

  /** The string table past its size field. */
  function Strings(o: Object): seq<Byte> {
    SymbolStrings(o.symbols, |o.symbols|) + SectionStrings(o.sections, |o.sections|)
  }

  function SymbolNameOffset(o: Object, k: nat): nat
    requires k < |o.symbols|
  {
    4 + |SymbolStrings(o.symbols, k)|
  }

  function SectionNameOffset(o: Object, i: nat): nat
    requires i < |o.sections|
  {
    4 + |SymbolStrings(o.symbols, |o.symbols|)| + |SectionStrings(o.sections, i)|
  }

  // ---- symbol indices ----

  /** The record index of symbol `k`: every symbol takes one record and one for each auxiliary. */
  function Index(ss: seq<Symbol>, k: nat): nat
    requires k <= |ss|
  {
    if k == 0 then 0 else Index(ss, k - 1) + 1 + |ss[k - 1].aux|
  }

  function RecordCount(o: Object): nat { Index(o.symbols, |o.symbols|) }

  function SectionNumber(loc: Location): nat {
    match loc
    case InSection(i) => i + 1
    case Absolute => U16_MAX
    case _ => 0
  }

  // ---- records ----

  predicate SymbolFits(o: Object, s: Symbol) {
    && s.value <= U32_MAX && s.typ <= U16_MAX && s.storage < 256 && |s.aux| < 256
    && (s.loc.InSection? ==> s.loc.section < |o.sections| <= U16_MAX)
    && (s.aux != [] ==> AuxFits(o, s, s.aux[0]))
  }

  /** A weak symbol's first auxiliary names its default; a static symbol's describes the section it is in. */
  predicate AuxFits(o: Object, s: Symbol, a: Aux) {
    && (s.storage == WEAK_EXTERNAL ==>
          a.Weak? && a.characteristics <= U32_MAX && (a.tag.Some? ==> a.tag.value < |o.symbols|))
    && (s.storage == STATIC ==>
          && a.Definition? && a.selection < 256 && s.loc.InSection?
          && (a.selection == ASSOCIATIVE ==> a.associate < |o.sections|))
  }

  predicate SectionFits(o: Object, s: Section) {
    && s.flags <= U32_MAX && |s.relocs| <= U16_MAX && |s.data| <= U32_MAX
    && forall r | 0 <= r < |s.relocs| :: RelocFits(o, s.relocs[r])
  }

  predicate RelocFits(o: Object, r: Reloc) { r.applyOff <= U32_MAX && r.typ <= U16_MAX && r.symbol < |o.symbols| }

  /** The checked casts and assertions of the writer, and that offsets fit their fields. */
  predicate Serializable(o: Object) {
    && o.time <= U32_MAX && o.machine <= U16_MAX && |o.sections| <= U16_MAX
    && (forall k | 0 <= k < |o.symbols| :: SymbolFits(o, o.symbols[k]))
    && (forall i | 0 <= i < |o.sections| :: SectionFits(o, o.sections[i]))
    && Size(o) <= U32_MAX
    && (forall i | 0 <= i < |o.sections| && |o.sections[i].name| > SHORT :: SectionNameOffset(o, i) < 10000000)
  }

  function ShortName(name: seq<Byte>): (s: seq<Byte>)
    requires |name| <= SHORT
    ensures |s| == SHORT
  {
    name + Repeat(0, SHORT - |name|)
  }

  function SymbolName(o: Object, k: nat): (s: seq<Byte>)
    requires k < |o.symbols| && SymbolNameOffset(o, k) <= U32_MAX
    ensures |s| == SHORT
  {
    if |o.symbols[k].name| > SHORT then LE32(0) + LE32(SymbolNameOffset(o, k)) else ShortName(o.symbols[k].name)
  }

  function SymbolRecord(name: seq<Byte>, value: nat, number: nat, typ: nat, storage: nat, aux: nat): (s: seq<Byte>)
    requires |name| == SHORT && value <= U32_MAX && number <= U16_MAX && typ <= U16_MAX && storage < 256 && aux < 256
    ensures |s| == SYMBOL_SIZE
  {
    name + (LE32(value) + (LE16(number) + (LE16(typ) + [storage, aux])))
  }

  function WeakRecord(tag: nat, characteristics: nat): (s: seq<Byte>)
    requires tag <= U32_MAX && characteristics <= U32_MAX
    ensures |s| == SYMBOL_SIZE
  {
    LE32(tag) + (LE32(characteristics) + Repeat(0, 10))
  }

  function DefinitionRecord(length: nat, relocs: nat, number: nat, selection: nat): (s: seq<Byte>)
    requires length <= U32_MAX && relocs <= U16_MAX && number <= U16_MAX && selection < 256
    ensures |s| == SYMBOL_SIZE
  {
    LE32(length) + (LE16(relocs) + (LE16(0) + (LE32(0) + (LE16(number) + [selection, 0, 0, 0]))))
  }

  function FirstAux(o: Object, s: Symbol): (b: seq<Byte>)
    requires Serializable(o) && SymbolFits(o, s) && s.aux != [] && RecordCount(o) <= U32_MAX
    ensures |b| == SYMBOL_SIZE
  {
    if s.storage == WEAK_EXTERNAL then
      WeakRecord(match s.aux[0].tag { case Some(t) => IndexInCount(o, t); Index(o.symbols, t) case None => U32_MAX },
                 s.aux[0].characteristics)
    else if s.storage == STATIC then
      var sect := o.sections[s.loc.section];
      DefinitionRecord(|sect.data|, |sect.relocs|,
                       if s.aux[0].selection == ASSOCIATIVE then s.aux[0].associate + 1 else 0, s.aux[0].selection)
    else Repeat(0, SYMBOL_SIZE)
  }

  lemma {:induction false} IndexInCount(o: Object, k: nat)
    requires k <= |o.symbols|
    ensures Index(o.symbols, k) <= RecordCount(o)
    ensures k < |o.symbols| ==> Index(o.symbols, k) + 1 + |o.symbols[k].aux| <= RecordCount(o)
    decreases |o.symbols| - k
  {
    if k < |o.symbols| {
      IndexInCount(o, k + 1);
    }
  }

  /** The records of symbol `k`. */
  function Records(o: Object, k: nat): (b: seq<Byte>)
    requires Serializable(o) && k < |o.symbols| && RecordCount(o) <= U32_MAX && SymbolNameOffset(o, k) <= U32_MAX
    ensures |b| == SYMBOL_SIZE * (1 + |o.symbols[k].aux|)
  {
    var s := o.symbols[k];
    assert SymbolFits(o, s);
    SymbolRecord(SymbolName(o, k), s.value, SectionNumber(s.loc), s.typ, s.storage, |s.aux|)
    + if s.aux == [] then [] else FirstAux(o, s) + Repeat(0, SYMBOL_SIZE * (|s.aux| - 1))
  }

  lemma {:induction false} StringsGrow(ss: seq<Symbol>, k: nat, n: nat)
    requires k <= n <= |ss|
    ensures SymbolStrings(ss, k) <= SymbolStrings(ss, n)
    decreases n
  {
    if k < n {
      StringsGrow(ss, k, n - 1);
    }
  }

  lemma {:induction false} SectionStringsGrow(ss: seq<Section>, k: nat, n: nat)
    requires k <= n <= |ss|
    ensures SectionStrings(ss, k) <= SectionStrings(ss, n)
    decreases n
  {
    if k < n {
      SectionStringsGrow(ss, k, n - 1);
    }
  }

  lemma SizesBounded(o: Object, k: nat)
    requires Size(o) <= U32_MAX && k < |o.symbols|
    ensures RecordCount(o) <= U32_MAX && SymbolNameOffset(o, k) <= U32_MAX
  {
    StringsGrow(o.symbols, k, |o.symbols|);
  }

  /** The records of the first `n` symbols. */
  function SymbolTable(o: Object, n: nat): (b: seq<Byte>)
    requires Serializable(o) && n <= |o.symbols|
    ensures |b| == SYMBOL_SIZE * Index(o.symbols, n)
  {
    if n == 0 then [] else SizesBounded(o, n - 1); SymbolTable(o, n - 1) + Records(o, n - 1)
  }

  function RelocRecord(o: Object, r: Reloc): (b: seq<Byte>)
    requires Serializable(o) && RelocFits(o, r)
    ensures |b| == RELOC_SIZE
  {
    SizesBounded(o, r.symbol);
    IndexInCount(o, r.symbol);
    LE32(r.applyOff) + (LE32(Index(o.symbols, r.symbol)) + LE16(r.typ))
  }

  function RelocTable(o: Object, rs: seq<Reloc>): (b: seq<Byte>)
    requires Serializable(o) && forall r | 0 <= r < |rs| :: RelocFits(o, rs[r])
    ensures |b| == RELOC_SIZE * |rs|
  {
    if rs == [] then [] else RelocTable(o, rs[..|rs| - 1]) + RelocRecord(o, rs[|rs| - 1])
  }

  // ---- layout ----

  /** Data and relocations of the first `n` sections. */
  function BodySize(ss: seq<Section>, n: nat): nat
    requires n <= |ss|
  {
    if n == 0 then 0 else BodySize(ss, n - 1) + |ss[n - 1].data| + RELOC_SIZE * |ss[n - 1].relocs|
  }

  function HeadersSize(o: Object): nat { FILE_HEADER + SECTION_HEADER * |o.sections| }

  function SymbolsOffset(o: Object): nat { HeadersSize(o) + BodySize(o.sections, |o.sections|) }

  function Size(o: Object): nat { SymbolsOffset(o) + SYMBOL_SIZE * RecordCount(o) + 4 + |Strings(o)| }

  /** Where a section's data goes; nowhere if there is none. */
  function DataOffset(o: Object, i: nat): nat
    requires i < |o.sections|
  {
    if o.sections[i].data == [] then 0 else HeadersSize(o) + BodySize(o.sections, i)
  }

  function RelocsOffset(o: Object, i: nat): nat
    requires i < |o.sections|
  {
    if o.sections[i].relocs == [] then 0 else HeadersSize(o) + BodySize(o.sections, i) + |o.sections[i].data|
  }

  function Body(o: Object, n: nat): (b: seq<Byte>)
    requires Serializable(o) && n <= |o.sections|
    ensures |b| == BodySize(o.sections, n)
  {
    if n == 0 then []
    else
      assert SectionFits(o, o.sections[n - 1]);
      Body(o, n - 1) + o.sections[n - 1].data + RelocTable(o, o.sections[n - 1].relocs)
  }

  function SectionName(o: Object, i: nat): (s: seq<Byte>)
    requires i < |o.sections| && (|o.sections[i].name| > SHORT ==> SectionNameOffset(o, i) < 10000000)
    ensures |s| == SHORT
  {
    if |o.sections[i].name| > SHORT then
      DecShort(SectionNameOffset(o, i));
      ShortName([SLASH] + Dec(SectionNameOffset(o, i)))
    else ShortName(o.sections[i].name)
  }

  lemma DecShort(n: nat)
    requires n < 10000000
    ensures |Dec(n)| <= 7
  {
    assert Pow(10, 7) == 10000000 by {
      PowersOfTen();
      assert Pow(10, 5) == 10 * Pow(10, 4);
      assert Pow(10, 6) == 10 * Pow(10, 5);
    }
    FewDigits(n, 10, 7);
  }

  lemma {:induction false} BodyGrows(ss: seq<Section>, i: nat, n: nat)
    requires i < n <= |ss|
    ensures BodySize(ss, i) + |ss[i].data| + RELOC_SIZE * |ss[i].relocs| <= BodySize(ss, n)
    decreases n
  {
    if i < n - 1 {
      BodyGrows(ss, i, n - 1);
    }
  }

  lemma OffsetsFit(o: Object, i: nat)
    requires Size(o) <= U32_MAX && i < |o.sections|
    ensures DataOffset(o, i) <= U32_MAX && RelocsOffset(o, i) <= U32_MAX
  {
    BodyGrows(o.sections, i, |o.sections|);
  }

  function SectionRecord(name: seq<Byte>, size: nat, off: nat, relocsOff: nat, relocs: nat, flags: nat): (b: seq<Byte>)
    requires |name| == SHORT && size <= U32_MAX && off <= U32_MAX && relocsOff <= U32_MAX && relocs <= U16_MAX
             && flags <= U32_MAX
    ensures |b| == SECTION_HEADER
  {
    name + (LE32(0)
            + (LE32(0) + (LE32(size)
                          + (LE32(off) + (LE32(relocsOff) + (LE32(0) + (LE16(relocs) + (LE16(0) + LE32(flags)))))))))
  }

  function SectionHeaderOf(o: Object, i: nat): (b: seq<Byte>)
    requires Serializable(o) && i < |o.sections|
    ensures |b| == SECTION_HEADER
  {
    var s := o.sections[i];
    assert SectionFits(o, s);
    OffsetsFit(o, i);
    SectionRecord(SectionName(o, i), |s.data|, DataOffset(o, i), RelocsOffset(o, i), |s.relocs|, s.flags)
  }

  lemma SectionFitsAt(o: Object, i: nat)
    requires Serializable(o) && i < |o.sections|
    ensures SectionFits(o, o.sections[i]) && DataOffset(o, i) <= U32_MAX && RelocsOffset(o, i) <= U32_MAX
    ensures |o.sections[i].data| <= U32_MAX && |o.sections[i].relocs| <= U16_MAX && o.sections[i].flags <= U32_MAX
    ensures forall r | 0 <= r < |o.sections[i].relocs| :: RelocFits(o, o.sections[i].relocs[r])
  {
    OffsetsFit(o, i);
  }

  lemma SectionNameFits(o: Object, i: nat)
    requires Serializable(o) && i < |o.sections|
    ensures |o.sections[i].name| > SHORT ==> SectionNameOffset(o, i) < 10000000
  {
  }

  /** The fields of section header `i`. */
  lemma HeaderIs(o: Object, i: nat)
    requires Serializable(o) && i < |o.sections|
    ensures
      var s := o.sections[i];
      && (|s.name| > SHORT ==> SectionNameOffset(o, i) < 10000000) && |s.data| <= U32_MAX && |s.relocs| <= U16_MAX
      && s.flags <= U32_MAX && DataOffset(o, i) <= U32_MAX && RelocsOffset(o, i) <= U32_MAX
      && SectionHeaderOf(o, i)
         == SectionRecord(SectionName(o, i), |s.data|, DataOffset(o, i), RelocsOffset(o, i), |s.relocs|, s.flags)
  {
    SectionFitsAt(o, i);
    SectionNameFits(o, i);
    OffsetsFit(o, i);
    hide Serializable, SectionName, DataOffset, RelocsOffset, SectionRecord, RelocFits, SectionNameOffset;
  }

  lemma SymbolFitsAt(o: Object, k: nat)
    requires Serializable(o) && k < |o.symbols|
    ensures SymbolFits(o, o.symbols[k]) && RecordCount(o) <= U32_MAX && SymbolNameOffset(o, k) <= U32_MAX
  {
    SizesBounded(o, k);
  }

  function SectionTable(o: Object, n: nat): (b: seq<Byte>)
    requires Serializable(o) && n <= |o.sections|
    ensures |b| == SECTION_HEADER * n
  {
    if n == 0 then [] else SectionTable(o, n - 1) + SectionHeaderOf(o, n - 1)
  }

  function FileHeader(machine: nat, sections: nat, time: nat, symbolsOff: nat, symbols: nat): (b: seq<Byte>)
    requires machine <= U16_MAX && sections <= U16_MAX && time <= U32_MAX && symbolsOff <= U32_MAX && symbols <= U32_MAX
    ensures |b| == FILE_HEADER
  {
    LE16(machine) + (LE16(sections) + (LE32(time) + (LE32(symbolsOff) + (LE32(symbols) + (LE16(0) + LE16(0))))))
  }

  /** The symbol table's offset stays zero when there is neither a symbol nor a long name. */
  function SymbolsField(o: Object): nat { if RecordCount(o) > 0 || Strings(o) != [] then SymbolsOffset(o) else 0 }

  function Serialized(o: Object): seq<Byte>
    requires Serializable(o)
  {
    FileHeader(o.machine, |o.sections|, o.time, SymbolsField(o), RecordCount(o))
    + (SectionTable(o, |o.sections|)
       + (Body(o, |o.sections|)
          + (SymbolTable(o, |o.symbols|)
             + (LE32(4 + |Strings(o)|) + Strings(o)))))
  }

  // ---- reading ----

  function HasBit(flags: nat, bit: nat): bool
    requires bit > 0
  {
    flags / bit % 2 == 1
  }

  predicate KnownMachine(m: nat) {
    || m == 0 || m == 0x14c || m == 0x8664 || m == 0x1d3 || m == 0x1c0 || m == 0xaa64 || m == 0x1c4 || m == 0xebc
       || m == 0x200
    || m == 0x9041 || m == 0x266 || m == 0x366 || m == 0x466 || m == 0x1f0 || m == 0x1f1 || m == 0x166 || m == 0x5032
    || m == 0x5064 || m == 0x5128 || m == 0x1a2 || m == 0x1a3 || m == 0x1a6 || m == 0x1a8 || m == 0x1c2 || m == 0x169
  }

  const BIG_MAGIC: seq<Byte> :=
    [0xc7, 0xa1, 0xba, 0xd1, 0xee, 0xba, 0xa9, 0x4b, 0xaf, 0x20, 0xfa, 0xf6, 0x6a, 0xa4, 0xdc, 0xb8]

  /** The header of a big object, which has its own layout. */
  predicate IsBigObject(raw: seq<Byte>) {
    |raw| >= 56 && Read16(raw, 0) == 0 && Read16(raw, 2) == U16_MAX && Read16(raw, 4) >= 2 && raw[12..28] == BIG_MAGIC
  }

  predicate SectionRangeOk(raw: seq<Byte>, h: nat, headers: nat)
    requires h + SECTION_HEADER <= |raw|
  {
    var size, off := Read32(raw, h + 16), Read32(raw, h + 20);
    HasBit(Read32(raw, h + 36), UNINITIALIZED) || size == 0 || (headers <= off && off + size <= |raw|)
  }

  predicate IsObject(raw: seq<Byte>) {
    && |raw| >= FILE_HEADER && KnownMachine(Read16(raw, 0))
    && var n := Read16(raw, 2);
       var headers := FILE_HEADER + SECTION_HEADER * n;
       && |raw| >= headers
       && (forall i | 0 <= i < n :: SectionRangeOk(raw, FILE_HEADER + SECTION_HEADER * i, headers))
       && var off, size := Read32(raw, 8), SYMBOL_SIZE * Read32(raw, 12);
          if off == 0 && size == 0 then true else headers <= off && off + size <= |raw|
  }

  datatype Info = Info(machine: nat, sections: nat, symbols: nat, symbolsOff: nat, stringsOff: nat)

  function ParseInfo(raw: seq<Byte>): Option<Info> {
    if IsBigObject(raw) || !IsObject(raw) then None
    else
      var off, count := Read32(raw, 8), Read32(raw, 12);
      Some(Info(Read16(raw, 0), Read16(raw, 2), count, off, off + SYMBOL_SIZE * count))
  }

  datatype ParsedSection = ParsedSection(name: seq<Byte>, flags: nat, data: seq<Byte>, relocsOff: nat, relocCount: nat)

  function StringTable(raw: seq<Byte>, info: Info): seq<Byte> { Slice(raw, info.stringsOff, |raw|) }

  function ParseSectionName(strings: seq<Byte>, field: seq<Byte>): seq<Byte> {
    var name := CStr(field);
    if name != [] && name[0] == SLASH then CStr(Slice(strings, ParseU64(name[1..], 10), |strings|)) else name
  }

  /** Where a section's relocations are, and how many: an overflowing count is in the first entry. */
  function ParseSection(raw: seq<Byte>, info: Info, i: nat): Option<ParsedSection> {
    var h := FILE_HEADER + SECTION_HEADER * i;
    if h + SECTION_HEADER <= |raw| then
      var relocs, count, flags := Read32(raw, h + 24), Read16(raw, h + 32), Read32(raw, h + 36);
      var overflow := HasBit(flags, RELOC_OVERFLOW) && count == U16_MAX;
      var counted := overflow && relocs + RELOC_SIZE <= |raw| && Read32(raw, relocs) > 0;
      Some(ParsedSection(
        ParseSectionName(StringTable(raw, info), raw[h..h + SHORT]), flags,
        Slice(raw, Read32(raw, h + 20), Read32(raw, h + 20) + Read32(raw, h + 16)),
        if !overflow then relocs else if counted then relocs + RELOC_SIZE else 0,
        if !overflow then count else if counted then Read32(raw, relocs) - 1 else 0))
    else None
  }

  datatype ParsedReloc = ParsedReloc(applyOff: nat, symbol: nat, typ: nat)

  function ParseReloc(raw: seq<Byte>, at: nat): Option<ParsedReloc> {
    if at + RELOC_SIZE <= |raw| then Some(ParsedReloc(Read32(raw, at), Read32(raw, at + 4), Read16(raw, at + 8)))
      else None
  }

  datatype ParsedSymbol = ParsedSymbol(name: seq<Byte>, value: nat, number: nat, typ: nat, storage: nat, aux: nat)

  /** 16-bit section numbers widen, the special ones to their 32-bit forms. */
  function WideNumber(n: nat): nat { if n == 0xFFFE then 0xFFFF_FFFE else if n == 0xFFFF then 0xFFFF_FFFF else n }

  function ParseSymbolName(strings: seq<Byte>, field: seq<Byte>): seq<Byte>
    requires |field| == SHORT
  {
    if Read32(field, 0) == 0 then
      if Read32(field, 4) < |strings| then CStr(strings[Read32(field, 4)..]) else []
    else CStr(field)
  }

  function ParseSymbol(raw: seq<Byte>, info: Info, index: nat): Option<ParsedSymbol> {
    var at := info.symbolsOff + SYMBOL_SIZE * index;
    if at + SYMBOL_SIZE <= |raw| then
      Some(ParsedSymbol(
        ParseSymbolName(StringTable(raw, info), raw[at..at + SHORT]), Read32(raw, at + 8),
        WideNumber(Read16(raw, at + 12)), Read16(raw, at + 14), raw[at + 16], raw[at + 17]))
    else None
  }

  /** The walk over the symbol table: from each symbol past its auxiliary records to the next. */
  function ParseSymbols(raw: seq<Byte>, info: Info, index: nat): seq<ParsedSymbol>
    decreases info.symbols - index
  {
    if index < info.symbols && ParseSymbol(raw, info, index).Some? then
      var p := ParseSymbol(raw, info, index).value;
      [p] + ParseSymbols(raw, info, index + 1 + p.aux)
    else []
  }

  datatype ParsedWeak = ParsedWeak(tag: nat, characteristics: nat)

  /** The record behind a weak symbol. */
  function ParseWeak(raw: seq<Byte>, info: Info, index: nat): Option<ParsedWeak> {
    var at := info.symbolsOff + SYMBOL_SIZE * (index + 1);
    if at + SYMBOL_SIZE <= |raw| then Some(ParsedWeak(Read32(raw, at), Read32(raw, at + 4))) else None
  }

  datatype ParsedDefinition = ParsedDefinition(length: nat, number: nat, selection: nat)

  /** The record behind a section's own symbol. */
  function ParseDefinition(raw: seq<Byte>, info: Info, index: nat): Option<ParsedDefinition> {
    var at := info.symbolsOff + SYMBOL_SIZE * (index + 1);
    if at + SYMBOL_SIZE <= |raw| then Some(ParsedDefinition(Read32(raw, at), Read16(raw, at + 12), raw[at + 14]))
      else None
  }
}
