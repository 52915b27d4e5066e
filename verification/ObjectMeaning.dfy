/** What the fields of a written object say, byte for byte, and which objects are read at all. */
module ObjectMeaning {
  import opened Basics
  import opened Bytes
  import opened ObjectFile
  import opened ObjectProofs

  // ---- sections by number ----

  /** A symbol in a section comes back with a number that leads to the very section it was pushed in. */
  lemma NumberLeadsToSection(o: Object, k: nat)
    requires Good(o) && k < |o.symbols| && o.symbols[k].loc.InSection?
    ensures
      var p := ParseSymbol(Serialized(o), InfoOf(o), Index(o.symbols, k));
      var section := o.symbols[k].loc.section;
      && section < |o.sections| && p.Some? && p.value.name == o.symbols[k].name && p.value.number == section + 1
      && var q := ParseSection(Serialized(o), InfoOf(o), p.value.number - 1);
         && q.Some? && q.value.name == o.sections[section].name && q.value.flags == o.sections[section].flags
         && q.value.data == o.sections[section].data
  {
    hide Good, Serialized, Serializable, ParseSymbol, ParseSection, InfoOf, Index, RelocsOffset;
    GoodIsSerializable(o);
    InRange(o, k);
    SymbolRoundTrip(o, k);
    SectionRoundTrip(o, o.symbols[k].loc.section);
  }

  lemma InRange(o: Object, k: nat)
    requires Serializable(o) && k < |o.symbols| && o.symbols[k].loc.InSection?
    ensures o.symbols[k].loc.section < |o.sections|
  {
    SymbolFitsAt(o, k);
    hide Serializable;
  }

  /** The writer takes as many sections as 16 bits count. The symbols of section 65534 read as debug symbols and those
      of section 65535 as absolute ones; exactly the others read as symbols of their section. */
  lemma NumberExactly(o: Object, k: nat)
    requires Serializable(o) && k < |o.symbols| && o.symbols[k].loc.InSection?
    ensures
      var p := ParseSymbol(Serialized(o), InfoOf(o), Index(o.symbols, k));
      var section := o.symbols[k].loc.section;
      && p.Some?
      && (p.value.number == section + 1 <==> section < 0xFFFD)
      && (section == 0xFFFD ==> p.value.number == 0xFFFF_FFFE)
      && (section == 0xFFFE ==> p.value.number == 0xFFFF_FFFF)
  {
    hide Serialized, Serializable, SymbolsOffset, Index, SymbolName, ParseSymbolName, StringTable, StringBytes,
         InfoOf, Read32, Read16, SymbolNameOffset;
    SomeRecords(o, k);
    PrimaryReads(o, k);
    FewSections(o, k);
  }

  lemma FewSections(o: Object, k: nat)
    requires Serializable(o) && k < |o.symbols| && o.symbols[k].loc.InSection?
    ensures o.symbols[k].loc.section < 0xFFFF
  {
    SymbolFitsAt(o, k);
    hide Serializable;
  }

  // ---- which objects are read ----

  /** The machine types of section 3.3.1 of the PE/COFF Specification that the parser lists. */
  const MACHINES: set<nat> :=
    {0, 0x14c, 0x8664, 0x1d3, 0x1c0, 0xaa64, 0x1c4, 0xebc, 0x200, 0x9041, 0x266, 0x366, 0x466, 0x1f0, 0x1f1, 0x166,
     0x5032, 0x5064, 0x5128, 0x1a2, 0x1a3, 0x1a6, 0x1a8, 0x1c2, 0x169}

  /** Of the objects the writer writes, with any names and any sections, those of a listed machine are accepted and no
      others, save that too many sections may pass for a big object. */
  lemma AcceptedExactly(o: Object)
    requires Serializable(o) && |o.sections| < 0xFFFF
    ensures ParseInfo(Serialized(o)) == if o.machine in MACHINES then Some(InfoOf(o)) else None
  {
    hide Serialized, Serializable, SectionRangeOk, RecordCount, Strings, Read16, Read32;
    var raw := Serialized(o);
    HeaderReads(o);
    forall i | 0 <= i < |o.sections| ensures SectionRangeOk(raw, FILE_HEADER + SECTION_HEADER * i, HeadersSize(o)) {
      RangeOk(o, i);
    }
  }

  /** Of a file that is accepted every section header is there, and the section's data is as long as the header says
      and lies behind all headers, unless it is uninitialized, as bit 7 of the flags says. */
  lemma SectionsInside(raw: seq<Byte>, i: nat)
    requires ParseInfo(raw).Some? && i < ParseInfo(raw).value.sections
    ensures
      var info := ParseInfo(raw).value;
      var p := ParseSection(raw, info, i);
      var h := 20 + 40 * i;
      && p.Some? && h + 40 <= |raw|
      && (p.value.flags / 128 % 2 == 0 ==> |p.value.data| == Read32(raw, h + 16))
      && (p.value.flags / 128 % 2 == 0 && Read32(raw, h + 16) > 0 ==>
            20 + 40 * info.sections <= Read32(raw, h + 20) && Read32(raw, h + 20) + Read32(raw, h + 16) <= |raw|)
  {
    assert IsObject(raw) && SectionRangeOk(raw, 20 + 40 * i, 20 + 40 * Read16(raw, 2));
    hide IsObject, IsBigObject, Read32, Read16, ParseSectionName, StringTable;
  }

  /** A file with a section, or with symbols, that reaches outside is refused, and so is a big object. */
  lemma Refused(raw: seq<Byte>, i: nat)
    requires |raw| >= 20 && |raw| >= 20 + 40 * Read16(raw, 2)
    requires
      || (i < Read16(raw, 2) && 0 < Read32(raw, 20 + 40 * i + 16)
          && Read32(raw, 20 + 40 * i + 36) / 128 % 2 == 0
          && |raw| < Read32(raw, 20 + 40 * i + 20) + Read32(raw, 20 + 40 * i + 16))
      || |raw| < Read32(raw, 8) + 18 * Read32(raw, 12)
      || (|raw| >= 56 && Read16(raw, 0) == 0 && Read16(raw, 2) == 0xFFFF && Read16(raw, 4) >= 2
          && raw[12..28] == BIG_MAGIC)
    ensures ParseInfo(raw) == None
  {
    if i < Read16(raw, 2) && IsObject(raw) {
      assert SectionRangeOk(raw, 20 + 40 * i, 20 + 40 * Read16(raw, 2));
    }
    hide Read32, Read16, SectionRangeOk;
  }

  /** A full relocation count with bit 24 of the flags set means that the count, and itself in it, is in the first
      entry, or nothing if there is no such entry or it counts nothing. */
  lemma OverflowCounts(raw: seq<Byte>, info: Info, i: nat)
    requires 20 + 40 * i + 40 <= |raw|
    ensures
      var h := 20 + 40 * i;
      var p, at := ParseSection(raw, info, i), Read32(raw, h + 24);
      && p.Some?
      && if Read32(raw, h + 36) / 0x100_0000 % 2 == 1 && Read16(raw, h + 32) == 0xFFFF then
           if at + 10 <= |raw| && Read32(raw, at) > 0
           then p.value.relocsOff == at + 10 && p.value.relocCount == Read32(raw, at) - 1
           else p.value.relocCount == 0
         else p.value.relocsOff == at && p.value.relocCount == Read16(raw, h + 32)
  {
    hide Read32, Read16, ParseSectionName, StringTable, Slice;
  }

  // ---- the bytes ----

  /** The file header has the machine, the number of sections, the time, where the symbol table is, the number of its
      records, and zeros at its end. A file without symbols and long names has no symbol table to point to. */
  lemma FileHeaderBytes(o: Object)
    requires Serializable(o)
    ensures
      var raw, symbols, strings := Serialized(o), RecordCount(o), Strings(o);
      var off: int := if symbols == 0 && strings == [] then 0 else |raw| - |strings| - 4 - 18 * symbols;
      && |raw| >= 20 && o.machine <= U16_MAX && |o.sections| <= U16_MAX && o.time <= U32_MAX
      && 0 <= off <= U32_MAX && symbols <= U32_MAX
      && raw[0..2] == LE16(o.machine) && raw[2..4] == LE16(|o.sections|) && raw[4..8] == LE32(o.time)
      && raw[8..12] == LE32(off) && raw[12..16] == LE32(symbols) && raw[16..20] == [0, 0, 0, 0]
  {
    hide *;
    HeaderFits(o);
    Layout(o);
    TableOffset(o);
    HeaderParts(Serialized(o), o.machine, |o.sections|, o.time, SymbolsField(o), RecordCount(o));
  }

  lemma TableOffset(o: Object)
    ensures SymbolsField(o) == if RecordCount(o) == 0 && Strings(o) == [] then 0
                               else Size(o) - |Strings(o)| - 4 - 18 * RecordCount(o)
  {
    hide RecordCount, Strings, HeadersSize, BodySize;
  }

  lemma HeaderParts(raw: seq<Byte>, machine: nat, sections: nat, time: nat, off: nat, symbols: nat)
    requires machine <= U16_MAX && sections <= U16_MAX && time <= U32_MAX && off <= U32_MAX && symbols <= U32_MAX
    requires At(raw, 0, FileHeader(machine, sections, time, off, symbols))
    ensures |raw| >= 20 && raw[0..2] == LE16(machine) && raw[2..4] == LE16(sections) && raw[4..8] == LE32(time)
    ensures raw[8..12] == LE32(off) && raw[12..16] == LE32(symbols) && raw[16..20] == [0, 0, 0, 0]
  {
    hide LE16, LE32;
    var h := FileHeader(machine, sections, time, off, symbols);
    assert h[0..2] == LE16(machine) && h[2..4] == LE16(sections) && h[4..8] == LE32(time);
    assert h[8..12] == LE32(off) && h[12..16] == LE32(symbols) && h[16..20] == LE16(0) + LE16(0);
    ZeroBytes();
    hide At, FileHeader;
    Piece(raw, h, 0, 0, 2);
    Piece(raw, h, 0, 2, 4);
    Piece(raw, h, 0, 4, 8);
    Piece(raw, h, 0, 8, 12);
    Piece(raw, h, 0, 12, 16);
    Piece(raw, h, 0, 16, 20);
    AtSize(raw, 0, h);
  }

  lemma ZeroBytes()
    ensures LE16(0) + LE16(0) == [0, 0, 0, 0] && LE32(0) == [0, 0, 0, 0] && LE16(0) == [0, 0]
  {
  }

  /** What a section header has no use for is zero: there is no address, and no offset of data or relocations that are
      not there. */
  lemma SectionHeaderZeros(o: Object, i: nat)
    requires Serializable(o) && i < |o.sections|
    ensures
      var raw, h := Serialized(o), 20 + 40 * i;
      && h + 40 <= |raw| && raw[h + 8..h + 16] == [0, 0, 0, 0, 0, 0, 0, 0] && raw[h + 28..h + 32] == [0, 0, 0, 0]
      && raw[h + 34..h + 36] == [0, 0]
      && (o.sections[i].data == [] ==> raw[h + 20..h + 24] == [0, 0, 0, 0])
      && (o.sections[i].relocs == [] ==> raw[h + 24..h + 28] == [0, 0, 0, 0])
  {
    hide Serialized, Serializable, SectionName, DataOffset, RelocsOffset, SectionRecord, SectionNameOffset, LE16, LE32;
    HeaderIs(o, i);
    SectionHeaderPlaced(o, i);
    var s := o.sections[i];
    var r := SectionRecord(SectionName(o, i), |s.data|, DataOffset(o, i), RelocsOffset(o, i), |s.relocs|, s.flags);
    RecordZeros(SectionName(o, i), |s.data|, DataOffset(o, i), RelocsOffset(o, i), |s.relocs|, s.flags);
    var h := FILE_HEADER + SECTION_HEADER * i;
    Piece(Serialized(o), r, h, 8, 16);
    Piece(Serialized(o), r, h, 20, 24);
    Piece(Serialized(o), r, h, 24, 28);
    Piece(Serialized(o), r, h, 28, 32);
    Piece(Serialized(o), r, h, 34, 36);
    NoOffsets(o, i);
  }

  lemma NoOffsets(o: Object, i: nat)
    requires i < |o.sections|
    ensures o.sections[i].data == [] ==> DataOffset(o, i) == 0 && LE32(0) == [0, 0, 0, 0]
    ensures o.sections[i].relocs == [] ==> RelocsOffset(o, i) == 0 && LE32(0) == [0, 0, 0, 0]
  {
    ZeroBytes();
  }

  lemma RecordZeros(name: seq<Byte>, size: nat, off: nat, relocsOff: nat, relocs: nat, flags: nat)
    requires |name| == SHORT && size <= U32_MAX && off <= U32_MAX && relocsOff <= U32_MAX && relocs <= U16_MAX
             && flags <= U32_MAX
    ensures
      var r := SectionRecord(name, size, off, relocsOff, relocs, flags);
      && r[8..16] == [0, 0, 0, 0, 0, 0, 0, 0] && r[28..32] == [0, 0, 0, 0] && r[34..36] == [0, 0]
      && r[20..24] == LE32(off) && r[24..28] == LE32(relocsOff)
  {
    hide LE16, LE32;
    ZeroBytes();
    var r := SectionRecord(name, size, off, relocsOff, relocs, flags);
    assert r[8..16] == LE32(0) + LE32(0) && r[28..32] == LE32(0) && r[34..36] == LE16(0);
    assert r[20..24] == LE32(off) && r[24..28] == LE32(relocsOff);
  }

  /** The size at the start of the string table is that of all the rest of the file. */
  lemma StringTableSize(o: Object)
    requires Serializable(o) && (RecordCount(o) > 0 || Strings(o) != [])
    ensures
      var raw, off := Serialized(o), InfoOf(o).stringsOff;
      off + 4 <= |raw| <= U32_MAX && raw[off..off + 4] == LE32(|raw| - off)
  {
    hide *;
    SerializableSize(o);
    Layout(o);
    StringsEnd(o);
    StringsFound(o);
    SizeStands(Serialized(o), StringsOffset(o), StringBytes(o), |Strings(o)|);
  }

  lemma StringsFound(o: Object)
    requires Serializable(o) && (RecordCount(o) > 0 || Strings(o) != [])
    ensures InfoOf(o).stringsOff == StringsOffset(o) && 4 + |Strings(o)| <= U32_MAX
    ensures StringBytes(o) == LE32(4 + |Strings(o)|) + Strings(o)
  {
    HeaderFits(o);
    hide Serializable, Strings, RecordCount, SymbolsOffset, LE32;
  }

  lemma SizeStands(raw: seq<Byte>, off: nat, bytes: seq<Byte>, n: nat)
    requires At(raw, off, bytes) && off + |bytes| == |raw| && 4 + n <= U32_MAX && |bytes| == 4 + n
    requires bytes[..4] == LE32(4 + n)
    ensures off + 4 <= |raw| && raw[off..off + 4] == LE32(|raw| - off)
  {
    Piece(raw, bytes, off, 0, 4);
    hide LE32;
  }

  /** The record behind a section's own symbol: the section's size and its number of relocations, the number of the
      associated section and the selection, and zeros. */
  lemma DefinitionBytes(o: Object, k: nat)
    requires Serializable(o) && k < |o.symbols| && o.symbols[k].storage == STATIC && o.symbols[k].aux != []
    requires o.symbols[k].loc.InSection? && o.symbols[k].aux[0].Definition?
    ensures
      var raw, at, a := Serialized(o), SymbolsOffset(o) + 18 * (Index(o.symbols, k) + 1), o.symbols[k].aux[0];
      && o.symbols[k].loc.section < |o.sections|
      && var sect := o.sections[o.symbols[k].loc.section];
         && at + 18 <= |raw| && |sect.data| <= U32_MAX && |sect.relocs| <= U16_MAX && a.selection < 256
         && (a.selection == 5 ==> a.associate < 0xFFFF)
         && raw[at..at + 4] == LE32(|sect.data|) && raw[at + 4..at + 6] == LE16(|sect.relocs|)
         && raw[at + 6..at + 12] == [0, 0, 0, 0, 0, 0]
         && raw[at + 12..at + 14] == LE16(if a.selection == 5 then a.associate + 1 else 0)
         && raw[at + 14..at + 18] == [a.selection, 0, 0, 0]
  {
    hide Serialized, Serializable, SymbolsOffset, Index, LE16, LE32, DefinitionRecord;
    DefinitionPlaced(o, k);
    var a := o.symbols[k].aux[0];
    var sect, number := o.sections[o.symbols[k].loc.section], if a.selection == ASSOCIATIVE then a.associate + 1 else 0;
    var r := DefinitionRecord(|sect.data|, |sect.relocs|, number, a.selection);
    DefinitionParts(|sect.data|, |sect.relocs|, number, a.selection);
    var at := SymbolsOffset(o) + SYMBOL_SIZE * (Index(o.symbols, k) + 1);
    Piece(Serialized(o), r, at, 0, 4);
    Piece(Serialized(o), r, at, 4, 6);
    Piece(Serialized(o), r, at, 6, 12);
    Piece(Serialized(o), r, at, 12, 14);
    Piece(Serialized(o), r, at, 14, 18);
  }

  lemma DefinitionParts(length: nat, relocs: nat, number: nat, selection: nat)
    requires length <= U32_MAX && relocs <= U16_MAX && number <= U16_MAX && selection < 256
    ensures
      var r := DefinitionRecord(length, relocs, number, selection);
      && r[0..4] == LE32(length) && r[4..6] == LE16(relocs) && r[6..12] == [0, 0, 0, 0, 0, 0]
      && r[12..14] == LE16(number) && r[14..18] == [selection, 0, 0, 0]
  {
    hide LE16, LE32;
    ZeroBytes();
    var r := DefinitionRecord(length, relocs, number, selection);
    assert r[6..12] == LE16(0) + LE32(0);
  }

  /** Behind its first auxiliary record a symbol has nothing but zeros. */
  lemma BlankBehindFirst(o: Object, k: nat, i: nat)
    requires Serializable(o) && k < |o.symbols| && o.symbols[k].aux != [] && 18 <= i < 18 * |o.symbols[k].aux|
    ensures
      var raw, at := Serialized(o), SymbolsOffset(o) + 18 * (Index(o.symbols, k) + 1);
      at + i < |raw| && raw[at + i] == 0
  {
    hide Serialized, Serializable, SymbolsOffset, Index, SymbolFits, FirstAux, Primary;
    PrimaryPlaced(o, k);
    AtBytes(Serialized(o), SymbolsOffset(o) + SYMBOL_SIZE * Index(o.symbols, k) + SYMBOL_SIZE,
            Auxiliaries(o, o.symbols[k]), i);
  }
}
