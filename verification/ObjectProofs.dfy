/** What the object writer lays out, the object parser accepts and reads back. */
module ObjectProofs {
  import opened Basics
  import opened Bytes
  import opened ObjectFile

  // ---- pieces in place ----

  /** `p` stands at `off` in `raw`. */
  ghost predicate At(raw: seq<Byte>, off: nat, p: seq<Byte>) { off + |p| <= |raw| && raw[off..off + |p|] == p }

  lemma AtIn(raw: seq<Byte>, off: nat, p: seq<Byte>, o: nat, q: seq<Byte>)
    requires At(raw, off, p) && At(p, o, q)
    ensures At(raw, off + o, q)
  {
    Piece(raw, p, off, o, o + |q|);
  }

  lemma AtPair(raw: seq<Byte>, off: nat, a: seq<Byte>, b: seq<Byte>)
    requires At(raw, off, a + b)
    ensures At(raw, off, a) && At(raw, off + |a|, b)
  {
    assert At(a + b, 0, a) && At(a + b, |a|, b);
    AtIn(raw, off, a + b, 0, a);
    AtIn(raw, off, a + b, |a|, b);
  }

  lemma AtLast(a: seq<Byte>, b: seq<Byte>, c: seq<Byte>, off: nat)
    requires At(a, off, c)
    ensures At(a + b, off, c)
  {
    assert (a + b)[off..off + |c|] == a[off..off + |c|];
  }

  lemma AtEnd(a: seq<Byte>, b: seq<Byte>)
    ensures At(a + b, |a|, b)
  {
  }

  lemma At32(raw: seq<Byte>, off: nat, x: nat)
    requires x <= U32_MAX && At(raw, off, LE32(x))
    ensures off + 4 <= |raw| && Read32(raw, off) == x
  {
    Read32At(raw, off, x);
  }

  lemma At16(raw: seq<Byte>, off: nat, x: nat)
    requires x <= U16_MAX && At(raw, off, LE16(x))
    ensures off + 2 <= |raw| && Read16(raw, off) == x
  {
    Read16At(raw, off, x);
  }

  lemma AtBytes(raw: seq<Byte>, off: nat, p: seq<Byte>, i: nat)
    requires At(raw, off, p) && i < |p|
    ensures off + i < |raw| && raw[off + i] == p[i]
  {
    assert raw[off..off + |p|][i] == p[i];
  }

  // ---- the fields of a record, read in place ----

  lemma FileHeaderReads(raw: seq<Byte>, machine: nat, sections: nat, time: nat, off: nat, symbols: nat)
    requires machine <= U16_MAX && sections <= U16_MAX && time <= U32_MAX && off <= U32_MAX && symbols <= U32_MAX
    requires At(raw, 0, FileHeader(machine, sections, time, off, symbols))
    ensures |raw| >= FILE_HEADER && Read16(raw, 0) == machine && Read16(raw, 2) == sections
    ensures Read32(raw, 4) == time && Read32(raw, 8) == off && Read32(raw, 12) == symbols
  {
    hide At, LE16, LE32, Read16, Read32;
    var t4 := LE16(0) + LE16(0);
    var t3 := LE32(symbols) + t4;
    var t2 := LE32(off) + t3;
    var t1 := LE32(time) + t2;
    var t0 := LE16(sections) + t1;
    AtPair(raw, 0, LE16(machine), t0);
    AtPair(raw, 2, LE16(sections), t1);
    AtPair(raw, 4, LE32(time), t2);
    AtPair(raw, 8, LE32(off), t3);
    AtPair(raw, 12, LE32(symbols), t4);
    At16(raw, 0, machine);
    At16(raw, 2, sections);
    At32(raw, 4, time);
    At32(raw, 8, off);
    At32(raw, 12, symbols);
    AtSize(raw, 0, FileHeader(machine, sections, time, off, symbols));
  }

  lemma AtSize(raw: seq<Byte>, off: nat, p: seq<Byte>)
    requires At(raw, off, p)
    ensures off + |p| <= |raw|
  {
  }

  lemma SectionReads(raw: seq<Byte>, h: nat, name: seq<Byte>, size: nat, off: nat, relocsOff: nat, relocs: nat,
                     flags: nat)
    requires |name| == SHORT && size <= U32_MAX && off <= U32_MAX && relocsOff <= U32_MAX && relocs <= U16_MAX
             && flags <= U32_MAX
    requires At(raw, h, SectionRecord(name, size, off, relocsOff, relocs, flags))
    ensures h + SECTION_HEADER <= |raw| && raw[h..h + SHORT] == name
    ensures Read32(raw, h + 16) == size && Read32(raw, h + 20) == off && Read32(raw, h + 24) == relocsOff
    ensures Read16(raw, h + 32) == relocs && Read32(raw, h + 36) == flags
  {
    AtSize(raw, h, SectionRecord(name, size, off, relocsOff, relocs, flags));
    var t8 := LE16(0) + LE32(flags);
    var t7 := LE16(relocs) + t8;
    var t6 := LE32(0) + t7;
    var t5 := LE32(relocsOff) + t6;
    var t4 := LE32(off) + t5;
    var t3 := LE32(size) + t4;
    var t2 := LE32(0) + t3;
    var t1 := LE32(0) + t2;
    assert At(raw, h, name + t1);
    hide At, LE16, LE32, Read16, Read32, SectionRecord;
    AtPair(raw, h, name, t1);
    AtName(raw, h, name);
    AtPair(raw, h + 8, LE32(0), t2);
    AtPair(raw, h + 12, LE32(0), t3);
    AtPair(raw, h + 16, LE32(size), t4);
    AtPair(raw, h + 20, LE32(off), t5);
    AtPair(raw, h + 24, LE32(relocsOff), t6);
    AtPair(raw, h + 28, LE32(0), t7);
    AtPair(raw, h + 32, LE16(relocs), t8);
    AtPair(raw, h + 34, LE16(0), LE32(flags));
    At32(raw, h + 16, size);
    At32(raw, h + 20, off);
    At32(raw, h + 24, relocsOff);
    At16(raw, h + 32, relocs);
    At32(raw, h + 36, flags);
  }

  lemma AtName(raw: seq<Byte>, off: nat, name: seq<Byte>)
    requires At(raw, off, name) && |name| == SHORT
    ensures off + SHORT <= |raw| && raw[off..off + SHORT] == name
  {
  }

  lemma SymbolReads(raw: seq<Byte>, at: nat, name: seq<Byte>, value: nat, number: nat, typ: nat, storage: nat, aux: nat)
    requires |name| == SHORT && value <= U32_MAX && number <= U16_MAX && typ <= U16_MAX && storage < 256 && aux < 256
    requires At(raw, at, SymbolRecord(name, value, number, typ, storage, aux))
    ensures at + SYMBOL_SIZE <= |raw| && raw[at..at + SHORT] == name
    ensures Read32(raw, at + 8) == value && Read16(raw, at + 12) == number && Read16(raw, at + 14) == typ
    ensures raw[at + 16] == storage && raw[at + 17] == aux
  {
    AtSize(raw, at, SymbolRecord(name, value, number, typ, storage, aux));
    var t3: seq<Byte> := [storage, aux];
    var t2 := LE16(typ) + t3;
    var t1 := LE16(number) + t2;
    var t0 := LE32(value) + t1;
    assert At(raw, at, name + t0);
    hide At, LE16, LE32, Read16, Read32, SymbolRecord;
    AtPair(raw, at, name, t0);
    AtName(raw, at, name);
    AtPair(raw, at + 8, LE32(value), t1);
    AtPair(raw, at + 12, LE16(number), t2);
    AtPair(raw, at + 14, LE16(typ), t3);
    At32(raw, at + 8, value);
    At16(raw, at + 12, number);
    At16(raw, at + 14, typ);
    AtBytes(raw, at + 16, t3, 0);
    AtBytes(raw, at + 16, t3, 1);
  }

  lemma WeakReads(raw: seq<Byte>, at: nat, tag: nat, characteristics: nat)
    requires tag <= U32_MAX && characteristics <= U32_MAX && At(raw, at, WeakRecord(tag, characteristics))
    ensures at + SYMBOL_SIZE <= |raw| && Read32(raw, at) == tag && Read32(raw, at + 4) == characteristics
  {
    AtSize(raw, at, WeakRecord(tag, characteristics));
    var t := LE32(characteristics) + Repeat(0, 10);
    hide At, LE32, Read32;
    AtPair(raw, at, LE32(tag), t);
    AtPair(raw, at + 4, LE32(characteristics), Repeat(0, 10));
    At32(raw, at, tag);
    At32(raw, at + 4, characteristics);
  }

  lemma DefinitionReads(raw: seq<Byte>, at: nat, length: nat, relocs: nat, number: nat, selection: nat)
    requires length <= U32_MAX && relocs <= U16_MAX && number <= U16_MAX && selection < 256
    requires At(raw, at, DefinitionRecord(length, relocs, number, selection))
    ensures at + SYMBOL_SIZE <= |raw| && Read32(raw, at) == length && Read16(raw, at + 12) == number
            && raw[at + 14] == selection
  {
    AtSize(raw, at, DefinitionRecord(length, relocs, number, selection));
    var t5: seq<Byte> := [selection, 0, 0, 0];
    var t4 := LE16(number) + t5;
    var t3 := LE32(0) + t4;
    var t2 := LE16(0) + t3;
    var t1 := LE16(relocs) + t2;
    assert At(raw, at, LE32(length) + t1);
    hide At, LE16, LE32, Read16, Read32, DefinitionRecord;
    AtPair(raw, at, LE32(length), t1);
    AtPair(raw, at + 4, LE16(relocs), t2);
    AtPair(raw, at + 6, LE16(0), t3);
    AtPair(raw, at + 8, LE32(0), t4);
    AtPair(raw, at + 12, LE16(number), t5);
    At32(raw, at, length);
    At16(raw, at + 12, number);
    AtBytes(raw, at + 14, t5, 0);
  }

  lemma RelocReads(raw: seq<Byte>, at: nat, applyOff: nat, index: nat, typ: nat)
    requires applyOff <= U32_MAX && index <= U32_MAX && typ <= U16_MAX
    requires At(raw, at, LE32(applyOff) + (LE32(index) + LE16(typ)))
    ensures ParseReloc(raw, at) == Some(ParsedReloc(applyOff, index, typ))
  {
    AtSize(raw, at, LE32(applyOff) + (LE32(index) + LE16(typ)));
    hide At, LE16, LE32, Read16, Read32;
    AtPair(raw, at, LE32(applyOff), LE32(index) + LE16(typ));
    AtPair(raw, at + 4, LE32(index), LE16(typ));
    At32(raw, at, applyOff);
    At32(raw, at + 4, index);
    At16(raw, at + 8, typ);
  }

  // ---- pieces of the tables ----

  lemma {:induction false} SectionTableAt(o: Object, n: nat, i: nat)
    requires Serializable(o) && i < n <= |o.sections|
    ensures At(SectionTable(o, n), SECTION_HEADER * i, SectionHeaderOf(o, i))
    decreases n
  {
    hide At, SectionHeaderOf;
    var before := SectionTable(o, n - 1);
    if i == n - 1 {
      AtEnd(before, SectionHeaderOf(o, i));
    } else {
      SectionTableAt(o, n - 1, i);
      AtLast(before, SectionHeaderOf(o, n - 1), SectionHeaderOf(o, i), SECTION_HEADER * i);
    }
  }

  lemma {:induction false} BodyDataAt(o: Object, n: nat, i: nat)
    requires Serializable(o) && i < n <= |o.sections|
    ensures At(Body(o, n), BodySize(o.sections, i), o.sections[i].data)
    decreases n
  {
    hide At, Serializable, RelocTable, BodySize, SectionFits;
    SectionFitsAt(o, n - 1);
    var before, data, relocs := Body(o, n - 1), o.sections[n - 1].data, RelocTable(o, o.sections[n - 1].relocs);
    if i == n - 1 {
      AtEnd(before, data);
    } else {
      BodyDataAt(o, n - 1, i);
      AtLast(before, data, o.sections[i].data, BodySize(o.sections, i));
    }
    AtLast(before + data, relocs, o.sections[i].data, BodySize(o.sections, i));
  }

  lemma {:induction false} BodyRelocsAt(o: Object, n: nat, i: nat)
    requires Serializable(o) && i < n <= |o.sections|
    ensures forall r | 0 <= r < |o.sections[i].relocs| :: RelocFits(o, o.sections[i].relocs[r])
    ensures At(Body(o, n), BodySize(o.sections, i) + |o.sections[i].data|, RelocTable(o, o.sections[i].relocs))
    decreases n
  {
    hide At, Serializable, RelocTable, BodySize, SectionFits, RelocFits;
    SectionFitsAt(o, i);
    SectionFitsAt(o, n - 1);
    var before, data, relocs := Body(o, n - 1), o.sections[n - 1].data, RelocTable(o, o.sections[n - 1].relocs);
    if i == n - 1 {
      AtEnd(before + data, relocs);
    } else {
      BodyRelocsAt(o, n - 1, i);
      var own, at := RelocTable(o, o.sections[i].relocs), BodySize(o.sections, i) + |o.sections[i].data|;
      AtLast(before, data, own, at);
      AtLast(before + data, relocs, own, at);
    }
  }

  lemma {:induction false} RelocTableAt(o: Object, rs: seq<Reloc>, r: nat)
    requires Serializable(o) && (forall j | 0 <= j < |rs| :: RelocFits(o, rs[j])) && r < |rs|
    ensures At(RelocTable(o, rs), RELOC_SIZE * r, RelocRecord(o, rs[r]))
  {
    hide At, Serializable, RelocRecord, RelocFits;
    var last := |rs| - 1;
    if r == last {
      AtEnd(RelocTable(o, rs[..last]), RelocRecord(o, rs[r]));
    } else {
      RelocTableAt(o, rs[..last], r);
      AtLast(RelocTable(o, rs[..last]), RelocRecord(o, rs[last]), RelocRecord(o, rs[r]), RELOC_SIZE * r);
    }
  }

  lemma {:induction false} SymbolTableAt(o: Object, n: nat, k: nat)
    requires Serializable(o) && k < n <= |o.symbols|
    ensures RecordCount(o) <= U32_MAX && SymbolNameOffset(o, k) <= U32_MAX
    ensures At(SymbolTable(o, n), SYMBOL_SIZE * Index(o.symbols, k), Records(o, k))
    decreases n
  {
    hide *;
    SerializableSize(o);
    SizesBounded(o, k);
    SymbolTableNext(o, n);
    if k == n - 1 {
      AtEnd(SymbolTable(o, n - 1), Records(o, k));
    } else {
      SymbolTableAt(o, n - 1, k);
      AtLast(SymbolTable(o, n - 1), Records(o, n - 1), Records(o, k), SYMBOL_SIZE * Index(o.symbols, k));
    }
  }

  lemma SerializableSize(o: Object)
    requires Serializable(o)
    ensures Size(o) <= U32_MAX
  {
    hide Size;
  }

  lemma SymbolTableNext(o: Object, n: nat)
    requires Serializable(o) && 0 < n <= |o.symbols|
    ensures RecordCount(o) <= U32_MAX && SymbolNameOffset(o, n - 1) <= U32_MAX
    ensures SymbolTable(o, n) == SymbolTable(o, n - 1) + Records(o, n - 1)
  {
    SizesBounded(o, n - 1);
    hide Serializable, Records, RecordCount, SymbolNameOffset, Index;
  }

  lemma {:induction false} SymbolStringAt(ss: seq<Symbol>, n: nat, k: nat)
    requires k < n <= |ss| && |ss[k].name| > SHORT
    ensures At(SymbolStrings(ss, n), |SymbolStrings(ss, k)|, ss[k].name + [0])
    decreases n
  {
    hide At;
    var last := if |ss[n - 1].name| > SHORT then ss[n - 1].name + [0] else [];
    if k == n - 1 {
      AtEnd(SymbolStrings(ss, k), last);
    } else {
      SymbolStringAt(ss, n - 1, k);
      AtLast(SymbolStrings(ss, n - 1), last, ss[k].name + [0], |SymbolStrings(ss, k)|);
    }
  }

  lemma {:induction false} SectionStringAt(ss: seq<Section>, n: nat, k: nat)
    requires k < n <= |ss| && |ss[k].name| > SHORT
    ensures At(SectionStrings(ss, n), |SectionStrings(ss, k)|, ss[k].name + [0])
    decreases n
  {
    hide At;
    var last := if |ss[n - 1].name| > SHORT then ss[n - 1].name + [0] else [];
    if k == n - 1 {
      AtEnd(SectionStrings(ss, k), last);
    } else {
      SectionStringAt(ss, n - 1, k);
      AtLast(SectionStrings(ss, n - 1), last, ss[k].name + [0], |SectionStrings(ss, k)|);
    }
  }

  // ---- the whole file ----

  function StringsOffset(o: Object): nat { SymbolsOffset(o) + SYMBOL_SIZE * RecordCount(o) }

  function StringBytes(o: Object): seq<Byte>
    requires Serializable(o)
  {
    LE32(4 + |Strings(o)|) + Strings(o)
  }

  lemma FivePieces(a: seq<Byte>, b: seq<Byte>, c: seq<Byte>, d: seq<Byte>, e: seq<Byte>)
    ensures
      var raw := a + (b + (c + (d + e)));
      && At(raw, 0, a) && At(raw, |a|, b) && At(raw, |a| + |b|, c) && At(raw, |a| + |b| + |c|, d)
      && At(raw, |a| + |b| + |c| + |d|, e) && |raw| == |a| + |b| + |c| + |d| + |e|
  {
    var raw := a + (b + (c + (d + e)));
    assert At(raw, 0, raw);
    hide At;
    AtPair(raw, 0, a, b + (c + (d + e)));
    AtPair(raw, |a|, b, c + (d + e));
    AtPair(raw, |a| + |b|, c, d + e);
    AtPair(raw, |a| + |b| + |c|, d, e);
  }

  lemma Layout(o: Object)
    requires Serializable(o)
    ensures
      var raw := Serialized(o);
      && |raw| == Size(o)
      && At(raw, 0, FileHeader(o.machine, |o.sections|, o.time, SymbolsField(o), RecordCount(o)))
      && At(raw, FILE_HEADER, SectionTable(o, |o.sections|))
      && At(raw, HeadersSize(o), Body(o, |o.sections|))
      && At(raw, SymbolsOffset(o), SymbolTable(o, |o.symbols|))
      && At(raw, StringsOffset(o), StringBytes(o))
  {
    hide At, FileHeader, SectionTable, Body, SymbolTable, LE32, Strings, BodySize, SymbolsField, Serializable;
    HeaderFits(o);
    FivePieces(FileHeader(o.machine, |o.sections|, o.time, SymbolsField(o), RecordCount(o)),
               SectionTable(o, |o.sections|),
               Body(o, |o.sections|), SymbolTable(o, |o.symbols|), StringBytes(o));
  }

  lemma BodyPlaced(o: Object)
    requires Serializable(o)
    ensures At(Serialized(o), HeadersSize(o), Body(o, |o.sections|))
  {
    hide *;
    Layout(o);
  }

  lemma SymbolTablePlaced(o: Object)
    requires Serializable(o)
    ensures At(Serialized(o), SymbolsOffset(o), SymbolTable(o, |o.symbols|))
  {
    hide *;
    Layout(o);
  }

  lemma HeaderFits(o: Object)
    requires Serializable(o)
    ensures o.machine <= U16_MAX && |o.sections| <= U16_MAX && o.time <= U32_MAX && SymbolsField(o) <= U32_MAX
    ensures RecordCount(o) <= U32_MAX && 4 + |Strings(o)| <= U32_MAX
  {
  }

  /** Objects that survive: a known machine, section numbers clear of the special ones, symbol names not empty,
      names without zeroes, short section names not starting with a slash, and no full count on an overflow section. */
  predicate Good(o: Object) {
    && Serializable(o) && KnownMachine(o.machine) && |o.sections| <= 0xFFFD
    && (forall k | 0 <= k < |o.symbols| :: o.symbols[k].name != [] && 0 !in o.symbols[k].name)
    && (forall i | 0 <= i < |o.sections| :: SectionGood(o.sections[i]))
  }

  predicate SectionGood(s: Section) {
    && 0 !in s.name && (0 < |s.name| <= SHORT ==> s.name[0] != SLASH)
    && !(HasBit(s.flags, RELOC_OVERFLOW) && |s.relocs| == U16_MAX)
  }

  function InfoOf(o: Object): Info {
    Info(o.machine, |o.sections|, RecordCount(o), SymbolsField(o), SymbolsField(o) + SYMBOL_SIZE * RecordCount(o))
  }

  // ---- section headers ----

  /** Where section header `i` stands. */
  lemma SectionHeaderPlaced(o: Object, i: nat)
    requires Serializable(o) && i < |o.sections|
    ensures At(Serialized(o), FILE_HEADER + SECTION_HEADER * i, SectionHeaderOf(o, i))
  {
    hide *;
    Layout(o);
    SectionTableAt(o, |o.sections|, i);
    AtIn(Serialized(o), FILE_HEADER, SectionTable(o, |o.sections|), SECTION_HEADER * i, SectionHeaderOf(o, i));
  }

  lemma SectionHeaderReads(o: Object, i: nat)
    requires Serializable(o) && i < |o.sections|
    ensures
      var raw, h, s := Serialized(o), FILE_HEADER + SECTION_HEADER * i, o.sections[i];
      && (|s.name| > SHORT ==> SectionNameOffset(o, i) < 10000000)
      && h + SECTION_HEADER <= |raw| && raw[h..h + SHORT] == SectionName(o, i)
      && Read32(raw, h + 16) == |s.data| && Read32(raw, h + 20) == DataOffset(o, i)
         && Read32(raw, h + 24) == RelocsOffset(o, i)
      && Read16(raw, h + 32) == |s.relocs| && Read32(raw, h + 36) == s.flags
  {
    hide *;
    var s := o.sections[i];
    HeaderIs(o, i);
    SectionHeaderPlaced(o, i);
    SectionReads(Serialized(o), FILE_HEADER + SECTION_HEADER * i, SectionName(o, i), |s.data|, DataOffset(o, i),
                 RelocsOffset(o, i), |s.relocs|, s.flags);
  }

  lemma DataInFile(o: Object, i: nat)
    requires i < |o.sections|
    ensures o.sections[i].data != []
            ==> HeadersSize(o) <= DataOffset(o, i) && DataOffset(o, i) + |o.sections[i].data| <= Size(o)
  {
    BodyGrows(o.sections, i, |o.sections|);
  }

  lemma RangeOk(o: Object, i: nat)
    requires Serializable(o) && i < |o.sections|
    ensures FILE_HEADER + SECTION_HEADER * i + SECTION_HEADER <= |Serialized(o)|
    ensures SectionRangeOk(Serialized(o), FILE_HEADER + SECTION_HEADER * i, HeadersSize(o))
  {
    hide At, Serialized, Serializable, SectionName, DataOffset, RelocsOffset, Size, HeadersSize, HasBit;
    SectionHeaderReads(o, i);
    Layout(o);
    DataInFile(o, i);
  }

  lemma HeaderReads(o: Object)
    requires Serializable(o)
    ensures
      var raw := Serialized(o);
      && |raw| == Size(o) >= FILE_HEADER && Read16(raw, 0) == o.machine && Read16(raw, 2) == |o.sections|
      && Read32(raw, 8) == SymbolsField(o) && Read32(raw, 12) == RecordCount(o)
  {
    assert o.time <= U32_MAX && o.machine <= U16_MAX && |o.sections| <= U16_MAX && SymbolsField(o) <= U32_MAX
      && RecordCount(o) <= U32_MAX;
    hide At, Serialized, Serializable, SymbolsField, RecordCount, FileHeader, Size, Read16, Read32;
    Layout(o);
    FileHeaderReads(Serialized(o), o.machine, |o.sections|, o.time, SymbolsField(o), RecordCount(o));
  }

  /** The parser accepts a serialized object, and finds the counts and tables where they are. */
  lemma Accepted(o: Object)
    requires Good(o)
    ensures IsObject(Serialized(o)) && ParseInfo(Serialized(o)) == Some(InfoOf(o))
  {
    hide Serialized, Serializable, At, SectionGood, SectionRangeOk, RecordCount, Strings, Read16, Read32;
    var raw := Serialized(o);
    HeaderReads(o);
    forall i | 0 <= i < |o.sections| ensures SectionRangeOk(raw, FILE_HEADER + SECTION_HEADER * i, HeadersSize(o)) {
      RangeOk(o, i);
    }
  }

  // ---- names ----

  lemma CStrAt(s: seq<Byte>, off: nat, name: seq<Byte>)
    requires At(s, off, name + [0]) && 0 !in name
    ensures off < |s| && CStr(s[off..]) == name
  {
    var rest := s[off + |name|..];
    AtBytes(s, off, name + [0], |name|);
    assert s[off..] == name + rest by {
      assert s[off..off + |name + [0]|][..|name|] == name;
      assert s[off..off + |name|] == s[off..off + |name + [0]|][..|name|];
    }
    CStrStops(name, rest);
  }

  lemma SymbolStringPlaced(o: Object, k: nat)
    requires Serializable(o) && k < |o.symbols| && |o.symbols[k].name| > SHORT
    ensures At(StringBytes(o), SymbolNameOffset(o, k), o.symbols[k].name + [0])
  {
    hide At, Serializable, SymbolStrings, SectionStrings, LE32;
    var strings := SymbolStrings(o.symbols, |o.symbols|);
    SymbolStringAt(o.symbols, |o.symbols|, k);
    AtLast(strings, SectionStrings(o.sections, |o.sections|), o.symbols[k].name + [0], |SymbolStrings(o.symbols, k)|);
    HeaderFits(o);
    AtEnd(LE32(4 + |Strings(o)|), Strings(o));
    AtIn(StringBytes(o), 4, Strings(o), |SymbolStrings(o.symbols, k)|, o.symbols[k].name + [0]);
  }

  lemma SectionStringPlaced(o: Object, i: nat)
    requires Serializable(o) && i < |o.sections| && |o.sections[i].name| > SHORT
    ensures At(StringBytes(o), SectionNameOffset(o, i), o.sections[i].name + [0])
  {
    hide At, Serializable, SymbolStrings, SectionStrings, LE32;
    var symbols, sections := SymbolStrings(o.symbols, |o.symbols|), SectionStrings(o.sections, |o.sections|);
    SectionStringAt(o.sections, |o.sections|, i);
    AtEnd(symbols, sections);
    AtIn(Strings(o), |symbols|, sections, |SectionStrings(o.sections, i)|, o.sections[i].name + [0]);
    HeaderFits(o);
    AtEnd(LE32(4 + |Strings(o)|), Strings(o));
    AtIn(StringBytes(o), 4, Strings(o), |symbols| + |SectionStrings(o.sections, i)|, o.sections[i].name + [0]);
  }

  lemma ShortReads(name: seq<Byte>)
    requires |name| <= SHORT && 0 !in name
    ensures CStr(ShortName(name)) == name
  {
    CStrStops(name, Repeat(0, SHORT - |name|));
  }

  lemma ShortIsNoLong(name: seq<Byte>)
    requires 0 < |name| <= SHORT && 0 !in name
    ensures Read32(ShortName(name), 0) != 0
  {
    assert ShortName(name)[0] == name[0] && name[0] in name;
  }

  lemma LongFieldReads(off: nat)
    requires off <= U32_MAX
    ensures Read32(LE32(0) + LE32(off), 0) == 0 && Read32(LE32(0) + LE32(off), 4) == off
  {
    hide LE32, Read32;
    AtEnd(LE32(0), LE32(off));
    assert At(LE32(0) + LE32(off), 0, LE32(0));
    At32(LE32(0) + LE32(off), 0, 0);
    At32(LE32(0) + LE32(off), 4, off);
  }

  lemma SymbolNameReads(o: Object, k: nat)
    requires Good(o) && k < |o.symbols|
    ensures SymbolNameOffset(o, k) <= U32_MAX
    ensures ParseSymbolName(StringBytes(o), SymbolName(o, k)) == o.symbols[k].name
  {
    var name := o.symbols[k].name;
    assert name != [] && 0 !in name && Serializable(o);
    SizesBounded(o, k);
    hide Good, Serializable, CStr, StringBytes, SymbolNameOffset, At, LE32, Read32, ShortName;
    if |name| > SHORT {
      SymbolStringPlaced(o, k);
      LongFieldReads(SymbolNameOffset(o, k));
      CStrAt(StringBytes(o), SymbolNameOffset(o, k), name);
    } else {
      ShortReads(name);
      ShortIsNoLong(name);
    }
  }

  lemma LongSectionReads(o: Object, i: nat, strings: seq<Byte>)
    requires Serializable(o) && i < |o.sections| && 0 !in o.sections[i].name && |o.sections[i].name| > SHORT
    requires strings == StringBytes(o) && SectionNameOffset(o, i) < 10000000
    ensures ParseSectionName(strings, SectionName(o, i)) == o.sections[i].name
  {
    var off := SectionNameOffset(o, i);
    hide Serializable, CStr, StringBytes, SectionNameOffset, At, ShortName, Dec, ParseU64;
    var field: seq<Byte> := [SLASH] + Dec(off);
    DecShort(off);
    DecNoZero(off);
    ShortReads(field);
    ParseDec(off);
    assert field[1..] == Dec(off);
    SectionStringPlaced(o, i);
    CStrAt(strings, off, o.sections[i].name);
    assert Slice(strings, off, |strings|) == strings[off..];
  }

  lemma ShortSectionReads(o: Object, i: nat, strings: seq<Byte>)
    requires i < |o.sections| && |o.sections[i].name| <= SHORT && SectionGood(o.sections[i])
    ensures ParseSectionName(strings, SectionName(o, i)) == o.sections[i].name
  {
    ShortReads(o.sections[i].name);
    hide ShortName, CStr;
  }

  lemma SectionNameReads(o: Object, i: nat, strings: seq<Byte>)
    requires Serializable(o) && i < |o.sections| && SectionGood(o.sections[i])
    requires |o.sections[i].name| > SHORT ==> strings == StringBytes(o)
    ensures |o.sections[i].name| > SHORT ==> SectionNameOffset(o, i) < 10000000
    ensures ParseSectionName(strings, SectionName(o, i)) == o.sections[i].name
  {
    SectionNameFits(o, i);
    GoodNames(o.sections[i]);
    hide Serializable, SectionGood, SectionNameOffset, StringBytes, ParseSectionName, SectionName;
    if |o.sections[i].name| > SHORT {
      LongSectionReads(o, i, strings);
    } else {
      ShortSectionReads(o, i, strings);
    }
  }

  lemma GoodNames(s: Section)
    requires SectionGood(s)
    ensures 0 !in s.name
  {
  }

  lemma DecNoZero(off: nat)
    ensures 0 !in Dec(off) && 0 !in [SLASH] + Dec(off)
  {
  }

  // ---- sections ----

  lemma HasStrings(o: Object)
    requires Serializable(o) && (RecordCount(o) > 0 || Strings(o) != [])
    ensures StringTable(Serialized(o), InfoOf(o)) == StringBytes(o)
  {
    hide Serialized, Serializable, StringBytes, Strings, RecordCount, SymbolsOffset;
    Layout(o);
    StringsEnd(o);
    assert InfoOf(o).stringsOff == StringsOffset(o);
  }

  lemma StringsEnd(o: Object)
    requires Serializable(o)
    ensures StringsOffset(o) + |StringBytes(o)| == Size(o)
  {
  }

  lemma LongNameIsThere(o: Object, i: nat)
    requires i < |o.sections| && |o.sections[i].name| > SHORT
    ensures Strings(o) != []
  {
    SectionStringsGrow(o.sections, i + 1, |o.sections|);
  }

  lemma DataPlaced(o: Object, i: nat)
    requires Serializable(o) && i < |o.sections|
    ensures At(Serialized(o), HeadersSize(o) + BodySize(o.sections, i), o.sections[i].data)
  {
    hide *;
    BodyPlaced(o);
    BodyDataAt(o, |o.sections|, i);
    AtIn(Serialized(o), HeadersSize(o), Body(o, |o.sections|), BodySize(o.sections, i), o.sections[i].data);
  }

  lemma SectionDataReads(o: Object, i: nat)
    requires Serializable(o) && i < |o.sections|
    ensures Slice(Serialized(o), DataOffset(o, i), DataOffset(o, i) + |o.sections[i].data|) == o.sections[i].data
  {
    hide Serialized, Serializable, HeadersSize, BodySize, At, Slice;
    DataPlaced(o, i);
    SliceNone(Serialized(o));
    SliceAt(Serialized(o), HeadersSize(o) + BodySize(o.sections, i), o.sections[i].data);
  }

  lemma SliceNone(raw: seq<Byte>)
    ensures Slice(raw, 0, 0) == []
  {
  }

  lemma SliceAt(raw: seq<Byte>, off: nat, p: seq<Byte>)
    requires At(raw, off, p)
    ensures Slice(raw, off, off + |p|) == p
  {
  }

  function ParsedOf(s: Section, relocsOff: nat): ParsedSection {
    ParsedSection(s.name, s.flags, s.data, relocsOff, |s.relocs|)
  }

  /** Parsing a section header with given fields. */
  lemma SectionParses(raw: seq<Byte>, info: Info, i: nat, s: Section, off: nat, relocsOff: nat)
    requires SectionGood(s) && FILE_HEADER + SECTION_HEADER * i + SECTION_HEADER <= |raw|
    requires
      var h := FILE_HEADER + SECTION_HEADER * i;
      && ParseSectionName(StringTable(raw, info), raw[h..h + SHORT]) == s.name
      && Read32(raw, h + 16) == |s.data| && Read32(raw, h + 20) == off && Read32(raw, h + 24) == relocsOff
      && Read16(raw, h + 32) == |s.relocs| && Read32(raw, h + 36) == s.flags
         && Slice(raw, off, off + |s.data|) == s.data
    ensures ParseSection(raw, info, i) == Some(ParsedOf(s, relocsOff))
  {
    hide Read32, Read16, Slice, StringTable, ParseSectionName, HasBit;
  }

  /** Every section comes back with its name, data and flags. */
  lemma SectionRoundTrip(o: Object, i: nat)
    requires Good(o) && i < |o.sections|
    ensures ParseSection(Serialized(o), InfoOf(o), i) == Some(ParsedOf(o.sections[i], RelocsOffset(o, i)))
  {
    hide Good, Serialized, Serializable, SectionGood, ParseSection, ParsedOf, ParseSectionName, StringTable, InfoOf,
         RelocsOffset, DataOffset;
    hide SectionName, Slice, Read32, Read16;
    GoodSection(o, i);
    SectionHeaderReads(o, i);
    SectionDataReads(o, i);
    if |o.sections[i].name| > SHORT {
      LongNameIsThere(o, i);
      HasStrings(o);
    }
    SectionNameReads(o, i, StringTable(Serialized(o), InfoOf(o)));
    SectionParses(Serialized(o), InfoOf(o), i, o.sections[i], DataOffset(o, i), RelocsOffset(o, i));
  }

  lemma GoodSection(o: Object, i: nat)
    requires Good(o) && i < |o.sections|
    ensures Serializable(o) && SectionGood(o.sections[i])
  {
  }

  lemma RelocTablePlaced(o: Object, i: nat)
    requires Serializable(o) && i < |o.sections|
    ensures forall r | 0 <= r < |o.sections[i].relocs| :: RelocFits(o, o.sections[i].relocs[r])
    ensures At(Serialized(o), HeadersSize(o) + BodySize(o.sections, i) + |o.sections[i].data|,
               RelocTable(o, o.sections[i].relocs))
  {
    hide *;
    BodyPlaced(o);
    BodyRelocsAt(o, |o.sections|, i);
    AtIn(Serialized(o), HeadersSize(o), Body(o, |o.sections|), BodySize(o.sections, i) + |o.sections[i].data|,
         RelocTable(o, o.sections[i].relocs));
  }

  lemma RelocPlaced(o: Object, i: nat, r: nat)
    requires Serializable(o) && i < |o.sections| && r < |o.sections[i].relocs|
    ensures RelocFits(o, o.sections[i].relocs[r])
    ensures At(Serialized(o), RelocsOffset(o, i) + RELOC_SIZE * r, RelocRecord(o, o.sections[i].relocs[r]))
  {
    hide Serialized, Serializable, BodySize, HeadersSize, RelocTable, RelocRecord, At, RelocFits;
    RelocTablePlaced(o, i);
    RelocTableAt(o, o.sections[i].relocs, r);
    AtIn(Serialized(o), RelocsOffset(o, i), RelocTable(o, o.sections[i].relocs), RELOC_SIZE * r,
         RelocRecord(o, o.sections[i].relocs[r]));
  }

  lemma RelocReadsBack(o: Object, i: nat, r: nat)
    requires Serializable(o) && i < |o.sections| && r < |o.sections[i].relocs|
    ensures
      var x := o.sections[i].relocs[r];
      && x.symbol < |o.symbols|
      && ParseReloc(Serialized(o), RelocsOffset(o, i) + RELOC_SIZE * r)
         == Some(ParsedReloc(x.applyOff, Index(o.symbols, x.symbol), x.typ))
  {
    var x := o.sections[i].relocs[r];
    hide Serialized, Serializable, RelocsOffset, At, ParseReloc, LE32, LE16, Index;
    RelocPlaced(o, i, r);
    IndexFits(o, x.symbol);
    RelocReads(Serialized(o), RelocsOffset(o, i) + RELOC_SIZE * r, x.applyOff, Index(o.symbols, x.symbol), x.typ);
  }

  lemma IndexFits(o: Object, k: nat)
    requires Serializable(o) && k < |o.symbols|
    ensures Index(o.symbols, k) < RecordCount(o) <= U32_MAX
  {
    SizesBounded(o, k);
    IndexInCount(o, k);
  }

  // ---- symbols ----

  /** How a symbol is to be read back: the number of its section, counted from one, all ones for an absolute symbol,
      and zero for one without a section. */
  function ParsedAs(s: Symbol): ParsedSymbol {
    var number := match s.loc case InSection(i) => i + 1 case Absolute => 0xFFFF_FFFF case _ => 0;
    ParsedSymbol(s.name, s.value, number, s.typ, s.storage, |s.aux|)
  }

  lemma RecordsPlaced(o: Object, k: nat)
    requires Serializable(o) && k < |o.symbols|
    ensures RecordCount(o) <= U32_MAX && SymbolNameOffset(o, k) <= U32_MAX
    ensures At(Serialized(o), SymbolsOffset(o) + SYMBOL_SIZE * Index(o.symbols, k), Records(o, k))
  {
    hide *;
    SymbolTablePlaced(o);
    SymbolTableAt(o, |o.symbols|, k);
    AtIn(Serialized(o), SymbolsOffset(o), SymbolTable(o, |o.symbols|), SYMBOL_SIZE * Index(o.symbols, k),
         Records(o, k));
  }

  function Auxiliaries(o: Object, s: Symbol): seq<Byte>
    requires Serializable(o) && SymbolFits(o, s) && RecordCount(o) <= U32_MAX
  {
    if s.aux == [] then [] else FirstAux(o, s) + Repeat(0, SYMBOL_SIZE * (|s.aux| - 1))
  }

  function Primary(o: Object, k: nat): (b: seq<Byte>)
    requires k < |o.symbols| && SymbolFits(o, o.symbols[k]) && SymbolNameOffset(o, k) <= U32_MAX
    ensures |b| == SYMBOL_SIZE
  {
    var s := o.symbols[k];
    SymbolRecord(SymbolName(o, k), s.value, SectionNumber(s.loc), s.typ, s.storage, |s.aux|)
  }

  lemma RecordsAre(o: Object, k: nat)
    requires Serializable(o) && k < |o.symbols| && RecordCount(o) <= U32_MAX && SymbolNameOffset(o, k) <= U32_MAX
    requires SymbolFits(o, o.symbols[k])
    ensures Records(o, k) == Primary(o, k) + Auxiliaries(o, o.symbols[k])
  {
  }

  lemma PrimaryPlaced(o: Object, k: nat)
    requires Serializable(o) && k < |o.symbols|
    ensures SymbolFits(o, o.symbols[k]) && RecordCount(o) <= U32_MAX && SymbolNameOffset(o, k) <= U32_MAX
    ensures At(Serialized(o), SymbolsOffset(o) + SYMBOL_SIZE * Index(o.symbols, k), Primary(o, k))
    ensures At(Serialized(o), SymbolsOffset(o) + SYMBOL_SIZE * Index(o.symbols, k) + SYMBOL_SIZE,
               Auxiliaries(o, o.symbols[k]))
  {
    hide *;
    SymbolFitsAt(o, k);
    RecordsPlaced(o, k);
    RecordsAre(o, k);
    AtPair(Serialized(o), SymbolsOffset(o) + SYMBOL_SIZE * Index(o.symbols, k), Primary(o, k),
           Auxiliaries(o, o.symbols[k]));
  }

  lemma PrimaryReads(o: Object, k: nat)
    requires Serializable(o) && k < |o.symbols|
    ensures
      var raw, s, at := Serialized(o), o.symbols[k], SymbolsOffset(o) + SYMBOL_SIZE * Index(o.symbols, k);
      && SymbolNameOffset(o, k) <= U32_MAX
      && at + SYMBOL_SIZE <= |raw| && raw[at..at + SHORT] == SymbolName(o, k)
      && Read32(raw, at + 8) == s.value && Read16(raw, at + 12) == SectionNumber(s.loc) && Read16(raw, at + 14) == s.typ
      && raw[at + 16] == s.storage && raw[at + 17] == |s.aux|
  {
    hide Serialized, Serializable, At, SymbolsOffset, Index, SymbolRecord, SymbolName, Auxiliaries, Read32, Read16,
         SymbolNameOffset, AuxFits;
    PrimaryPlaced(o, k);
    var s := o.symbols[k];
    SymbolReads(Serialized(o), SymbolsOffset(o) + SYMBOL_SIZE * Index(o.symbols, k), SymbolName(o, k), s.value,
                SectionNumber(s.loc), s.typ, s.storage, |s.aux|);
  }

  lemma SomeRecords(o: Object, k: nat)
    requires Serializable(o) && k < |o.symbols|
    ensures InfoOf(o).symbolsOff == SymbolsOffset(o) && StringTable(Serialized(o), InfoOf(o)) == StringBytes(o)
  {
    IndexFits(o, k);
    hide Serialized, Serializable, StringTable, StringBytes, Strings, RecordCount, SymbolsOffset;
    HasStrings(o);
  }

  /** The record at a symbol's index is the symbol's own, whatever auxiliary records come before it. */
  lemma SymbolRoundTrip(o: Object, k: nat)
    requires Good(o) && k < |o.symbols|
    ensures ParseSymbol(Serialized(o), InfoOf(o), Index(o.symbols, k)) == Some(ParsedAs(o.symbols[k]))
  {
    assert Serializable(o);
    hide Good, Serialized, Serializable, SymbolsOffset, Index, SymbolName, ParseSymbolName, StringTable, StringBytes,
         InfoOf, Read32, Read16, SymbolNameOffset, ParsedAs;
    hide SectionNumber, WideNumber;
    SomeRecords(o, k);
    PrimaryReads(o, k);
    SymbolNameReads(o, k);
    NumberReads(o, k);
  }

  /** Section numbers keep clear of the special ones. */
  lemma NumberReads(o: Object, k: nat)
    requires Good(o) && k < |o.symbols|
    ensures
      var s := o.symbols[k];
      ParsedAs(s) == ParsedSymbol(s.name, s.value, WideNumber(SectionNumber(s.loc)), s.typ, s.storage, |s.aux|)
  {
    SymbolFitsAt(o, k);
    hide Serializable, SectionGood, SymbolNameOffset, RecordCount, AuxFits;
  }

  function AllParsed(ss: seq<Symbol>, k: nat): seq<ParsedSymbol>
    requires k <= |ss|
    decreases |ss| - k
  {
    if k == |ss| then [] else [ParsedAs(ss[k])] + AllParsed(ss, k + 1)
  }

  /** Walking the symbol table visits every symbol once, in order, and no auxiliary record. */
  lemma {:induction false} WalkFrom(o: Object, k: nat)
    requires Good(o) && k <= |o.symbols|
    ensures ParseSymbols(Serialized(o), InfoOf(o), Index(o.symbols, k)) == AllParsed(o.symbols, k)
    decreases |o.symbols| - k
  {
    hide Serialized, Good, ParseSymbol;
    if k < |o.symbols| {
      SymbolRoundTrip(o, k);
      WalkFrom(o, k + 1);
      IndexInCount(o, k);
    }
  }

  lemma SymbolsRoundTrip(o: Object)
    requires Good(o)
    ensures ParseSymbols(Serialized(o), InfoOf(o), 0) == AllParsed(o.symbols, 0)
  {
    hide Serialized, Good, ParseSymbols;
    WalkFrom(o, 0);
  }

  /** The symbol a relocation was pushed with. */
  ghost predicate RelocResolves(o: Object, x: Reloc, y: Option<ParsedReloc>)
  {
    && x.symbol < |o.symbols| && y.Some? && y.value.applyOff == x.applyOff && y.value.typ == x.typ
    && ParseSymbol(SerializedOf(o), InfoOf(o), y.value.symbol) == Some(ParsedAs(o.symbols[x.symbol]))
  }

  function SerializedOf(o: Object): seq<Byte> { if Serializable(o) then Serialized(o) else [] }

  /** Every relocation comes back, and its index is that of the very symbol it was pushed with. */
  lemma RelocsResolve(o: Object, i: nat, r: nat)
    requires Good(o) && i < |o.sections| && r < |o.sections[i].relocs|
    ensures
      var p := ParseSection(Serialized(o), InfoOf(o), i);
      && p.Some? && p.value.relocCount == |o.sections[i].relocs|
      && RelocResolves(o, o.sections[i].relocs[r], ParseReloc(Serialized(o), p.value.relocsOff + RELOC_SIZE * r))
  {
    hide Good, Serialized, Serializable, ParseSection, ParseReloc, ParseSymbol, InfoOf, RelocsOffset, Index, ParsedAs;
    GoodIsSerializable(o);
    SectionRoundTrip(o, i);
    RelocReadsBack(o, i, r);
    SymbolRoundTrip(o, o.sections[i].relocs[r].symbol);
  }

  lemma AuxPlaced(o: Object, k: nat)
    requires Serializable(o) && k < |o.symbols| && o.symbols[k].aux != []
    ensures RecordCount(o) <= U32_MAX && SymbolFits(o, o.symbols[k])
    ensures At(Serialized(o), SymbolsOffset(o) + SYMBOL_SIZE * (Index(o.symbols, k) + 1), FirstAux(o, o.symbols[k]))
  {
    hide Serialized, Serializable, At, SymbolsOffset, Index, SymbolFits, FirstAux, Primary;
    PrimaryPlaced(o, k);
    AtPair(Serialized(o), SymbolsOffset(o) + SYMBOL_SIZE * Index(o.symbols, k) + SYMBOL_SIZE, FirstAux(o, o.symbols[k]),
           Repeat(0, SYMBOL_SIZE * (|o.symbols[k].aux| - 1)));
  }

  /** The index written for a weak symbol's default. */
  function TagIndex(o: Object, tag: Option<nat>): nat
    requires tag.Some? ==> tag.value < |o.symbols|
  {
    match tag case Some(t) => Index(o.symbols, t) case None => U32_MAX
  }

  lemma WeakPlaced(o: Object, k: nat)
    requires Serializable(o) && k < |o.symbols| && o.symbols[k].storage == WEAK_EXTERNAL && o.symbols[k].aux != []
    ensures
      var a := o.symbols[k].aux[0];
      && a.Weak? && a.characteristics <= U32_MAX && (a.tag.Some? ==> a.tag.value < |o.symbols|)
         && TagIndex(o, a.tag) <= U32_MAX
      && At(Serialized(o), SymbolsOffset(o) + SYMBOL_SIZE * (Index(o.symbols, k) + 1),
            WeakRecord(TagIndex(o, a.tag), a.characteristics))
  {
    hide Serialized, Serializable, At, SymbolsOffset, Index, WeakRecord;
    AuxPlaced(o, k);
    var tag := o.symbols[k].aux[0].tag;
    if tag.Some? {
      IndexFits(o, tag.value);
    }
  }

  /** A weak symbol's default comes back as the index of the symbol it was set to, or all ones when there is none. */
  lemma WeakResolves(o: Object, k: nat)
    requires Good(o) && k < |o.symbols| && o.symbols[k].storage == WEAK_EXTERNAL && o.symbols[k].aux != []
    ensures o.symbols[k].aux[0].Weak?
    ensures
      var w := ParseWeak(Serialized(o), InfoOf(o), Index(o.symbols, k));
      var tag := o.symbols[k].aux[0].tag;
      && w.Some? && w.value.characteristics == o.symbols[k].aux[0].characteristics
      && (tag.None? ==> w.value.tag == U32_MAX)
      && (tag.Some? ==>
            && tag.value < |o.symbols|
            && ParseSymbol(Serialized(o), InfoOf(o), w.value.tag) == Some(ParsedAs(o.symbols[tag.value])))
  {
    hide Good, Serialized, Serializable, ParseSymbol, InfoOf, Index, ParsedAs, WeakRecord, SymbolsOffset, At, Read32;
    GoodIsSerializable(o);
    WeakPlaced(o, k);
    SomeRecords(o, k);
    var a := o.symbols[k].aux[0];
    WeakReads(Serialized(o), SymbolsOffset(o) + SYMBOL_SIZE * (Index(o.symbols, k) + 1), TagIndex(o, a.tag),
              a.characteristics);
    if a.tag.Some? {
      SymbolRoundTrip(o, a.tag.value);
    }
  }

  lemma GoodIsSerializable(o: Object)
    requires Good(o)
    ensures Serializable(o)
  {
  }

  lemma DefinitionPlaced(o: Object, k: nat)
    requires Serializable(o) && k < |o.symbols| && o.symbols[k].storage == STATIC && o.symbols[k].aux != []
    ensures
      var s := o.symbols[k];
      var a := s.aux[0];
      && s.loc.InSection? && s.loc.section < |o.sections| && a.Definition? && a.selection < 256
      && var sect, number := o.sections[s.loc.section], if a.selection == ASSOCIATIVE then a.associate + 1 else 0;
         && |sect.data| <= U32_MAX && |sect.relocs| <= U16_MAX && number <= U16_MAX
         && At(Serialized(o), SymbolsOffset(o) + SYMBOL_SIZE * (Index(o.symbols, k) + 1),
               DefinitionRecord(|sect.data|, |sect.relocs|, number, a.selection))
  {
    hide Serialized, Serializable, At, SymbolsOffset, Index, DefinitionRecord, SectionFits;
    AuxPlaced(o, k);
    SectionFitsAt(o, o.symbols[k].loc.section);
  }

  /** A section's own symbol comes back with the section's size, its selection, and the associated section's number. */
  lemma DefinitionResolves(o: Object, k: nat)
    requires Good(o) && k < |o.symbols| && o.symbols[k].storage == STATIC && o.symbols[k].aux != []
    ensures o.symbols[k].loc.InSection? && o.symbols[k].loc.section < |o.sections| && o.symbols[k].aux[0].Definition?
    ensures
      var a := o.symbols[k].aux[0];
      ParseDefinition(Serialized(o), InfoOf(o), Index(o.symbols, k))
      == Some(ParsedDefinition(|o.sections[o.symbols[k].loc.section].data|,
                               if a.selection == ASSOCIATIVE then a.associate + 1 else 0, a.selection))
  {
    hide Good, Serialized, Serializable, InfoOf, Index, DefinitionRecord, SymbolsOffset, At, Read32, Read16;
    GoodIsSerializable(o);
    DefinitionPlaced(o, k);
    SomeRecords(o, k);
    var s := o.symbols[k];
    var sect := o.sections[s.loc.section];
    DefinitionReads(Serialized(o), SymbolsOffset(o) + SYMBOL_SIZE * (Index(o.symbols, k) + 1), |sect.data|,
                    |sect.relocs|,
                    if s.aux[0].selection == ASSOCIATIVE then s.aux[0].associate + 1 else 0, s.aux[0].selection);
  }
}
