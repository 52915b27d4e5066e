/** The object writer and parser as they run: sections and symbols pushed one by one, indices assigned in place,
    tables filled by loops, header fields patched once the layout is known. */
module ObjectWriter {
  import opened Basics
  import opened Bytes
  import opened ObjectFile

  lemma NextRecords(o: Object, k: nat)
    requires Serializable(o) && k < |o.symbols|
    ensures RecordCount(o) <= U32_MAX && SymbolNameOffset(o, k) <= U32_MAX && SymbolFits(o, o.symbols[k])
    ensures SymbolTable(o, k + 1) == SymbolTable(o, k) + Records(o, k)
    ensures SymbolStrings(o.symbols, k + 1)
         == SymbolStrings(o.symbols, k) + if |o.symbols[k].name| > SHORT then o.symbols[k].name + [0] else []
  {
    hide Records;
    SizesBounded(o, k);
  }

  lemma NextSection(o: Object, i: nat)
    requires Serializable(o) && i < |o.sections|
    ensures SectionFits(o, o.sections[i])
    ensures SectionTable(o, i + 1) == SectionTable(o, i) + SectionHeaderOf(o, i)
    ensures Body(o, i + 1) == Body(o, i) + o.sections[i].data + RelocTable(o, o.sections[i].relocs)
    ensures SectionStrings(o.sections, i + 1)
         == SectionStrings(o.sections, i) + if |o.sections[i].name| > SHORT then o.sections[i].name + [0] else []
  {
    hide SectionHeaderOf, RelocTable, Serializable;
    FitsAt(o, i);
  }

  lemma FitsAt(o: Object, i: nat)
    requires Serializable(o) && i < |o.sections|
    ensures SectionFits(o, o.sections[i])
  {
  }

  /** A section's name field: the name, or its offset in decimal. */
  function SectionField(name: seq<Byte>, nameOff: nat): (field: seq<Byte>)
    requires |name| > SHORT ==> nameOff < 10000000
    ensures |field| == SHORT
  {
    if |name| > SHORT then
      DecShort(nameOff);
      ShortName([SLASH] + Dec(nameOff))
    else ShortName(name)
  }

  lemma FieldIs(o: Object, i: nat)
    requires i < |o.sections| && (|o.sections[i].name| > SHORT ==> SectionNameOffset(o, i) < 10000000)
    ensures SectionName(o, i) == SectionField(o.sections[i].name, SectionNameOffset(o, i))
  {
    hide Dec, ShortName, SectionNameOffset;
  }

  lemma PlacesAre(o: Object, i: nat, at: nat)
    requires i < |o.sections| && at == HeadersSize(o) + BodySize(o.sections, i)
    ensures DataOffset(o, i) == if o.sections[i].data == [] then 0 else at
    ensures RelocsOffset(o, i) == if o.sections[i].relocs == [] then 0 else at + |o.sections[i].data|
  {
    hide HeadersSize, BodySize;
  }

  lemma NextIndex(ss: seq<Symbol>, k: nat)
    requires k < |ss|
    ensures Index(ss, k + 1) == Index(ss, k) + 1 + |ss[k].aux|
  {
  }

  class ObjWriter {
    var time: nat
    var machine: nat
    var sections: seq<Section>
    var symbols: seq<Symbol>

    constructor (time: nat, machine: nat)
      ensures Obj() == Object(time, machine, [], [])
    {
      this.time, this.machine, sections, symbols := time, machine, [], [];
    }

    function Obj(): Object
      reads this
    {
      Object(time, machine, sections, symbols)
    }

    method PushSection(name: seq<Byte>, flags: nat, data: seq<Byte>) returns (i: nat)
      modifies this`sections
      ensures i == |old(sections)| && sections == old(sections) + [Section(name, flags, data, [])]
    {
      i := |sections|;
      sections := sections + [Section(name, flags, data, [])];
    }

    method PushSymbol(s: Symbol) returns (k: nat)
      modifies this`symbols
      ensures k == |old(symbols)| && symbols == old(symbols) + [s]
    {
      k := |symbols|;
      symbols := symbols + [s];
    }

    /** A weak symbol carries one auxiliary, for the symbol it defaults to. */
    method PushWeak(name: seq<Byte>, characteristics: nat, tag: Option<nat>) returns (k: nat)
      modifies this`symbols
      ensures k == |old(symbols)|
      ensures symbols == old(symbols) + [Symbol(name, 0, Nowhere, 0, WEAK_EXTERNAL, [Weak(tag, characteristics)])]
    {
      k := PushSymbol(Symbol(name, 0, Nowhere, 0, WEAK_EXTERNAL, [Weak(tag, characteristics)]));
    }

    method SetDefault(weak: nat, tag: nat)
      requires weak < |symbols| && symbols[weak].storage == WEAK_EXTERNAL && symbols[weak].aux != []
               && symbols[weak].aux[0].Weak?
      modifies this`symbols
      ensures |symbols| == |old(symbols)| && forall k | 0 <= k < |symbols| && k != weak :: symbols[k] == old(symbols)[k]
      ensures symbols[weak]
              == old(symbols)[weak].(aux := old(symbols)[weak].aux[0 := old(symbols)[weak].aux[0].(tag := Some(tag))])
    {
      var s := symbols[weak];
      symbols := symbols[weak := s.(aux := s.aux[0 := s.aux[0].(tag := Some(tag))])];
    }

    method PushReloc(i: nat, applyOff: nat, symbol: nat, typ: nat)
      requires i < |sections|
      modifies this`sections
      ensures |sections| == |old(sections)|
              && forall j | 0 <= j < |sections| && j != i :: sections[j] == old(sections)[j]
      ensures sections[i] == old(sections)[i].(relocs := old(sections)[i].relocs + [Reloc(applyOff, symbol, typ)])
    {
      sections := sections[i := sections[i].(relocs := sections[i].relocs + [Reloc(applyOff, symbol, typ)])];
    }

    /** Give every symbol the index of its first record. */
    method AssignIndices() returns (indices: array<nat>, count: nat)
      ensures fresh(indices) && indices.Length == |symbols| && count == RecordCount(Obj())
      ensures forall k | 0 <= k < |symbols| :: indices[k] == Index(symbols, k)
    {
      indices := new nat[|symbols|];
      count := 0;
      var k := 0;
      while k < |symbols|
        invariant k <= |symbols| && count == Index(symbols, k)
        invariant forall j | 0 <= j < k :: indices[j] == Index(symbols, j)
      {
        hide Index;
        NextIndex(symbols, k);
        indices[k] := count;
        count := count + 1 + |symbols[k].aux|;
        k := k + 1;
      }
    }

    method EmitSymbols() returns (table: seq<Byte>, strings: seq<Byte>)
      requires Serializable(Obj())
      ensures table == SymbolTable(Obj(), |symbols|) && strings == SymbolStrings(symbols, |symbols|)
    {
      ghost var o := Obj();
      hide SymbolTable, SymbolStrings, Serializable, SymbolRecord, FirstAux, RecordCount, Index;
      EmptyTables(o);
      table, strings := [], [];
      var k := 0;
      while k < |symbols|
        invariant k <= |symbols| && table == SymbolTable(o, k) && strings == SymbolStrings(symbols, k)
      {
        NextRecords(o, k);
        var s := symbols[k];
        var field: seq<Byte>;
        if |s.name| > SHORT {
          field := LE32(0) + LE32(4 + |strings|);
          strings := strings + (s.name + [0]);
        } else {
          field := ShortName(s.name);
          assert strings + [] == strings;
        }
        var records := SymbolRecord(field, s.value, SectionNumber(s.loc), s.typ, s.storage, |s.aux|);
        if s.aux != [] {
          records := records + (FirstAux(Obj(), s) + Repeat(0, SYMBOL_SIZE * (|s.aux| - 1)));
        } else {
          assert records + [] == records;
        }
        assert records == Records(o, k);
        table := table + records;
        k := k + 1;
      }
    }

    method EmitRelocs(relocs: seq<Reloc>, indices: array<nat>) returns (table: seq<Byte>)
      requires Serializable(Obj()) && forall r | 0 <= r < |relocs| :: RelocFits(Obj(), relocs[r])
      requires indices.Length == |symbols| && forall k | 0 <= k < |symbols| :: indices[k] == Index(symbols, k)
      ensures table == RelocTable(Obj(), relocs)
    {
      ghost var o := Obj();
      hide Serializable, Index;
      table := [];
      var r := 0;
      while r < |relocs|
        invariant r <= |relocs| && table == RelocTable(o, relocs[..r])
      {
        assert relocs[..r + 1][..r] == relocs[..r];
        SizesFit(o, relocs[r].symbol);
        table := table + (LE32(relocs[r].applyOff) + (LE32(indices[relocs[r].symbol]) + LE16(relocs[r].typ)));
        r := r + 1;
      }
      assert relocs[..r] == relocs;
    }

    /** One section header, given where the section's bytes go and where its name would go if it is long. */
    method SectionHeaderFor(i: nat, at: nat, nameOff: nat) returns (header: seq<Byte>)
      requires Serializable(Obj()) && i < |sections|
      requires at == HeadersSize(Obj()) + BodySize(sections, i) && nameOff == SectionNameOffset(Obj(), i)
      ensures header == SectionHeaderOf(Obj(), i)
    {
      ghost var o := Obj();
      hide Serializable, BodySize, SectionNameOffset, SectionRecord, HeadersSize, SectionHeaderOf, SectionName,
           DataOffset;
      hide RelocsOffset, SectionField;
      HeaderIs(o, i);
      FieldIs(o, i);
      PlacesAre(o, i, at);
      var s := sections[i];
      var field := NameField(s.name, nameOff);
      var dataOff := if s.data == [] then 0 else at;
      var relocsOff := if s.relocs == [] then 0 else at + |s.data|;
      header := SectionRecord(field, |s.data|, dataOff, relocsOff, |s.relocs|, s.flags);
    }

    static method NameField(name: seq<Byte>, nameOff: nat) returns (field: seq<Byte>)
      requires |name| > SHORT ==> nameOff < 10000000
      ensures |field| == SHORT && field == SectionField(name, nameOff)
    {
      hide Dec;
      if |name| > SHORT {
        DecShort(nameOff);
        field := ShortName([SLASH] + Dec(nameOff));
      } else {
        field := ShortName(name);
      }
    }

    /** Section headers, and behind them data and relocations; long section names follow the symbols' names. */
    method EmitSections(indices: array<nat>, symbolStrings: seq<Byte>)
      returns (table: seq<Byte>, body: seq<Byte>, strings: seq<Byte>)
      requires Serializable(Obj()) && symbolStrings == SymbolStrings(symbols, |symbols|)
      requires indices.Length == |symbols| && forall k | 0 <= k < |symbols| :: indices[k] == Index(symbols, k)
      ensures table == SectionTable(Obj(), |sections|) && body == Body(Obj(), |sections|)
      ensures strings == symbolStrings + SectionStrings(sections, |sections|)
    {
      ghost var o := Obj();
      hide Serializable, SectionTable, Body, BodySize, SectionStrings, SymbolStrings, RelocTable, SectionHeaderOf,
           Index, RelocFits;
      EmptyTables(o);
      table, body, strings := [], [], symbolStrings;
      assert symbolStrings + [] == symbolStrings;
      ghost var own: seq<Byte> := [];
      var i := 0;
      while i < |sections|
        invariant i <= |sections| && table == SectionTable(o, i) && body == Body(o, i)
        invariant own == SectionStrings(sections, i) && strings == symbolStrings + own
      {
        NextSection(o, i);
        NextFits(o, i);
        var s := sections[i];
        var header := SectionHeaderFor(i, FILE_HEADER + SECTION_HEADER * |sections| + |body|, 4 + |strings|);
        if |s.name| > SHORT {
          strings := strings + (s.name + [0]);
          own := own + (s.name + [0]);
        } else {
          assert own + [] == own;
        }
        var relocs := EmitRelocs(s.relocs, indices);
        table := table + header;
        body := body + s.data + relocs;
        i := i + 1;
      }
    }

    method Serialize() returns (raw: seq<Byte>)
      requires Serializable(Obj())
      ensures raw == Serialized(Obj())
    {
      hide Serializable, SectionTable, Body, SectionStrings, SymbolStrings, SymbolTable, BodySize, FileHeader,
           RecordCount, Serialized;
      ghost var o := Obj();
      var indices, count := AssignIndices();
      var symbolTable, symbolStrings := EmitSymbols();
      var sectionTable, body, strings := EmitSections(indices, symbolStrings);
      FileFits(o);
      var symbolsOff := 0;
      if |symbolTable| > 0 || 4 + |strings| > 4 {
        symbolsOff := FILE_HEADER + |sectionTable| + |body|;
      }
      raw := FileHeader(machine, |sections|, time, symbolsOff, count)
             + (sectionTable + (body + (symbolTable + (LE32(4 + |strings|) + strings))));
      Assembled(o);
    }
  }

  lemma Assembled(o: Object)
    requires Serializable(o)
    ensures SymbolsField(o) <= U32_MAX && 4 + |Strings(o)| <= U32_MAX
    ensures Serialized(o)
         == FileHeader(o.machine, |o.sections|, o.time, SymbolsField(o), RecordCount(o))
          + (SectionTable(o, |o.sections|)
             + (Body(o, |o.sections|) + (SymbolTable(o, |o.symbols|) + (LE32(4 + |Strings(o)|) + Strings(o)))))
  {
    FileFits(o);
    hide Serializable, FileHeader, SectionTable, Body, SymbolTable, LE32, Strings, SymbolsField, RecordCount;
  }

  lemma EmptyTables(o: Object)
    requires Serializable(o)
    ensures SymbolTable(o, 0) == [] && SymbolStrings(o.symbols, 0) == []
    ensures SectionTable(o, 0) == [] && Body(o, 0) == [] && SectionStrings(o.sections, 0) == []
  {
  }

  lemma SizesFit(o: Object, k: nat)
    requires Serializable(o) && k < |o.symbols|
    ensures Index(o.symbols, k) <= U32_MAX
  {
    SizesBounded(o, k);
    IndexInCount(o, k);
  }

  lemma NextFits(o: Object, i: nat)
    requires Serializable(o) && i < |o.sections|
    ensures |o.sections[i].name| > SHORT ==> SectionNameOffset(o, i) < 10000000
    ensures DataOffset(o, i) <= U32_MAX && RelocsOffset(o, i) <= U32_MAX
    ensures |Body(o, i)| == BodySize(o.sections, i)
  {
    OffsetsFit(o, i);
  }

  lemma FileFits(o: Object)
    requires Serializable(o)
    ensures o.machine <= U16_MAX && |o.sections| <= U16_MAX && o.time <= U32_MAX && SymbolsField(o) <= U32_MAX
    ensures RecordCount(o) <= U32_MAX && 4 + |Strings(o)| <= U32_MAX
    ensures |SymbolTable(o, |o.symbols|)| > 0 <==> RecordCount(o) > 0
    ensures |Body(o, |o.sections|)| == BodySize(o.sections, |o.sections|)
    ensures |SectionTable(o, |o.sections|)| == SECTION_HEADER * |o.sections|
  {
  }

  /** Walk the symbol table. */
  method Symbols(raw: seq<Byte>, info: Info) returns (ps: seq<ParsedSymbol>)
    ensures ps == ParseSymbols(raw, info, 0)
  {
    hide ParseSymbol;
    ps := [];
    var index := 0;
    while index < info.symbols && ParseSymbol(raw, info, index).Some?
      invariant ps + ParseSymbols(raw, info, index) == ParseSymbols(raw, info, 0)
      decreases info.symbols - index
    {
      var p := ParseSymbol(raw, info, index).value;
      assert ps + ([p] + ParseSymbols(raw, info, index + 1 + p.aux))
        == ps + [p] + ParseSymbols(raw, info, index + 1 + p.aux);
      ps := ps + [p];
      index := index + 1 + p.aux;
    }
  }
}
