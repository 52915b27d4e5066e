/** The archive writer and parser as they run: lists that grow, tables filled by loops, a cursor that moves. */
module ArchiveWriter {
  import opened Basics
  import opened Bytes
  import opened Archive
  import opened Linking
  import O = ObjectFile

  lemma StartEmpty(ms: seq<Member>, st: Stamp)
    ensures MemberData(ms, st, 0) == [] && LongNames(ms, 0) == ([], map[])
  {
  }

  /** What laying out one more member adds. */
  lemma NextMember(ms: seq<Member>, st: Stamp, i: nat)
    requires i < |ms|
    ensures
      var (long, seen) := LongNames(ms, i);
      var m := ms[i];
      var isLong := |m.name| + 1 > MAX_SHORT;
      && LongNames(ms, i + 1) == (if isLong && m.name !in seen
                                  then (long + m.name + [SLASH, NEWLINE], seen[m.name := |long|]) else (long, seen))
      && NameField(ms, i) == (if !isLong then m.name + [SLASH]
                              else [SLASH] + Dec(if m.name in seen then seen[m.name] else |long|))
      && var header := Header(NameField(ms, i), st.time, st.mode, |m.data|);
         MemberData(ms, st, i + 1)
         == MemberData(ms, st, i) + header + m.data + PadOf(|MemberData(ms, st, i)| + |header| + |m.data|)
  {
    hide Header, Dec, PadOf;
  }

  /** One round of the walk over an object's symbols. */
  lemma NextExport(data: seq<Byte>, info: O.Info, at: nat, p: O.ParsedSymbol, names: seq<seq<Byte>>)
    requires at < info.symbols && O.ParseSymbol(data, info, at) == Some(p)
    ensures
      var rest := ExportNames(O.ParseSymbols(data, info, at + 1 + p.aux));
      names + ExportNames(O.ParseSymbols(data, info, at)) == (if Exported(p) then names + [p.name] else names) + rest
  {
    hide O.ParseSymbol, Exported;
    assert O.ParseSymbols(data, info, at)[1..] == O.ParseSymbols(data, info, at + 1 + p.aux);
  }

  class LibWriter {
    var members: seq<Member>
    var symbols: seq<Symbol>

    constructor ()
      ensures members == [] && symbols == []
    {
      members, symbols := [], [];
    }

    function Lib(): Library
      reads this
    {
      Library(members, symbols)
    }

    /** Push a member; if it is an object, list the names it exports. */
    method PushObj(path: seq<Byte>, data: seq<Byte>) returns (index: nat)
      requires InRange(Lib(), symbols)
      modifies this
      ensures index == |old(members)| && Lib() == PushedObj(old(Lib()), path, data) && InRange(Lib(), symbols)
    {
      hide O.ParseInfo, O.ParseSymbol, Exported;
      index := |members|;
      members := members + [Member(path, data)];
      var header := O.ParseInfo(data);
      ghost var names: seq<seq<Byte>> := [];
      if header.Some? {
        var info := header.value;
        var at := 0;
        while at < info.symbols && O.ParseSymbol(data, info, at).Some?
          invariant names + ExportNames(O.ParseSymbols(data, info, at)) == Exports(data)
          invariant members == old(members) + [Member(path, data)] && symbols == old(symbols) + SymbolsFor(names, index)
          decreases info.symbols - at
        {
          var p := O.ParseSymbol(data, info, at).value;
          NextExport(data, info, at, p, names);
          if Exported(p) {
            symbols := symbols + [Symbol(p.name, index)];
            names := names + [p.name];
          }
          at := at + 1 + p.aux;
        }
      }
      assert names + [] == names;
    }

    /** Lay the members out one after the other, collecting long names and noting where each begins. */
    method LayOutMembers(st: Stamp) returns (data: seq<Byte>, offsets: array<nat>, long: seq<Byte>)
      ensures fresh(offsets) && offsets.Length == |members|
      ensures data == MemberData(members, st, |members|) && long == LongText(Lib())
      ensures forall i | 0 <= i < |members| :: offsets[i] == |MemberData(members, st, i)|
    {
      hide MemberData, LongNames, NameField, Header, PadOf;
      StartEmpty(members, st);
      data, long := [], [];
      offsets := new nat[|members|];
      var seen: map<seq<Byte>, nat> := map[];
      var i := 0;
      while i < |members|
        invariant i <= |members| && data == MemberData(members, st, i)
        invariant (long, seen) == LongNames(members, i)
        invariant forall j | 0 <= j < i :: offsets[j] == |MemberData(members, st, j)|
      {
        NextMember(members, st, i);
        var m := members[i];
        var name: seq<Byte>;
        if |m.name| + 1 > MAX_SHORT {
          if m.name in seen {
            name := [SLASH] + Dec(seen[m.name]);
          } else {
            name := [SLASH] + Dec(|long|);
            seen := seen[m.name := |long|];
            long := long + m.name + [SLASH, NEWLINE];
          }
        } else {
          name := m.name + [SLASH];
        }
        offsets[i] := |data|;
        var header := Header(name, st.time, st.mode, |m.data|);
        data := data + header + m.data + PadOf(|data| + |header| + |m.data|);
        i := i + 1;
      }
    }

    static method NameTable(sorted: seq<Symbol>) returns (names: seq<Byte>)
      ensures names == NameBuffer(sorted)
    {
      names := [];
      var k := 0;
      while k < |sorted|
        invariant k <= |sorted| && names + NameBuffer(sorted[k..]) == NameBuffer(sorted)
      {
        assert sorted[k..][1..] == sorted[k + 1..];
        assert names + (sorted[k].name + [0] + NameBuffer(sorted[k + 1..]))
          == names + sorted[k].name + [0] + NameBuffer(sorted[k + 1..]);
        names := names + sorted[k].name + [0];
        k := k + 1;
      }
    }

    /** The first linker member's data: big-endian offsets in the order of the symbols' members. */
    method FirstLinker(st: Stamp, emitSecond: bool, offsets: array<nat>, base: nat, sorted: seq<Symbol>)
      returns (data: seq<Byte>)
      requires Fits(Lib(), st, emitSecond, sorted) && offsets.Length == |members|
      requires forall i | 0 <= i < |members| :: base + offsets[i] == MemberOffset(Lib(), st, emitSecond, i)
      ensures data == FirstData(Lib(), st, emitSecond, sorted)
    {
      hide MemberOffset, BE32, NameBuffer;
      var table: seq<Byte> := [];
      ghost var all := SymbolOffsets(Lib(), st, emitSecond, sorted);
      var k := 0;
      while k < |sorted|
        invariant k <= |sorted| && table == WordsBE(all[..k])
      {
        assert all[..k + 1][..k] == all[..k] && all[k] == base + offsets[sorted[k].member];
        table := table + BE32(base + offsets[sorted[k].member]);
        k := k + 1;
      }
      assert all[..k] == all;
      var names := NameTable(sorted);
      data := BE32(|sorted|) + table + names;
    }

    /** The second linker member's data: all member offsets, and a member number for each symbol by name. */
    method SecondLinker(st: Stamp, offsets: array<nat>, base: nat, sorted: seq<Symbol>) returns (data: seq<Byte>)
      requires Fits(Lib(), st, true, sorted) && offsets.Length == |members|
      requires forall i | 0 <= i < |members| :: base + offsets[i] == MemberOffset(Lib(), st, true, i)
      ensures data == SecondData(Lib(), st, sorted)
    {
      hide MemberOffset, LE32, LE16, NameBuffer;
      var table: seq<Byte> := [];
      ghost var all := MemberOffsets(Lib(), st, true);
      var i := 0;
      while i < |members|
        invariant i <= |members| && table == Words(all[..i])
      {
        assert all[..i + 1][..i] == all[..i] && all[i] == base + offsets[i];
        table := table + LE32(base + offsets[i]);
        i := i + 1;
      }
      assert all[..i] == all;
      var numbers: seq<Byte> := [];
      ghost var places := MemberNumbers(sorted);
      var k := 0;
      while k < |sorted|
        invariant k <= |sorted| && numbers == Halves(places[..k])
      {
        assert places[..k + 1][..k] == places[..k] && places[k] == sorted[k].member + 1;
        numbers := numbers + LE16(sorted[k].member + 1);
        k := k + 1;
      }
      assert places[..k] == places;
      var names := NameTable(sorted);
      data := LE32(|members|) + table + LE32(|sorted|) + numbers + names;
    }

    /** The archive, its parts pushed in front of one another; `byMember` and `byName` are the sorted symbols. */
    method Serialize(st: Stamp, emitSecond: bool, byMember: seq<Symbol>, byName: seq<Symbol>) returns (raw: seq<Byte>)
      requires Fits(Lib(), st, emitSecond, byMember) && Fits(Lib(), st, emitSecond, byName)
      ensures raw == Serialized(Lib(), st, emitSecond, byMember, byName)
    {
      hide MemberData, LongText, FirstData, SecondData, InFront, NameBuffer, Fits;
      var data, offsets, long := LayOutMembers(st);
      if long != [] {
        data := InFront([SLASH, SLASH], long, st, |data|) + data;
      }
      assert data == Long(Lib(), st) + MemberData(members, st, |members|);
      var names := NameTable(symbols);
      var base := BaseOffset(|members|, |symbols|, |names|, |long|, emitSecond);
      var front := [];
      if emitSecond {
        var second := SecondLinker(st, offsets, base, byName);
        front := InFront([SLASH], second, st, |data|);
      }
      var first := FirstLinker(st, emitSecond, offsets, base, byMember);
      raw := SIG + InFront([SLASH], first, st, 8) + front + data;
    }
  }

  /** Walk an archive member by member. */
  method Members(raw: seq<Byte>) returns (ps: seq<Parsed>)
    ensures ps == IterAll(raw, IterInit(raw))
  {
    hide IterNext, IterInit;
    ps := [];
    var offset := IterInit(raw);
    ghost var start := offset;
    var more := true;
    while more
      invariant more ==> ps + IterAll(raw, offset) == IterAll(raw, start)
      invariant !more ==> ps == IterAll(raw, start)
      decreases more, |raw| - offset
    {
      match IterNext(raw, offset) {
        case None => more := false;
        case Some(p) =>
          IterMoves(raw, offset);
          ps := ps + [p.0];
          offset := p.1;
      }
    }
  }

  lemma IterMoves(raw: seq<Byte>, off: nat)
    requires IterNext(raw, off).Some?
    ensures off < IterNext(raw, off).value.1 && off < |raw|
  {
  }
}
