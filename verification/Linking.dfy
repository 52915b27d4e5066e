/** Objects in an archive: which symbols of an object the archive lists, and that every one of them leads back to it. */
module Linking {
  import opened Basics
  import opened Archive
  import opened ArchiveProofs
  import O = ObjectFile
  import P = ObjectProofs

  // ---- what the writer takes from an object ----

  datatype Interp = Undefined | Common | Absolute | Debug | Weak | Regular

  const EXTERNAL: nat := 0x02
  const SECTION_SYMBOL: nat := 0x68

  function InterpOf(p: O.ParsedSymbol): Interp {
    if p.storage == SECTION_SYMBOL && p.number == 0 then Undefined
    else if p.storage == EXTERNAL && p.value == 0 && p.number == 0 then Undefined
    else if p.storage == EXTERNAL && p.value != 0 && p.number == 0 then Common
    else if p.number == 0xFFFF_FFFF then Absolute
    else if p.number == 0xFFFF_FFFE then Debug
    else if p.storage == O.WEAK_EXTERNAL then Weak
    else Regular
  }

  predicate Exported(p: O.ParsedSymbol) {
    p.storage == EXTERNAL && (InterpOf(p).Regular? || InterpOf(p).Common? || InterpOf(p).Absolute?)
  }

  function ExportNames(ps: seq<O.ParsedSymbol>): seq<seq<Byte>> {
    if ps == [] then [] else (if Exported(ps[0]) then [ps[0].name] else []) + ExportNames(ps[1..])
  }

  /** The names an archive lists for a member: none if it is not an object. */
  function Exports(data: seq<Byte>): seq<seq<Byte>> {
    match O.ParseInfo(data)
    case Some(info) => ExportNames(O.ParseSymbols(data, info, 0))
    case None => []
  }

  function SymbolsFor(names: seq<seq<Byte>>, member: nat): (s: seq<Symbol>)
    ensures |s| == |names| && forall k | 0 <= k < |s| :: s[k] == Symbol(names[k], member)
  {
    seq(|names|, k requires 0 <= k < |names| => Symbol(names[k], member))
  }

  /** An object pushed behind what there is. */
  function PushedObj(lib: Library, path: seq<Byte>, data: seq<Byte>): Library {
    Library(lib.members + [Member(path, data)], lib.symbols + SymbolsFor(Exports(data), |lib.members|))
  }

  // ---- what that is for an object that was written ----

  /** External symbols in a section, absolute, or common, which is to have a size and no section. */
  predicate Defines(s: O.Symbol) { s.storage == EXTERNAL && (s.loc.InSection? || s.loc.Absolute? || s.value != 0) }

  function DefinedNames(ss: seq<O.Symbol>, k: nat): seq<seq<Byte>>
    requires k <= |ss|
    decreases |ss| - k
  {
    if k == |ss| then [] else (if Defines(ss[k]) then [ss[k].name] else []) + DefinedNames(ss, k + 1)
  }

  lemma ExportedAs(o: O.Object, k: nat)
    requires P.Good(o) && k < |o.symbols|
    ensures Exported(P.ParsedAs(o.symbols[k])) <==> Defines(o.symbols[k])
  {
    var s := o.symbols[k];
    O.SymbolFitsAt(o, k);
    assert s.loc.InSection? ==> s.loc.section < |o.sections|;
    hide O.Serializable, O.SymbolNameOffset, O.RecordCount, O.AuxFits, P.SectionGood;
  }

  lemma {:induction false} NamesFrom(o: O.Object, k: nat)
    requires P.Good(o) && k <= |o.symbols|
    ensures ExportNames(P.AllParsed(o.symbols, k)) == DefinedNames(o.symbols, k)
    decreases |o.symbols| - k
  {
    hide P.Good, Exported, Defines, P.ParsedAs;
    if k < |o.symbols| {
      ExportedAs(o, k);
      NamesFrom(o, k + 1);
      NameAs(o.symbols[k]);
      assert P.AllParsed(o.symbols, k)[1..] == P.AllParsed(o.symbols, k + 1);
    }
  }

  lemma NameAs(s: O.Symbol)
    ensures P.ParsedAs(s).name == s.name
  {
  }

  /** From a written object the archive takes exactly the names its external symbols define, in order. */
  lemma ExportsOf(o: O.Object)
    requires P.Good(o)
    ensures Exports(P.SerializedOf(o)) == DefinedNames(o.symbols, 0)
  {
    hide P.Good, ExportNames, DefinedNames, O.ParseSymbols, O.ParseInfo, O.Serialized, P.AllParsed;
    P.GoodIsSerializable(o);
    P.Accepted(o);
    P.SymbolsRoundTrip(o);
    NamesFrom(o, 0);
  }

  lemma {:induction false} DefinedIn(ss: seq<O.Symbol>, k: nat, name: seq<Byte>)
    requires k <= |ss|
    ensures name in DefinedNames(ss, k) <==> exists x | k <= x < |ss| :: Defines(ss[x]) && ss[x].name == name
    decreases |ss| - k
  {
    hide Defines;
    if k < |ss| {
      DefinedIn(ss, k + 1, name);
    }
  }

  // ---- a library of objects ----

  datatype Input = Input(path: seq<Byte>, obj: O.Object)

  /** The first `n` objects pushed in order. */
  function LibraryOf(inputs: seq<Input>, n: nat): Library
    requires n <= |inputs|
  {
    if n == 0 then Library([], [])
    else PushedObj(LibraryOf(inputs, n - 1), inputs[n - 1].path, P.SerializedOf(inputs[n - 1].obj))
  }

  lemma {:induction false} MembersAre(inputs: seq<Input>, n: nat, i: nat)
    requires i < n <= |inputs|
    ensures |LibraryOf(inputs, n).members| == n
    ensures LibraryOf(inputs, n).members[i] == Member(inputs[i].path, P.SerializedOf(inputs[i].obj))
  {
    hide Exports, P.SerializedOf;
    if i < n - 1 {
      MembersAre(inputs, n - 1, i);
    } else {
      MemberCount(inputs, n - 1);
    }
  }

  lemma {:induction false} MemberCount(inputs: seq<Input>, n: nat)
    requires n <= |inputs|
    ensures |LibraryOf(inputs, n).members| == n
  {
    hide Exports, P.SerializedOf;
    if n > 0 {
      MemberCount(inputs, n - 1);
    }
  }

  predicate IsDefined(inputs: seq<Input>, i: nat, name: seq<Byte>) {
    i < |inputs| && exists x | 0 <= x < |inputs[i].obj.symbols| ::
      Defines(inputs[i].obj.symbols[x]) && inputs[i].obj.symbols[x].name == name
  }

  /** The library lists a name for a member exactly when the member's object defines it. */
  lemma {:induction false} SymbolsAre(inputs: seq<Input>, n: nat, s: Symbol)
    requires n <= |inputs| && forall i | 0 <= i < n :: P.Good(inputs[i].obj)
    ensures s in LibraryOf(inputs, n).symbols <==> s.member < n && IsDefined(inputs, s.member, s.name)
    decreases n
  {
    hide Exports, P.SerializedOf, P.Good;
    if n > 0 {
      SymbolsAre(inputs, n - 1, s);
      MemberCount(inputs, n - 1);
      var o := inputs[n - 1].obj;
      ExportsOf(o);
      DefinedIn(o.symbols, 0, s.name);
      var added := SymbolsFor(Exports(P.SerializedOf(o)), n - 1);
      SymbolsOf(Exports(P.SerializedOf(o)), n - 1, s);
      assert LibraryOf(inputs, n).symbols == LibraryOf(inputs, n - 1).symbols + added;
    }
  }

  lemma SymbolsOf(names: seq<seq<Byte>>, member: nat, s: Symbol)
    ensures s in SymbolsFor(names, member) <==> s.member == member && s.name in names
  {
    if s.member == member && s.name in names {
      var k :| 0 <= k < |names| && names[k] == s.name;
      assert SymbolsFor(names, member)[k] == s;
    }
  }

  /** The member behind an offset holds the bytes of an object, and that object defines the name. */
  ghost predicate LeadsTo(raw: seq<Byte>, off: Option<nat>, inputs: seq<Input>, i: nat, name: seq<Byte>) {
    && IsDefined(inputs, i, name) && off.Some? && IterNext(raw, off.value).Some?
    && IterNext(raw, off.value).value.0.data == P.SerializedOf(inputs[i].obj)
  }

  lemma InLibrary(lib: Library, byMember: seq<Symbol>, k: nat)
    requires IsSorting(byMember, lib.symbols) && k < |byMember|
    ensures byMember[k] in lib.symbols
  {
    assert byMember[k] in multiset(byMember);
  }

  /** From names to objects: in an archive of written objects, each entry of the first linker member names a symbol that
      some object defines, and gives the offset of a member whose data is that very object, byte for byte. */
  lemma {:induction false} EntriesLead(inputs: seq<Input>, st: Stamp, emitSecond: bool, byMember: seq<Symbol>,
                                       byName: seq<Symbol>, k: nat)
    requires forall i | 0 <= i < |inputs| :: P.Good(inputs[i].obj)
    requires Ready(LibraryOf(inputs, |inputs|), st, emitSecond, byMember, byName) && NamesOk(byMember) && k < |byMember|
    ensures
      var lib := LibraryOf(inputs, |inputs|);
      var raw := Serialized(lib, st, emitSecond, byMember, byName);
      var table := ParseFirst(FirstData(lib, st, emitSecond, byMember));
      LeadsTo(raw, FirstLookup(table, k), inputs, byMember[k].member, NthString(table.strings, k))
  {
    var lib := LibraryOf(inputs, |inputs|);
    hide LibraryOf, P.Good, Fits, MembersOk, Serialized, ParseFirst, FirstData, IterNext, IsMember, NthString,
         IsDefined;
    ReadyHas(lib, st, emitSecond, byMember, byName);
    FirstLinkerResolves(lib, st, emitSecond, byMember, byName, k);
    InLibrary(lib, byMember, k);
    SymbolsAre(inputs, |inputs|, byMember[k]);
    MembersAre(inputs, |inputs|, byMember[k].member);
    DataOf(IterNext(Serialized(lib, st, emitSecond, byMember, byName),
                    FirstLookup(ParseFirst(FirstData(lib, st, emitSecond, byMember)), k).value).value.0,
           lib, st, emitSecond, byMember[k].member);
  }

  lemma DataOf(p: Parsed, lib: Library, st: Stamp, emitSecond: bool, i: nat)
    requires i < |lib.members| && IsMember(p, lib, st, emitSecond, i)
    ensures p.data == lib.members[i].data
  {
  }

  /** And from objects to names: every name an object defines has an entry for it. */
  lemma DefinitionsHaveEntries(inputs: seq<Input>, byMember: seq<Symbol>, i: nat, name: seq<Byte>) returns (k: nat)
    requires forall i | 0 <= i < |inputs| :: P.Good(inputs[i].obj)
    requires IsSorting(byMember, LibraryOf(inputs, |inputs|).symbols) && IsDefined(inputs, i, name)
    ensures k < |byMember| && byMember[k] == Symbol(name, i)
  {
    hide LibraryOf, P.Good;
    var s := Symbol(name, i);
    SymbolsAre(inputs, |inputs|, s);
    assert s in multiset(byMember);
    k :| k < |byMember| && byMember[k] == s;
  }
}
