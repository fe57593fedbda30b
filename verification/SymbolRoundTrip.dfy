/** Writing functions into a symbol table and a string table, and listing them again. */
module SymbolRoundTrip {
  import opened ElfCodec
  import opened ElfFile
  import opened ElfFunctions
  import opened Options
  import F = FunctionBytes
  import ST = StringTable
  import RT = ElfRoundTrip

  /** A symbol to be written: its name up to the first '(', what follows that '(' if there is one, its
      value, and the two halves of its info byte. */
  datatype Symbol = Symbol(plain: string, parameters: Option<string>, value: nat, binding: nat, kind: nat) {
    function Name(): string {
      match parameters
      case None => plain
      case Some(rest) => plain + "(" + rest
    }
  }

  function Names(fs: seq<Symbol>): (names: seq<string>)
    ensures |names| == |fs| && forall i | 0 <= i < |fs| :: names[i] == fs[i].Name()
  {
    seq(|fs|, i requires 0 <= i < |fs| => fs[i].Name())
  }

  /** The tables hold the symbols: names without NUL, 64-bit values, 32-bit offsets, four bits each for
      binding and type. */
  predicate Storable(fs: seq<Symbol>) {
    && (forall n | n in Names(fs) :: ST.Storable(n))
    && (forall i | 0 <= i < |fs| :: fs[i].value < Pow256(8) && ST.Start(Names(fs), i) < Pow256(4))
    && (forall i | 0 <= i < |fs| :: '(' !in fs[i].plain && fs[i].binding < 16 && fs[i].kind < 16)
    && SYM_SIZE * |fs| < UINT_LIMIT
  }

  function Entry(fs: seq<Symbol>, i: nat): Sym
    requires i < |fs|
  {
    Sym(ST.Start(Names(fs), i), 16 * fs[i].binding + fs[i].kind, 0, 0, fs[i].value, 0)
  }

  /** The first `n` symbols as bytes. */
  function SymbolBytes(fs: seq<Symbol>, n: nat): (b: seq<Octet>)
    requires n <= |fs|
    ensures |b| == SYM_SIZE * n
  {
    RecordSizes();
    if n == 0 then [] else SymbolBytes(fs, n - 1) + Entry(fs, n - 1).Encode()
  }

  const NO_SECTION := Shdr(0, 0, 0, 0, 0, 0, 0, 0, 0, 0)

  /** The header, and where the symbol table and its string table go. */
  datatype Plan = Plan(header: Ehdr, symbolsAt: nat, stringsAt: nat)

  /** A null section, a symbol table (type 2) and its string table. */
  function Build(plan: Plan, fs: seq<Symbol>): Contents
    requires Storable(fs)
  {
    var strings := ST.Table(Names(fs));
    Contents(plan.header, [],
             [NO_SECTION,
              NO_SECTION.(kind := 2, offset := plan.symbolsAt, size := SYM_SIZE * |fs|, link := 2, entsize := SYM_SIZE),
              NO_SECTION.(kind := 3, offset := plan.stringsAt, size := |strings|)],
             [[], SymbolBytes(fs, |fs|), strings])
  }

  /** What the list of functions should be: the symbols of type 2, whatever their binding, that have a name,
      in order, each with its value and its name up to '('. */
  function Expected(fs: seq<Symbol>): seq<(nat, string)> {
    if fs == [] then []
    else
      var f := fs[|fs| - 1];
      Expected(fs[..|fs| - 1]) + if f.kind == 2 && f.Name() != "" then [(f.value, f.plain)] else []
  }

  lemma SymbolSize(s: Sym)
    ensures |s.Encode()| == SYM_SIZE
  {
    RecordSizes();
  }

  lemma {:induction false} SymbolBytesAt(fs: seq<Symbol>, n: nat, i: nat)
    requires i < n <= |fs|
    ensures SymbolBytes(fs, n)[SYM_SIZE * i..SYM_SIZE * i + SYM_SIZE] == Entry(fs, i).Encode()
    decreases n
  {
    hide Entry, Sym.Encode, Total;
    var front, last := SymbolBytes(fs, n - 1), Entry(fs, n - 1).Encode();
    SymbolSize(Entry(fs, n - 1));
    if i < n - 1 {
      SymbolBytesAt(fs, n - 1, i);
    }
    assert (front + last)[SYM_SIZE * i..SYM_SIZE * i + SYM_SIZE]
        == if i < n - 1 then front[SYM_SIZE * i..SYM_SIZE * i + SYM_SIZE] else last;
  }

  lemma SymbolFits(fs: seq<Symbol>, i: nat)
    requires Storable(fs) && i < |fs|
    ensures Entry(fs, i).WellFormed()
  {
    var s := Entry(fs, i);
    assert Pow256(1) == 256 && Pow256(2) == 65536;
    forall k | 0 <= k < |SYM|
      ensures s.Values()[k] < Pow256(SYM[k])
    {
    }
  }

  lemma BuiltIsReadable(plan: Plan, fs: seq<Symbol>)
    requires Storable(fs)
    ensures Readable(Build(plan, fs))
    ensures SymbolCount(Build(plan, fs).sectionHeaders[1]) == |fs|
    ensures forall p :: IsSymbol(Build(plan, fs), p) <==> p.section == 1 && p.index < |fs|
  {
    hide ST.Table, SymbolBytes, Storable;
    OneTable(Build(plan, fs));
    FewSymbols(fs);
    CountOfSize(|fs|);
  }

  lemma FewSymbols(fs: seq<Symbol>)
    requires Storable(fs)
    ensures SYM_SIZE * |fs| < UINT_LIMIT
  {
  }

  lemma CountOfSize(n: nat)
    requires SYM_SIZE * n < UINT_LIMIT
    ensures SYM_SIZE * n % UINT_LIMIT / SYM_SIZE % UINT_LIMIT == n
  {
    assert SYM_SIZE * n / SYM_SIZE == n;
  }

  lemma OneTable(c: Contents)
    requires |c.sectionHeaders| == 3 && c.sectionHeaders[1].kind == SHT_SYMTAB
    requires c.sectionHeaders[0].kind != SHT_SYMTAB && c.sectionHeaders[2].kind != SHT_SYMTAB
    ensures forall e :: IsSymbolTable(c, e) <==> e == 1
    ensures IndexesByType(c.sectionHeaders, SHT_SYMTAB) == [1]
  {
    var hs := c.sectionHeaders;
    assert hs[..2][..1] == hs[..1] && hs[..1][..0] == [];
    assert IndexesByType(hs[..1], SHT_SYMTAB) == [];
    assert IndexesByType(hs[..2], SHT_SYMTAB) == [1];
  }

  lemma BuiltSymbol(plan: Plan, fs: seq<Symbol>, i: nat)
    requires Storable(fs) && i < |fs|
    ensures Readable(Build(plan, fs)) && IsSymbol(Build(plan, fs), Position(1, i))
    ensures SymbolAt(Build(plan, fs), Position(1, i)) == Entry(fs, i)
  {
    BuiltIsReadable(plan, fs);
    BuiltSlice(plan, fs, i);
    DecodedSymbol(fs, i);
  }

  /** The bytes read for symbol `i` are the ones written for it. */
  lemma BuiltSlice(plan: Plan, fs: seq<Symbol>, i: nat)
    requires Storable(fs) && i < |fs|
    requires Readable(Build(plan, fs)) && IsSymbol(Build(plan, fs), Position(1, i))
    ensures var c := Build(plan, fs);
      var offset := SymbolOffset(c.sectionHeaders[1], i);
      && offset + SYM_SIZE <= |c.sectionsData[1]|
      && c.sectionsData[1][offset..offset + SYM_SIZE] == Entry(fs, i).Encode()
  {
    hide Readable, IsSymbol, Storable, Entry, Sym.Encode, ST.Table, SymbolBytes;
    SymbolsAreInBounds(Build(plan, fs), Position(1, i));
    SymbolBytesAt(fs, |fs|, i);
  }

  lemma DecodedSymbol(fs: seq<Symbol>, i: nat)
    requires Storable(fs) && i < |fs|
    ensures |Entry(fs, i).Encode()| == SYM_SIZE && DecodeSym(Entry(fs, i).Encode()) == Entry(fs, i)
  {
    hide Storable, Entry, Sym.Encode, Sym.WellFormed, DecodeSym;
    SymbolFits(fs, i);
    SymRoundTrip(Entry(fs, i));
  }

  lemma BuiltIsNamed(plan: Plan, fs: seq<Symbol>)
    requires Storable(fs)
    ensures Readable(Build(plan, fs)) && Named(Build(plan, fs))
  {
    hide Storable, Build, SymbolAt, IsFunction, NameDefined, Readable, SymbolCount;
    var c := Build(plan, fs);
    BuiltIsReadable(plan, fs);
    forall p | IsSymbol(c, p) && IsFunction(c, p)
      ensures NameDefined(c, c.sectionHeaders[p.section].link, SymbolAt(c, p).name)
    {
      BuiltNameDefined(plan, fs, p.index);
    }
  }

  lemma BuiltNameDefined(plan: Plan, fs: seq<Symbol>, i: nat)
    requires Storable(fs) && i < |fs|
    requires Readable(Build(plan, fs)) && IsSymbol(Build(plan, fs), Position(1, i))
    ensures var c := Build(plan, fs);
      NameDefined(c, c.sectionHeaders[1].link, SymbolAt(c, Position(1, i)).name)
  {
    hide Readable, IsSymbol, SymbolAt, ST.Table, Terminated, ST.Storable, ST.Start, SymbolBytes;
    BuiltSymbol(plan, fs, i);
    ST.LookupGivesSuffix(Names(fs), i, 0);
  }

  lemma BuiltListed(plan: Plan, fs: seq<Symbol>, i: nat)
    requires Storable(fs) && i < |fs|
    requires Readable(Build(plan, fs)) && Named(Build(plan, fs)) && IsSymbol(Build(plan, fs), Position(1, i))
    ensures Listed(Build(plan, fs), Position(1, i))
         == if fs[i].kind == 2 && fs[i].Name() != "" then [(fs[i].value, fs[i].plain)] else []
  {
    hide Readable, Named, IsSymbol, SymbolAt, Storable, Build, Cut, SymbolName, Symbol.Name;
    BuiltSymbol(plan, fs, i);
    BuiltName(plan, fs, i);
    PlainPart(fs, i);
  }

  lemma PlainPart(fs: seq<Symbol>, i: nat)
    requires Storable(fs) && i < |fs|
    ensures Cut(fs[i].Name()) == fs[i].plain
    ensures (16 * fs[i].binding + fs[i].kind) % 16 == fs[i].kind
  {
    hide Cut, Symbol.Name, ST.Storable, ST.Start, Pow256;
    NameIsCut(fs[i]);
    LowFourBits(fs[i].binding, fs[i].kind);
  }

  lemma NameIsCut(f: Symbol)
    requires '(' !in f.plain
    ensures Cut(f.Name()) == f.plain
  {
    F.CutsAtParenthesis(f.plain, if f.parameters.Some? then f.parameters.value else "");
  }

  lemma LowFourBits(high: nat, low: nat)
    requires low < 16
    ensures (16 * high + low) % 16 == low
  {
  }

  lemma BuiltName(plan: Plan, fs: seq<Symbol>, i: nat)
    requires Storable(fs) && i < |fs|
    requires Readable(Build(plan, fs)) && Named(Build(plan, fs)) && IsSymbol(Build(plan, fs), Position(1, i))
    ensures IsFunction(Build(plan, fs), Position(1, i)) ==>
      SymbolName(Build(plan, fs), Position(1, i)) == fs[i].Name()
  {
    hide Readable, Named, IsSymbol, SymbolAt, ST.Table, Symbol.Name, ST.Storable, ST.Start, SymbolBytes, Terminated;
    BuiltSymbol(plan, fs, i);
    ST.LookupGivesSuffix(Names(fs), i, 0);
    assert Names(fs)[i][0..] == fs[i].Name();
    StringsAreThere(fs, i);
  }

  lemma StringsAreThere(fs: seq<Symbol>, i: nat)
    requires Storable(fs) && i < |fs|
    ensures ST.Table(Names(fs)) != []
  {
    ST.NameIsAtStart(Names(fs), i);
  }

  lemma {:induction false} BuiltFunctionsAt(plan: Plan, fs: seq<Symbol>, n: nat)
    requires Storable(fs) && n <= |fs|
    requires Readable(Build(plan, fs)) && Named(Build(plan, fs))
    requires forall p | p in SectionPositions(1, n) :: IsSymbol(Build(plan, fs), p)
    ensures FunctionsAt(Build(plan, fs), SectionPositions(1, n)) == Expected(fs[..n])
    decreases n
  {
    hide Readable, Named, IsSymbol, Storable, Listed, Build;
    if n > 0 {
      var ps := SectionPositions(1, n);
      assert ps[n - 1] in ps;
      assert ps[..n - 1] == SectionPositions(1, n - 1);
      forall p | p in SectionPositions(1, n - 1)
        ensures IsSymbol(Build(plan, fs), p)
      {
        assert ps[p.index] == p;
      }
      BuiltFunctionsAt(plan, fs, n - 1);
      BuiltListed(plan, fs, n - 1);
      assert fs[..n][..n - 1] == fs[..n - 1];
    }
  }

  /** Symbols written into a symbol table with its string table, of any type and binding, are listed as they
      were written: exactly the functions with a name, in order, with their values, names up to '('. */
  lemma WrittenFunctionsAreListed(plan: Plan, fs: seq<Symbol>)
    requires Storable(fs)
    ensures Readable(Build(plan, fs)) && Named(Build(plan, fs))
    ensures Functions(Build(plan, fs)) == Expected(fs)
  {
    var c := Build(plan, fs);
    BuiltIsReadable(plan, fs);
    BuiltIsNamed(plan, fs);
    BuiltPositions(plan, fs);
    PositionsAreTheSymbols(c);
    hide Readable, Named, IsSymbol, Positions, Build;
    BuiltFunctionsAt(plan, fs, |fs|);
    assert fs[..|fs|] == fs;
  }

  lemma BuiltPositions(plan: Plan, fs: seq<Symbol>)
    requires Storable(fs) && Readable(Build(plan, fs))
    ensures Positions(Build(plan, fs)) == SectionPositions(1, |fs|)
  {
    hide ST.Table, SymbolBytes, Storable, IndexesByType, Readable, SymbolCount;
    var c := Build(plan, fs);
    OneTable(c);
    BuiltIsReadable(plan, fs);
    IndexesAreOfType(c.sectionHeaders, SHT_SYMTAB);
    var tables: seq<nat> := [1];
    assert tables[..0] == [];
    assert PositionsIn(c, tables) == PositionsIn(c, []) + SectionPositions(1, |fs|);
  }

  // In a file

  lemma FourAndEight()
    ensures Pow256(4) == 0x1_0000_0000 && Pow256(8) == 0x1_0000_0000_0000_0000
  {
  }

  lemma ShdrFits(s: Shdr)
    requires s.name < Pow256(4) && s.kind < Pow256(4) && s.link < Pow256(4) && s.info < Pow256(4)
    requires s.flags < Pow256(8) && s.addr < Pow256(8) && s.offset < Pow256(8) && s.size < Pow256(8)
    requires s.addralign < Pow256(8) && s.entsize < Pow256(8)
    ensures s.WellFormed()
  {
  }

  lemma BuiltIsWellFormed(plan: Plan, fs: seq<Symbol>)
    requires Storable(fs) && 24 * |fs| < INT_LIMIT && |ST.Table(Names(fs))| < INT_LIMIT
    requires plan.header.WellFormed() && IsElf(plan.header) && RT.EntriesFit(plan.header)
    requires plan.header.phnum == 0 && plan.header.shnum == 3
    requires plan.symbolsAt < LONG_LIMIT && plan.stringsAt < LONG_LIMIT
    ensures RT.WellFormed(Build(plan, fs))
  {
    hide Ehdr.WellFormed, Shdr.WellFormed, IsElf, RT.EntriesFit, ST.Table, SymbolBytes, Storable, Pow256;
    var c := Build(plan, fs);
    FourAndEight();
    ShdrFits(c.sectionHeaders[0]);
    ShdrFits(c.sectionHeaders[1]);
    ShdrFits(c.sectionHeaders[2]);
  }

  /** From symbols to a file and back: a file in which the tables stand where its header and section headers
      say, in any layout, is opened, and its list of functions is the expected one. */
  lemma WrittenFunctionsAreReadFromFile(file: seq<Octet>, plan: Plan, fs: seq<Symbol>)
    requires Storable(fs) && 24 * |fs| < INT_LIMIT && |ST.Table(Names(fs))| < INT_LIMIT
    requires plan.header.WellFormed() && IsElf(plan.header) && RT.EntriesFit(plan.header)
    requires plan.header.phnum == 0 && plan.header.shnum == 3
    requires RT.Represents(file, Build(plan, fs))
    ensures Defined(file) && Parse(file).Some?
    ensures var c := Parse(file).value; Readable(c) && Named(c) && Functions(c) == Expected(fs)
  {
    hide RT.EncodePhdrs, RT.EncodeShdrs, Ehdr.WellFormed, Ehdr.Encode, IsElf, RT.EntriesFit, ST.Table, SymbolBytes;
    hide Storable, RT.WellFormed, Defined, Parse, Readable, Named, Functions, Expected;
    var c := Build(plan, fs);
    assert RT.At(file, c.sectionHeaders[1].offset, c.sectionsData[1]);
    assert RT.At(file, c.sectionHeaders[2].offset, c.sectionsData[2]);
    BuiltIsWellFormed(plan, fs);
    RT.RoundTrip(file, c);
    WrittenFunctionsAreListed(plan, fs);
  }
}
