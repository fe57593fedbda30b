/** Function symbols: names from string tables, the list of functions, and lookup by name. */
module ElfFunctions {
  import opened ElfCodec
  import opened ElfFile

  const SHT_SYMTAB := 2
  const STT_FUNC := 2

  /** `unsigned` has 32 bits. */
  const UINT_LIMIT: nat := 0x1_0000_0000

  // Names

  ghost predicate Terminated(data: seq<Octet>, offset: nat) {
    exists k :: offset <= k < |data| && data[k] == 0
  }

  /** The C string at an offset. */
  function CString(data: seq<Octet>, offset: nat): string
    requires Terminated(data, offset)
    decreases |data| - offset
  {
    if data[offset] == 0 then ""
    else [data[offset] as char] + CString(data, offset + 1)
  }

  /** Looking a name up stays inside the string table, or does not get that far. */
  ghost predicate NameDefined(c: Contents, index: nat, offset: nat) {
    index < |c.sectionsData| && c.sectionsData[index] != [] ==> Terminated(c.sectionsData[index], offset)
  }

  /** getNameFromStringTable: a section that does not exist or has no bytes has no data pointer. */
  function NameFromStringTable(c: Contents, index: nat, offset: nat): string
    requires NameDefined(c, index, offset)
  {
    if index >= |c.sectionsData| || c.sectionsData[index] == [] then "Unnamed"
    else CString(c.sectionsData[index], offset)
  }

  /** The part before the first '('. */
  function Cut(name: string): string {
    if name == "" || name[0] == '(' then "" else [name[0]] + Cut(name[1..])
  }

  // Symbols

  /** getSymbolCount: the size is cast before it is divided. */
  function SymbolCount(s: Shdr): nat
    requires s.entsize > 0
  {
    (s.size % UINT_LIMIT) / s.entsize % UINT_LIMIT
  }

  /** The `unsigned` offset of a symbol in its section. */
  function SymbolOffset(s: Shdr, i: nat): nat {
    i * s.entsize % UINT_LIMIT
  }

  predicate IsSymbolTable(c: Contents, e: nat) {
    e < |c.sectionHeaders| && c.sectionHeaders[e].kind == SHT_SYMTAB
  }

  /** Symbol tables have entries of at least a symbol's size and less than 4 GB of bytes. */
  predicate Readable(c: Contents) {
    && |c.sectionsData| == |c.sectionHeaders|
    && forall e | 0 <= e < |c.sectionHeaders| && c.sectionHeaders[e].kind == SHT_SYMTAB ::
         SYM_SIZE <= c.sectionHeaders[e].entsize && |c.sectionsData[e]| == c.sectionHeaders[e].size < UINT_LIMIT
  }

  datatype Position = Position(section: nat, index: nat)

  predicate IsSymbol(c: Contents, p: Position)
    requires Readable(c)
  {
    IsSymbolTable(c, p.section) && p.index < SymbolCount(c.sectionHeaders[p.section])
  }

  /** Every symbol lies within its section's bytes, and its offset is not truncated. */
  lemma SymbolsAreInBounds(c: Contents, p: Position)
    requires Readable(c) && IsSymbol(c, p)
    ensures var s := c.sectionHeaders[p.section];
      && SymbolOffset(s, p.index) == p.index * s.entsize
      && SymbolOffset(s, p.index) + SYM_SIZE <= |c.sectionsData[p.section]|
  {
    var s := c.sectionHeaders[p.section];
    CountTimesSize(s.size, s.entsize, p.index);
  }

  lemma CountTimesSize(size: nat, entsize: nat, i: nat)
    requires entsize > 0 && size < UINT_LIMIT && i < size / entsize
    ensures size / entsize < UINT_LIMIT
    ensures i * entsize + entsize <= size
  {
    assert (i + 1) * entsize <= (size / entsize) * entsize;
  }

  function SymbolAt(c: Contents, p: Position): Sym
    requires Readable(c) && IsSymbol(c, p)
  {
    SymbolsAreInBounds(c, p);
    var offset := SymbolOffset(c.sectionHeaders[p.section], p.index);
    DecodeSym(c.sectionsData[p.section][offset..offset + SYM_SIZE])
  }

  predicate IsFunction(c: Contents, p: Position)
    requires Readable(c) && IsSymbol(c, p)
  {
    SymbolAt(c, p).info % 16 == STT_FUNC
  }

  /** Every function symbol's name can be looked up. */
  ghost predicate Named(c: Contents)
    requires Readable(c)
  {
    forall p | IsSymbol(c, p) && IsFunction(c, p) ::
      NameDefined(c, c.sectionHeaders[p.section].link, SymbolAt(c, p).name)
  }

  function SymbolName(c: Contents, p: Position): string
    requires Readable(c) && Named(c) && IsSymbol(c, p) && IsFunction(c, p)
  {
    NameFromStringTable(c, c.sectionHeaders[p.section].link, SymbolAt(c, p).name)
  }

  /** What one symbol contributes to the list of functions. */
  function Listed(c: Contents, p: Position): (r: seq<(nat, string)>)
    requires Readable(c) && Named(c) && IsSymbol(c, p)
    ensures |r| <= 1
  {
    if IsFunction(c, p) && SymbolName(c, p) != "" then [(SymbolAt(c, p).value, Cut(SymbolName(c, p)))] else []
  }

  // Sections by type, symbols in order

  function IndexesByType(headers: seq<Shdr>, kind: nat): seq<nat> {
    if headers == [] then []
    else
      var last := |headers| - 1;
      IndexesByType(headers[..last], kind) + if headers[last].kind == kind then [last] else []
  }

  method GetSectionHeaderIndexesByType(headers: seq<Shdr>, kind: nat) returns (indexes: seq<nat>)
    ensures indexes == IndexesByType(headers, kind)
  {
    indexes := [];
    var current := 0;
    for i := 0 to |headers|
      invariant current == i
      invariant indexes == IndexesByType(headers[..i], kind)
    {
      assert headers[..i + 1][..i] == headers[..i];
      if headers[i].kind == kind {
        indexes := indexes + [current];
      }
      current := current + 1;
    }
    assert headers[..|headers|] == headers;
  }

  lemma {:induction false} IndexesAreOfType(headers: seq<Shdr>, kind: nat)
    ensures forall e: nat :: e in IndexesByType(headers, kind) <==> e < |headers| && headers[e].kind == kind
    ensures forall a, b | 0 <= a < b < |IndexesByType(headers, kind)| ::
      IndexesByType(headers, kind)[a] < IndexesByType(headers, kind)[b]
    decreases |headers|
  {
    if headers != [] {
      var last := |headers| - 1;
      IndexesAreOfType(headers[..last], kind);
      var front := IndexesByType(headers[..last], kind);
      forall k | 0 <= k < |front|
        ensures front[k] < last
      {
        assert front[k] in front;
      }
      forall e: nat
        ensures e in IndexesByType(headers, kind) <==> e < |headers| && headers[e].kind == kind
      {
        assert e in front <==> e < last && headers[..last][e].kind == kind;
      }
    }
  }

  function SectionPositions(e: nat, count: nat): (ps: seq<Position>)
    ensures |ps| == count && forall i | 0 <= i < count :: ps[i] == Position(e, i)
  {
    seq(count, i requires 0 <= i => Position(e, i))
  }

  /** The symbols of some symbol tables, section by section, index by index. */
  function PositionsIn(c: Contents, tables: seq<nat>): seq<Position>
    requires Readable(c) && forall e | e in tables :: IsSymbolTable(c, e)
  {
    if tables == [] then []
    else
      var last := |tables| - 1;
      assert IsSymbolTable(c, tables[last]);
      PositionsIn(c, tables[..last]) + SectionPositions(tables[last], SymbolCount(c.sectionHeaders[tables[last]]))
  }

  function Positions(c: Contents): seq<Position>
    requires Readable(c)
  {
    IndexesAreOfType(c.sectionHeaders, SHT_SYMTAB);
    PositionsIn(c, IndexesByType(c.sectionHeaders, SHT_SYMTAB))
  }

  predicate Precedes(p: Position, q: Position) {
    p.section < q.section || (p.section == q.section && p.index < q.index)
  }

  lemma {:induction false} PositionsInAreSymbols(c: Contents, tables: seq<nat>, p: Position)
    requires Readable(c) && forall e | e in tables :: IsSymbolTable(c, e)
    ensures p in PositionsIn(c, tables) <==> p.section in tables && IsSymbol(c, p)
    decreases |tables|
  {
    if tables != [] {
      var n := |tables| - 1;
      var e := tables[n];
      assert e in tables;
      PositionsInAreSymbols(c, tables[..n], p);
      assert tables == tables[..n] + [e];
      var back := SectionPositions(e, SymbolCount(c.sectionHeaders[e]));
      if p.section == e && IsSymbol(c, p) {
        assert back[p.index] == p;
      }
    }
  }

  lemma {:induction false} PositionsInAreSorted(c: Contents, tables: seq<nat>)
    requires Readable(c) && forall e | e in tables :: IsSymbolTable(c, e)
    requires forall a, b | 0 <= a < b < |tables| :: tables[a] < tables[b]
    ensures forall a, b | 0 <= a < b < |PositionsIn(c, tables)| ::
      Precedes(PositionsIn(c, tables)[a], PositionsIn(c, tables)[b])
    decreases |tables|
  {
    if tables != [] {
      var n := |tables| - 1;
      assert tables[n] in tables;
      var front := PositionsIn(c, tables[..n]);
      var back := SectionPositions(tables[n], SymbolCount(c.sectionHeaders[tables[n]]));
      PositionsInAreSorted(c, tables[..n]);
      forall a | 0 <= a < |front|
        ensures front[a].section < tables[n]
      {
        PositionsInAreSymbols(c, tables[..n], front[a]);
        var k :| 0 <= k < n && tables[..n][k] == front[a].section;
        assert tables[k] < tables[n];
      }
      assert PositionsIn(c, tables) == front + back;
    }
  }

  /** The walk visits every symbol of every symbol table, and in order. */
  lemma PositionsAreTheSymbols(c: Contents)
    requires Readable(c)
    ensures forall p :: p in Positions(c) <==> IsSymbol(c, p)
    ensures forall a, b | 0 <= a < b < |Positions(c)| :: Precedes(Positions(c)[a], Positions(c)[b])
  {
    IndexesAreOfType(c.sectionHeaders, SHT_SYMTAB);
    var tables := IndexesByType(c.sectionHeaders, SHT_SYMTAB);
    PositionsInAreSorted(c, tables);
    forall p: Position
      ensures p in Positions(c) <==> IsSymbol(c, p)
    {
      PositionsInAreSymbols(c, tables, p);
    }
  }

  // The list of functions

  function FunctionsAt(c: Contents, ps: seq<Position>): seq<(nat, string)>
    requires Readable(c) && Named(c) && forall p | p in ps :: IsSymbol(c, p)
  {
    if ps == [] then []
    else FunctionsAt(c, ps[..|ps| - 1]) + Listed(c, ps[|ps| - 1])
  }

  /** The specification of getFunctionsList: what each symbol contributes, in order. */
  function Functions(c: Contents): seq<(nat, string)>
    requires Readable(c) && Named(c)
  {
    PositionsAreTheSymbols(c);
    FunctionsAt(c, Positions(c))
  }

  lemma {:induction false} FunctionsAtAppends(c: Contents, ps: seq<Position>, qs: seq<Position>)
    requires Readable(c) && Named(c)
    requires (forall p | p in ps :: IsSymbol(c, p)) && (forall q | q in qs :: IsSymbol(c, q))
    ensures forall p | p in ps + qs :: IsSymbol(c, p)
    ensures FunctionsAt(c, ps + qs) == FunctionsAt(c, ps) + FunctionsAt(c, qs)
    decreases |qs|
  {
    hide Readable, Named, IsSymbol, Listed;
    if qs == [] {
      assert ps + qs == ps;
    } else {
      var n := |qs| - 1;
      FunctionsAtAppends(c, ps, qs[..n]);
      assert (ps + qs)[..|ps + qs| - 1] == ps + qs[..n];
    }
  }

  /** The inner loop: one section's functions. */
  method GetSectionFunctions(c: Contents, e: nat, before: seq<(nat, string)>) returns (functions: seq<(nat, string)>)
    requires Readable(c) && Named(c) && IsSymbolTable(c, e)
    ensures var ps := SectionPositions(e, SymbolCount(c.sectionHeaders[e]));
      (forall p | p in ps :: IsSymbol(c, p)) && functions == before + FunctionsAt(c, ps)
  {
    functions := before;
    var count := SymbolCount(c.sectionHeaders[e]);
    for i := 0 to count
      invariant forall p | p in SectionPositions(e, i) :: IsSymbol(c, p)
      invariant functions == before + FunctionsAt(c, SectionPositions(e, i))
    {
      var p := Position(e, i);
      assert SectionPositions(e, i + 1)[..i] == SectionPositions(e, i);
      if IsFunction(c, p) {
        var name := SymbolName(c, p);
        if name != "" {
          functions := functions + [(SymbolAt(c, p).value, Cut(name))];
        }
      }
    }
  }

  /** getFunctionsList */
  method GetFunctionsList(c: Contents) returns (functions: seq<(nat, string)>)
    requires Readable(c) && Named(c)
    ensures functions == Functions(c)
  {
    functions := [];
    hide Named, IsSymbol, Listed, SymbolCount, IndexesByType;
    PositionsAreTheSymbols(c);
    IndexesAreOfType(c.sectionHeaders, SHT_SYMTAB);
    var tables := GetSectionHeaderIndexesByType(c.sectionHeaders, SHT_SYMTAB);
    for k := 0 to |tables|
      invariant forall e | e in tables[..k] :: IsSymbolTable(c, e)
      invariant forall p | p in PositionsIn(c, tables[..k]) :: IsSymbol(c, p)
      invariant functions == FunctionsAt(c, PositionsIn(c, tables[..k]))
    {
      assert tables[k] in tables;
      assert tables[..k + 1][..k] == tables[..k];
      functions := GetSectionFunctions(c, tables[k], functions);
      FunctionsAtAppends(c, PositionsIn(c, tables[..k]),
                         SectionPositions(tables[k], SymbolCount(c.sectionHeaders[tables[k]])));
    }
    assert tables[..|tables|] == tables;
  }

  // Lookup by name

  predicate HasFunction(functions: seq<(nat, string)>, name: string) {
    exists k :: 0 <= k < |functions| && functions[k].1 == name
  }

  function FirstAddress(functions: seq<(nat, string)>, name: string): nat
    requires HasFunction(functions, name)
    decreases |functions|
  {
    if functions[0].1 == name then functions[0].0
    else
      assert functions[1..] == functions[1..] && exists k :: 0 < k < |functions| && functions[k].1 == name;
      FirstAddress(functions[1..], name)
  }

  /** getFunctionAddress. An unknown name dereferences the end iterator and is excluded. */
  method GetFunctionAddress(c: Contents, name: string) returns (address: nat)
    requires Readable(c) && Named(c) && HasFunction(Functions(c), name)
    ensures address == FirstAddress(Functions(c), name)
  {
    var functions := GetFunctionsList(c);
    var k := 0;
    assert functions[0..] == functions;
    while functions[k].1 != name
      invariant 0 <= k < |functions| && HasFunction(functions[k..], name)
      invariant FirstAddress(functions[k..], name) == FirstAddress(functions, name)
      decreases |functions| - k
    {
      assert functions[k..][1..] == functions[k + 1..];
      k := k + 1;
    }
    address := functions[k].0;
  }

  predicate Matches(c: Contents, p: Position, name: string)
    requires Readable(c) && Named(c) && IsSymbol(c, p)
  {
    IsFunction(c, p) && SymbolName(c, p) != "" && Cut(SymbolName(c, p)) == name
  }

  lemma FirstAddressAppends(a: seq<(nat, string)>, b: seq<(nat, string)>, name: string)
    requires HasFunction(a, name)
    ensures HasFunction(a + b, name) && FirstAddress(a + b, name) == FirstAddress(a, name)
    decreases |a|
  {
    var k :| 0 <= k < |a| && a[k].1 == name;
    assert (a + b)[k] == a[k];
    if a[0].1 != name {
      assert a[1..][k - 1] == a[k];
      assert (a + b)[1..] == a[1..] + b;
      FirstAddressAppends(a[1..], b, name);
    }
  }

  lemma {:induction false} FirstAddressAfter(a: seq<(nat, string)>, e: (nat, string), name: string)
    requires !HasFunction(a, name) && e.1 == name
    ensures HasFunction(a + [e], name) && FirstAddress(a + [e], name) == e.0
    decreases |a|
  {
    assert (a + [e])[|a|] == e;
    if a != [] {
      forall k | 0 <= k < |a[1..]|
        ensures a[1..][k].1 != name
      {
        assert a[1..][k] == a[k + 1];
      }
      assert (a + [e])[1..] == a[1..] + [e];
      FirstAddressAfter(a[1..], e, name);
    }
  }

  lemma {:induction false} FirstMatchAmong(c: Contents, ps: seq<Position>, name: string) returns (k: nat)
    requires Readable(c) && Named(c) && forall p | p in ps :: IsSymbol(c, p)
    ensures k <= |ps| && forall j | 0 <= j < k :: !Matches(c, ps[j], name)
    ensures k < |ps| <==> HasFunction(FunctionsAt(c, ps), name)
    ensures k < |ps| ==> Matches(c, ps[k], name) && FirstAddress(FunctionsAt(c, ps), name) == SymbolAt(c, ps[k]).value
    decreases |ps|
  {
    hide IsFunction, SymbolName, SymbolAt, Cut, Readable, Named, IsSymbol;
    if ps == [] {
      k := 0;
    } else {
      var n := |ps| - 1;
      var before := FunctionsAt(c, ps[..n]);
      k := FirstMatchAmong(c, ps[..n], name);
      assert ps[n] in ps;
      if k < n {
        FirstAddressAppends(before, Listed(c, ps[n]), name);
      } else if Matches(c, ps[n], name) {
        FirstAddressAfter(before, (SymbolAt(c, ps[n]).value, name), name);
      } else {
        k := n + 1;
        forall i | 0 <= i < |FunctionsAt(c, ps)|
          ensures FunctionsAt(c, ps)[i].1 != name
        {
          if i < |before| {
            assert before[i].1 != name;
          }
        }
      }
    }
  }

  /** The first function symbol, in section-then-index order, with a non-empty name whose part before
      '(' is `name`. */
  ghost predicate IsFirstMatch(c: Contents, p: Position, name: string)
    requires Readable(c) && Named(c)
  {
    IsSymbol(c, p) && Matches(c, p, name) && forall q :: IsSymbol(c, q) && Precedes(q, p) ==> !Matches(c, q, name)
  }

  lemma FoundIsFirst(c: Contents, ps: seq<Position>, k: nat, name: string)
    requires Readable(c) && Named(c)
    requires forall p :: p in ps <==> IsSymbol(c, p)
    requires forall a, b | 0 <= a < b < |ps| :: Precedes(ps[a], ps[b])
    requires k <= |ps| && forall j | 0 <= j < k :: !Matches(c, ps[j], name)
    ensures k == |ps| ==> forall p :: IsSymbol(c, p) ==> !Matches(c, p, name)
    ensures k < |ps| && Matches(c, ps[k], name) ==> IsFirstMatch(c, ps[k], name)
  {
  }

  /** A name is found exactly when some symbol matches it, and the address found is the value of the
      first such symbol. */
  lemma FindsFirstMatchingSymbol(c: Contents, name: string)
    requires Readable(c) && Named(c)
    ensures HasFunction(Functions(c), name) <==> exists p :: IsFirstMatch(c, p, name)
    ensures !HasFunction(Functions(c), name) ==> forall p :: IsSymbol(c, p) ==> !Matches(c, p, name)
    ensures HasFunction(Functions(c), name) ==>
      exists p :: IsFirstMatch(c, p, name) && FirstAddress(Functions(c), name) == SymbolAt(c, p).value
  {
    PositionsAreTheSymbols(c);
    hide Positions, FunctionsAt, IsFunction, SymbolName, SymbolAt, Cut, Readable, Named, IsSymbol, Matches;
    hide FirstAddress, HasFunction;
    var ps := Positions(c);
    var k := FirstMatchAmong(c, ps, name);
    FoundIsFirst(c, ps, k, name);
    assert k < |ps| ==> IsFirstMatch(c, ps[k], name);
  }

  /** Addresses of functions are 64-bit values. */
  lemma AddressesAreWords(c: Contents, name: string)
    requires Readable(c) && Named(c) && HasFunction(Functions(c), name)
    ensures FirstAddress(Functions(c), name) < 0x1_0000_0000_0000_0000
  {
    FindsFirstMatchingSymbol(c, name);
    var p :| IsFirstMatch(c, p, name) && FirstAddress(Functions(c), name) == SymbolAt(c, p).value;
    SymbolValueIsWord(c, p);
  }

  lemma SymbolValueIsWord(c: Contents, p: Position)
    requires Readable(c) && IsSymbol(c, p)
    ensures SymbolAt(c, p).value < 0x1_0000_0000_0000_0000
  {
    SymbolsAreInBounds(c, p);
    hide Readable, IsSymbol, DecodeSym;
    var offset := SymbolOffset(c.sectionHeaders[p.section], p.index);
    DecodedValueIsWord(c.sectionsData[p.section][offset..offset + SYM_SIZE]);
  }

  lemma DecodedValueIsWord(b: seq<Octet>)
    requires |b| == SYM_SIZE
    ensures DecodeSym(b).value < 0x1_0000_0000_0000_0000
  {
    hide DecodeFields, EncodeFields, Total, Pow256;
    RecordSizes();
    EncodeDecodeFields(SYM, b);
    assert DecodeFields(SYM, b)[4] < Pow256(SYM[4]);
    EightBytes();
  }

  lemma EightBytes()
    ensures Pow256(8) == 0x1_0000_0000_0000_0000
  {
  }
}
