/** Which functions the symbol tables of a file define, said about the tables' bytes alone. */
module FunctionBytes {
  import opened ElfCodec
  import opened ElfFile
  import opened ElfFunctions
  import opened ElfLayout

  // Names

  /** A name is cut at its first '(' and nowhere else. */
  lemma {:induction false} CutsAtParenthesis(part: string, rest: string)
    requires '(' !in part
    ensures Cut(part) == part && Cut(part + "(" + rest) == part
    decreases |part|
  {
    if part != "" {
      assert (part + "(" + rest)[1..] == part[1..] + "(" + rest;
      CutsAtParenthesis(part[1..], rest);
    }
  }

  /** `part` is what stands in the string table from `offset` up to the first '(' or NUL. */
  predicate IsPart(strings: seq<Octet>, offset: nat, part: string) {
    && offset + |part| < |strings|
    && (forall x | offset <= x < offset + |part| ::
          part[x - offset] == strings[x] as char && strings[x] != 0 && strings[x] != 0x28)
    && (strings[offset + |part|] == 0 || strings[offset + |part|] == 0x28)
  }

  lemma {:induction false} CutIsPart(strings: seq<Octet>, offset: nat)
    requires Terminated(strings, offset)
    ensures IsPart(strings, offset, Cut(CString(strings, offset)))
    decreases |strings| - offset
  {
    var part := Cut(CString(strings, offset));
    if strings[offset] != 0 && strings[offset] != 0x28 {
      CutIsPart(strings, offset + 1);
      var rest := Cut(CString(strings, offset + 1));
      assert part == [strings[offset] as char] + rest;
      assert forall k | 1 <= k < |part| :: part[k] == rest[k - 1];
    }
  }

  lemma OnlyOnePart(strings: seq<Octet>, offset: nat, a: string, b: string)
    requires IsPart(strings, offset, a) && IsPart(strings, offset, b)
    ensures a == b
  {
    forall k | 0 <= k < |a| && k < |b|
      ensures a[k] == b[k]
    {
      assert strings[offset + k] != 0;
    }
  }

  // Symbols

  /** The symbols are the whole entries of the sections of type 2. */
  lemma SymbolsAreWholeEntries(c: Contents, p: Position)
    requires Readable(c)
    ensures IsSymbol(c, p) <==>
      && p.section < |c.sectionHeaders|
      && c.sectionHeaders[p.section].kind == 2
      && (p.index + 1) * c.sectionHeaders[p.section].entsize <= |c.sectionsData[p.section]|
  {
    if IsSymbolTable(c, p.section) {
      var s := c.sectionHeaders[p.section];
      CountIsWholeEntries(s.size, s.entsize, p.index);
    }
  }

  lemma CountIsWholeEntries(size: nat, entsize: nat, i: nat)
    requires entsize > 0 && size < UINT_LIMIT
    ensures i < size % UINT_LIMIT / entsize % UINT_LIMIT <==> (i + 1) * entsize <= size
  {
    if size / entsize > 0 {
      CountTimesSize(size, entsize, 0);
    }
    WholeEntries(size, entsize, i);
  }

  lemma WholeEntries(size: nat, entsize: nat, i: nat)
    requires entsize > 0
    ensures i < size / entsize <==> (i + 1) * entsize <= size
  {
    var q := size / entsize;
    if i < q {
      assert (i + 1) * entsize <= q * entsize;
    } else {
      assert (i + 1) * entsize >= (q + 1) * entsize;
    }
  }

  lemma SliceNumbers(data: seq<Octet>, at: nat)
    requires at + 24 <= |data|
    ensures var b := data[at..at + 24];
      U32(b, 0) == U32(data, at) && U64(b, 8) == U64(data, at + 8) && b[4] == data[at + 4]
  {
  }

  /** A symbol's name offset, info and value, where they stand in its section. */
  lemma SymbolIsInData(c: Contents, p: Position)
    requires Readable(c) && IsSymbol(c, p)
    ensures var data, at := c.sectionsData[p.section], p.index * c.sectionHeaders[p.section].entsize;
      && at + 24 <= |data|
      && SymbolAt(c, p).name == U32(data, at)
      && SymbolAt(c, p).info == data[at + 4]
      && SymbolAt(c, p).value == U64(data, at + 8)
  {
    hide U16, U32, U64, DecodeSym;
    SymbolsAreInBounds(c, p);
    var data, at := c.sectionsData[p.section], SymbolOffset(c.sectionHeaders[p.section], p.index);
    SymLayout(data[at..at + 24]);
    SliceNumbers(data, at);
  }

  /** What one symbol contributes: nothing unless the low four bits of its info byte are 2. Then nothing if
      its name in the linked string table is empty, and otherwise its value with its name up to '('. Where
      there is no linked string table it is called "Unnamed". */
  lemma ListedIsWhatBytesSay(c: Contents, p: Position)
    requires Readable(c) && Named(c) && IsSymbol(c, p)
    ensures var s, data := c.sectionHeaders[p.section], c.sectionsData[p.section];
      var at := p.index * s.entsize;
      && at + 24 <= |data|
      && (data[at + 4] % 16 != 2 ==> Listed(c, p) == [])
      && (data[at + 4] % 16 == 2 ==>
            if s.link >= |c.sectionsData| || c.sectionsData[s.link] == [] then
              Listed(c, p) == [(U64(data, at + 8), "Unnamed")]
            else
              var strings, name := c.sectionsData[s.link], U32(data, at);
              && name < |strings|
              && (strings[name] == 0 ==> Listed(c, p) == [])
              && (strings[name] != 0 ==>
                    && |Listed(c, p)| == 1
                    && Listed(c, p)[0].0 == U64(data, at + 8)
                    && IsPart(strings, name, Listed(c, p)[0].1)))
  {
    hide U32, U64, SymbolAt, Cut, SymbolCount;
    SymbolIsInData(c, p);
    CutsAtParenthesis("Unnamed", "");
    if IsFunction(c, p) {
      var s := c.sectionHeaders[p.section];
      assert NameDefined(c, s.link, SymbolAt(c, p).name);
      if s.link < |c.sectionsData| && c.sectionsData[s.link] != [] {
        CutIsPart(c.sectionsData[s.link], SymbolAt(c, p).name);
      }
    }
  }

  /** A symbol matches a name exactly when it is a function by its info byte and the name is what stands in
      the linked string table up to '(', in a name that is not empty; without that table, "Unnamed". */
  lemma MatchesIff(c: Contents, p: Position, name: string)
    requires Readable(c) && Named(c) && IsSymbol(c, p)
    ensures var s, data := c.sectionHeaders[p.section], c.sectionsData[p.section];
      var at := p.index * s.entsize;
      && at + 24 <= |data|
      && (Matches(c, p, name) <==>
            && data[at + 4] % 16 == 2
            && if s.link >= |c.sectionsData| || c.sectionsData[s.link] == [] then name == "Unnamed"
               else
                 var strings, n := c.sectionsData[s.link], U32(data, at);
                 IsPart(strings, n, name) && strings[n] != 0)
  {
    hide U32, U64, SymbolAt, Cut, SymbolCount;
    SymbolIsInData(c, p);
    CutsAtParenthesis("Unnamed", "");
    if IsFunction(c, p) {
      var s := c.sectionHeaders[p.section];
      assert NameDefined(c, s.link, SymbolAt(c, p).name);
      if s.link < |c.sectionsData| && c.sectionsData[s.link] != [] {
        var strings, n := c.sectionsData[s.link], SymbolAt(c, p).name;
        CutIsPart(strings, n);
        if IsPart(strings, n, name) {
          OnlyOnePart(strings, n, name, Cut(CString(strings, n)));
        }
      }
    }
  }
}
