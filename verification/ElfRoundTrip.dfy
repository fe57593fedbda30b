/** When reading an ELF file gives back what was written into it. */
module ElfRoundTrip {
  import opened ElfCodec
  import opened ElfFile
  import opened Options

  /** `bytes` stand in the file at `offset`; no bytes stand anywhere. */
  predicate At(file: seq<Octet>, offset: nat, bytes: seq<Octet>) {
    && offset < LONG_LIMIT
    && (bytes == [] || (offset + |bytes| <= |file| && file[offset..offset + |bytes|] == bytes))
  }

  function EncodePhdrs(ps: seq<Phdr>): (b: seq<Octet>)
    ensures |b| == PHDR_SIZE * |ps|
  {
    RecordSizes();
    if ps == [] then [] else ps[0].Encode() + EncodePhdrs(ps[1..])
  }

  function EncodeShdrs(ss: seq<Shdr>): (b: seq<Octet>)
    ensures |b| == SHDR_SIZE * |ss|
  {
    RecordSizes();
    if ss == [] then [] else ss[0].Encode() + EncodeShdrs(ss[1..])
  }

  /** A table that has entries has entries of the structure's size. */
  predicate EntriesFit(h: Ehdr) {
    && (h.phnum == 0 || h.phentsize == PHDR_SIZE)
    && (h.shnum == 0 || h.shentsize == SHDR_SIZE)
  }

  /** Field widths, table sizes and section sizes agree, and entries have the structures' sizes. */
  predicate WellFormed(c: Contents) {
    && c.header.WellFormed() && IsElf(c.header)
    && EntriesFit(c.header)
    && c.header.phnum == |c.programHeaders|
    && c.header.shnum == |c.sectionHeaders| == |c.sectionsData|
    && (forall p | p in c.programHeaders :: p.WellFormed())
    && (forall s | s in c.sectionHeaders :: s.WellFormed())
    && SizesAgree(c)
  }

  /** Every section's bytes have the length its header says. */
  predicate SizesAgree(c: Contents) {
    |c.sectionHeaders| == |c.sectionsData|
    && forall i | 0 <= i < |c.sectionHeaders| :: |c.sectionsData[i]| == c.sectionHeaders[i].size
  }

  predicate SectionsAt(file: seq<Octet>, headers: seq<Shdr>, data: seq<seq<Octet>>)
    requires |headers| == |data|
  {
    forall i | 0 <= i < |headers| :: At(file, headers[i].offset, data[i])
  }

  /** The file holds exactly these contents where their own headers say. */
  predicate Represents(file: seq<Octet>, c: Contents)
    requires |c.sectionHeaders| == |c.sectionsData|
  {
    && At(file, 0, c.header.Encode())
    && At(file, c.header.phoff, EncodePhdrs(c.programHeaders))
    && At(file, c.header.shoff, EncodeShdrs(c.sectionHeaders))
    && SectionsAt(file, c.sectionHeaders, c.sectionsData)
  }

  predicate Within(file: seq<Octet>, offset: nat, size: nat) {
    offset < LONG_LIMIT && (size == 0 || offset + size <= |file|)
  }

  predicate SectionsInside(file: seq<Octet>, headers: seq<Shdr>) {
    forall i | 0 <= i < |headers| :: Within(file, headers[i].offset, headers[i].size)
  }

  /** Every table and every section, whatever its type, lies inside the file. */
  predicate Inside(file: seq<Octet>, h: Ehdr, sections: seq<Shdr>) {
    && |file| >= EHDR_SIZE
    && Within(file, h.phoff, PHDR_SIZE * h.phnum)
    && Within(file, h.shoff, SHDR_SIZE * h.shnum)
    && SectionsInside(file, sections)
  }

  // Tables

  lemma {:induction false} PhdrsRoundTrip(ps: seq<Phdr>)
    requires forall p | p in ps :: p.WellFormed()
    ensures DecodePhdrs(EncodePhdrs(ps), |ps|) == ps
    decreases |ps|
  {
    if ps != [] {
      PhdrRoundTrip(ps[0]);
      PhdrsRoundTrip(ps[1..]);
      assert EncodePhdrs(ps)[..PHDR_SIZE] == ps[0].Encode();
      assert EncodePhdrs(ps)[PHDR_SIZE..] == EncodePhdrs(ps[1..]);
    }
  }

  lemma {:induction false} ShdrsRoundTrip(ss: seq<Shdr>)
    requires forall s | s in ss :: s.WellFormed()
    ensures DecodeShdrs(EncodeShdrs(ss), |ss|) == ss
    decreases |ss|
  {
    hide Shdr.Encode, Shdr.WellFormed;
    if ss != [] {
      ShdrRoundTrip(ss[0]);
      ShdrsRoundTrip(ss[1..]);
      assert EncodeShdrs(ss)[..SHDR_SIZE] == ss[0].Encode();
      assert EncodeShdrs(ss)[SHDR_SIZE..] == EncodeShdrs(ss[1..]);
    }
  }

  lemma {:induction false} PhdrsBytesRoundTrip(b: seq<Octet>, n: nat)
    requires |b| == PHDR_SIZE * n
    ensures EncodePhdrs(DecodePhdrs(b, n)) == b
    ensures forall p | p in DecodePhdrs(b, n) :: p.WellFormed()
    decreases n
  {
    hide DecodePhdr, Phdr.Encode, Phdr.WellFormed;
    if n > 0 {
      PhdrBytesRoundTrip(b[..PHDR_SIZE]);
      PhdrsBytesRoundTrip(b[PHDR_SIZE..], n - 1);
      assert DecodePhdrs(b, n)[1..] == DecodePhdrs(b[PHDR_SIZE..], n - 1);
    }
  }

  lemma {:induction false} ShdrsBytesRoundTrip(b: seq<Octet>, n: nat)
    requires |b| == SHDR_SIZE * n
    ensures EncodeShdrs(DecodeShdrs(b, n)) == b
    ensures forall s | s in DecodeShdrs(b, n) :: s.WellFormed()
    decreases n
  {
    hide DecodeShdr, Shdr.Encode, Shdr.WellFormed;
    if n > 0 {
      ShdrBytesRoundTrip(b[..SHDR_SIZE]);
      ShdrsBytesRoundTrip(b[SHDR_SIZE..], n - 1);
      assert DecodeShdrs(b, n)[1..] == DecodeShdrs(b[SHDR_SIZE..], n - 1);
    }
  }

  // Reading

  /** Reading bytes that are there. */
  lemma ReadsWhatIsThere(file: seq<Octet>, c: Cursor, offset: nat, buffer: seq<Octet>)
    requires !c.failed
    ensures var (c', b) := Read(file, Seek(c, offset), buffer);
      if Within(file, offset, |buffer|) then !c'.failed && At(file, offset, b) else offset < LONG_LIMIT ==> c'.failed
  {
  }

  lemma OneAt(file: seq<Octet>, offset: nat, b: seq<Octet>, d: seq<Octet>)
    requires At(file, offset, b) && At(file, offset, d) && |b| == |d|
    ensures b == d
  {
  }

  lemma {:induction false} SectionsReadBack(file: seq<Octet>, c: Cursor, headers: seq<Shdr>, buffer: seq<Octet>)
    requires !c.failed && SectionsInside(file, headers)
    ensures var data := ReadSections(file, c, headers, buffer).1;
      && SectionsAt(file, headers, data)
      && forall i | 0 <= i < |headers| :: |data[i]| == headers[i].size
    decreases |headers|
  {
    if headers != [] {
      var resized := Resize(buffer, headers[0].size);
      var (c1, b) := Read(file, Seek(c, headers[0].offset), resized);
      assert Within(file, headers[0].offset, headers[0].size);
      ReadsWhatIsThere(file, c, headers[0].offset, resized);
      forall i | 0 <= i < |headers[1..]|
        ensures Within(file, headers[1..][i].offset, headers[1..][i].size)
      {
        assert headers[1..][i] == headers[i + 1];
      }
      SectionsReadBack(file, c1, headers[1..], b);
      var data := ReadSections(file, c, headers, buffer).1;
      forall i | 0 <= i < |headers|
        ensures At(file, headers[i].offset, data[i]) && |data[i]| == headers[i].size
      {
        if i > 0 {
          assert headers[1..][i - 1] == headers[i];
        }
      }
    }
  }

  lemma SectionsAreUnique(file: seq<Octet>, headers: seq<Shdr>, a: seq<seq<Octet>>, b: seq<seq<Octet>>)
    requires |headers| == |a| == |b|
    requires SectionsAt(file, headers, a) && SectionsAt(file, headers, b)
    requires forall i | 0 <= i < |headers| :: |a[i]| == headers[i].size && |b[i]| == headers[i].size
    ensures a == b
  {
  }

  lemma HeaderLength(file: seq<Octet>)
    ensures |ReadHeader(file).1.Encode()| == EHDR_SIZE
  {
    EhdrBytesRoundTrip(Read(file, Cursor(0, false), Zeros(EHDR_SIZE)).1);
  }

  lemma HeaderReadBack(file: seq<Octet>)
    requires |file| >= EHDR_SIZE
    ensures var (c, h) := ReadHeader(file);
      !c.failed && h.WellFormed() && At(file, 0, h.Encode()) && |h.Encode()| == EHDR_SIZE
  {
    var b := Read(file, Cursor(0, false), Zeros(EHDR_SIZE)).1;
    EhdrBytesRoundTrip(b);
    RecordSizes();
  }

  lemma ProgramHeadersReadBack(file: seq<Octet>, c: Cursor, h: Ehdr)
    requires !c.failed && DefinedTables(h) && EntriesFit(h)
    requires Within(file, h.phoff, PHDR_SIZE * h.phnum)
    ensures var (c', ps) := ReadProgramHeaders(file, c, h);
      !c'.failed && At(file, h.phoff, EncodePhdrs(ps)) && forall p | p in ps :: p.WellFormed()
  {
    var zeros := Zeros(h.phentsize * h.phnum);
    ReadsWhatIsThere(file, c, h.phoff, zeros);
    PhdrsBytesRoundTrip(Read(file, Seek(c, h.phoff), zeros).1, h.phnum);
  }

  lemma SectionHeadersReadBack(file: seq<Octet>, c: Cursor, h: Ehdr)
    requires !c.failed && DefinedTables(h) && EntriesFit(h)
    requires Within(file, h.shoff, SHDR_SIZE * h.shnum)
    ensures var (c', ss) := ReadSectionHeaders(file, c, h);
      !c'.failed && At(file, h.shoff, EncodeShdrs(ss)) && forall s | s in ss :: s.WellFormed()
  {
    var zeros := Zeros(h.shentsize * h.shnum);
    ReadsWhatIsThere(file, c, h.shoff, zeros);
    ShdrsBytesRoundTrip(Read(file, Seek(c, h.shoff), zeros).1, h.shnum);
  }

  lemma RepresentedIsInside(file: seq<Octet>, c: Contents)
    requires SizesAgree(c) && Represents(file, c) && |c.header.Encode()| == EHDR_SIZE
    requires |c.programHeaders| == c.header.phnum && |c.sectionHeaders| == c.header.shnum
    ensures Inside(file, c.header, c.sectionHeaders)
  {
    hide EncodePhdrs, EncodeShdrs, Ehdr.Encode;
    forall i | 0 <= i < |c.sectionHeaders|
      ensures Within(file, c.sectionHeaders[i].offset, c.sectionHeaders[i].size)
    {
      assert At(file, c.sectionHeaders[i].offset, c.sectionsData[i]);
    }
  }

  /** `c` is what the constructor reads, part by part. */
  predicate ReadAs(file: seq<Octet>, c: Contents) {
    var (c0, h) := ReadHeader(file);
    && c.header == h && IsElf(h) && DefinedTables(h)
    && var (c1, ps) := ReadProgramHeaders(file, c0, h);
       var (c2, ss) := ReadSectionHeaders(file, c1, h);
       && c.programHeaders == ps && c.sectionHeaders == ss
       && c.sectionsData == ReadSections(file, c2, ss, []).1
       && |ps| == h.phnum && |ss| == h.shnum == |c.sectionsData|
  }

  lemma ParsedIsReadAs(file: seq<Octet>)
    requires Defined(file) && Parse(file).Some?
    ensures ReadAs(file, Parse(file).value)
  {
  }

  lemma InsideIsRepresented(file: seq<Octet>, c: Contents)
    requires ReadAs(file, c) && Inside(file, c.header, c.sectionHeaders)
    requires EntriesFit(c.header)
    ensures WellFormed(c) && Represents(file, c)
  {
    hide ReadHeader, ReadProgramHeaders, ReadSectionHeaders, ReadSections;
    hide EncodePhdrs, EncodeShdrs, Ehdr.Encode, At, Within, DefinedTables, IsElf, Ehdr.WellFormed;
    HeaderReadBack(file);
    var c0 := ReadHeader(file).0;
    ProgramHeadersReadBack(file, c0, c.header);
    var c1 := ReadProgramHeaders(file, c0, c.header).0;
    SectionHeadersReadBack(file, c1, c.header);
    SectionsReadBack(file, ReadSectionHeaders(file, c1, c.header).0, c.sectionHeaders, []);
  }

  /** The constructor's result is in the file, byte for byte, exactly when every table and every
      section lies inside the file. A section without file bytes (SHT_NOBITS) counts too. */
  lemma ParsedIsInFileIff(file: seq<Octet>)
    requires Defined(file) && Parse(file).Some? && EntriesFit(Parse(file).value.header)
    ensures var c := Parse(file).value;
      SizesAgree(c) && Represents(file, c) <==> Inside(file, c.header, c.sectionHeaders)
  {
    ParsedIsReadAs(file);
    HeaderLength(file);
    ReadAsInFileIff(file, Parse(file).value);
  }

  lemma ReadAsInFileIff(file: seq<Octet>, c: Contents)
    requires ReadAs(file, c) && EntriesFit(c.header) && |ReadHeader(file).1.Encode()| == EHDR_SIZE
    ensures SizesAgree(c) && Represents(file, c) <==> Inside(file, c.header, c.sectionHeaders)
  {
    hide ReadHeader, ReadProgramHeaders, ReadSectionHeaders, ReadSections, Represents, Inside, EntriesFit;
    if Inside(file, c.header, c.sectionHeaders) {
      InsideIsRepresented(file, c);
    } else if SizesAgree(c) && Represents(file, c) {
      RepresentedIsInside(file, c);
    }
  }

  // Writing

  lemma HeaderIsRead(file: seq<Octet>, h: Ehdr)
    requires h.WellFormed() && At(file, 0, h.Encode())
    ensures |file| >= EHDR_SIZE && !ReadHeader(file).0.failed && ReadHeader(file).1 == h
  {
    EhdrRoundTrip(h);
    HeaderReadBack(file);
    OneAt(file, 0, ReadHeader(file).1.Encode(), h.Encode());
    EhdrRoundTrip(ReadHeader(file).1);
  }

  lemma ProgramHeadersAreRead(file: seq<Octet>, c: Cursor, h: Ehdr, ps: seq<Phdr>)
    requires !c.failed && DefinedTables(h) && EntriesFit(h) && h.phnum == |ps|
    requires At(file, h.phoff, EncodePhdrs(ps)) && forall p | p in ps :: p.WellFormed()
    ensures !ReadProgramHeaders(file, c, h).0.failed && ReadProgramHeaders(file, c, h).1 == ps
  {
    ProgramHeadersReadBack(file, c, h);
    var read := ReadProgramHeaders(file, c, h).1;
    OneAt(file, h.phoff, EncodePhdrs(read), EncodePhdrs(ps));
    PhdrsRoundTrip(read);
    PhdrsRoundTrip(ps);
  }

  lemma SectionHeadersAreRead(file: seq<Octet>, c: Cursor, h: Ehdr, ss: seq<Shdr>)
    requires !c.failed && DefinedTables(h) && EntriesFit(h) && h.shnum == |ss|
    requires At(file, h.shoff, EncodeShdrs(ss)) && forall s | s in ss :: s.WellFormed()
    ensures !ReadSectionHeaders(file, c, h).0.failed && ReadSectionHeaders(file, c, h).1 == ss
  {
    SectionHeadersReadBack(file, c, h);
    var read := ReadSectionHeaders(file, c, h).1;
    OneAt(file, h.shoff, EncodeShdrs(read), EncodeShdrs(ss));
    ShdrsRoundTrip(read);
    ShdrsRoundTrip(ss);
  }

  lemma SectionsAreRead(file: seq<Octet>, c: Cursor, headers: seq<Shdr>, data: seq<seq<Octet>>)
    requires !c.failed && |headers| == |data| && SectionsAt(file, headers, data)
    requires forall i | 0 <= i < |headers| :: |data[i]| == headers[i].size
    ensures ReadSections(file, c, headers, []).1 == data
  {
    forall i | 0 <= i < |headers|
      ensures Within(file, headers[i].offset, headers[i].size)
    {
      assert At(file, headers[i].offset, data[i]);
    }
    SectionsReadBack(file, c, headers, []);
    SectionsAreUnique(file, headers, ReadSections(file, c, headers, []).1, data);
  }

  lemma TablesAreSmall(c: Contents)
    requires WellFormed(c)
    ensures DefinedTables(c.header)
  {
    var v := c.header.Values();
    assert v[8] < Pow256(EHDR[8]) && v[9] == |c.programHeaders| && v[11] == |c.sectionHeaders|;
    assert v[9] < Pow256(EHDR[9]) && v[11] < Pow256(EHDR[11]);
    assert Pow256(2) == 65536;
  }

  /** Writing well-formed contents into a file and reading it: the same contents, for every layout. */
  lemma RoundTrip(file: seq<Octet>, c: Contents)
    requires WellFormed(c) && Represents(file, c)
    requires forall s | s in c.sectionHeaders :: s.size < INT_LIMIT
    ensures Defined(file) && Parse(file) == Some(c)
  {
    hide ReadHeader, ReadProgramHeaders, ReadSectionHeaders, ReadSections, EncodePhdrs, EncodeShdrs;
    hide IsElf, Ehdr.WellFormed, Ehdr.Encode, At, DefinedTables;
    TablesAreSmall(c);
    HeaderIsRead(file, c.header);
    var c0 := ReadHeader(file).0;
    ProgramHeadersAreRead(file, c0, c.header, c.programHeaders);
    var c1 := ReadProgramHeaders(file, c0, c.header).0;
    SectionHeadersAreRead(file, c1, c.header, c.sectionHeaders);
    SectionsAreRead(file, ReadSectionHeaders(file, c1, c.header).0, c.sectionHeaders, c.sectionsData);
  }

  // A section outside the file

  /** Once the stream has failed, the rest of the sections no longer depends on the file. */
  lemma {:induction false} FailedReadsIgnoreFile(file: seq<Octet>, other: seq<Octet>, c: Cursor,
                                                 headers: seq<Shdr>, buffer: seq<Octet>)
    requires c.failed
    ensures ReadSections(file, c, headers, buffer) == ReadSections(other, c, headers, buffer)
    decreases |headers|
  {
    if headers != [] {
      FailedReadsIgnoreFile(file, other, c, headers[1..], Resize(buffer, headers[0].size));
    }
  }

  /** After a section that reaches past the end of the file, the bytes of every later section are
      whatever that section left in the buffer: two files that agree on it give the same result,
      however they differ in the later sections' own bytes. */
  lemma OutsideSectionHidesLaterOnes(file: seq<Octet>, c: Cursor, outside: Shdr, later: seq<Shdr>,
                                     buffer: seq<Octet>, other: seq<Octet>)
    requires !c.failed && outside.offset < LONG_LIMIT && !Within(file, outside.offset, outside.size)
    requires Read(other, Seek(c, outside.offset), Resize(buffer, outside.size))
          == Read(file, Seek(c, outside.offset), Resize(buffer, outside.size))
    ensures ReadSections(other, c, [outside] + later, buffer) == ReadSections(file, c, [outside] + later, buffer)
  {
    var resized := Resize(buffer, outside.size);
    ReadsWhatIsThere(file, c, outside.offset, resized);
    var (c1, b) := Read(file, Seek(c, outside.offset), resized);
    FailedReadsIgnoreFile(file, other, c1, later, b);
    assert ([outside] + later)[1..] == later;
  }

  // A serialiser

  datatype Region = Region(offset: nat, bytes: seq<Octet>) {
    function End(): nat { offset + |bytes| }
  }

  predicate Apart(r: Region, q: Region) {
    r.bytes == [] || q.bytes == [] || r.End() <= q.offset || q.End() <= r.offset
  }

  function Regions(c: Contents): seq<Region>
    requires |c.sectionHeaders| == |c.sectionsData|
  {
    [Region(0, c.header.Encode()),
     Region(c.header.phoff, EncodePhdrs(c.programHeaders)),
     Region(c.header.shoff, EncodeShdrs(c.sectionHeaders))]
    + seq(|c.sectionHeaders|, i requires 0 <= i < |c.sectionHeaders| =>
        Region(c.sectionHeaders[i].offset, c.sectionsData[i]))
  }

  function Write(file: seq<Octet>, r: Region): (w: seq<Octet>)
    requires r.bytes != [] ==> r.End() <= |file|
    ensures |w| == |file|
  {
    if r.bytes == [] then file else file[..r.offset] + r.bytes + file[r.End()..]
  }

  predicate Fitting(file: seq<Octet>, rs: seq<Region>) {
    forall i | 0 <= i < |rs| :: rs[i].bytes != [] ==> rs[i].End() <= |file|
  }

  function WriteAll(file: seq<Octet>, rs: seq<Region>): (w: seq<Octet>)
    requires Fitting(file, rs)
    ensures |w| == |file|
    decreases |rs|
  {
    if rs == [] then file else WriteAll(Write(file, rs[0]), rs[1..])
  }

  predicate AllApart(rs: seq<Region>) {
    forall i, j | 0 <= i < j < |rs| :: Apart(rs[i], rs[j])
  }

  lemma WriteKeeps(file: seq<Octet>, written: Region, r: Region)
    requires (written.bytes != [] ==> written.End() <= |file|) && Apart(r, written)
    requires At(file, r.offset, r.bytes)
    ensures At(Write(file, written), r.offset, r.bytes)
  {
    var w := Write(file, written);
    if r.bytes != [] {
      forall i | r.offset <= i < r.End()
        ensures w[i] == file[i]
      {
      }
      assert w[r.offset..r.End()] == file[r.offset..r.End()];
    }
  }

  lemma {:induction false} WriteAllKeeps(file: seq<Octet>, rs: seq<Region>, r: Region)
    requires Fitting(file, rs) && At(file, r.offset, r.bytes)
    requires forall i | 0 <= i < |rs| :: Apart(r, rs[i])
    ensures At(WriteAll(file, rs), r.offset, r.bytes)
    decreases |rs|
  {
    if rs != [] {
      assert Apart(r, rs[0]);
      var w := Write(file, rs[0]);
      WriteKeeps(file, rs[0], r);
      WriteAllKeeps(w, rs[1..], r);
    }
  }

  lemma {:induction false} WriteAllHas(file: seq<Octet>, rs: seq<Region>, k: nat)
    requires Fitting(file, rs) && AllApart(rs) && k < |rs| && rs[k].offset < LONG_LIMIT
    ensures At(WriteAll(file, rs), rs[k].offset, rs[k].bytes)
    decreases |rs|
  {
    var w := Write(file, rs[0]);
    forall i, j | 0 <= i < j < |rs[1..]|
      ensures Apart(rs[1..][i], rs[1..][j])
    {
      assert rs[1..][i] == rs[i + 1] && rs[1..][j] == rs[j + 1];
    }
    if k == 0 {
      if rs[0].bytes != [] {
        assert w[rs[0].offset..rs[0].End()] == rs[0].bytes;
      }
      WriteAllKeeps(w, rs[1..], rs[0]);
    } else {
      assert rs[1..][k - 1] == rs[k];
      WriteAllHas(w, rs[1..], k - 1);
    }
  }

  /** A file of the given length with the contents written at the offsets their headers name. */
  function Serialise(c: Contents, length: nat): seq<Octet>
    requires |c.sectionHeaders| == |c.sectionsData|
    requires Fitting(Zeros(length), Regions(c))
  {
    WriteAll(Zeros(length), Regions(c))
  }

  /** Serialising contents whose parts do not overlap, in any order and with any gaps, and running the
      constructor gives the contents back. */
  lemma SerialiseRoundTrip(c: Contents, length: nat)
    requires WellFormed(c) && Fitting(Zeros(length), Regions(c)) && AllApart(Regions(c))
    requires forall r | r in Regions(c) :: r.offset < LONG_LIMIT
    requires forall s | s in c.sectionHeaders :: s.size < INT_LIMIT
    ensures Defined(Serialise(c, length)) && Parse(Serialise(c, length)) == Some(c)
  {
    SerialiseRepresents(c, length);
    RoundTrip(Serialise(c, length), c);
  }

  lemma SerialiseRepresents(c: Contents, length: nat)
    requires |c.sectionHeaders| == |c.sectionsData|
    requires Fitting(Zeros(length), Regions(c)) && AllApart(Regions(c))
    requires forall r | r in Regions(c) :: r.offset < LONG_LIMIT
    ensures Represents(Serialise(c, length), c)
  {
    hide EncodePhdrs, EncodeShdrs, Ehdr.Encode, WriteAll, AllApart, At;
    var file, rs := Serialise(c, length), Regions(c);
    forall k: nat | k < |rs|
      ensures At(file, rs[k].offset, rs[k].bytes)
    {
      assert rs[k] in rs;
      WriteAllHas(Zeros(length), rs, k);
    }
    assert rs[0] == Region(0, c.header.Encode());
    assert rs[1] == Region(c.header.phoff, EncodePhdrs(c.programHeaders));
    assert rs[2] == Region(c.header.shoff, EncodeShdrs(c.sectionHeaders));
    forall i | 0 <= i < |c.sectionHeaders|
      ensures At(file, c.sectionHeaders[i].offset, c.sectionsData[i])
    {
      assert rs[3 + i] == Region(c.sectionHeaders[i].offset, c.sectionsData[i]);
    }
  }

  // The premises can be met

  lemma {:induction false} WidthsHoldBytes(widths: seq<nat>, values: seq<nat>)
    requires |widths| == |values|
    requires forall i | 0 <= i < |widths| :: widths[i] > 0 && values[i] < 256
    ensures Fits(widths, values)
  {
    forall i | 0 <= i < |widths|
      ensures values[i] < Pow256(widths[i])
    {
      BytesInPow(widths[i]);
    }
  }

  lemma {:induction false} BytesInPow(w: nat)
    requires w > 0
    ensures Pow256(w) >= 256
    decreases w
  {
    if w > 1 {
      BytesInPow(w - 1);
    }
  }

  /** Three bytes of one section after the header, then the section header table. */
  function Example(): Contents {
    var ident: seq<Octet> := [0x7F, 'E' as nat, 'L' as nat, 'F' as nat, 2, 1, 1, 0, 0, 0, 0, 0, 0, 0, 0, 0];
    Contents(
      Ehdr(ident, 2, 62, 1, 0, 64, 67, 0, 64, PHDR_SIZE, 0, SHDR_SIZE, 1, 0),
      [], [Shdr(0, 3, 0, 0, 64, 3, 0, 0, 1, 0)], [[0, 65, 0]])
  }

  lemma ExampleMeetsPremises()
    ensures WellFormed(Example())
    ensures Fitting(Zeros(131), Regions(Example())) && AllApart(Regions(Example()))
    ensures forall r | r in Regions(Example()) :: r.offset < LONG_LIMIT
  {
    hide Regions, AllApart, Fitting, WellFormed, Ehdr.Encode, Ehdr.WellFormed, Shdr.WellFormed;
    var c := Example();
    ExampleHeaderFits(c.header);
    ExampleSectionFits(c.sectionHeaders[0]);
    EhdrRoundTrip(c.header);
    ExampleIsWellFormed(c);
    ExampleRegions(c);
  }

  lemma ExampleIsWellFormed(c: Contents)
    requires c == Example() && c.header.WellFormed() && c.sectionHeaders[0].WellFormed()
    ensures WellFormed(c)
  {
    hide Ehdr.WellFormed, Shdr.WellFormed;
  }

  lemma ExampleHeaderFits(h: Ehdr)
    requires h == Example().header
    ensures h.WellFormed()
  {
    hide Fits;
    WidthsHoldBytes(EHDR, h.Values());
  }

  lemma ExampleSectionFits(s: Shdr)
    requires s == Example().sectionHeaders[0]
    ensures s.WellFormed()
  {
    hide Fits;
    WidthsHoldBytes(SHDR, s.Values());
  }

  lemma ExampleRegions(c: Contents)
    requires c == Example() && |c.header.Encode()| == EHDR_SIZE
    ensures Fitting(Zeros(131), Regions(c)) && AllApart(Regions(c))
    ensures forall r | r in Regions(c) :: r.offset < LONG_LIMIT
  {
    hide EncodeShdrs, EncodePhdrs, Ehdr.Encode;
    var rs := Regions(c);
    assert |EncodePhdrs([])| == 0 && |EncodeShdrs(c.sectionHeaders)| == SHDR_SIZE;
    assert |rs| == 4 && rs[3] == Region(64, [0, 65, 0]);
  }
}
