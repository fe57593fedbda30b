/** Reading an ELF64 file into memory, as `ElfFile`'s constructor does. */
module ElfFile {
  import opened ElfCodec
  import opened Options

  datatype Contents = Contents(
    header: Ehdr,
    programHeaders: seq<Phdr>,
    sectionHeaders: seq<Shdr>,
    sectionsData: seq<seq<Octet>>)

  // The input stream

  /** A `long` offset from 2^63 on is negative, and seeking to it fails. */
  const LONG_LIMIT: nat := 0x8000_0000_0000_0000

  /** Read sizes are cast to `int`. */
  const INT_LIMIT: nat := 0x8000_0000

  /** Position and failbit of an `ifstream`. */
  datatype Cursor = Cursor(pos: nat, failed: bool)

  /** `seekg` does nothing on a failed stream; it may go past the end of the file. */
  function Seek(c: Cursor, offset: nat): Cursor {
    if c.failed then c
    else if offset >= LONG_LIMIT then c.(failed := true)
    else c.(pos := offset)
  }

  /** `read` into all of `buffer`. A failed stream leaves the buffer alone; at the end of the file the
      rest of the buffer is left alone and the stream fails. */
  function Read(file: seq<Octet>, c: Cursor, buffer: seq<Octet>): (r: (Cursor, seq<Octet>))
    ensures |r.1| == |buffer|
  {
    if c.failed || buffer == [] then (c, buffer)
    else if c.pos + |buffer| <= |file| then
      (c.(pos := c.pos + |buffer|), file[c.pos..c.pos + |buffer|])
    else
      var rest := if c.pos <= |file| then file[c.pos..] else [];
      (Cursor(c.pos + |rest|, true), rest + buffer[|rest|..])
  }

  function Zeros(n: nat): (b: seq<Octet>)
    ensures |b| == n && forall k | 0 <= k < n :: b[k] == 0
  {
    seq(n, _ => 0)
  }

  /** `resize` of a string or vector of bytes. */
  function Resize(b: seq<Octet>, n: nat): (r: seq<Octet>)
    ensures |r| == n
  {
    if n <= |b| then b[..n] else b + Zeros(n - |b|)
  }

  class InputStream {
    const file: seq<Octet>
    var cursor: Cursor

    constructor (file: seq<Octet>)
      ensures this.file == file && cursor == Cursor(0, false)
    {
      this.file := file;
      cursor := Cursor(0, false);
    }

    method SeekTo(offset: nat)
      modifies this
      ensures cursor == Seek(old(cursor), offset)
    {
      if !cursor.failed {
        if offset >= LONG_LIMIT {
          cursor := cursor.(failed := true);
        } else {
          cursor := cursor.(pos := offset);
        }
      }
    }

    method ReadInto(buffer: seq<Octet>) returns (filled: seq<Octet>)
      modifies this
      ensures (cursor, filled) == Read(file, old(cursor), buffer)
    {
      filled := buffer;
      if !cursor.failed && buffer != [] {
        if cursor.pos + |buffer| <= |file| {
          filled := file[cursor.pos..cursor.pos + |buffer|];
          cursor := cursor.(pos := cursor.pos + |buffer|);
        } else {
          var rest := if cursor.pos <= |file| then file[cursor.pos..] else [];
          filled := rest + buffer[|rest|..];
          cursor := Cursor(cursor.pos + |rest|, true);
        }
      }
    }
  }

  // What the constructor computes

  predicate IsElf(h: Ehdr) {
    && |h.ident| >= 4 && h.ident[0] == 0x7F
    && h.ident[1] == 'E' as nat && h.ident[2] == 'L' as nat && h.ident[3] == 'F' as nat
  }

  /** `count` consecutive records from the start of a buffer. */
  function DecodePhdrs(b: seq<Octet>, count: nat): (r: seq<Phdr>)
    requires |b| >= PHDR_SIZE * count
    ensures |r| == count
  {
    if count == 0 then [] else [DecodePhdr(b[..PHDR_SIZE])] + DecodePhdrs(b[PHDR_SIZE..], count - 1)
  }

  function DecodeShdrs(b: seq<Octet>, count: nat): (r: seq<Shdr>)
    requires |b| >= SHDR_SIZE * count
    ensures |r| == count
  {
    if count == 0 then [] else [DecodeShdr(b[..SHDR_SIZE])] + DecodeShdrs(b[SHDR_SIZE..], count - 1)
  }

  function ReadHeader(file: seq<Octet>): (Cursor, Ehdr) {
    var (c, b) := Read(file, Cursor(0, false), Zeros(EHDR_SIZE));
    (c, DecodeEhdr(b))
  }

  /** Entry sizes that cover the structures read from the tables, and tables below 2 GB; the
      constructor has undefined behaviour otherwise. */
  predicate DefinedTables(h: Ehdr) {
    && PHDR_SIZE * h.phnum <= h.phentsize * h.phnum < INT_LIMIT
    && SHDR_SIZE * h.shnum <= h.shentsize * h.shnum < INT_LIMIT
  }

  function ReadProgramHeaders(file: seq<Octet>, c: Cursor, h: Ehdr): (r: (Cursor, seq<Phdr>))
    requires DefinedTables(h)
  {
    var (c', b) := Read(file, Seek(c, h.phoff), Zeros(h.phentsize * h.phnum));
    (c', DecodePhdrs(b, h.phnum))
  }

  function ReadSectionHeaders(file: seq<Octet>, c: Cursor, h: Ehdr): (r: (Cursor, seq<Shdr>))
    requires DefinedTables(h)
  {
    var (c', b) := Read(file, Seek(c, h.shoff), Zeros(h.shentsize * h.shnum));
    (c', DecodeShdrs(b, h.shnum))
  }

  /** Each section's bytes, all read through the same buffer. */
  function ReadSections(file: seq<Octet>, c: Cursor, headers: seq<Shdr>, buffer: seq<Octet>)
    : (r: (Cursor, seq<seq<Octet>>))
    ensures |r.1| == |headers|
    decreases |headers|
  {
    if headers == [] then (c, [])
    else
      var (c1, b) := Read(file, Seek(c, headers[0].offset), Resize(buffer, headers[0].size));
      var (c2, rest) := ReadSections(file, c1, headers[1..], b);
      (c2, [b] + rest)
  }

  /** The constructor's behaviour is defined for this file. */
  predicate Defined(file: seq<Octet>) {
    var (c0, h) := ReadHeader(file);
    IsElf(h) ==>
      && DefinedTables(h)
      && var c1 := ReadProgramHeaders(file, c0, h).0;
         forall s | s in ReadSectionHeaders(file, c1, h).1 :: s.size < INT_LIMIT
  }

  /** `None` where the constructor throws "Not an ELF file". */
  function Parse(file: seq<Octet>): Option<Contents>
    requires Defined(file)
  {
    var (c0, h) := ReadHeader(file);
    if !IsElf(h) then None
    else
      var (c1, phs) := ReadProgramHeaders(file, c0, h);
      var (c2, shs) := ReadSectionHeaders(file, c1, h);
      Some(Contents(h, phs, shs, ReadSections(file, c2, shs, []).1))
  }

  /** The loop over the section headers, with its one reused buffer. */
  method ReadSectionsData(input: InputStream, headers: seq<Shdr>) returns (sectionsData: seq<seq<Octet>>)
    modifies input
    ensures input.cursor == ReadSections(input.file, old(input.cursor), headers, []).0
    ensures sectionsData == ReadSections(input.file, old(input.cursor), headers, []).1
  {
    hide Read, Resize, Seek;
    ghost var all := ReadSections(input.file, input.cursor, headers, []);
    var buffer: seq<Octet> := [];
    sectionsData := [];
    assert headers[0..] == headers;
    for i := 0 to |headers|
      invariant all.0 == ReadSections(input.file, input.cursor, headers[i..], buffer).0
      invariant all.1 == sectionsData + ReadSections(input.file, input.cursor, headers[i..], buffer).1
    {
      ghost var left := headers[i..];
      assert left[0] == headers[i] && left[1..] == headers[i + 1..];
      ghost var before := sectionsData;
      buffer := Resize(buffer, headers[i].size);
      input.SeekTo(headers[i].offset);
      buffer := input.ReadInto(buffer);
      sectionsData := sectionsData + [buffer];
      ghost var rest := ReadSections(input.file, input.cursor, headers[i + 1..], buffer).1;
      assert sectionsData + rest == before + ([buffer] + rest);
    }
  }

  /** The constructor: `None` for either exception it throws, `file` being `None` where it cannot be
      opened. */
  method Open(file: Option<seq<Octet>>) returns (elf: Option<Contents>)
    requires file.Some? ==> Defined(file.value)
    ensures elf == if file.None? then None else Parse(file.value)
  {
    if file.None? {
      return None;
    }
    var input := new InputStream(file.value);
    var headerData := input.ReadInto(Zeros(EHDR_SIZE));
    var header := DecodeEhdr(headerData);
    if !IsElf(header) {
      return None;
    }
    input.SeekTo(header.phoff);
    var programData := input.ReadInto(Zeros(header.phentsize * header.phnum));
    var programHeaders := DecodePhdrs(programData, header.phnum);
    input.SeekTo(header.shoff);
    var sectionData := input.ReadInto(Zeros(header.shentsize * header.shnum));
    var sectionHeaders := DecodeShdrs(sectionData, header.shnum);
    var sectionsData := ReadSectionsData(input, sectionHeaders);
    elf := Some(Contents(header, programHeaders, sectionHeaders, sectionsData));
  }
}
