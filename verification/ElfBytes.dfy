/** What the constructor returns, byte for byte, for every file: also where the file is too short. */
module ElfBytes {
  import opened ElfCodec
  import opened ElfFile
  import opened ElfLayout
  import opened Options

  /** Reading fills the buffer from the file as far as the file goes and keeps the rest of it. The stream
      fails exactly when the file ends first. */
  lemma ReadGivesBytes(file: seq<Octet>, c: Cursor, buffer: seq<Octet>)
    requires !c.failed
    ensures var (c', b) := Read(file, c, buffer);
      && (forall k | 0 <= k < |buffer| :: b[k] == if c.pos + k < |file| then file[c.pos + k] else buffer[k])
      && (c'.failed <==> buffer != [] && c.pos + |buffer| > |file|)
      && (!c'.failed ==> c'.pos == c.pos + |buffer|)
  {
  }

  /** Reading at an offset that is negative as a `long`, or on a failed stream, fails and leaves the buffer
      alone. */
  lemma ReadsNothing(file: seq<Octet>, c: Cursor, offset: nat, buffer: seq<Octet>)
    requires c.failed || offset >= 0x8000_0000_0000_0000
    ensures Read(file, Seek(c, offset), buffer).0.failed && Read(file, Seek(c, offset), buffer).1 == buffer
  {
  }

  /** The file is rejected exactly when it does not start with 0x7F, 'E', 'L', 'F'. */
  lemma RejectedIff(file: seq<Octet>)
    requires Defined(file)
    ensures Parse(file).None? <==> !(|file| >= 4 && file[..4] == [0x7F, 0x45, 0x4C, 0x46])
  {
    hide DecodeFields, ReadProgramHeaders, ReadSectionHeaders, ReadSections, DefinedTables, Total, Read, Zeros;
    var b := Read(file, Cursor(0, false), Zeros(64)).1;
    HeaderBytes(file);
    assert b[..16][..4] == b[..4];
  }

  /** The bytes the header is taken from: the file's first 64, zeros behind its end. */
  lemma HeaderBytes(file: seq<Octet>)
    ensures var b := Read(file, Cursor(0, false), Zeros(64)).1;
      && |b| == 64 && (forall k | 0 <= k < 64 :: b[k] == if k < |file| then file[k] else 0)
      && (|file| >= 64 ==> b == file[..64])
      && ReadHeader(file).1 == DecodeEhdr(b)
      && DecodeEhdr(b).ident == b[..16]
      && (ReadHeader(file).0.failed <==> |file| < 64)
  {
    hide DecodeEhdr;
    ReadGivesBytes(file, Cursor(0, false), Zeros(64));
    EhdrLayout(Read(file, Cursor(0, false), Zeros(64)).1);
  }

  // Tables

  lemma {:induction false} PhdrIsSlice(b: seq<Octet>, n: nat, k: nat)
    requires |b| >= 56 * n && k < n
    ensures DecodePhdrs(b, n)[k] == DecodePhdr(b[56 * k..56 * k + 56])
    decreases n
  {
    hide DecodePhdr;
    if k > 0 {
      PhdrIsSlice(b[56..], n - 1, k - 1);
      assert b[56..][56 * (k - 1)..56 * (k - 1) + 56] == b[56 * k..56 * k + 56];
    }
  }

  lemma {:induction false} ShdrIsSlice(b: seq<Octet>, n: nat, k: nat)
    requires |b| >= 64 * n && k < n
    ensures DecodeShdrs(b, n)[k] == DecodeShdr(b[64 * k..64 * k + 64])
    decreases n
  {
    hide DecodeShdr;
    if k > 0 {
      ShdrIsSlice(b[64..], n - 1, k - 1);
      assert b[64..][64 * (k - 1)..64 * (k - 1) + 64] == b[64 * k..64 * k + 64];
    }
  }

  /** The `size` bytes from `at` are in the file. */
  predicate InFile(file: seq<Octet>, at: nat, size: nat) {
    at + size <= |file|
  }

  /** Seeking to `at` works, and a table of `count` entries can be read there. */
  predicate CanRead(file: seq<Octet>, at: nat, entry: nat, count: nat) {
    at < 0x8000_0000_0000_0000 && (entry * count == 0 || InFile(file, at, entry * count))
  }

  lemma ReadsSlice(file: seq<Octet>, c: Cursor, at: nat, size: nat, from: nat, n: nat)
    requires !c.failed && at < 0x8000_0000_0000_0000
    requires from + n <= size && InFile(file, at + from, n)
    ensures var (c', b) := Read(file, Seek(c, at), Zeros(size));
      b[from..from + n] == file[at + from..at + from + n]
  {
    hide Read;
    ReadGivesBytes(file, Seek(c, at), Zeros(size));
  }

  lemma ReadSucceeds(file: seq<Octet>, c: Cursor, at: nat, entry: nat, count: nat)
    requires !c.failed && CanRead(file, at, entry, count)
    ensures !Read(file, Seek(c, at), Zeros(entry * count)).0.failed
  {
  }

  lemma ProgramHeaderIsSlice(file: seq<Octet>, c: Cursor, h: Ehdr, k: nat)
    requires !c.failed && DefinedTables(h) && k < h.phnum
    requires h.phoff < 0x8000_0000_0000_0000 && InFile(file, h.phoff + 56 * k, 56)
    ensures |ReadProgramHeaders(file, c, h).1| == h.phnum
    ensures ReadProgramHeaders(file, c, h).1[k] == DecodePhdr(file[h.phoff + 56 * k..h.phoff + 56 * k + 56])
  {
    hide DecodePhdr, DecodePhdrs, Read, Seek, Zeros;
    ReadsSlice(file, c, h.phoff, h.phentsize * h.phnum, 56 * k, 56);
    PhdrIsSlice(Read(file, Seek(c, h.phoff), Zeros(h.phentsize * h.phnum)).1, h.phnum, k);
  }

  lemma SectionHeaderIsSlice(file: seq<Octet>, c: Cursor, h: Ehdr, k: nat)
    requires !c.failed && DefinedTables(h) && k < h.shnum
    requires h.shoff < 0x8000_0000_0000_0000 && InFile(file, h.shoff + 64 * k, 64)
    ensures |ReadSectionHeaders(file, c, h).1| == h.shnum
    ensures ReadSectionHeaders(file, c, h).1[k] == DecodeShdr(file[h.shoff + 64 * k..h.shoff + 64 * k + 64])
  {
    hide DecodeShdr, DecodeShdrs, Read, Seek, Zeros;
    ReadsSlice(file, c, h.shoff, h.shentsize * h.shnum, 64 * k, 64);
    ShdrIsSlice(Read(file, Seek(c, h.shoff), Zeros(h.shentsize * h.shnum)).1, h.shnum, k);
  }

  /** Every program header that is in the file is read from it, 56 bytes each, from the offset at byte 32. */
  lemma ProgramHeadersAreInFile(file: seq<Octet>, k: nat)
    requires |file| >= 64 && Defined(file) && Parse(file).Some?
    requires k < U16(file, 56)
    requires U64(file, 32) < 0x8000_0000_0000_0000 && InFile(file, U64(file, 32) + 56 * k, 56)
    ensures var at := U64(file, 32) + 56 * k;
      && |Parse(file).value.programHeaders| == U16(file, 56)
      && Parse(file).value.programHeaders[k] == DecodePhdr(file[at..at + 56])
  {
    hide DecodeEhdr, DecodePhdr, DecodePhdrs, Read, Zeros, ReadHeader, ReadProgramHeaders, ReadSectionHeaders;
    hide DefinedTables, IsElf, U16, U32, U64;
    HeaderBytes(file);
    FileHeader(file);
    var (c, h) := ReadHeader(file);
    ProgramHeaderIsSlice(file, c, h, k);
  }

  /** Every section header that is in the file is read from it, 64 bytes each, from the offset at byte 40,
      unless the program headers could not be read. */
  lemma SectionHeadersAreInFile(file: seq<Octet>, k: nat)
    requires |file| >= 64 && Defined(file) && Parse(file).Some?
    requires CanRead(file, U64(file, 32), U16(file, 54), U16(file, 56))
    requires k < U16(file, 60)
    requires U64(file, 40) < 0x8000_0000_0000_0000 && InFile(file, U64(file, 40) + 64 * k, 64)
    ensures var at := U64(file, 40) + 64 * k;
      && |Parse(file).value.sectionHeaders| == U16(file, 60)
      && Parse(file).value.sectionHeaders[k] == DecodeShdr(file[at..at + 64])
  {
    hide DecodeEhdr, DecodeShdr, DecodeShdrs, Read, Zeros, ReadHeader, ReadSectionHeaders;
    hide DefinedTables, IsElf, U16, U32, U64, CanRead;
    HeaderBytes(file);
    FileHeader(file);
    var (c, h) := ReadHeader(file);
    ReadSucceeds(file, c, h.phoff, h.phentsize, h.phnum);
    SectionHeaderIsSlice(file, ReadProgramHeaders(file, c, h).0, h, k);
  }

  /** The header's fields in a whole file. */
  lemma FileHeader(file: seq<Octet>)
    requires |file| >= 64
    ensures var h := DecodeEhdr(file[..64]);
      && h.phoff == U64(file, 32) && h.shoff == U64(file, 40)
      && h.phentsize == U16(file, 54) && h.phnum == U16(file, 56)
      && h.shentsize == U16(file, 58) && h.shnum == U16(file, 60)
  {
    hide DecodeEhdr;
    EhdrLayout(file[..64]);
  }

  // Sections

  /** What a failed stream leaves in a section: the bytes the buffer held before, as far as no section in
      between was too short to keep them, and zeros. */
  lemma {:induction false} FailedSectionsAreStale(file: seq<Octet>, c: Cursor, headers: seq<Shdr>,
                                                  buffer: seq<Octet>, i: nat, k: nat)
    requires c.failed && i < |headers| && k < headers[i].size
    ensures var data := ReadSections(file, c, headers, buffer).1;
      && |data[i]| == headers[i].size
      && data[i][k] == if k < |buffer| && forall j | 0 <= j < i :: k < headers[j].size then buffer[k] else 0
    decreases i
  {
    var resized := Resize(buffer, headers[0].size);
    if i > 0 {
      assert headers[1..][i - 1] == headers[i];
      assert forall j | 1 <= j < i :: headers[1..][j - 1] == headers[j];
      FailedSectionsAreStale(file, c, headers[1..], resized, i - 1, k);
    }
  }
}
