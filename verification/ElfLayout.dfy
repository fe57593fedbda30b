/** Where the fields of the four ELF64 records lie, as sums of literal bytes (System V ABI, chapter 4). */
module ElfLayout {
  import opened ElfCodec

  function U16(b: seq<nat>, at: nat): nat
    requires at + 2 <= |b|
  {
    b[at] + 0x100 * b[at + 1]
  }

  function U32(b: seq<nat>, at: nat): nat
    requires at + 4 <= |b|
  {
    b[at] + 0x100 * b[at + 1] + 0x1_0000 * b[at + 2] + 0x100_0000 * b[at + 3]
  }

  function U64(b: seq<nat>, at: nat): nat
    requires at + 8 <= |b|
  {
    b[at] + 0x100 * b[at + 1] + 0x1_0000 * b[at + 2] + 0x100_0000 * b[at + 3]
    + 0x1_0000_0000 * b[at + 4] + 0x100_0000_0000 * b[at + 5]
    + 0x1_0000_0000_0000 * b[at + 6] + 0x100_0000_0000_0000 * b[at + 7]
  }

  /** Where field `k` starts. */
  function Offset(widths: seq<nat>, k: nat): nat
    requires k <= |widths|
  {
    if k == 0 then 0 else widths[0] + Offset(widths[1..], k - 1)
  }

  lemma {:induction false} FieldIsSlice(widths: seq<nat>, b: seq<Octet>, k: nat)
    requires |b| == Total(widths) && k < |widths|
    ensures Offset(widths, k + 1) == Offset(widths, k) + widths[k] <= |b|
    ensures DecodeFields(widths, b)[k] == FromLE(b[Offset(widths, k)..Offset(widths, k) + widths[k]])
    decreases k
  {
    hide FromLE;
    var w, rest := widths[0], b[widths[0]..];
    if k == 0 {
      assert Offset(widths[1..], 0) == 0;
    } else {
      FieldIsSlice(widths[1..], rest, k - 1);
      var o := Offset(widths[1..], k - 1);
      assert rest[o..o + widths[k]] == b[w + o..w + o + widths[k]];
    }
  }

  lemma FirstOffset(widths: seq<nat>)
    ensures Offset(widths, 0) == 0
  {
  }

  lemma LowByteFirst(b: seq<Octet>, at: nat, w: nat)
    requires 0 < w && at + w <= |b|
    ensures FromLE(b[at..at + w]) == b[at] + 0x100 * FromLE(b[at + 1..at + w])
  {
    assert b[at..at + w][1..] == b[at + 1..at + w];
  }

  lemma NoBytes(b: seq<Octet>, at: nat)
    requires at <= |b|
    ensures FromLE(b[at..at]) == 0
  {
  }

  lemma LiteralBytes(b: seq<Octet>, at: nat)
    ensures at + 1 <= |b| ==> FromLE(b[at..at + 1]) == b[at]
    ensures at + 2 <= |b| ==> FromLE(b[at..at + 2]) == U16(b, at)
    ensures at + 4 <= |b| ==> FromLE(b[at..at + 4]) == U32(b, at)
    ensures at + 8 <= |b| ==> FromLE(b[at..at + 8]) == U64(b, at)
  {
    hide FromLE;
    if at + 1 <= |b| {
      LowByteFirst(b, at, 1);
      NoBytes(b, at + 1);
    }
    if at + 2 <= |b| {
      LowByteFirst(b, at, 2);
      LowByteFirst(b, at + 1, 1);
      NoBytes(b, at + 2);
    }
    if at + 4 <= |b| {
      Quad(b, at);
    }
    if at + 8 <= |b| {
      Octuple(b, at);
    }
  }

  lemma Quad(b: seq<Octet>, at: nat)
    requires at + 4 <= |b|
    ensures FromLE(b[at..at + 4]) == U32(b, at)
  {
    hide FromLE;
    NoBytes(b, at + 4);
    LowByteFirst(b, at, 4);
    LowByteFirst(b, at + 1, 3);
    LowByteFirst(b, at + 2, 2);
    LowByteFirst(b, at + 3, 1);
  }

  lemma Octuple(b: seq<Octet>, at: nat)
    requires at + 8 <= |b|
    ensures FromLE(b[at..at + 8]) == U64(b, at)
  {
    hide FromLE;
    Quad(b, at + 4);
    LowByteFirst(b, at, 8);
    LowByteFirst(b, at + 1, 7);
    LowByteFirst(b, at + 2, 6);
    LowByteFirst(b, at + 3, 5);
  }

  /** A field of one, two, four or eight bytes as its literal bytes, and where the next one starts. */
  lemma Field(widths: seq<nat>, b: seq<Octet>, k: nat, at: nat)
    requires |b| == Total(widths) && k < |widths| && Offset(widths, k) == at
    ensures Offset(widths, k + 1) == at + widths[k] <= |b|
    ensures widths[k] == 1 ==> DecodeFields(widths, b)[k] == b[at]
    ensures widths[k] == 2 ==> DecodeFields(widths, b)[k] == U16(b, at)
    ensures widths[k] == 4 ==> DecodeFields(widths, b)[k] == U32(b, at)
    ensures widths[k] == 8 ==> DecodeFields(widths, b)[k] == U64(b, at)
  {
    hide FromLE, U16, U32, U64, DecodeFields;
    FieldIsSlice(widths, b, k);
    LiteralBytes(b, at);
  }

  lemma SymLayout(b: seq<Octet>)
    requires |b| == 24
    ensures var s := DecodeSym(b);
      && s.name == U32(b, 0)
      && s.info == b[4]
      && s.other == b[5]
      && s.shndx == U16(b, 6)
      && s.value == U64(b, 8)
      && s.size == U64(b, 16)
  {
    hide U16, U32, U64, DecodeFields, Total, Offset;
    RecordSizes();
    FirstOffset(SYM);
    Field(SYM, b, 0, 0);
    Field(SYM, b, 1, 4);
    Field(SYM, b, 2, 5);
    Field(SYM, b, 3, 6);
    Field(SYM, b, 4, 8);
    Field(SYM, b, 5, 16);
  }

  lemma ShdrLayout(b: seq<Octet>)
    requires |b| == 64
    ensures var s := DecodeShdr(b);
      && s.name == U32(b, 0)
      && s.kind == U32(b, 4)
      && s.flags == U64(b, 8)
      && s.addr == U64(b, 16)
      && s.offset == U64(b, 24)
      && s.size == U64(b, 32)
      && s.link == U32(b, 40)
      && s.info == U32(b, 44)
      && s.addralign == U64(b, 48)
      && s.entsize == U64(b, 56)
  {
    hide U16, U32, U64, DecodeFields, Total, Offset;
    RecordSizes();
    FirstOffset(SHDR);
    Field(SHDR, b, 0, 0);
    Field(SHDR, b, 1, 4);
    Field(SHDR, b, 2, 8);
    Field(SHDR, b, 3, 16);
    Field(SHDR, b, 4, 24);
    Field(SHDR, b, 5, 32);
    Field(SHDR, b, 6, 40);
    Field(SHDR, b, 7, 44);
    Field(SHDR, b, 8, 48);
    Field(SHDR, b, 9, 56);
  }

  lemma PhdrLayout(b: seq<Octet>)
    requires |b| == 56
    ensures var p := DecodePhdr(b);
      && p.kind == U32(b, 0)
      && p.flags == U32(b, 4)
      && p.offset == U64(b, 8)
      && p.vaddr == U64(b, 16)
      && p.paddr == U64(b, 24)
      && p.filesz == U64(b, 32)
      && p.memsz == U64(b, 40)
      && p.align == U64(b, 48)
  {
    hide U16, U32, U64, DecodeFields, Total, Offset;
    RecordSizes();
    FirstOffset(PHDR);
    Field(PHDR, b, 0, 0);
    Field(PHDR, b, 1, 4);
    Field(PHDR, b, 2, 8);
    Field(PHDR, b, 3, 16);
    Field(PHDR, b, 4, 24);
    Field(PHDR, b, 5, 32);
    Field(PHDR, b, 6, 40);
    Field(PHDR, b, 7, 48);
  }

  lemma EhdrLayout(b: seq<Octet>)
    requires |b| == 64
    ensures var h := DecodeEhdr(b);
      && h.ident == b[..16]
      && h.kind == U16(b, 16)
      && h.machine == U16(b, 18)
      && h.version == U32(b, 20)
      && h.entry == U64(b, 24)
      && h.phoff == U64(b, 32)
      && h.shoff == U64(b, 40)
      && h.flags == U32(b, 48)
      && h.ehsize == U16(b, 52)
      && h.phentsize == U16(b, 54)
      && h.phnum == U16(b, 56)
      && h.shentsize == U16(b, 58)
      && h.shnum == U16(b, 60)
      && h.shstrndx == U16(b, 62)
  {
    hide U16, U32, U64, DecodeFields, Total;
    RecordSizes();
    var t := b[16..];
    assert t == b[IDENT_SIZE..];
    HeaderLeft(t);
    HeaderRight(t);
    AfterIdent(b);
  }

  lemma AfterIdent(b: seq<Octet>)
    requires |b| == 64
    ensures var t := b[16..];
      && U16(t, 0) == U16(b, 16) && U16(t, 2) == U16(b, 18) && U32(t, 4) == U32(b, 20) && U64(t, 8) == U64(b, 24)
      && U64(t, 16) == U64(b, 32) && U64(t, 24) == U64(b, 40) && U32(t, 32) == U32(b, 48)
      && U16(t, 36) == U16(b, 52) && U16(t, 38) == U16(b, 54) && U16(t, 40) == U16(b, 56)
      && U16(t, 42) == U16(b, 58) && U16(t, 44) == U16(b, 60) && U16(t, 46) == U16(b, 62)
  {
  }

  /** The header after its 16 identification bytes. */
  lemma HeaderLeft(t: seq<Octet>)
    requires |t| == 48 == Total(EHDR)
    ensures Offset(EHDR, 7) == 36
    ensures var v := DecodeFields(EHDR, t);
      && v[0] == U16(t, 0) && v[1] == U16(t, 2) && v[2] == U32(t, 4) && v[3] == U64(t, 8)
      && v[4] == U64(t, 16) && v[5] == U64(t, 24) && v[6] == U32(t, 32)
  {
    hide U16, U32, U64, DecodeFields, Total, Offset;
    FirstOffset(EHDR);
    Field(EHDR, t, 0, 0);
    Field(EHDR, t, 1, 2);
    Field(EHDR, t, 2, 4);
    Field(EHDR, t, 3, 8);
    Field(EHDR, t, 4, 16);
    Field(EHDR, t, 5, 24);
    Field(EHDR, t, 6, 32);
  }

  lemma HeaderRight(t: seq<Octet>)
    requires |t| == 48 == Total(EHDR) && Offset(EHDR, 7) == 36
    ensures var v := DecodeFields(EHDR, t);
      && v[7] == U16(t, 36) && v[8] == U16(t, 38) && v[9] == U16(t, 40)
      && v[10] == U16(t, 42) && v[11] == U16(t, 44) && v[12] == U16(t, 46)
  {
    hide U16, U32, U64, DecodeFields, Total, Offset;
    Field(EHDR, t, 7, 36);
    Field(EHDR, t, 8, 38);
    Field(EHDR, t, 9, 40);
    Field(EHDR, t, 10, 42);
    Field(EHDR, t, 11, 44);
    Field(EHDR, t, 12, 46);
  }
}
