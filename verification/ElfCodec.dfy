/** Little-endian ELF64 records (System V ABI, chapter 4). */
module ElfCodec {
  type Octet = n: nat | n < 256

  function Pow256(w: nat): nat {
    if w == 0 then 1 else 256 * Pow256(w - 1)
  }

  function FromLE(b: seq<Octet>): nat {
    if b == [] then 0 else b[0] + 256 * FromLE(b[1..])
  }

  function ToLE(n: nat, w: nat): (b: seq<Octet>)
    ensures |b| == w
  {
    if w == 0 then [] else [n % 256] + ToLE(n / 256, w - 1)
  }

  lemma {:induction false} ToLERoundTrip(n: nat, w: nat)
    requires n < Pow256(w)
    ensures FromLE(ToLE(n, w)) == n
    decreases w
  {
    if w > 0 {
      ToLERoundTrip(n / 256, w - 1);
    }
  }

  lemma LowOctet(low: Octet, high: nat)
    ensures (low + 256 * high) % 256 == low && (low + 256 * high) / 256 == high
  {
  }

  lemma {:induction false} FromLERoundTrip(b: seq<Octet>)
    ensures FromLE(b) < Pow256(|b|)
    ensures ToLE(FromLE(b), |b|) == b
    decreases |b|
  {
    if b != [] {
      FromLERoundTrip(b[1..]);
      LowOctet(b[0], FromLE(b[1..]));
    }
  }

  // Records as field values in order, given the field widths

  function Total(widths: seq<nat>): nat {
    if widths == [] then 0 else widths[0] + Total(widths[1..])
  }

  predicate Fits(widths: seq<nat>, values: seq<nat>) {
    |widths| == |values| && forall i | 0 <= i < |widths| :: values[i] < Pow256(widths[i])
  }

  function EncodeFields(widths: seq<nat>, values: seq<nat>): (b: seq<Octet>)
    requires |widths| == |values|
    ensures |b| == Total(widths)
  {
    if widths == [] then []
    else ToLE(values[0], widths[0]) + EncodeFields(widths[1..], values[1..])
  }

  function DecodeFields(widths: seq<nat>, b: seq<Octet>): (values: seq<nat>)
    requires |b| == Total(widths)
    ensures |values| == |widths|
  {
    if widths == [] then []
    else [FromLE(b[..widths[0]])] + DecodeFields(widths[1..], b[widths[0]..])
  }

  lemma {:induction false} DecodeEncodeFields(widths: seq<nat>, values: seq<nat>)
    requires Fits(widths, values)
    ensures DecodeFields(widths, EncodeFields(widths, values)) == values
    decreases |widths|
  {
    if widths != [] {
      var first := ToLE(values[0], widths[0]);
      ToLERoundTrip(values[0], widths[0]);
      DecodeEncodeFields(widths[1..], values[1..]);
      assert EncodeFields(widths, values)[..widths[0]] == first;
      assert EncodeFields(widths, values)[widths[0]..] == EncodeFields(widths[1..], values[1..]);
    }
  }

  lemma {:induction false} EncodeDecodeFields(widths: seq<nat>, b: seq<Octet>)
    requires |b| == Total(widths)
    ensures Fits(widths, DecodeFields(widths, b))
    ensures EncodeFields(widths, DecodeFields(widths, b)) == b
    decreases |widths|
  {
    hide FromLE, ToLE, Pow256;
    if widths != [] {
      FromLERoundTrip(b[..widths[0]]);
      EncodeDecodeFields(widths[1..], b[widths[0]..]);
      var values := DecodeFields(widths, b);
      var rest := DecodeFields(widths[1..], b[widths[0]..]);
      assert values == [FromLE(b[..widths[0]])] + rest;
      FitsMore(widths, values[0], rest);
      assert values[1..] == rest;
    }
  }

  lemma FitsMore(widths: seq<nat>, first: nat, rest: seq<nat>)
    requires widths != [] && first < Pow256(widths[0]) && Fits(widths[1..], rest)
    ensures Fits(widths, [first] + rest)
  {
  }

  // The four records of the ABI

  const IDENT_SIZE := 16

  /** Widths of the header's fields after `e_ident`. */
  const EHDR: seq<nat> := [2, 2, 4, 8, 8, 8, 4, 2, 2, 2, 2, 2, 2]
  const PHDR: seq<nat> := [4, 4, 8, 8, 8, 8, 8, 8]
  const SHDR: seq<nat> := [4, 4, 8, 8, 8, 8, 4, 4, 8, 8]
  const SYM: seq<nat> := [4, 1, 1, 2, 8, 8]

  const EHDR_SIZE := 64
  const PHDR_SIZE := 56
  const SHDR_SIZE := 64
  const SYM_SIZE := 24

  lemma TotalOfNone()
    ensures Total([]) == 0
  {
  }

  lemma TotalOfTwo(a: nat, b: nat, rest: seq<nat>)
    ensures Total([a, b] + rest) == a + b + Total(rest)
  {
  }

  lemma RecordSizes()
    ensures IDENT_SIZE + Total(EHDR) == EHDR_SIZE && Total(PHDR) == PHDR_SIZE
    ensures Total(SHDR) == SHDR_SIZE && Total(SYM) == SYM_SIZE
  {
    hide Total;
    TotalOfTwo(8, 8, []);
    TotalOfNone();
    assert [8, 8] == [8, 8] + [];
    TotalOfTwo(1, 2, [8, 8]);
    TotalOfTwo(4, 1, [1, 2, 8, 8]);
    assert SYM == [4, 1] + [1, 2, 8, 8] && [1, 2, 8, 8] == [1, 2] + [8, 8];
    TotalOfTwo(8, 8, [8, 8]);
    TotalOfTwo(8, 8, [8, 8, 8, 8]);
    TotalOfTwo(4, 4, [8, 8, 8, 8, 8, 8]);
    assert PHDR == [4, 4] + [8, 8, 8, 8, 8, 8] && [8, 8, 8, 8, 8, 8] == [8, 8] + [8, 8, 8, 8];
    assert [8, 8, 8, 8] == [8, 8] + [8, 8];
    TotalOfTwo(4, 4, [8, 8]);
    TotalOfTwo(8, 8, [4, 4, 8, 8]);
    TotalOfTwo(8, 8, [8, 8, 4, 4, 8, 8]);
    TotalOfTwo(4, 4, [8, 8, 8, 8, 4, 4, 8, 8]);
    assert SHDR == [4, 4] + [8, 8, 8, 8, 4, 4, 8, 8] && [4, 4, 8, 8] == [4, 4] + [8, 8];
    assert [8, 8, 8, 8, 4, 4, 8, 8] == [8, 8] + [8, 8, 4, 4, 8, 8] && [8, 8, 4, 4, 8, 8] == [8, 8] + [4, 4, 8, 8];
    HeaderSize();
  }

  lemma HeaderSize()
    ensures Total(EHDR) == 48
  {
  }

  datatype Ehdr = Ehdr(
    ident: seq<Octet>, kind: nat, machine: nat, version: nat, entry: nat, phoff: nat, shoff: nat, flags: nat,
    ehsize: nat, phentsize: nat, phnum: nat, shentsize: nat, shnum: nat, shstrndx: nat)
  {
    function Values(): (v: seq<nat>) {
      [kind, machine, version, entry, phoff, shoff, flags, ehsize, phentsize, phnum, shentsize, shnum, shstrndx]
    }

    predicate WellFormed() {
      |ident| == IDENT_SIZE && Fits(EHDR, Values())
    }

    function Encode(): seq<Octet> {
      ident + EncodeFields(EHDR, Values())
    }
  }

  function DecodeEhdr(b: seq<Octet>): Ehdr
    requires |b| == EHDR_SIZE
  {
    RecordSizes();
    var v := DecodeFields(EHDR, b[IDENT_SIZE..]);
    Ehdr(b[..IDENT_SIZE], v[0], v[1], v[2], v[3], v[4], v[5], v[6], v[7], v[8], v[9], v[10], v[11], v[12])
  }

  datatype Phdr = Phdr(
    kind: nat, flags: nat, offset: nat, vaddr: nat, paddr: nat, filesz: nat, memsz: nat, align: nat)
  {
    function Values(): seq<nat> {
      [kind, flags, offset, vaddr, paddr, filesz, memsz, align]
    }

    predicate WellFormed() { Fits(PHDR, Values()) }

    function Encode(): seq<Octet> { EncodeFields(PHDR, Values()) }
  }

  function DecodePhdr(b: seq<Octet>): Phdr
    requires |b| == PHDR_SIZE
  {
    RecordSizes();
    var v := DecodeFields(PHDR, b);
    Phdr(v[0], v[1], v[2], v[3], v[4], v[5], v[6], v[7])
  }

  datatype Shdr = Shdr(
    name: nat, kind: nat, flags: nat, addr: nat, offset: nat, size: nat, link: nat, info: nat,
    addralign: nat, entsize: nat)
  {
    function Values(): seq<nat> {
      [name, kind, flags, addr, offset, size, link, info, addralign, entsize]
    }

    predicate WellFormed() { Fits(SHDR, Values()) }

    function Encode(): seq<Octet> { EncodeFields(SHDR, Values()) }
  }

  function DecodeShdr(b: seq<Octet>): Shdr
    requires |b| == SHDR_SIZE
  {
    RecordSizes();
    var v := DecodeFields(SHDR, b);
    Shdr(v[0], v[1], v[2], v[3], v[4], v[5], v[6], v[7], v[8], v[9])
  }

  datatype Sym = Sym(name: nat, info: nat, other: nat, shndx: nat, value: nat, size: nat) {
    function Values(): seq<nat> { [name, info, other, shndx, value, size] }

    predicate WellFormed() { Fits(SYM, Values()) }

    function Encode(): seq<Octet> { EncodeFields(SYM, Values()) }
  }

  function DecodeSym(b: seq<Octet>): Sym
    requires |b| == SYM_SIZE
  {
    RecordSizes();
    var v := DecodeFields(SYM, b);
    Sym(v[0], v[1], v[2], v[3], v[4], v[5])
  }

  // Each record and its bytes determine each other

  lemma EhdrRoundTrip(h: Ehdr)
    requires h.WellFormed()
    ensures |h.Encode()| == EHDR_SIZE && DecodeEhdr(h.Encode()) == h
  {
    hide DecodeFields, EncodeFields, Total;
    RecordSizes();
    DecodeEncodeFields(EHDR, h.Values());
    assert h.Encode()[IDENT_SIZE..] == EncodeFields(EHDR, h.Values());
  }

  lemma EhdrBytesRoundTrip(b: seq<Octet>)
    requires |b| == EHDR_SIZE
    ensures DecodeEhdr(b).WellFormed() && DecodeEhdr(b).Encode() == b
  {
    hide DecodeFields, EncodeFields, Total;
    RecordSizes();
    EncodeDecodeFields(EHDR, b[IDENT_SIZE..]);
    assert DecodeEhdr(b).Values() == DecodeFields(EHDR, b[IDENT_SIZE..]);
  }

  lemma PhdrRoundTrip(p: Phdr)
    requires p.WellFormed()
    ensures |p.Encode()| == PHDR_SIZE && DecodePhdr(p.Encode()) == p
  {
    hide DecodeFields, EncodeFields, Total;
    RecordSizes();
    DecodeEncodeFields(PHDR, p.Values());
  }

  lemma PhdrBytesRoundTrip(b: seq<Octet>)
    requires |b| == PHDR_SIZE
    ensures DecodePhdr(b).WellFormed() && DecodePhdr(b).Encode() == b
  {
    hide DecodeFields, EncodeFields, Total;
    RecordSizes();
    EncodeDecodeFields(PHDR, b);
    assert DecodePhdr(b).Values() == DecodeFields(PHDR, b);
  }

  lemma ShdrRoundTrip(s: Shdr)
    requires s.WellFormed()
    ensures |s.Encode()| == SHDR_SIZE && DecodeShdr(s.Encode()) == s
  {
    hide DecodeFields, EncodeFields, Total;
    RecordSizes();
    DecodeEncodeFields(SHDR, s.Values());
  }

  lemma ShdrBytesRoundTrip(b: seq<Octet>)
    requires |b| == SHDR_SIZE
    ensures DecodeShdr(b).WellFormed() && DecodeShdr(b).Encode() == b
  {
    hide DecodeFields, EncodeFields, Total;
    RecordSizes();
    EncodeDecodeFields(SHDR, b);
    assert DecodeShdr(b).Values() == DecodeFields(SHDR, b);
  }

  lemma SymRoundTrip(s: Sym)
    requires s.WellFormed()
    ensures |s.Encode()| == SYM_SIZE && DecodeSym(s.Encode()) == s
  {
    hide DecodeFields, EncodeFields, Total;
    RecordSizes();
    DecodeEncodeFields(SYM, s.Values());
  }
}
