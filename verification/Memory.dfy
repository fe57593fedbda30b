/** Byte-addressed memory of the traced process, and the 8-byte words that
    PTRACE_PEEKTEXT and PTRACE_POKETEXT move. */
module Memory {
  /** `addr_t` is a 64-bit unsigned integer. */
  const ADDRESS_LIMIT: nat := 0x1_0000_0000_0000_0000

  type Addr = a: nat | a < ADDRESS_LIMIT

  type Byte = bv8

  /** The mapped bytes of an address space. */
  type Image = map<Addr, Byte>

  /** A `long` as ptrace moves it, lowest-addressed (least significant) byte first. */
  type Word = w: seq<Byte> | |w| == 8 witness [0, 0, 0, 0, 0, 0, 0, 0]

  const INT3: Byte := 0xCC
  const INT3_WORD: Word := [0xCC, 0, 0, 0, 0, 0, 0, 0]
  const TRAP_MASK: Word := [0, 0xFF, 0xFF, 0xFF, 0xFF, 0xFF, 0xFF, 0xFF]

  /** What a failed PTRACE_PEEKTEXT returns: -1. */
  const MINUS_ONE: Word := [0xFF, 0xFF, 0xFF, 0xFF, 0xFF, 0xFF, 0xFF, 0xFF]

  const ZERO: Word := [0, 0, 0, 0, 0, 0, 0, 0]

  function And(v: Word, w: Word): Word {
    seq(8, k requires 0 <= k < 8 => v[k] & w[k])
  }

  function Or(v: Word, w: Word): Word {
    seq(8, k requires 0 <= k < 8 => v[k] | w[k])
  }

  /** `(original & TRAP_MASK) | INT3` */
  function WithTrap(original: Word): Word {
    Or(And(original, TRAP_MASK), INT3_WORD)
  }

  /** Masking and or-ing exchange the lowest-addressed byte for INT3 and keep the seven others. */
  lemma WithTrapReplacesOneByte(w: Word)
    ensures WithTrap(w) == [INT3] + w[1..]
  {
  }

  predicate Mapped(image: Image, a: Addr) {
    a + 7 < ADDRESS_LIMIT && forall x: Addr | a <= x < a + 8 :: x in image
  }

  function Peek(image: Image, a: Addr): Word
    requires Mapped(image, a)
  {
    seq(8, k requires 0 <= k < 8 => image[a + k])
  }

  function Poke(image: Image, a: Addr, w: Word): Image {
    map x | x in image :: if a <= x < a + 8 then w[x - a] else image[x]
  }

  /** Memory with an INT3 at every armed address and clean bytes elsewhere. */
  ghost function Overlay(clean: Image, armed: set<Addr>): Image {
    map x | x in clean :: if x in armed then INT3 else clean[x]
  }

  /** Save the word at `a`, write it back with the trap in it. */
  function Arm(image: Image, a: Addr): Image
    requires Mapped(image, a)
  {
    Poke(image, a, WithTrap(Peek(image, a)))
  }

  /** Saving a word and writing it back with the trap patches exactly one byte. */
  lemma ArmPatchesOneByte(image: Image, a: Addr)
    requires Mapped(image, a)
    ensures Arm(image, a) == image[a := INT3]
  {
    WithTrapReplacesOneByte(Peek(image, a));
    assert a in image;
  }

  lemma ArmOverlay(clean: Image, armed: set<Addr>, a: Addr)
    requires Mapped(clean, a)
    ensures Mapped(Overlay(clean, armed), a)
    ensures Arm(Overlay(clean, armed), a) == Overlay(clean, armed + {a})
  {
    var mem := Overlay(clean, armed);
    assert Mapped(mem, a);
    ArmPatchesOneByte(mem, a);
    assert mem[a := INT3] == Overlay(clean, armed + {a});
  }
}
