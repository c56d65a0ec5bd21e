/** Fields of a 32-bit Berry instruction (be_decoder.h): op in bits 26..31, RA in 18..25, and
    RKB/RKC or the 18-bit Bx below. A jump offset is stored in Bx with a bias of IsBx_MAX. */
module Decoder {
  import opened Bits

  type Instruction = x: int | 0 <= x < 0x1_0000_0000

  const NO_JUMP: int := -1
  const IsBx_MAX: int := 0x1FFFF   // IBx_MASK >> 1

  const OP_JMPT: int := 29
  const OP_JMPF: int := 30

  // INS_GETx with the mask of a field of the given position and width.
  function Get(i: Instruction, pos: nat, bits: nat): int {
    MaskNat(pos, bits);
    Shr(And(i, Shl(Ones(bits), pos)), pos)
  }

  lemma MaskNat(pos: nat, bits: nat)
    ensures Shl(Ones(bits), pos) >= 0
  {
    ShlIsTimes(Ones(bits), pos);
  }

  lemma GetIs(i: Instruction, pos: nat, bits: nat)
    ensures Get(i, pos, bits) == And(Shr(i, pos), Ones(bits))
  {
    AndShifted(i, Ones(bits), pos);
    ShrShl(And(Shr(i, pos), Ones(bits)), pos);
  }

  // INS_SETx at position 0: the value converted to 32 unsigned bits, then masked.
  function SetLow(v: int, bits: nat): nat {
    And(v % 0x1_0000_0000, Ones(bits))
  }

  const OP_POS: nat := 26
  const OP_BITS: nat := 6
  const RA_POS: nat := 18
  const RA_BITS: nat := 8
  const BX_BITS: nat := 18
  const WORD_BITS: nat := 32

  function Op(i: Instruction): int { Get(i, OP_POS, OP_BITS) }
  function RA(i: Instruction): int { Get(i, RA_POS, RA_BITS) }
  function Bx(i: Instruction): int { Get(i, 0, BX_BITS) }
  function SBx(i: Instruction): int { Bx(i) - IsBx_MAX }

  // The fields as arithmetic on the word.
  lemma Fields(i: Instruction)
    ensures Op(i) == i / 0x400_0000 && RA(i) == i / 0x4_0000 % 256 && Bx(i) == i % 0x4_0000
    ensures SBx(i) == i as int % 0x4_0000 - 131071
  {
    Powers();
    assert Pow2(6) == 64 && Pow2(8) == 256;
    Pow2Sum(8, BX_BITS);
    GetIs(i, OP_POS, OP_BITS);
    GetIs(i, RA_POS, RA_BITS);
    GetIs(i, 0, BX_BITS);
    ShrIsDiv(i, OP_POS);
    ShrIsDiv(i, RA_POS);
    AndOnes(i / 0x400_0000, OP_BITS);
    AndOnes(i / 0x4_0000, RA_BITS);
    AndOnes(i, BX_BITS);
    ModUnique(i / 0x400_0000, 64, 0, i / 0x400_0000);
  }

  lemma Powers()
    ensures Pow2(BX_BITS) == 0x4_0000 && Pow2(WORD_BITS) == 0x1_0000_0000
  {
    assert Pow2(8) == 0x100 && Pow2(10) == 0x400;
    Pow2Sum(8, 10);
    Pow2Sum(8, 8);
    Pow2Sum(16, 16);
  }

  // (*p & ~IBx_MASK) | ISET_sBx(offset)
  function WithSBx(i: Instruction, offset: int): (r: Instruction) {
    WithSBxIs(i, offset);
    Or(And(i, Ones(WORD_BITS) - Ones(BX_BITS)), SetLow(offset + IsBx_MAX, BX_BITS))
  }

  // Rewriting Bx replaces the low 18 bits and keeps the rest.
  lemma WithSBxIs(i: Instruction, offset: int)
    ensures Ones(WORD_BITS) >= Ones(BX_BITS)
    ensures SetLow(offset + IsBx_MAX, BX_BITS) == (offset + IsBx_MAX) % 0x4_0000
    ensures var r := Or(And(i, Ones(WORD_BITS) - Ones(BX_BITS)), SetLow(offset + IsBx_MAX, BX_BITS));
            r < 0x1_0000_0000 && Shr(r, BX_BITS) == Shr(i, BX_BITS)
            && And(r, Ones(BX_BITS)) == SetLow(offset + IsBx_MAX, BX_BITS)
  {
    Powers();
    AndOnes((offset + IsBx_MAX) % 0x1_0000_0000, BX_BITS);
    ModOfMod(offset + IsBx_MAX);
    LowReplaced(i, SetLow(offset + IsBx_MAX, BX_BITS), BX_BITS, WORD_BITS);
  }

  // The fields above Bx never change, and the offset read back is the one stored exactly when
  // it fits the biased field: from -IsBx_MAX to IsBx_MAX + 1.
  lemma WithSBxFields(i: Instruction, offset: int)
    ensures Op(WithSBx(i, offset)) == Op(i) && RA(WithSBx(i, offset)) == RA(i)
    ensures SBx(WithSBx(i, offset)) == offset <==> -IsBx_MAX <= offset <= IsBx_MAX + 1
  {
    WithSBxIs(i, offset);
    var r := WithSBx(i, offset);
    GetIs(i, OP_POS, OP_BITS);
    GetIs(r, OP_POS, OP_BITS);
    ShrTwice(i, BX_BITS, 8);
    ShrTwice(r, BX_BITS, 8);
    GetIs(i, RA_POS, RA_BITS);
    GetIs(r, RA_POS, RA_BITS);
    GetIs(r, 0, BX_BITS);
    WrapsToItself(offset + IsBx_MAX);
  }

  lemma ModOfMod(v: int)
    ensures v % 0x1_0000_0000 % 0x4_0000 == v % 0x4_0000
  {
    var q, s := v / 0x1_0000_0000, v % 0x1_0000_0000;
    ModUnique(v, 0x4_0000, 0x4000 * q + s / 0x4_0000, s % 0x4_0000);
  }

  lemma WrapsToItself(v: int)
    ensures v % 0x4_0000 == v <==> 0 <= v < 0x4_0000
  {}

  // ISET_OP(op) | ISET_RA(a) | ISET_Bx(bx) for values that fit their fields
  function MakeABx(op: nat, a: nat, bx: nat): (r: Instruction)
    requires op < 64 && a < 256 && bx < 0x4_0000
    ensures Op(r) == op && RA(r) == a && Bx(r) == bx
  {
    MakeABxIs(op, a, bx);
    Or(Or(Shl(op, OP_POS), Shl(a, RA_POS)), bx)
  }

  lemma ShiftedPair(op: nat, a: nat)
    requires op < 64 && a < 256
    ensures Shl(op, OP_POS) >= 0 && Shl(a, RA_POS) >= 0
    ensures Or(Shl(op, OP_POS), Shl(a, RA_POS)) == Shl(op * 256 + a, RA_POS) == (op * 256 + a) * 0x4_0000
  {
    Powers();
    assert Pow2(8) == 256;
    Pow2Sum(8, RA_POS);
    ShlIsTimes(op, OP_POS);
    ShlIsTimes(a, RA_POS);
    ShlIsTimes(op * 256 + a, RA_POS);
    OrDisjoint(op, Shl(a, RA_POS), OP_POS);
  }

  lemma MakeABxIs(op: nat, a: nat, bx: nat)
    requires op < 64 && a < 256 && bx < 0x4_0000
    ensures Shl(op, OP_POS) >= 0 && Shl(a, RA_POS) >= 0
    ensures var r := Or(Or(Shl(op, OP_POS), Shl(a, RA_POS)), bx);
            r < 0x1_0000_0000 && Op(r) == op && RA(r) == a && Bx(r) == bx
  {
    hide And, Or, Shl, Shr, Op, RA, Bx;
    Powers();
    ShiftedPair(op, a);
    var h := op * 256 + a;
    OrDisjoint(h, bx, BX_BITS);
    var r: Instruction := h * 0x4_0000 + bx;
    Fields(r);
    ModUnique(r, 0x4_0000, h, bx);
    ModUnique(h, 256, op, a);
    ModUnique(r, 0x400_0000, op, a * 0x4_0000 + bx);
  }
}
