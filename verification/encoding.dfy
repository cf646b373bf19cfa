/** The testbenches' instruction encoders. Each is written as the host
    language evaluates it: fields shifted into place and OR-ed together
    left to right, immediates cut out of an arbitrary (possibly negative)
    integer with `>>` and `&`. Register numbers and funct3 are not masked,
    so every property below requires them to fit their fields.

    `EncodeR`, `EncodeI` and `EncodeS` are also the encoders of the CPU-core
    testbench, whose copies are textually the same. */
module Encoding {
  import opened Bits
  import opened Isa

  /** `encode_r_type(rd, rs1, rs2, funct3, funct7)`. */
  function EncodeR(rd: nat, rs1: nat, rs2: nat, funct3: nat, funct7: nat): nat
  {
    Or(Or(Or(Or(Or(Shl(funct7, 25), Shl(rs2, 20)), Shl(rs1, 15)), Shl(funct3, 12)),
          Shl(rd, 7)), OP_REG)
  }

  /** `encode_i_type(rd, rs1, imm, funct3, opcode)`. */
  function EncodeI(rd: nat, rs1: nat, imm: int, funct3: nat, opcode: nat): nat
  {
    Pow2Values();
    Or(Or(Or(Or(Shl(AndMask(imm, 0xFFF, 12), 20), Shl(rs1, 15)), Shl(funct3, 12)),
          Shl(rd, 7)), opcode)
  }

  /** `encode_s_type(rs1, rs2, imm, funct3)`. */
  function EncodeS(rs1: nat, rs2: nat, imm: int, funct3: nat): nat
  {
    Pow2Values();
    Or(Or(Or(Or(Or(Shl(AndMask(imm, 0xFE0, 12), 20), Shl(rs2, 20)), Shl(rs1, 15)),
             Shl(funct3, 12)), Shl(AndMask(imm, 0x1F, 5), 7)), OP_STORE)
  }

  /** `encode_b_type(rs1, rs2, imm, funct3)` of the control-unit testbench:
      each immediate field is shifted down, masked and shifted into place. */
  function EncodeB(rs1: nat, rs2: nat, imm: int, funct3: nat): nat
  {
    Pow2Values();
    Or(Or(Or(Or(Or(Or(Or(Shl(AndMask(Shr(imm, 12), 0x1, 1), 31),
                         Shl(AndMask(Shr(imm, 5), 0x3F, 6), 25)),
                      Shl(rs2, 20)),
                   Shl(rs1, 15)),
                Shl(funct3, 12)),
             Shl(AndMask(Shr(imm, 1), 0xF, 4), 8)),
          Shl(AndMask(Shr(imm, 11), 0x1, 1), 7)),
       OP_BRANCH)
  }

  /** `encode_b_type(rs1, rs2, imm, funct3)` of the CPU-core testbench: each
      immediate field is masked in place and then moved. */
  function EncodeBMasked(rs1: nat, rs2: nat, imm: int, funct3: nat): nat
  {
    Pow2Values();
    Or(Or(Or(Or(Or(Or(Or(Shl(AndMask(imm, 0x1000, 13), 19),
                         Shl(AndMask(imm, 0x7E0, 11), 20)),
                      Shl(rs2, 20)),
                   Shl(rs1, 15)),
                Shl(funct3, 12)),
             Shl(AndMask(imm, 0x1E, 5), 7)),
          Shr(AndMask(imm, 0x800, 12), 4)),
       OP_BRANCH)
  }

  /** `encode_u_type(rd, imm, opcode)`. */
  function EncodeU(rd: nat, imm: int, opcode: nat): nat
  {
    Pow2Values();
    Or(Or(AndMask(imm, 0xFFFF_F000, 32), Shl(rd, 7)), opcode)
  }

  /** `encode_j_type(rd, imm)`. */
  function EncodeJ(rd: nat, imm: int): nat
  {
    Pow2Values();
    Or(Or(Or(Or(Or(Shl(AndMask(Shr(imm, 20), 0x1, 1), 31),
                   Shl(AndMask(Shr(imm, 1), 0x3FF, 10), 21)),
                Shl(AndMask(Shr(imm, 11), 0x1, 1), 20)),
             Shl(AndMask(Shr(imm, 12), 0xFF, 8), 12)),
          Shl(rd, 7)),
       OP_JAL)
  }

  // ---------------------------------------------------------------------
  // Common layouts.

  /** The low twelve bits of every format: a 5-bit field (rd, or an
      immediate part) at bits 11:7 over the opcode at bits 6:0. */
  lemma {:induction false} Low12(p: nat, d: nat, op: nat)
    requires d < Pow2(5) && op < Pow2(7)
    ensures Opcode(Concat(Concat(p, d, 5), op, 7)) == op
    ensures Rd(Concat(Concat(p, d, 5), op, 7)) == d
  {
    var x := Concat(Concat(p, d, 5), op, 7);
    assert Opcode(x) == op by {
      FieldLow(Concat(p, d, 5), op, 7);
    }
    assert Rd(x) == d by {
      FieldPeel(Concat(p, d, 5), op, 7, 7, 0, 5);
      FieldLow(p, d, 5);
    }
  }

  /** Above the low twelve bits, the fields are those of the upper part. */
  lemma {:induction false} Above12(p: nat, d: nat, op: nat, at: nat, lo: nat, w: nat)
    requires d < Pow2(5) && op < Pow2(7) && at == 12 + lo
    ensures Field(Concat(Concat(p, d, 5), op, 7), at, w) == Field(p, lo, w)
  {
    FieldPeel(Concat(p, d, 5), op, 7, at, 5 + lo, w);
    FieldPeel(p, d, 5, 5 + lo, lo, w);
  }

  /** Bits 19:12 of the R, I, S and B formats: rs1 over funct3. */
  lemma {:induction false} Mid8(p: nat, rs1: nat, f3: nat, d: nat, op: nat)
    requires rs1 < Pow2(5) && f3 < Pow2(3) && d < Pow2(5) && op < Pow2(7)
    ensures Funct3(Concat(Concat(Concat(Concat(p, rs1, 5), f3, 3), d, 5), op, 7)) == f3
    ensures Rs1(Concat(Concat(Concat(Concat(p, rs1, 5), f3, 3), d, 5), op, 7)) == rs1
  {
    var q := Concat(Concat(p, rs1, 5), f3, 3);
    var x := Concat(Concat(q, d, 5), op, 7);
    assert Funct3(x) == f3 by {
      Above12(q, d, op, 12, 0, 3);
      FieldLow(Concat(p, rs1, 5), f3, 3);
    }
    assert Rs1(x) == rs1 by {
      Above12(q, d, op, 15, 3, 5);
      FieldPeel(Concat(p, rs1, 5), f3, 3, 3, 0, 5);
      FieldLow(p, rs1, 5);
    }
  }

  /** Above the low twenty bits, the fields are those of the upper part. */
  lemma {:induction false} Above20(p: nat, rs1: nat, f3: nat, d: nat, op: nat, at: nat, lo: nat, w: nat)
    requires rs1 < Pow2(5) && f3 < Pow2(3) && d < Pow2(5) && op < Pow2(7)
    requires at == 20 + lo
    ensures Field(Concat(Concat(Concat(Concat(p, rs1, 5), f3, 3), d, 5), op, 7), at, w)
              == Field(p, lo, w)
  {
    var q := Concat(Concat(p, rs1, 5), f3, 3);
    Above12(q, d, op, at, 8 + lo, w);
    FieldPeel(Concat(p, rs1, 5), f3, 3, 8 + lo, 5 + lo, w);
    FieldPeel(p, rs1, 5, 5 + lo, lo, w);
  }

  // ---------------------------------------------------------------------
  // R-type.

  /** The OR chain of `encode_r_type` concatenates its fields. */
  lemma {:induction false} EncodeRLayout(rd: nat, rs1: nat, rs2: nat, funct3: nat, funct7: nat)
    requires rd < 32 && rs1 < 32 && rs2 < 32 && funct3 < 8 && funct7 < 128
    ensures EncodeR(rd, rs1, rs2, funct3, funct7)
              == Concat(Concat(Concat(Concat(Concat(funct7, rs2, 5), rs1, 5), funct3, 3), rd, 5), OP_REG, 7)
  {
    Pow2Values();
    var c1 := Concat(funct7, rs2, 5);
    var c2 := Concat(c1, rs1, 5);
    var c3 := Concat(c2, funct3, 3);
    var c4 := Concat(c3, rd, 5);
    OrPlace(funct7, rs2, 20, 25, 5);
    OrPlace(c1, rs1, 15, 20, 5);
    OrPlace(c2, funct3, 12, 15, 3);
    OrPlace(c3, rd, 7, 12, 5);
    OrDisjoint(c4, OP_REG, 7);
  }

  /** The R layout, shared by the S and B formats: every fixed field reads
      back what was concatenated into it, and the word fits in 32 bits. */
  lemma {:induction false} RLayoutFields(hi: nat, rs2: nat, rs1: nat, f3: nat, d: nat, op: nat)
    requires hi < 128 && rs2 < 32 && rs1 < 32 && f3 < 8 && d < 32 && op < 128
    ensures Concat(Concat(Concat(Concat(Concat(hi, rs2, 5), rs1, 5), f3, 3), d, 5), op, 7) < WORD_SIZE
    ensures Opcode(Concat(Concat(Concat(Concat(Concat(hi, rs2, 5), rs1, 5), f3, 3), d, 5), op, 7)) == op
    ensures Rd(Concat(Concat(Concat(Concat(Concat(hi, rs2, 5), rs1, 5), f3, 3), d, 5), op, 7)) == d
    ensures Funct3(Concat(Concat(Concat(Concat(Concat(hi, rs2, 5), rs1, 5), f3, 3), d, 5), op, 7)) == f3
    ensures Rs1(Concat(Concat(Concat(Concat(Concat(hi, rs2, 5), rs1, 5), f3, 3), d, 5), op, 7)) == rs1
    ensures Rs2(Concat(Concat(Concat(Concat(Concat(hi, rs2, 5), rs1, 5), f3, 3), d, 5), op, 7)) == rs2
    ensures Funct7(Concat(Concat(Concat(Concat(Concat(hi, rs2, 5), rs1, 5), f3, 3), d, 5), op, 7)) == hi
  {
    Pow2Values();
    var c1 := Concat(hi, rs2, 5);
    var c3 := Concat(Concat(c1, rs1, 5), f3, 3);
    ConcatBound(hi, 7, rs2, 5, 12);
    ConcatBound(c1, 12, rs1, 5, 17);
    ConcatBound(Concat(c1, rs1, 5), 17, f3, 3, 20);
    ConcatBound(c3, 20, d, 5, 25);
    ConcatBound(Concat(c3, d, 5), 25, op, 7, 32);
    Low12(c3, d, op);
    Mid8(c1, rs1, f3, d, op);
    Above20(c1, rs1, f3, d, op, 20, 0, 5);
    FieldLow(hi, rs2, 5);
    Above20(c1, rs1, f3, d, op, 25, 5, 7);
    FieldPeel(hi, rs2, 5, 5, 0, 7);
    FieldWhole(hi, 7);
  }

  /** Every field of an R-type word reads back what was encoded into it, and
      the word fits in 32 bits. */
  lemma {:induction false} EncodeRFields(rd: nat, rs1: nat, rs2: nat, funct3: nat, funct7: nat)
    requires rd < 32 && rs1 < 32 && rs2 < 32 && funct3 < 8 && funct7 < 128
    ensures EncodeR(rd, rs1, rs2, funct3, funct7) < WORD_SIZE
    ensures Opcode(EncodeR(rd, rs1, rs2, funct3, funct7)) == OP_REG
    ensures Rd(EncodeR(rd, rs1, rs2, funct3, funct7)) == rd
    ensures Funct3(EncodeR(rd, rs1, rs2, funct3, funct7)) == funct3
    ensures Rs1(EncodeR(rd, rs1, rs2, funct3, funct7)) == rs1
    ensures Rs2(EncodeR(rd, rs1, rs2, funct3, funct7)) == rs2
    ensures Funct7(EncodeR(rd, rs1, rs2, funct3, funct7)) == funct7
  {
    EncodeRLayout(rd, rs1, rs2, funct3, funct7);
    RLayoutFields(funct7, rs2, rs1, funct3, rd, OP_REG);
  }

  // ---------------------------------------------------------------------
  // I-type.

  lemma {:induction false} EncodeILayout(rd: nat, rs1: nat, imm: int, funct3: nat, opcode: nat)
    requires rd < 32 && rs1 < 32 && funct3 < 8 && opcode < 128
    ensures EncodeI(rd, rs1, imm, funct3, opcode)
              == Concat(Concat(Concat(Concat(Mask(imm, 12), rs1, 5), funct3, 3), rd, 5), opcode, 7)
  {
    Pow2Values();
    AndMaskLow(imm, 12, 0xFFF);
    var c1 := Concat(Mask(imm, 12), rs1, 5);
    var c2 := Concat(c1, funct3, 3);
    var c3 := Concat(c2, rd, 5);
    OrPlace(Mask(imm, 12), rs1, 15, 20, 5);
    OrPlace(c1, funct3, 12, 15, 3);
    OrPlace(c2, rd, 7, 12, 5);
    OrDisjoint(c3, opcode, 7);
  }

  /** The fixed fields of an I-type word read back; its I-immediate is the
      12-bit two's-complement truncation of `imm`, so every `imm` in
      [-2048, 2047] reads back unchanged. */
  lemma {:induction false} EncodeIFields(rd: nat, rs1: nat, imm: int, funct3: nat, opcode: nat)
    requires rd < 32 && rs1 < 32 && funct3 < 8 && opcode < 128
    ensures EncodeI(rd, rs1, imm, funct3, opcode) < WORD_SIZE
    ensures Opcode(EncodeI(rd, rs1, imm, funct3, opcode)) == opcode
    ensures Rd(EncodeI(rd, rs1, imm, funct3, opcode)) == rd
    ensures Funct3(EncodeI(rd, rs1, imm, funct3, opcode)) == funct3
    ensures Rs1(EncodeI(rd, rs1, imm, funct3, opcode)) == rs1
    ensures Mask(ImmI(EncodeI(rd, rs1, imm, funct3, opcode)), 12) == Mask(imm, 12)
    ensures -2048 <= imm < 2048 ==> ImmI(EncodeI(rd, rs1, imm, funct3, opcode)) == imm
  {
    Pow2Values();
    EncodeILayout(rd, rs1, imm, funct3, opcode);
    var m := Mask(imm, 12);
    var x := Concat(Concat(Concat(Concat(m, rs1, 5), funct3, 3), rd, 5), opcode, 7);
    assert m < 0x1000;
    ConcatBound(m, 12, rs1, 5, 17);
    ConcatBound(Concat(m, rs1, 5), 17, funct3, 3, 20);
    ConcatBound(Concat(Concat(m, rs1, 5), funct3, 3), 20, rd, 5, 25);
    ConcatBound(Concat(Concat(Concat(m, rs1, 5), funct3, 3), rd, 5), 25, opcode, 7, 32);
    Low12(Concat(Concat(m, rs1, 5), funct3, 3), rd, opcode);
    Mid8(m, rs1, funct3, rd, opcode);
    Above20(m, rs1, funct3, rd, opcode, 20, 0, 12);
    FieldWhole(m, 12);
    MaskOfSignExt(m, 12);
    if -2048 <= imm < 2048 {
      SignExtOfMask(imm, 12);
    }
  }

  // ---------------------------------------------------------------------
  // S-type.

  lemma {:induction false} EncodeSLayout(rs1: nat, rs2: nat, imm: int, funct3: nat)
    requires rs1 < 32 && rs2 < 32 && funct3 < 8
    ensures EncodeS(rs1, rs2, imm, funct3)
              == Concat(Concat(Concat(Concat(Concat(Field(imm, 5, 7), rs2, 5), rs1, 5), funct3, 3),
                               Mask(imm, 5), 5), OP_STORE, 7)
  {
    Pow2Values();
    var hi := Field(imm, 5, 7);
    AndMaskRange(imm, 5, 7, 12, 0xFE0);
    ShlShl(hi, 5, 20, 25);
    AndMaskLow(imm, 5, 0x1F);
    var c1 := Concat(hi, rs2, 5);
    var c2 := Concat(c1, rs1, 5);
    var c3 := Concat(c2, funct3, 3);
    var c4 := Concat(c3, Mask(imm, 5), 5);
    OrPlace(hi, rs2, 20, 25, 5);
    OrPlace(c1, rs1, 15, 20, 5);
    OrPlace(c2, funct3, 12, 15, 3);
    OrPlace(c3, Mask(imm, 5), 7, 12, 5);
    OrDisjoint(c4, OP_STORE, 7);
  }

  /** The S-immediate of the R layout joins its top field and its bits 11:7. */
  lemma {:induction false} ImmSOfLayout(hi: nat, rs2: nat, rs1: nat, f3: nat, d: nat, op: nat)
    requires hi < 128 && rs2 < 32 && rs1 < 32 && f3 < 8 && d < 32 && op < 128
    ensures Concat(hi, d, 5) < Pow2(12)
    ensures ImmS(Concat(Concat(Concat(Concat(Concat(hi, rs2, 5), rs1, 5), f3, 3), d, 5), op, 7))
              == SignExt(Concat(hi, d, 5), 12)
  {
    Pow2Values();
    ConcatBound(hi, 7, d, 5, 12);
    RLayoutFields(hi, rs2, rs1, f3, d, op);
  }

  /** The fixed fields of an S-type word read back, imm[11:5] lands in bits
      31:25 and imm[4:0] in bits 11:7; its S-immediate is the 12-bit
      truncation of `imm`, so every `imm` in [-2048, 2047] reads back. */
  lemma {:induction false} EncodeSFields(rs1: nat, rs2: nat, imm: int, funct3: nat)
    requires rs1 < 32 && rs2 < 32 && funct3 < 8
    ensures EncodeS(rs1, rs2, imm, funct3) < WORD_SIZE
    ensures Opcode(EncodeS(rs1, rs2, imm, funct3)) == OP_STORE
    ensures Funct3(EncodeS(rs1, rs2, imm, funct3)) == funct3
    ensures Rs1(EncodeS(rs1, rs2, imm, funct3)) == rs1
    ensures Rs2(EncodeS(rs1, rs2, imm, funct3)) == rs2
    ensures Funct7(EncodeS(rs1, rs2, imm, funct3)) == Field(imm, 5, 7)
    ensures Rd(EncodeS(rs1, rs2, imm, funct3)) == Mask(imm, 5)
    ensures Mask(ImmS(EncodeS(rs1, rs2, imm, funct3)), 12) == Mask(imm, 12)
    ensures -2048 <= imm < 2048 ==> ImmS(EncodeS(rs1, rs2, imm, funct3)) == imm
  {
    Pow2Values();
    var hi := Field(imm, 5, 7);
    var lo := Mask(imm, 5);
    var x := EncodeS(rs1, rs2, imm, funct3);
    EncodeSLayout(rs1, rs2, imm, funct3);
    assert x == Concat(Concat(Concat(Concat(Concat(hi, rs2, 5), rs1, 5), funct3, 3), lo, 5), OP_STORE, 7);
    RLayoutFields(hi, rs2, rs1, funct3, lo, OP_STORE);
    ImmSOfLayout(hi, rs2, rs1, funct3, lo, OP_STORE);
    MaskSplit(imm, 12, 5, 7);
    assert ImmS(x) == SignExt(Mask(imm, 12), 12);
    MaskOfSignExt(Mask(imm, 12), 12);
    if -2048 <= imm < 2048 {
      SignExtOfMask(imm, 12);
    }
  }

  // ---------------------------------------------------------------------
  // B-type.

  /** Bits 31:25 of a B-type word: imm[12] over imm[10:5]. */
  function BTop(imm: int): (r: nat)
    ensures r < Pow2(7)
  {
    ConcatBound(Field(imm, 12, 1), 1, Field(imm, 5, 6), 6, 7);
    Concat(Field(imm, 12, 1), Field(imm, 5, 6), 6)
  }

  /** Bits 11:7 of a B-type word: imm[4:1] over imm[11]. */
  function BLow(imm: int): (r: nat)
    ensures r < Pow2(5)
  {
    ConcatBound(Field(imm, 1, 4), 4, Field(imm, 11, 1), 1, 5);
    Concat(Field(imm, 1, 4), Field(imm, 11, 1), 1)
  }

  /** The mask-based B encoder computes the same word as the shift-based
      one, for every immediate and every field value. */
  lemma {:induction false} EncodeBMaskedAgrees(rs1: nat, rs2: nat, imm: int, funct3: nat)
    ensures EncodeBMasked(rs1, rs2, imm, funct3) == EncodeB(rs1, rs2, imm, funct3)
  {
    Pow2Values();
    var b12 := Field(imm, 12, 1);
    var b10 := Field(imm, 5, 6);
    var b4 := Field(imm, 1, 4);
    var b11 := Field(imm, 11, 1);
    AndMaskLow(Shr(imm, 12), 1, 1);
    AndMaskLow(Shr(imm, 5), 6, 0x3F);
    AndMaskLow(Shr(imm, 1), 4, 0xF);
    AndMaskLow(Shr(imm, 11), 1, 1);
    AndMaskRange(imm, 12, 1, 13, 0x1000);
    ShlShl(b12, 12, 19, 31);
    AndMaskRange(imm, 5, 6, 11, 0x7E0);
    ShlShl(b10, 5, 20, 25);
    AndMaskRange(imm, 1, 4, 5, 0x1E);
    ShlShl(b4, 1, 7, 8);
    AndMaskRange(imm, 11, 1, 12, 0x800);
    ShlShl(b11, 7, 4, 11);
    ShrShl(Shl(b11, 7), 4);
  }

  /** The OR chain of the B format concatenates its seven fields. */
  lemma {:induction false} BChain(b12: nat, b10: nat, rs2: nat, rs1: nat, f3: nat, b4: nat, b11: nat)
    requires b12 < 2 && b10 < 64 && rs2 < 32 && rs1 < 32 && f3 < 8 && b4 < 16 && b11 < 2
    ensures Or(Or(Or(Or(Or(Or(Or(Shl(b12, 31), Shl(b10, 25)), Shl(rs2, 20)), Shl(rs1, 15)),
                        Shl(f3, 12)), Shl(b4, 8)), Shl(b11, 7)), OP_BRANCH)
              == Concat(Concat(Concat(Concat(Concat(Concat(Concat(b12, b10, 6), rs2, 5), rs1, 5), f3, 3),
                                      b4, 4), b11, 1), OP_BRANCH, 7)
  {
    Pow2Values();
    var c1 := Concat(b12, b10, 6);
    var c2 := Concat(c1, rs2, 5);
    var c3 := Concat(c2, rs1, 5);
    var c4 := Concat(c3, f3, 3);
    var c5 := Concat(c4, b4, 4);
    var c6 := Concat(c5, b11, 1);
    OrPlace(b12, b10, 25, 31, 6);
    OrPlace(c1, rs2, 20, 25, 5);
    OrPlace(c2, rs1, 15, 20, 5);
    OrPlace(c3, f3, 12, 15, 3);
    OrPlace(c4, b4, 8, 12, 4);
    OrPlace(c5, b11, 7, 8, 1);
    OrDisjoint(c6, OP_BRANCH, 7);
  }

  lemma {:induction false} EncodeBLayout(rs1: nat, rs2: nat, imm: int, funct3: nat)
    requires rs1 < 32 && rs2 < 32 && funct3 < 8
    ensures EncodeB(rs1, rs2, imm, funct3)
              == Concat(Concat(Concat(Concat(Concat(BTop(imm), rs2, 5), rs1, 5), funct3, 3),
                               BLow(imm), 5), OP_BRANCH, 7)
  {
    Pow2Values();
    var b12 := Field(imm, 12, 1);
    var b10 := Field(imm, 5, 6);
    var b4 := Field(imm, 1, 4);
    var b11 := Field(imm, 11, 1);
    AndMaskLow(Shr(imm, 12), 1, 1);
    AndMaskLow(Shr(imm, 5), 6, 0x3F);
    AndMaskLow(Shr(imm, 1), 4, 0xF);
    AndMaskLow(Shr(imm, 11), 1, 1);
    BChain(b12, b10, rs2, rs1, funct3, b4, b11);
    ConcatAssoc(Concat(Concat(Concat(Concat(b12, b10, 6), rs2, 5), rs1, 5), funct3, 3), b4, b11, 4, 1, 5);
  }

  /** The B-immediate bits of the R layout: bit 31 and bits 30:25 of the top
      field, bit 7 and bits 11:8 of the low field. */
  lemma {:induction false} RawImmBOfLayout(hi: nat, rs2: nat, rs1: nat, f3: nat, lo: nat, op: nat)
    requires hi < 128 && rs2 < 32 && rs1 < 32 && f3 < 8 && lo < 32 && op < 128
    ensures RawImmB(Concat(Concat(Concat(Concat(Concat(hi, rs2, 5), rs1, 5), f3, 3), lo, 5), op, 7))
              == Concat(Concat(Concat(Concat(Field(hi, 6, 1), Field(lo, 0, 1), 1), Field(hi, 0, 6), 6),
                               Field(lo, 1, 4), 4), 0, 1)
  {
    Pow2Values();
    var c1 := Concat(hi, rs2, 5);
    var q := Concat(Concat(c1, rs1, 5), f3, 3);
    Above20(c1, rs1, f3, lo, op, 31, 11, 1);
    FieldPeel(hi, rs2, 5, 11, 6, 1);
    Above20(c1, rs1, f3, lo, op, 25, 5, 6);
    FieldPeel(hi, rs2, 5, 5, 0, 6);
    FieldPeel(Concat(q, lo, 5), op, 7, 7, 0, 1);
    FieldInside(q, lo, 5, 0, 1);
    FieldPeel(Concat(q, lo, 5), op, 7, 8, 1, 4);
    FieldInside(q, lo, 5, 1, 4);
  }

  /** The B format's two immediate fields hold imm[12], imm[10:5] and
      imm[4:1], imm[11]. */
  lemma {:induction false} BFieldsOfImm(imm: int)
    ensures Field(BTop(imm), 6, 1) == Field(imm, 12, 1)
    ensures Field(BTop(imm), 0, 6) == Field(imm, 5, 6)
    ensures Field(BLow(imm), 0, 1) == Field(imm, 11, 1)
    ensures Field(BLow(imm), 1, 4) == Field(imm, 1, 4)
  {
    Pow2Values();
    FieldPeel(Field(imm, 12, 1), Field(imm, 5, 6), 6, 6, 0, 1);
    FieldWhole(Field(imm, 12, 1), 1);
    FieldLow(Field(imm, 12, 1), Field(imm, 5, 6), 6);
    FieldLow(Field(imm, 1, 4), Field(imm, 11, 1), 1);
    FieldPeel(Field(imm, 1, 4), Field(imm, 11, 1), 1, 1, 0, 4);
    FieldWhole(Field(imm, 1, 4), 4);
  }

  /** The scattered B-immediate bits of an even `imm`, put back in order,
      are its low 13 bits. */
  lemma {:induction false} BImmBits(imm: int)
    requires imm % 2 == 0
    ensures Concat(Concat(Concat(Concat(Field(imm, 12, 1), Field(imm, 11, 1), 1), Field(imm, 5, 6), 6),
                          Field(imm, 1, 4), 4), 0, 1)
            == Mask(imm, 13)
  {
    var b12 := Field(imm, 12, 1);
    var b11 := Field(imm, 11, 1);
    var b10 := Field(imm, 5, 6);
    var b4 := Field(imm, 1, 4);
    MaskSplit(imm, 13, 12, 1);
    MaskSplit(imm, 12, 11, 1);
    MaskSplit(imm, 11, 5, 6);
    MaskSplit(imm, 5, 1, 4);
    assert Mask(imm, 1) == 0;
    var l5 := Concat(b4, 0, 1);
    var l11 := Concat(b10, l5, 5);
    ConcatAssoc(Concat(Concat(b12, b11, 1), b10, 6), b4, 0, 4, 1, 5);
    ConcatAssoc(Concat(b12, b11, 1), b10, l5, 6, 5, 11);
    ConcatAssoc(b12, b11, l11, 1, 11, 12);
  }

  /** The fixed fields of a B-type word read back. */
  lemma {:induction false} EncodeBFields(rs1: nat, rs2: nat, imm: int, funct3: nat)
    requires rs1 < 32 && rs2 < 32 && funct3 < 8
    ensures EncodeB(rs1, rs2, imm, funct3) < WORD_SIZE
    ensures Opcode(EncodeB(rs1, rs2, imm, funct3)) == OP_BRANCH
    ensures Funct3(EncodeB(rs1, rs2, imm, funct3)) == funct3
    ensures Rs1(EncodeB(rs1, rs2, imm, funct3)) == rs1
    ensures Rs2(EncodeB(rs1, rs2, imm, funct3)) == rs2
  {
    var x := EncodeB(rs1, rs2, imm, funct3);
    EncodeBLayout(rs1, rs2, imm, funct3);
    assert x == Concat(Concat(Concat(Concat(Concat(BTop(imm), rs2, 5), rs1, 5), funct3, 3),
                              BLow(imm), 5), OP_BRANCH, 7);
    RLayoutFields(BTop(imm), rs2, rs1, funct3, BLow(imm), OP_BRANCH);
  }

  /** For an even `imm` the B-immediate of a B-type word is the 13-bit
      truncation of `imm`, so every even `imm` in [-4096, 4094] reads back
      unchanged. */
  lemma {:induction false} EncodeBImm(rs1: nat, rs2: nat, imm: int, funct3: nat)
    requires rs1 < 32 && rs2 < 32 && funct3 < 8
    requires imm % 2 == 0
    ensures Mask(ImmB(EncodeB(rs1, rs2, imm, funct3)), 13) == Mask(imm, 13)
    ensures -4096 <= imm < 4096 ==> ImmB(EncodeB(rs1, rs2, imm, funct3)) == imm
  {
    var x := EncodeB(rs1, rs2, imm, funct3);
    assert RawImmB(x) == Mask(imm, 13) by {
      EncodeBLayout(rs1, rs2, imm, funct3);
      assert Pow2(5) == 32 && Pow2(7) == 128 by { Pow2Values(); }
      RawImmBOfLayout(BTop(imm), rs2, rs1, funct3, BLow(imm), OP_BRANCH);
      BFieldsOfImm(imm);
      BImmBits(imm);
    }
    assert ImmB(x) == SignExt(Mask(imm, 13), 13);
    MaskOfSignExt(Mask(imm, 13), 13);
    if -4096 <= imm < 4096 {
      assert Pow2(12) == 4096 by { Pow2Values(); }
      SignExtOfMask(imm, 13);
    }
  }

  // ---------------------------------------------------------------------
  // U-type.

  lemma {:induction false} EncodeULayout(rd: nat, imm: int, opcode: nat)
    requires rd < 32 && opcode < 128
    ensures EncodeU(rd, imm, opcode) == Concat(Concat(Field(imm, 12, 20), rd, 5), opcode, 7)
  {
    Pow2Values();
    var f := Field(imm, 12, 20);
    AndMaskRange(imm, 12, 20, 32, 0xFFFF_F000);
    ShlShl(f, 5, 7, 12);
    OrPlace(f, rd, 7, 12, 5);
    OrDisjoint(Concat(f, rd, 5), opcode, 7);
  }

  /** A U-type word keeps exactly bits 31:12 of `imm`: its U-immediate is
      the low 32 bits of `imm` with the low 12 cleared. */
  lemma {:induction false} EncodeUFields(rd: nat, imm: int, opcode: nat)
    requires rd < 32 && opcode < 128
    ensures EncodeU(rd, imm, opcode) < WORD_SIZE
    ensures Opcode(EncodeU(rd, imm, opcode)) == opcode
    ensures Rd(EncodeU(rd, imm, opcode)) == rd
    ensures ImmU(EncodeU(rd, imm, opcode)) == Mask(imm, 32) - Mask(imm, 12)
    ensures Mask(ImmU(EncodeU(rd, imm, opcode)), 12) == 0
  {
    Pow2Values();
    var f := Field(imm, 12, 20);
    var x := EncodeU(rd, imm, opcode);
    EncodeULayout(rd, imm, opcode);
    assert x == Concat(Concat(f, rd, 5), opcode, 7);
    ConcatBound(f, 20, rd, 5, 25);
    ConcatBound(Concat(f, rd, 5), 25, opcode, 7, 32);
    Low12(f, rd, opcode);
    Above12(f, rd, opcode, 12, 0, 20);
    FieldWhole(f, 20);
    assert Field(x, 12, 20) == f;
    assert ImmU(x) == Shl(f, 12) + 0;
    ShlSplit(f, 0, 12);
    assert Mask(imm, 32) == Shl(f, 12) + Mask(imm, 12) by {
      MaskSplit(imm, 32, 12, 20);
    }
  }

  // ---------------------------------------------------------------------
  // J-type.

  /** The OR chain of the J format concatenates its six fields. */
  lemma {:induction false} JChain(j20: nat, j10: nat, j11: nat, j19: nat, rd: nat)
    requires j20 < 2 && j10 < 0x400 && j11 < 2 && j19 < 0x100 && rd < 32
    ensures Or(Or(Or(Or(Or(Shl(j20, 31), Shl(j10, 21)), Shl(j11, 20)), Shl(j19, 12)), Shl(rd, 7)), OP_JAL)
              == Concat(Concat(Concat(Concat(Concat(j20, j10, 10), j11, 1), j19, 8), rd, 5), OP_JAL, 7)
  {
    Pow2Values();
    var c1 := Concat(j20, j10, 10);
    var c2 := Concat(c1, j11, 1);
    var c3 := Concat(c2, j19, 8);
    var c4 := Concat(c3, rd, 5);
    OrPlace(j20, j10, 21, 31, 10);
    OrPlace(c1, j11, 20, 21, 1);
    OrPlace(c2, j19, 12, 20, 8);
    OrPlace(c3, rd, 7, 12, 5);
    OrDisjoint(c4, OP_JAL, 7);
  }

  lemma {:induction false} EncodeJLayout(rd: nat, imm: int)
    requires rd < 32
    ensures EncodeJ(rd, imm)
              == Concat(Concat(Concat(Concat(Concat(Field(imm, 20, 1), Field(imm, 1, 10), 10),
                                             Field(imm, 11, 1), 1), Field(imm, 12, 8), 8), rd, 5), OP_JAL, 7)
  {
    Pow2Values();
    AndMaskLow(Shr(imm, 20), 1, 1);
    AndMaskLow(Shr(imm, 1), 10, 0x3FF);
    AndMaskLow(Shr(imm, 11), 1, 1);
    AndMaskLow(Shr(imm, 12), 8, 0xFF);
    JChain(Field(imm, 20, 1), Field(imm, 1, 10), Field(imm, 11, 1), Field(imm, 12, 8), rd);
  }

  /** The J-immediate bits of the J layout, in immediate order. */
  lemma {:induction false} RawImmJOfLayout(j20: nat, j10: nat, j11: nat, j19: nat, rd: nat, op: nat)
    requires j20 < 2 && j10 < 0x400 && j11 < 2 && j19 < 0x100 && rd < 32 && op < 128
    ensures RawImmJ(Concat(Concat(Concat(Concat(Concat(j20, j10, 10), j11, 1), j19, 8), rd, 5), op, 7))
              == Concat(Concat(Concat(Concat(j20, j19, 8), j11, 1), j10, 10), 0, 1)
  {
    Pow2Values();
    var c1 := Concat(j20, j10, 10);
    var c2 := Concat(c1, j11, 1);
    var c3 := Concat(c2, j19, 8);
    Above12(c3, rd, op, 12, 0, 8);
    FieldLow(c2, j19, 8);
    Above12(c3, rd, op, 20, 8, 1);
    FieldPeel(c2, j19, 8, 8, 0, 1);
    FieldLow(c1, j11, 1);
    Above12(c3, rd, op, 21, 9, 10);
    FieldPeel(c2, j19, 8, 9, 1, 10);
    FieldPeel(c1, j11, 1, 1, 0, 10);
    FieldLow(j20, j10, 10);
    Above12(c3, rd, op, 31, 19, 1);
    FieldPeel(c2, j19, 8, 19, 11, 1);
    FieldPeel(c1, j11, 1, 11, 10, 1);
    FieldPeel(j20, j10, 10, 10, 0, 1);
    FieldWhole(j20, 1);
  }

  /** The scattered J-immediate bits of an even `imm`, put back in order,
      are its low 21 bits. */
  lemma {:induction false} JImmBits(imm: int)
    requires imm % 2 == 0
    ensures Concat(Concat(Concat(Concat(Field(imm, 20, 1), Field(imm, 12, 8), 8), Field(imm, 11, 1), 1),
                          Field(imm, 1, 10), 10), 0, 1)
            == Mask(imm, 21)
  {
    var j20 := Field(imm, 20, 1);
    var j19 := Field(imm, 12, 8);
    var j11 := Field(imm, 11, 1);
    var j10 := Field(imm, 1, 10);
    MaskSplit(imm, 21, 20, 1);
    MaskSplit(imm, 20, 12, 8);
    MaskSplit(imm, 12, 11, 1);
    MaskSplit(imm, 11, 1, 10);
    assert Mask(imm, 1) == 0;
    var l11 := Concat(j10, 0, 1);
    var l12 := Concat(j11, l11, 11);
    ConcatAssoc(Concat(Concat(j20, j19, 8), j11, 1), j10, 0, 10, 1, 11);
    ConcatAssoc(Concat(j20, j19, 8), j11, l11, 1, 11, 12);
    ConcatAssoc(j20, j19, l12, 8, 12, 20);
  }

  /** The fixed fields of a J-type word read back. */
  lemma {:induction false} EncodeJFields(rd: nat, imm: int)
    requires rd < 32
    ensures EncodeJ(rd, imm) < WORD_SIZE
    ensures Opcode(EncodeJ(rd, imm)) == OP_JAL
    ensures Rd(EncodeJ(rd, imm)) == rd
  {
    Pow2Values();
    var c3 := Concat(Concat(Concat(Field(imm, 20, 1), Field(imm, 1, 10), 10), Field(imm, 11, 1), 1),
                     Field(imm, 12, 8), 8);
    EncodeJLayout(rd, imm);
    ConcatBound(Field(imm, 20, 1), 1, Field(imm, 1, 10), 10, 11);
    ConcatBound(Concat(Field(imm, 20, 1), Field(imm, 1, 10), 10), 11, Field(imm, 11, 1), 1, 12);
    ConcatBound(Concat(Concat(Field(imm, 20, 1), Field(imm, 1, 10), 10), Field(imm, 11, 1), 1), 12,
                Field(imm, 12, 8), 8, 20);
    ConcatBound(c3, 20, rd, 5, 25);
    ConcatBound(Concat(c3, rd, 5), 25, OP_JAL, 7, 32);
    Low12(c3, rd, OP_JAL);
  }

  /** For an even `imm` the J-immediate of a J-type word is the 21-bit
      truncation of `imm`, so every even `imm` in [-2^20, 2^20 - 2] reads
      back unchanged. */
  lemma {:induction false} EncodeJImm(rd: nat, imm: int)
    requires rd < 32
    requires imm % 2 == 0
    ensures Mask(ImmJ(EncodeJ(rd, imm)), 21) == Mask(imm, 21)
    ensures -0x10_0000 <= imm < 0x10_0000 ==> ImmJ(EncodeJ(rd, imm)) == imm
  {
    var x := EncodeJ(rd, imm);
    assert RawImmJ(x) == Mask(imm, 21) by {
      EncodeJLayout(rd, imm);
      assert Pow2(1) == 2 && Pow2(8) == 0x100 && Pow2(10) == 0x400 && Pow2(5) == 32 && Pow2(7) == 128
        by { Pow2Values(); }
      RawImmJOfLayout(Field(imm, 20, 1), Field(imm, 1, 10), Field(imm, 11, 1), Field(imm, 12, 8), rd, OP_JAL);
      JImmBits(imm);
    }
    assert ImmJ(x) == SignExt(Mask(imm, 21), 21);
    MaskOfSignExt(Mask(imm, 21), 21);
    if -0x10_0000 <= imm < 0x10_0000 {
      assert Pow2(20) == 0x10_0000 by { Pow2Values(); }
      SignExtOfMask(imm, 21);
    }
  }

  // ---------------------------------------------------------------------
  // The CPU-core testbench's branch words.

  /** Every field of a word of the mask-based B encoder reads back, the
      immediate included for an even `imm` in [-4096, 4094]. */
  lemma {:induction false} EncodeBMaskedFields(rs1: nat, rs2: nat, imm: int, funct3: nat)
    requires rs1 < 32 && rs2 < 32 && funct3 < 8
    requires imm % 2 == 0 && -4096 <= imm < 4096
    ensures var w := EncodeBMasked(rs1, rs2, imm, funct3);
            w < WORD_SIZE && Opcode(w) == OP_BRANCH && Funct3(w) == funct3
            && Rs1(w) == rs1 && Rs2(w) == rs2 && ImmB(w) == imm
  {
    EncodeBMaskedAgrees(rs1, rs2, imm, funct3);
    EncodeBFields(rs1, rs2, imm, funct3);
    EncodeBImm(rs1, rs2, imm, funct3);
  }

  /** `beq x1, x2, 8` and `bne x3, x4, -8`, the two branches the CPU-core
      testbench encodes, decode to the registers, condition and offset
      written. */
  lemma {:induction false} CoreBranchVectors(rs1: nat, rs2: nat, offset: int, funct3: nat)
    requires (rs1, rs2, offset, funct3) in {(1, 2, 8, 0), (3, 4, -8, 1)}
    ensures var w := EncodeBMasked(rs1, rs2, offset, funct3);
            Opcode(w) == OP_BRANCH && Funct3(w) == funct3 && Rs1(w) == rs1 && Rs2(w) == rs2
            && ImmB(w) == offset
  {
    EncodeBMaskedFields(rs1, rs2, offset, funct3);
  }
}
