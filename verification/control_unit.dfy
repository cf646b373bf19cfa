/** The control unit's decode of register-register (R-type) instructions:
    the control signals every R-type sets, the register and function fields
    it passes on, and the ALU operation code it derives from funct7 bit 5
    and funct3. */
module ControlUnit {
  import opened Bits
  import opened Results
  import opened Isa
  import Alu
  import Encoding

  /** The control unit's outputs. `resultSrc` 0 selects the ALU result for
      write-back. */
  datatype Control = Control(
    regWrite: bool, aluSrc: bool, memWrite: bool, branch: bool, jump: bool,
    resultSrc: nat, aluOp: nat,
    rd: nat, rs1: nat, rs2: nat, funct3: nat, funct7: nat)

  /** The ALU operation code: funct7 bit 5 above the three funct3 bits. */
  function AluOpOf(funct7: nat, funct3: nat): nat
  {
    8 * BitOf(funct7, 5) + funct3
  }

  /** The decode of an instruction word. The outputs for an opcode other
      than OP are not pinned down by any test, so they are absent here. */
  function Decode(inst: Word): Option<Control>
  {
    if Opcode(inst) == OP_REG then
      Some(Control(
        regWrite := true, aluSrc := false, memWrite := false, branch := false, jump := false,
        resultSrc := 0, aluOp := AluOpOf(Funct7(inst), Funct3(inst)),
        rd := Rd(inst), rs1 := Rs1(inst), rs2 := Rs2(inst),
        funct3 := Funct3(inst), funct7 := Funct7(inst)))
    else
      None
  }

  /** The funct3/funct7 pairs of the ten RV32I register-register operations:
      funct7 is 0, or 0b0100000 for SUB and SRA. */
  predicate IsRTypeFunct(funct3: nat, funct7: nat)
  {
    funct3 < 8 && (funct7 == 0 || (funct7 == 0x20 && (funct3 == 0 || funct3 == 5)))
  }

  /** The funct3/funct7 pair of each ALU operation code. */
  function FunctsOf(op: nat): (nat, nat)
  {
    if op >= 8 then (op - 8, 0x20) else (op, 0)
  }

  /** Bit 5 of the two funct7 values of RV32I's register-register
      operations. */
  lemma {:induction false} Funct7Bit5(funct7: nat)
    requires funct7 == 0 || funct7 == 0x20
    ensures BitOf(funct7, 5) == if funct7 == 0x20 then 1 else 0
  {
    Pow2Values();
    ShrDiv(funct7, 5);
    MaskSmall(Shr(funct7, 5), 1);
  }

  /** The ALU operation code of an RV32I register-register instruction is an
      operation of the ALU, and each code comes from exactly one funct3/funct7
      pair. */
  lemma {:induction false} AluOpOfRType(funct3: nat, funct7: nat)
    requires IsRTypeFunct(funct3, funct7)
    ensures AluOpOf(funct7, funct3) == (if funct7 == 0x20 then 8 else 0) + funct3
    ensures Alu.IsOp(AluOpOf(funct7, funct3))
    ensures FunctsOf(AluOpOf(funct7, funct3)) == (funct3, funct7)
  {
    Funct7Bit5(funct7);
  }

  /** Every ALU operation code is produced by its own funct3/funct7 pair. */
  lemma {:induction false} FunctsOfIsInverse(op: nat)
    requires Alu.IsOp(op)
    ensures IsRTypeFunct(FunctsOf(op).0, FunctsOf(op).1)
    ensures AluOpOf(FunctsOf(op).1, FunctsOf(op).0) == op
  {
    AluOpOfRType(FunctsOf(op).0, FunctsOf(op).1);
  }

  /** Decoding `encode_r_type(rd, rs1, rs2, funct3, funct7)` sets the R-type
      control signals, whatever the register numbers (x0 and rd = rs1 = rs2
      included), and returns every field unchanged. */
  lemma {:induction false} DecodeEncodeR(rd: nat, rs1: nat, rs2: nat, funct3: nat, funct7: nat)
    requires rd < 32 && rs1 < 32 && rs2 < 32 && funct3 < 8 && funct7 < 128
    ensures Encoding.EncodeR(rd, rs1, rs2, funct3, funct7) < WORD_SIZE
    ensures Decode(Encoding.EncodeR(rd, rs1, rs2, funct3, funct7))
            == Some(Control(true, false, false, false, false, 0, AluOpOf(funct7, funct3),
                            rd, rs1, rs2, funct3, funct7))
  {
    Encoding.EncodeRFields(rd, rs1, rs2, funct3, funct7);
  }

  /** Every decoded R-type sets the same control signals, and only an OP
      opcode decodes. */
  lemma {:induction false} DecodeRTypeSignals(inst: Word)
    ensures Decode(inst).Some? <==> Classify(Opcode(inst)) == Some(RType)
    ensures Decode(inst).Some? ==>
              var c := Decode(inst).value;
              c.regWrite && !c.aluSrc && !c.memWrite && !c.branch && !c.jump && c.resultSrc == 0
              && c.aluOp < 16
  {
    ClassifyMatchesOpcodes(Opcode(inst), RType);
    if Opcode(inst) == OP_REG {
      assert Pow2(3) == 8 by { Pow2Values(); }
    }
  }
}
