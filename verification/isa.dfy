/** The RV32I instruction formats of section 2.2 of the RISC-V Unprivileged
    ISA, the immediate variants of its section 2.3 and the branch conditions
    of its section 2.5, as the testbenches name and classify them. */
module Isa {
  import opened Bits
  import opened Results

  /** Major opcodes, bits 6:0 of an instruction. */
  const OP_REG: nat := 0x33     // register-register ALU (R-type)
  const OP_IMM: nat := 0x13     // register-immediate ALU
  const OP_LOAD: nat := 0x03
  const OP_JALR: nat := 0x67
  const OP_STORE: nat := 0x23
  const OP_BRANCH: nat := 0x63
  const OP_LUI: nat := 0x37
  const OP_AUIPC: nat := 0x17
  const OP_JAL: nat := 0x6F

  /** `addi x0, x0, 0`. */
  const NOP: Word := 0x13

  /** A register number. */
  type Reg = x: int | 0 <= x < 32

  // ---------------------------------------------------------------------
  // Fixed fields.

  function Opcode(inst: int): (r: nat) ensures r < Pow2(7) { Field(inst, 0, 7) }
  function Rd(inst: int): (r: nat) ensures r < Pow2(5) { Field(inst, 7, 5) }
  function Funct3(inst: int): (r: nat) ensures r < Pow2(3) { Field(inst, 12, 3) }
  function Rs1(inst: int): (r: nat) ensures r < Pow2(5) { Field(inst, 15, 5) }
  function Rs2(inst: int): (r: nat) ensures r < Pow2(5) { Field(inst, 20, 5) }
  function Funct7(inst: int): (r: nat) ensures r < Pow2(7) { Field(inst, 25, 7) }

  // ---------------------------------------------------------------------
  // Immediates. Each is sign-extended from its top bit, instruction bit 31.

  /** imm[11:0] = inst[31:20]. */
  function ImmI(inst: int): (r: int)
    ensures -(Pow2(11) as int) <= r < Pow2(11)
  {
    SignExt(Field(inst, 20, 12), 12)
  }

  /** imm[11:5] = inst[31:25], imm[4:0] = inst[11:7]. */
  function ImmS(inst: int): (r: int)
    ensures -(Pow2(11) as int) <= r < Pow2(11)
  {
    ConcatBound(Field(inst, 25, 7), 7, Field(inst, 7, 5), 5, 12);
    SignExt(Concat(Field(inst, 25, 7), Field(inst, 7, 5), 5), 12)
  }

  /** The unsigned B-immediate bits: imm[12] = inst[31], imm[11] = inst[7],
      imm[10:5] = inst[30:25], imm[4:1] = inst[11:8], imm[0] = 0. */
  function RawImmB(inst: int): (r: nat)
    ensures r < Pow2(13)
  {
    var top := Concat(Field(inst, 31, 1), Field(inst, 7, 1), 1);
    var hi := Concat(top, Field(inst, 25, 6), 6);
    var bits := Concat(hi, Field(inst, 8, 4), 4);
    ConcatBound(Field(inst, 31, 1), 1, Field(inst, 7, 1), 1, 2);
    ConcatBound(top, 2, Field(inst, 25, 6), 6, 8);
    ConcatBound(hi, 8, Field(inst, 8, 4), 4, 12);
    ConcatBound(bits, 12, 0, 1, 13);
    Concat(bits, 0, 1)
  }

  function ImmB(inst: int): (r: int)
    ensures -(Pow2(12) as int) <= r < Pow2(12)
  {
    SignExt(RawImmB(inst), 13)
  }

  /** imm[31:12] = inst[31:12], imm[11:0] = 0. */
  function ImmU(inst: int): (r: nat)
    ensures r < Pow2(32)
  {
    ConcatBound(Field(inst, 12, 20), 20, 0, 12, 32);
    Concat(Field(inst, 12, 20), 0, 12)
  }

  /** The unsigned J-immediate bits: imm[20] = inst[31], imm[19:12] =
      inst[19:12], imm[11] = inst[20], imm[10:1] = inst[30:21], imm[0] = 0. */
  function RawImmJ(inst: int): (r: nat)
    ensures r < Pow2(21)
  {
    var top := Concat(Field(inst, 31, 1), Field(inst, 12, 8), 8);
    var hi := Concat(top, Field(inst, 20, 1), 1);
    var bits := Concat(hi, Field(inst, 21, 10), 10);
    ConcatBound(Field(inst, 31, 1), 1, Field(inst, 12, 8), 8, 9);
    ConcatBound(top, 9, Field(inst, 20, 1), 1, 10);
    ConcatBound(hi, 10, Field(inst, 21, 10), 10, 20);
    ConcatBound(bits, 20, 0, 1, 21);
    Concat(bits, 0, 1)
  }

  function ImmJ(inst: int): (r: int)
    ensures -(Pow2(20) as int) <= r < Pow2(20)
  {
    SignExt(RawImmJ(inst), 21)
  }

  // ---------------------------------------------------------------------
  // Instruction classes by opcode.

  datatype Format = RType | IType | SType | BType | UType | JType

  /** The instruction class of an opcode, none for an opcode outside RV32I's
      nine major opcodes. */
  function Classify(opcode: nat): Option<Format>
  {
    if opcode == OP_REG then Some(RType)
    else if opcode in {OP_IMM, OP_LOAD, OP_JALR} then Some(IType)
    else if opcode == OP_STORE then Some(SType)
    else if opcode == OP_BRANCH then Some(BType)
    else if opcode in {OP_LUI, OP_AUIPC} then Some(UType)
    else if opcode == OP_JAL then Some(JType)
    else None
  }

  /** The opcodes of each class, as listed in section 2.2's format table. */
  function Opcodes(f: Format): set<nat>
  {
    match f
    case RType => {OP_REG}
    case IType => {OP_IMM, OP_LOAD, OP_JALR}
    case SType => {OP_STORE}
    case BType => {OP_BRANCH}
    case UType => {OP_LUI, OP_AUIPC}
    case JType => {OP_JAL}
  }

  /** The NOP word is `addi x0, x0, 0`: opcode OP-IMM with funct3 ADDI and
      every register and immediate field zero. */
  lemma {:induction false} NopIsAddi()
    ensures Opcode(NOP) == OP_IMM && Funct3(NOP) == 0
    ensures Rd(NOP) == 0 && Rs1(NOP) == 0 && ImmI(NOP) == 0
  {
    Pow2Values();
    FieldWhole(NOP, 7);
    FieldAbove(NOP, 7, 5);
    FieldAbove(NOP, 12, 3);
    FieldAbove(NOP, 15, 5);
    FieldAbove(NOP, 20, 12);
  }

  /** An opcode is classified as exactly the class listing it, and only
      listed opcodes are classified. */
  lemma {:induction false} ClassifyMatchesOpcodes(opcode: nat, f: Format)
    ensures Classify(opcode) == Some(f) <==> opcode in Opcodes(f)
    ensures Classify(opcode) == None <==>
              forall g: Format :: opcode !in Opcodes(g)
  {
    match Classify(opcode)
    case Some(g) =>
      assert opcode in Opcodes(g);
    case None =>
      forall g: Format ensures opcode !in Opcodes(g) {
        assert g.RType? || g.IType? || g.SType? || g.BType? || g.UType? || g.JType?;
      }
  }

  /** No opcode belongs to two classes. */
  lemma {:induction false} OpcodeClassesDisjoint(f: Format, g: Format)
    requires f != g
    ensures Opcodes(f) !! Opcodes(g)
  {
  }

  /** Every classified opcode is a 32-bit encoding: its two low bits are set. */
  lemma {:induction false} ClassifiedOpcodesAre32Bit(opcode: nat)
    requires Classify(opcode).Some?
    ensures opcode % 4 == 3
  {
  }

  // ---------------------------------------------------------------------
  // Branch conditions.

  datatype Condition = Beq | Bne | Blt | Bge | Bltu | Bgeu

  /** The condition a branch's funct3 selects; 0b010 and 0b011 select none. */
  function BranchCondition(funct3: nat): Option<Condition>
  {
    match funct3
    case 0 => Some(Beq)
    case 1 => Some(Bne)
    case 4 => Some(Blt)
    case 5 => Some(Bge)
    case 6 => Some(Bltu)
    case 7 => Some(Bgeu)
    case _ => None
  }

  /** Whether a branch with condition `c` on operands `a`, `b` is taken. */
  predicate Taken(c: Condition, a: Word, b: Word)
  {
    match c
    case Beq => a == b
    case Bne => a != b
    case Blt => Signed(a) < Signed(b)
    case Bge => Signed(a) >= Signed(b)
    case Bltu => a < b
    case Bgeu => a >= b
  }

  /** Exactly the funct3 values 0b010 and 0b011 select no condition. */
  lemma {:induction false} BranchConditionDefined(funct3: nat)
    requires funct3 < 8
    ensures BranchCondition(funct3).None? <==> funct3 == 2 || funct3 == 3
  {
  }

  /** funct3 bit 0 negates a branch condition: the conditions at `2k` and
      `2k + 1` are complementary. */
  lemma {:induction false} BranchBit0Negates(funct3: nat, a: Word, b: Word)
    requires funct3 < 8 && funct3 % 2 == 0 && BranchCondition(funct3).Some?
    ensures BranchCondition(funct3 + 1).Some?
    ensures Taken(BranchCondition(funct3 + 1).value, a, b)
              == !Taken(BranchCondition(funct3).value, a, b)
  {
  }

  /** funct3 bit 1 selects the unsigned comparison of the less-than pairs:
      on operands with the same sign the two comparisons agree. */
  lemma {:induction false} BranchUnsignedAgrees(funct3: nat, a: Word, b: Word)
    requires funct3 == 4 || funct3 == 5
    requires (a < SIGN_BIT) == (b < SIGN_BIT)
    ensures Taken(BranchCondition(funct3 + 2).value, a, b)
              == Taken(BranchCondition(funct3).value, a, b)
  {
  }
}
