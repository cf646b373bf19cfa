/** The ALU: its operation codes, the testbench's expected-result calculator
    and its `sign_extend` helper (the reference for the arithmetic right
    shift), and the RV32I meaning of every operation together with the
    zero, negative and overflow flags the testbench checks. */
module Alu {
  import opened Bits

  /** Operation codes: funct7 bit 5 over funct3 of the R-type instruction. */
  const ALU_ADD: int := 0x0
  const ALU_SUB: int := 0x8
  const ALU_SLL: int := 0x1
  const ALU_SLT: int := 0x2
  const ALU_SLTU: int := 0x3
  const ALU_XOR: int := 0x4
  const ALU_SRL: int := 0x5
  const ALU_SRA: int := 0xD
  const ALU_OR: int := 0x6
  const ALU_AND: int := 0x7

  /** The ten operations the ALU implements. */
  predicate IsOp(op: int)
  {
    op == ALU_ADD || op == ALU_SUB || op == ALU_SLL || op == ALU_SLT || op == ALU_SLTU
    || op == ALU_XOR || op == ALU_SRL || op == ALU_SRA || op == ALU_OR || op == ALU_AND
  }

  predicate IsShift(op: int)
  {
    op == ALU_SLL || op == ALU_SRL || op == ALU_SRA
  }

  // ---------------------------------------------------------------------
  // The testbench's reference helpers.

  /** `sign_extend(value, shift_amount)`: the testbench's arithmetic right
      shift of the low 32 bits of `value`. A negative word is shifted
      logically and the vacated top bits are filled with ones by OR-ing in
      `((1 << s) - 1) << (32 - s)`. A shift amount above 32 makes that
      left shift negative, which the host language rejects. */
  function SignExtend(value: int, s: nat): (r: Word)
    requires s <= 32
  {
    var v := Mask(value, 32);
    if And(v, SIGN_BIT) != 0 then
      ShlMul(1, s);
      var result := Shr(v, s);
      var mask := Shl(Shl(1, s) - 1, 32 - s);
      MaskWord(Or(result, mask));
      Mask(Or(result, mask), 32)
    else
      MaskWord(Shr(v, s));
      Mask(Shr(v, s), 32)
  }

  /** The expected result of `test_random_operations`, for operands drawn
      from the 32-bit range. An operation code outside the first nine falls
      through to AND. Only SRA constrains the shift amount, through
      `sign_extend`. */
  function Expected(op: int, a: Word, b: Word): (r: int)
    requires op == ALU_SRA ==> b <= 32
  {
    if op == ALU_ADD then Mask(a + b, 32)
    else if op == ALU_SUB then Mask(a - b, 32)
    else if op == ALU_SLL then Mask(Shl(a, b), 32)
    else if op == ALU_SLT then (if Xor(a, SIGN_BIT) - Xor(b, SIGN_BIT) < 0 then 1 else 0)
    else if op == ALU_SLTU then (if a < b then 1 else 0)
    else if op == ALU_XOR then Xor(a, b)
    else if op == ALU_SRL then Shr(a, b)
    else if op == ALU_SRA then SignExtend(a, b)
    else if op == ALU_OR then Or(a, b)
    else And(a, b)
  }

  // ---------------------------------------------------------------------
  // The ALU.

  /** The ALU's outputs. */
  datatype AluOut = AluOut(result: Word, zero: bool, negative: bool, overflow: bool)

  /** The result of each operation as section 2.4 of the RISC-V
      Unprivileged ISA defines it: arithmetic modulo 2^32, comparisons on
      the signed or unsigned reading, shifts by the low five bits of `b`.
      An operation code outside the ten yields 0. */
  function Compute(op: int, a: Word, b: Word): Word
  {
    var sh := b % 32;
    if op == ALU_ADD then ToWord(a + b)
    else if op == ALU_SUB then ToWord(a - b)
    else if op == ALU_SLL then ToWord(Shl(a, sh))
    else if op == ALU_SLT then (if Signed(a) < Signed(b) then 1 else 0)
    else if op == ALU_SLTU then (if a < b then 1 else 0)
    else if op == ALU_XOR then WordBitwise(XorOp, a, b); Xor(a, b)
    else if op == ALU_SRL then Shr(a, sh)
    else if op == ALU_SRA then ToWord(Shr(Signed(a), sh))
    else if op == ALU_OR then WordBitwise(OrOp, a, b); Or(a, b)
    else if op == ALU_AND then WordBitwise(AndOp, a, b); And(a, b)
    else 0
  }

  /** Signed overflow of ADD and SUB: the exact sum or difference of the
      signed readings leaves the 32-bit signed range. Other operations never
      overflow. */
  predicate Overflow(op: int, a: Word, b: Word)
  {
    if op == ALU_ADD then !(-SIGN_BIT <= Signed(a) + Signed(b) < SIGN_BIT)
    else if op == ALU_SUB then !(-SIGN_BIT <= Signed(a) - Signed(b) < SIGN_BIT)
    else false
  }

  function Execute(op: int, a: Word, b: Word): AluOut
  {
    var r := Compute(op, a, b);
    AluOut(r, r == 0, r >= SIGN_BIT, Overflow(op, a, b))
  }

  /** A bitwise operator keeps words within 32 bits. */
  lemma {:induction false} WordBitwise(op: BitOp, a: Word, b: Word)
    ensures Bitwise(op, a, b) < WORD_SIZE
  {
    Pow2Values();
    BitwiseBound(op, a, b, 32);
  }

  // ---------------------------------------------------------------------
  // sign_extend is the arithmetic right shift.

  /** `value & 0x80000000` tests bit 31 of a word. */
  lemma {:induction false} SignBitTest(v: Word)
    ensures And(v, SIGN_BIT) == if v >= SIGN_BIT then SIGN_BIT else 0
  {
    Pow2Values();
    AndMaskRange(v, 31, 1, 32, SIGN_BIT);
    MaskSmall(v, 32);
    ShrDiv(v, 31);
    var top := Shr(v, 31);
    assert top == (if v >= SIGN_BIT then 1 else 0);
    assert Mask(top, 1) == top;
    ShlMul(top, 31);
  }

  /** Below the sign bit, `sign_extend` is the logical shift. */
  lemma {:induction false} SignExtendNonNegative(v: Word, s: nat)
    requires s <= 32 && v < SIGN_BIT
    ensures SignExtend(v, s) == Shr(v, s)
  {
    Pow2Values();
    MaskSmall(v, 32);
    SignBitTest(v);
    MaskSmall(Shr(v, s), 32);
  }

  /** OR-ing ones into the top `s` bits above a `k = 32 - s`-bit value adds
      them. */
  lemma {:induction false} FillTop(result: nat, s: nat, k: nat)
    requires s + k == 32 && result < Pow2(k)
    ensures Pow2(s) >= 1
    ensures Or(result, Shl(Pow2(s) - 1, k)) == result + WORD_SIZE - Pow2(k)
  {
    var ones := Shl(Pow2(s) - 1, k);
    assert ones == WORD_SIZE - Pow2(k) by {
      assert Pow2(32) == WORD_SIZE by { Pow2Values(); }
      ShlOnes(s, k, 32);
    }
    assert Or(ones, result) == ones + result by {
      OrDisjoint(Pow2(s) - 1, result, k);
    }
    BitwiseCommutes(OrOp, result, ones);
  }

  /** On a negative word `sign_extend` takes its fill branch. */
  lemma {:induction false} SignExtendFills(v: Word, s: nat, k: nat)
    requires s + k == 32 && v >= SIGN_BIT
    ensures SignExtend(v, s) == Mask(Or(Shr(v, s), Shl(Pow2(s) - 1, k)), 32)
  {
    Pow2Word();
    MaskSmall(v, 32);
    SignBitTest(v);
    ShlMul(1, s);
  }

  /** From the sign bit up, `sign_extend` is the logical shift with the top
      `s` bits set. */
  lemma {:induction false} SignExtendNegative(v: Word, s: nat, k: nat)
    requires s + k == 32 && v >= SIGN_BIT
    ensures SignExtend(v, s) == Shr(v, s) + WORD_SIZE - Pow2(k)
  {
    Pow2Word();
    var result := Shr(v, s);
    SignExtendFills(v, s, k);
    assert result < Pow2(k) by { ShrBound(v, 32, s); }
    FillTop(result, s, k);
    var filled := result + WORD_SIZE - Pow2(k);
    MaskSmall(filled, 32);
  }

  /** Shifting `x - 2^(s + k)` right by `s` subtracts `2^k` from the shift. */
  lemma {:induction false} ShrSubPow2(x: int, s: nat, k: nat, n: nat)
    requires n == s + k
    ensures Shr(x - Pow2(n), s) == Shr(x, s) - Pow2(k)
  {
    var p, q := Pow2(s), Pow2(k);
    assert Pow2(n) == q * p by { Pow2Add(s, k); }
    assert Shr(x, s) == x / p by { ShrDiv(x, s); }
    assert Shr(x - Pow2(n), s) == (x - q * p) / p by { ShrDiv(x - Pow2(n), s); }
    DivSubMultiple(x, p, q);
  }

  /** `sign_extend(v, s)` is the arithmetic right shift: the floor of the
      signed reading of `v` over `2^s`, truncated back to a word. */
  lemma {:induction false} SignExtendIsShift(v: Word, s: nat, k: nat)
    requires s + k == 32
    ensures SignExtend(v, s) == ToWord(Shr(Signed(v), s))
  {
    Pow2Word();
    if v < SIGN_BIT {
      SignExtendNonNegative(v, s);
    } else {
      SignExtendNegative(v, s, k);
      ShrSubPow2(v, s, k, 32);
      var y := Shr(v, s) - Pow2(k);
      assert -WORD_SIZE <= y < 0 by {
        ShrBound(v, 32, s);
        Pow2Monotone(k, 32);
      }
      DivModUnique(y, WORD_SIZE, -1, y + WORD_SIZE);
    }
  }

  // ---------------------------------------------------------------------
  // The testbench's calculator agrees with the ALU.

  /** Flipping the sign bit biases the signed reading into the unsigned
      range: `a ^ 0x80000000 == Signed(a) + 2^31`. */
  lemma {:induction false} SignBias(a: Word)
    ensures Xor(a, SIGN_BIT) == Signed(a) + SIGN_BIT
  {
    Pow2Word();
    XorPow2(a, 31);
  }

  /** The sign-bias comparison `((a ^ 0x80000000) - (b ^ 0x80000000)) < 0`
      is the signed comparison. */
  lemma {:induction false} SltBias(a: Word, b: Word)
    ensures Xor(a, SIGN_BIT) - Xor(b, SIGN_BIT) < 0 <==> Signed(a) < Signed(b)
  {
    SignBias(a);
    SignBias(b);
  }

  /** ADD, SUB and SLL: masking to 32 bits is the reduction modulo 2^32. */
  lemma {:induction false} ArithmeticMatches(op: int, a: Word, b: Word)
    requires op == ALU_ADD || op == ALU_SUB || op == ALU_SLL
    requires op == ALU_SLL ==> b < 32
    ensures Expected(op, a, b) == Compute(op, a, b)
  {
    if op == ALU_ADD {
      MaskWord(a + b);
    } else if op == ALU_SUB {
      MaskWord(a - b);
    } else {
      assert b % 32 == b;
      MaskWord(Shl(a, b));
    }
  }

  /** SRA: `sign_extend` is the arithmetic right shift. */
  lemma {:induction false} SraMatches(a: Word, b: Word)
    requires b < 32
    ensures Expected(ALU_SRA, a, b) == Compute(ALU_SRA, a, b)
  {
    assert b % 32 == b;
    SignExtendIsShift(a, b, 32 - b);
  }

  /** For every operation and every pair of words, shift amounts below 32,
      the testbench's expected result is the ALU's result. */
  lemma {:induction false} ExpectedMatchesCompute(op: int, a: Word, b: Word)
    requires IsOp(op) && (IsShift(op) ==> b < 32)
    ensures Expected(op, a, b) == Compute(op, a, b)
  {
    if op == ALU_ADD || op == ALU_SUB || op == ALU_SLL {
      ArithmeticMatches(op, a, b);
    } else if op == ALU_SLT {
      SltBias(a, b);
    } else if op == ALU_SRA {
      SraMatches(a, b);
    }
  }

  /** A shift by zero leaves the operand unchanged. */
  lemma {:induction false} ShiftByZero(op: int, a: Word)
    requires IsShift(op)
    ensures Compute(op, a, 0) == a
    ensures Expected(op, a, 0) == a
  {
    ExpectedMatchesCompute(op, a, 0);
  }

  /** A shift by 31 leaves only the sign: SRL yields bit 31 and SRA yields
      all ones for a negative word and zero otherwise. */
  lemma {:induction false} ShiftBy31(a: Word)
    ensures Compute(ALU_SRL, a, 31) == if a >= SIGN_BIT then 1 else 0
    ensures Compute(ALU_SRA, a, 31) == if a >= SIGN_BIT then 0xFFFF_FFFF else 0
  {
    Pow2Word();
    assert 31 % 32 == 31;
    assert Shr(a, 31) == a / SIGN_BIT by { ShrDiv(a, 31); }
    assert Shr(Signed(a), 31) == Signed(a) / SIGN_BIT by { ShrDiv(Signed(a), 31); }
    if a >= SIGN_BIT {
      DivModUnique(Signed(a), SIGN_BIT, -1, a - SIGN_BIT);
      ToWordNear(-1);
    } else {
      DivModUnique(Signed(a), SIGN_BIT, 0, a);
    }
  }

  // ---------------------------------------------------------------------
  // Flags.

  /** A word is negative exactly when its bit 31 is set. */
  lemma {:induction false} NegativeIsBit31(r: Word)
    ensures r >= SIGN_BIT <==> BitOf(r, 31) == 1
  {
    Pow2Word();
    ShrDiv(r, 31);
    var top := Shr(r, 31);
    assert top == (if r >= SIGN_BIT then 1 else 0);
    MaskSmall(top, 1);
  }

  /** The zero flag is set exactly for a zero result, and the negative flag
      is bit 31 of the result, that is the sign of its signed reading. */
  lemma {:induction false} ExecuteFlags(op: int, a: Word, b: Word)
    ensures Execute(op, a, b).zero <==> Execute(op, a, b).result == 0
    ensures Execute(op, a, b).negative <==> BitOf(Execute(op, a, b).result, 31) == 1
    ensures Execute(op, a, b).negative <==> Signed(Execute(op, a, b).result) < 0
    ensures Execute(op, a, b).result == Compute(op, a, b)
  {
    NegativeIsBit31(Compute(op, a, b));
  }

  /** The low 32 bits of a value within one word of the word range. */
  lemma {:induction false} ToWordNear(x: int)
    requires -WORD_SIZE <= x < 2 * WORD_SIZE
    ensures ToWord(x) == if x < 0 then x + WORD_SIZE
                         else if x < WORD_SIZE then x
                         else x - WORD_SIZE
  {
    if x < 0 {
      DivModUnique(x, WORD_SIZE, -1, x + WORD_SIZE);
    } else if x >= WORD_SIZE {
      DivModUnique(x, WORD_SIZE, 1, x - WORD_SIZE);
    }
  }

  /** ADD overflows exactly when the signed reading of the result is not
      the signed sum, which is when both operands have one sign and the
      result the other. */
  lemma {:induction false} AddOverflow(a: Word, b: Word)
    ensures Overflow(ALU_ADD, a, b) <==>
              Signed(Compute(ALU_ADD, a, b)) != Signed(a) + Signed(b)
    ensures Overflow(ALU_ADD, a, b) <==>
              (a >= SIGN_BIT) == (b >= SIGN_BIT)
              && (Compute(ALU_ADD, a, b) >= SIGN_BIT) != (a >= SIGN_BIT)
  {
    ToWordNear(a + b);
  }

  /** SUB overflows exactly when the signed reading of the result is not
      the signed difference, which is when the operands differ in sign and
      the result's sign differs from the minuend's. */
  lemma {:induction false} SubOverflow(a: Word, b: Word)
    ensures Overflow(ALU_SUB, a, b) <==>
              Signed(Compute(ALU_SUB, a, b)) != Signed(a) - Signed(b)
    ensures Overflow(ALU_SUB, a, b) <==>
              (a >= SIGN_BIT) != (b >= SIGN_BIT)
              && (Compute(ALU_SUB, a, b) >= SIGN_BIT) != (a >= SIGN_BIT)
  {
    ToWordNear(a - b);
  }

  // ---------------------------------------------------------------------
  // Logical operations.

  function OpOf(op: int): BitOp
  {
    if op == ALU_XOR then XorOp else if op == ALU_OR then OrOp else AndOp
  }

  /** AND, OR and XOR act on each bit position independently. */
  lemma {:induction false} LogicalIsBitwise(op: int, a: Word, b: Word, i: nat)
    requires op == ALU_AND || op == ALU_OR || op == ALU_XOR
    ensures BitOf(Compute(op, a, b), i) == Combine(OpOf(op), BitOf(a, i), BitOf(b, i))
  {
    BitwiseBitOf(OpOf(op), a, b, i);
  }

  /** `x ^ x == 0`. */
  lemma {:induction false} XorSelf(a: Word)
    ensures Compute(ALU_XOR, a, a) == 0
  {
    BitwiseSelf(XorOp, a);
  }

  /** A word and its complement share no bit and together cover all 32,
      as `0x55555555` and `0xAAAAAAAA` do. */
  lemma {:induction false} ComplementaryWords(a: Word, b: Word)
    requires a + b == WORD_SIZE - 1
    ensures Compute(ALU_AND, a, b) == 0
    ensures Compute(ALU_OR, a, b) == WORD_SIZE - 1
    ensures Compute(ALU_XOR, a, b) == WORD_SIZE - 1
  {
    Pow2Word();
    Complement(a, 32);
  }

  // ---------------------------------------------------------------------
  // Directed vectors.

  /** The directed ADD/SUB vectors: results and flags, including signed
      overflow at the edges of the signed range. */
  lemma {:induction false} ArithmeticVectors()
    ensures Execute(ALU_ADD, 5, 7) == AluOut(12, false, false, false)
    ensures Execute(ALU_ADD, 0xFFFF_FFFB, 0xFFFF_FFF9) == AluOut(0xFFFF_FFF4, false, true, false)
    ensures Execute(ALU_SUB, 10, 3) == AluOut(7, false, false, false)
    ensures Execute(ALU_SUB, 3, 10) == AluOut(0xFFFF_FFF9, false, true, false)
    ensures Execute(ALU_SUB, 5, 5).result == 0 && Execute(ALU_SUB, 5, 5).zero
    ensures Execute(ALU_ADD, 0x7FFF_FFFF, 1).result == 0x8000_0000
    ensures Execute(ALU_ADD, 0x7FFF_FFFF, 1).overflow
    ensures Execute(ALU_ADD, 0x7FFF_FFFF, 0x7FFF_FFFF).result == 0xFFFF_FFFE
    ensures Execute(ALU_ADD, 0x7FFF_FFFF, 0x7FFF_FFFF).overflow
    ensures Execute(ALU_ADD, 0x4000_0000, 0x4000_0000).result == 0x8000_0000
    ensures Execute(ALU_ADD, 0x4000_0000, 0x4000_0000).overflow
    ensures Execute(ALU_ADD, 0x6000_0000, 0x6000_0000).result == 0xC000_0000
    ensures Execute(ALU_ADD, 0x6000_0000, 0x6000_0000).overflow
    ensures Execute(ALU_ADD, 0x7000_0000, 0x7000_0000).result == 0xE000_0000
    ensures Execute(ALU_ADD, 0x7000_0000, 0x7000_0000).overflow
    ensures Execute(ALU_SUB, 0x8000_0000, 1).result == 0x7FFF_FFFF
    ensures Execute(ALU_SUB, 0x8000_0000, 1).overflow
    ensures Execute(ALU_SUB, 0x8000_0000, 0x7FFF_FFFF).result == 1
    ensures Execute(ALU_SUB, 0x8000_0000, 0x7FFF_FFFF).overflow
    ensures Execute(ALU_SUB, 0x8000_0000, 0x0000_FFFF).result == 0x7FFF_0001
    ensures Execute(ALU_SUB, 0x8000_0000, 0x0000_FFFF).overflow
  {
  }

  /** The directed comparison vectors: SLT around zero, where the operand -1
      is the word 0xFFFF_FFFF, and the boundary between the largest positive
      and the most negative word. */
  lemma {:induction false} ComparisonVectors()
    ensures Compute(ALU_SLT, 0, 1) == 1
    ensures Compute(ALU_SLT, 0, 0xFFFF_FFFF) == 0
    ensures Compute(ALU_SLT, 1, 0) == 0
    ensures Compute(ALU_SLT, 0xFFFF_FFFF, 0) == 1
    ensures Compute(ALU_SLT, 0x8000_0000, 0x7FFF_FFFF) == 1
    ensures Compute(ALU_SLT, 0x7FFF_FFFF, 0x8000_0000) == 0
    ensures Compute(ALU_SLT, 0xFFFF_FFFB, 5) == 1
    ensures Compute(ALU_SLT, 0, 0) == 0
    ensures Compute(ALU_SLTU, 0xFFFF_FFFF, 0) == 0
    ensures Compute(ALU_SLTU, 0, 0xFFFF_FFFF) == 1
    ensures Compute(ALU_SLTU, 0x8000_0000, 0x7FFF_FFFF) == 0
    ensures Compute(ALU_SLTU, 0xFFFF_FFFF, 0xFFFF_FFFF) == 0
  {
  }

  /** The directed vectors on the alternating patterns 0x5555_5555 and
      0xAAAA_AAAA, which are each other's complement and each other's double,
      and on all ones. */
  lemma {:induction false} LogicalVectors()
    ensures Execute(ALU_AND, 0x5555_5555, 0xAAAA_AAAA).result == 0
    ensures Execute(ALU_OR, 0x5555_5555, 0xAAAA_AAAA).result == 0xFFFF_FFFF
    ensures Execute(ALU_XOR, 0x5555_5555, 0x5555_5555).result == 0
    ensures Execute(ALU_ADD, 0x5555_5555, 0x5555_5555).result == 0xAAAA_AAAA
    ensures Execute(ALU_SUB, 0xAAAA_AAAA, 0x5555_5555).result == 0x5555_5555
    ensures Execute(ALU_AND, 0xAAAA_AAAA, 0x5555_5555) == AluOut(0, true, false, false)
    ensures Execute(ALU_XOR, 0xAAAA_AAAA, 0xAAAA_AAAA) == AluOut(0, true, false, false)
    ensures Execute(ALU_XOR, 0xFFFF_FFFF, 0xFFFF_FFFF) == AluOut(0, true, false, false)
  {
    ComplementaryWords(0x5555_5555, 0xAAAA_AAAA);
    ComplementaryWords(0xAAAA_AAAA, 0x5555_5555);
    XorSelf(0x5555_5555);
    XorSelf(0xAAAA_AAAA);
    XorSelf(0xFFFF_FFFF);
  }
}
