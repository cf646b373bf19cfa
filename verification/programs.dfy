/** An instruction-level model of the two test programs: the Fibonacci loop
    and the add program. Each instruction takes one step; register writes go
    through the register file, so x0 stays zero, and stores go through the
    data-memory helpers, so a store outside the data memory fails. */
module Programs {
  import opened Bits
  import opened Results
  import RegisterFile
  import DataMemory

  /** The RV32I instructions the programs use, after the assembler has
      expanded `li`, `mv`, `beqz`, `j` and `nop`. Offsets are in bytes. */
  datatype Instr =
    | Lui(rd: nat, imm20: nat)
    | Addi(rd: nat, rs1: nat, imm: int)
    | Add(rd: nat, rs1: nat, rs2: nat)
    | Sw(rs2: nat, rs1: nat, imm: int)
    | Beq(rs1: nat, rs2: nat, offset: int)
    | Jal(rd: nat, offset: int)

  predicate ValidInstr(i: Instr)
  {
    match i
    case Lui(rd, imm20) => rd < 32 && imm20 < 0x10_0000
    case Addi(rd, rs1, imm) => rd < 32 && rs1 < 32 && -2048 <= imm < 2048
    case Add(rd, rs1, rs2) => rd < 32 && rs1 < 32 && rs2 < 32
    case Sw(rs2, rs1, imm) => rs2 < 32 && rs1 < 32 && -2048 <= imm < 2048
    case Beq(rs1, rs2, offset) => rs1 < 32 && rs2 < 32
    case Jal(rd, offset) => rd < 32
  }

  type Program = p: seq<Instr> | forall k :: 0 <= k < |p| ==> ValidInstr(p[k])

  /** The architectural state: the program counter, the registers and the
      data memory seen from address 0x1000. */
  datatype Machine = Machine(pc: Word, regs: RegisterFile.Regs, mem: DataMemory.Memory)

  /** The instruction at the program counter, if it lies in the program. */
  function Current(prog: Program, pc: Word): Option<Instr>
  {
    if pc % 4 == 0 && pc / 4 < |prog| then Some(prog[pc / 4]) else None
  }

  /** The machine has run past its program. */
  predicate Halted(prog: Program, m: Machine)
  {
    Current(prog, m.pc).None?
  }

  /** A register-immediate addition, as the ALU's ADD performs it: the
      immediate reaches the adder sign-extended to 32 bits and the sum wraps
      around at 2^32. */
  function AddImm(a: Word, imm: int): Word
  {
    ToWord(a + ToWord(imm))
  }

  /** Register `a` as the register file's read port gives it. */
  function Reg(m: Machine, a: nat): Word
    requires a < 32
  {
    RegisterFile.Read(m.regs, a)
  }

  /** One instruction. A halted machine stays as it is. */
  function Step(prog: Program, m: Machine): Result<Machine>
  {
    match Current(prog, m.pc)
    case None => Ok(m)
    case Some(i) =>
      var next := ToWord(m.pc + 4);
      match i
      case Lui(rd, imm20) =>
        Ok(Machine(next, RegisterFile.Write(m.regs, rd, imm20 * 0x1000), m.mem))
      case Addi(rd, rs1, imm) =>
        Ok(Machine(next, RegisterFile.Write(m.regs, rd, AddImm(Reg(m, rs1), imm)), m.mem))
      case Add(rd, rs1, rs2) =>
        Ok(Machine(next, RegisterFile.Write(m.regs, rd, ToWord(Reg(m, rs1) + Reg(m, rs2))), m.mem))
      case Sw(rs2, rs1, imm) =>
        (match DataMemory.WriteMemory(m.mem, AddImm(Reg(m, rs1), imm), Reg(m, rs2))
         case Failure(e) => Failure(e)
         case Ok(mem) => Ok(Machine(next, m.regs, mem)))
      case Beq(rs1, rs2, offset) =>
        Ok(m.(pc := if Reg(m, rs1) == Reg(m, rs2) then ToWord(m.pc + offset) else next))
      case Jal(rd, offset) =>
        Ok(Machine(ToWord(m.pc + offset), RegisterFile.Write(m.regs, rd, next), m.mem))
  }

  /** `n` applications of `step`, stopping at the first failure. The run
      is unrolled from its last step. */
  function Iterate<S>(step: S -> Result<S>, s: S, n: nat): Result<S>
    decreases n
  {
    if n == 0 then Ok(s)
    else match Iterate(step, s, n - 1)
      case Failure(e) => Failure(e)
      case Ok(s') => step(s')
  }

  /** Applying `step` `n` times is applying it `a` times and then the
      rest; a run that fails stays failed. */
  lemma {:induction false} IterateSplit<S>(step: S -> Result<S>, s: S, a: nat, n: nat)
    requires a <= n
    ensures Iterate(step, s, a).Ok? ==> Iterate(step, s, n) == Iterate(step, Iterate(step, s, a).value, n - a)
    ensures Iterate(step, s, a).Failure? ==> Iterate(step, s, n) == Iterate(step, s, a)
    decreases n
  {
    if a < n {
      IterateSplit(step, s, a, n - 1);
    }
  }

  /** `n` instructions, stopping at the first failing store. */
  function Run(prog: Program, m: Machine, n: nat): Result<Machine>
  {
    Iterate(x => Step(prog, x), m, n)
  }

  /** Running `n` instructions is running the first `a` of them and then
      the rest; a run that fails stays failed. */
  lemma {:induction false} RunSplit(prog: Program, m: Machine, a: nat, n: nat)
    requires a <= n
    ensures Run(prog, m, a).Ok? ==> Run(prog, m, n) == Run(prog, Run(prog, m, a).value, n - a)
    ensures Run(prog, m, a).Failure? ==> Run(prog, m, n) == Run(prog, m, a)
  {
    IterateSplit(x => Step(prog, x), m, a, n);
  }

  /** A step that succeeds is the first step of a run. */
  lemma {:induction false} RunCons(prog: Program, m: Machine, m': Machine, n: nat)
    requires Step(prog, m) == Ok(m')
    ensures Run(prog, m, n + 1) == Run(prog, m', n)
  {
    RunSplit(prog, m, 1, n + 1);
  }

  /** More steps do not change a halted machine. */
  lemma {:induction false} RunHalted(prog: Program, m: Machine, n: nat)
    requires Halted(prog, m)
    ensures Run(prog, m, n) == Ok(m)
    decreases n
  {
    if n > 0 {
      RunHalted(prog, m, n - 1);
    }
  }

  /** Once a run has halted, longer runs end in the same machine. */
  lemma {:induction false} RunPastHalt(prog: Program, m: Machine, f: Machine, a: nat, n: nat)
    requires a <= n && Run(prog, m, a) == Ok(f) && Halted(prog, f)
    ensures Run(prog, m, n) == Ok(f)
  {
    RunHalted(prog, f, n - a);
    RunSplit(prog, m, a, n);
  }

  /** A loop invariant carried over `j - k` iterations of `step`
      instructions each. */
  lemma {:induction false} RunInvariant(prog: Program, inv: (Machine, nat) -> bool, m: Machine,
                                        k: nat, j: nat, step: nat, n: nat)
    requires k <= j && n == step * (j - k)
    requires inv(m, k)
    requires forall x, i {:trigger Run(prog, x, step), inv(x, i)} :: k <= i < j && inv(x, i) ==>
               Run(prog, x, step).Ok? && inv(Run(prog, x, step).value, i + 1)
    ensures Run(prog, m, n).Ok? && inv(Run(prog, m, n).value, j)
    decreases j - k
  {
    if k < j {
      var m' := Run(prog, m, step).value;
      var c: nat := j - (k + 1);
      assert n == step * c + step by {
        assert step * (c + 1) == step * c + step;
      }
      RunInvariant(prog, inv, m', k + 1, j, step, n - step);
      RunSplit(prog, m, step, n);
    }
  }

  /** An addition of a small immediate that stays in range is plain
      addition. */
  lemma {:induction false} AddImmExact(a: Word, imm: int)
    requires 0 <= a + imm < WORD_SIZE
    ensures AddImm(a, imm) == a + imm
  {
    ToWordAdd(imm, a);
  }

  // ---------------------------------------------------------------------
  // Each instruction away from the ends of the address space, in the
  // terms of section 2.4 to 2.6 of the RISC-V unprivileged specification.

  /** `addi` writes the sum of the register and the immediate and moves on. */
  lemma {:induction false} StepAddi(prog: Program, m: Machine, rd: nat, rs1: nat, imm: int)
    requires Current(prog, m.pc) == Some(Addi(rd, rs1, imm))
    requires m.pc + 4 < WORD_SIZE && 0 <= Reg(m, rs1) + imm < WORD_SIZE
    ensures Step(prog, m) == Ok(Machine(m.pc + 4, RegisterFile.Write(m.regs, rd, Reg(m, rs1) + imm), m.mem))
  {
    AddImmExact(Reg(m, rs1), imm);
  }

  /** `lui` writes the 20-bit immediate into the upper bits. */
  lemma {:induction false} StepLui(prog: Program, m: Machine, rd: nat, imm20: nat)
    requires Current(prog, m.pc) == Some(Lui(rd, imm20))
    requires m.pc + 4 < WORD_SIZE
    ensures Step(prog, m) == Ok(Machine(m.pc + 4, RegisterFile.Write(m.regs, rd, imm20 * 0x1000), m.mem))
  {
  }

  /** `add` writes the sum of two registers. */
  lemma {:induction false} StepAdd(prog: Program, m: Machine, rd: nat, rs1: nat, rs2: nat)
    requires Current(prog, m.pc) == Some(Add(rd, rs1, rs2))
    requires m.pc + 4 < WORD_SIZE && Reg(m, rs1) + Reg(m, rs2) < WORD_SIZE
    ensures Step(prog, m) == Ok(Machine(m.pc + 4, RegisterFile.Write(m.regs, rd, Reg(m, rs1) + Reg(m, rs2)), m.mem))
  {
  }

  /** `sw` stores the register at the base plus the offset, and fails when
      that address has no backing word. */
  lemma {:induction false} StepSw(prog: Program, m: Machine, rs2: nat, rs1: nat, imm: int)
    requires Current(prog, m.pc) == Some(Sw(rs2, rs1, imm))
    requires m.pc + 4 < WORD_SIZE && 0 <= Reg(m, rs1) + imm < WORD_SIZE
    ensures var w := DataMemory.WriteMemory(m.mem, Reg(m, rs1) + imm, Reg(m, rs2));
            w.Ok? ==> Step(prog, m) == Ok(Machine(m.pc + 4, m.regs, w.value))
    ensures !DataMemory.Backed(m.mem, Reg(m, rs1) + imm) ==>
              Step(prog, m) == Failure(AddressOutOfRange(Reg(m, rs1) + imm))
  {
    AddImmExact(Reg(m, rs1), imm);
  }

  /** `beq` jumps by the offset when the registers are equal and moves on
      otherwise. */
  lemma {:induction false} StepBeq(prog: Program, m: Machine, rs1: nat, rs2: nat, offset: int)
    requires Current(prog, m.pc) == Some(Beq(rs1, rs2, offset))
    requires m.pc + 4 < WORD_SIZE && 0 <= m.pc + offset < WORD_SIZE
    ensures Step(prog, m) == Ok(m.(pc := if Reg(m, rs1) == Reg(m, rs2) then m.pc + offset else m.pc + 4))
  {
  }

  /** `jal` jumps by the offset and writes the return address. */
  lemma {:induction false} StepJal(prog: Program, m: Machine, rd: nat, offset: int)
    requires Current(prog, m.pc) == Some(Jal(rd, offset))
    requires m.pc + 4 < WORD_SIZE && 0 <= m.pc + offset < WORD_SIZE
    ensures Step(prog, m) == Ok(Machine(m.pc + offset, RegisterFile.Write(m.regs, rd, m.pc + 4), m.mem))
  {
  }

  // ---------------------------------------------------------------------
  // The Fibonacci program.

  function Fib(n: nat): nat
  {
    if n < 2 then n else Fib(n - 1) + Fib(n - 2)
  }

  /** The Fibonacci numbers the program stores. */
  lemma {:induction false} FibValues(n: nat)
    requires n < 10
    ensures Fib(n) == [0, 1, 1, 2, 3, 5, 8, 13, 21, 34][n]
  {
    if n >= 2 {
      FibValues(n - 1);
      FibValues(n - 2);
    }
  }

  /** Every number the program computes fits in a word. */
  lemma {:induction false} FibBound(n: nat)
    requires n <= 10
    ensures Fib(n) <= 55
  {
    if n < 10 {
      FibValues(n);
    }
  }

  /** `fibonacci.s`: after `li`/`mv`/`beqz`/`j`/`nop` expansion. The loop
      head `beqz x3, done` is at 36, `j loop` at 64 and `nop` at 68. */
  const FIB_PROGRAM: Program := [
    Addi(1, 0, 0), Addi(2, 0, 1), Addi(3, 0, 10), Lui(4, 1),
    Sw(3, 4, 0), Sw(1, 4, 4), Sw(2, 4, 8), Addi(4, 4, 8), Addi(3, 3, -2),
    Beq(3, 0, 32), Add(5, 1, 2), Addi(1, 2, 0), Addi(2, 5, 0), Addi(4, 4, 4),
    Sw(5, 4, 0), Addi(3, 3, -1), Jal(0, -28),
    Addi(0, 0, 0)]

  /** A program that holds exactly the instructions of `fibonacci.s`. The
      proofs below are about every such program. */
  predicate FibCode(prog: Program)
  {
    |prog| == 18
    && prog[0] == Addi(1, 0, 0) && prog[1] == Addi(2, 0, 1) && prog[2] == Addi(3, 0, 10)
    && prog[3] == Lui(4, 1) && prog[4] == Sw(3, 4, 0) && prog[5] == Sw(1, 4, 4)
    && prog[6] == Sw(2, 4, 8) && prog[7] == Addi(4, 4, 8) && prog[8] == Addi(3, 3, -2)
    && prog[9] == Beq(3, 0, 32) && prog[10] == Add(5, 1, 2) && prog[11] == Addi(1, 2, 0)
    && prog[12] == Addi(2, 5, 0) && prog[13] == Addi(4, 4, 4) && prog[14] == Sw(5, 4, 0)
    && prog[15] == Addi(3, 3, -1) && prog[16] == Jal(0, -28) && prog[17] == Addi(0, 0, 0)
  }

  /** `FibCode` singles out the Fibonacci program. */
  lemma {:induction false} FibCodeIsProgram(prog: Program)
    ensures FibCode(prog) <==> prog == FIB_PROGRAM
  {
    if FibCode(prog) {
      assert forall k :: 0 <= k < 18 ==> prog[k] == FIB_PROGRAM[k];
    }
  }

  /** Word `i` of the data memory, at address 0x1000 + 4i, as the
      testbench reads it. */
  function DataWord(mem: DataMemory.Memory, i: nat): Result<Word>
  {
    DataMemory.ReadMemory(mem, 0x1000 + 4 * i)
  }

  /** Word `j` of the window lies at byte offset 4j. */
  lemma {:induction false} WordAddr(j: nat)
    requires j < 1024
    ensures DataMemory.InWindow(0x1000 + 4 * j)
    ensures DataMemory.ByteAddr(0x1000 + 4 * j) == 4 * j
  {
    DataMemory.ByteAddrIsFloor(0x1000 + 4 * j);
    DivModUnique(4 * j, 4, j, 0);
  }

  /** Storing `data` into word `j`: that word reads the data afterwards and
      every other word reads as before, a missing one included. */
  lemma {:induction false} StoreDataWord(mem: DataMemory.Memory, j: nat, data: Word, i: nat)
    requires 4 * j + 4 <= |mem| && j < 1024
    ensures |DataMemory.StoreWord(mem, 4 * j, data)| == |mem|
    ensures DataWord(DataMemory.StoreWord(mem, 4 * j, data), i) == if i == j then Ok(data) else DataWord(mem, i)
  {
    DataMemory.StoreWordFrame(mem, 4 * j, data);
    WordAddr(j);
    if i == j {
      DataMemory.LoadStoreWord(mem, 4 * j, data);
    } else if i < 1024 {
      WordAddr(i);
      if 4 * i + 4 <= |mem| {
        DataMemory.LoadOtherWord(mem, 4 * j, data, 4 * i);
      }
    }
  }

  /** `sw` into word `j` of the data memory. */
  lemma {:induction false} StepStore(prog: Program, m: Machine, rs2: nat, rs1: nat, imm: int, j: nat)
    requires Current(prog, m.pc) == Some(Sw(rs2, rs1, imm))
    requires m.pc + 4 < WORD_SIZE && Reg(m, rs1) + imm == 0x1000 + 4 * j
    requires 4 * j + 4 <= |m.mem| && j < 1024
    ensures Step(prog, m) == Ok(Machine(m.pc + 4, m.regs, DataMemory.StoreWord(m.mem, 4 * j, Reg(m, rs2))))
  {
    StepSw(prog, m, rs2, rs1, imm);
    WordAddr(j);
  }

  /** The memory at the loop head after `k` iterations: the count, F0 and F1
      stored by the prologue, then F2 to F(k+1). */
  function FibMemory(mem: DataMemory.Memory, k: nat): (r: DataMemory.Memory)
    requires |mem| >= 0x2C && k <= 8
    ensures |r| == |mem|
    decreases k
  {
    if k == 0 then
      DataMemory.StoreWord(DataMemory.StoreWord(DataMemory.StoreWord(mem, 0, 10), 4, 0), 8, 1)
    else
      DataMemory.StoreWord(FibMemory(mem, k - 1), 4 * (k + 2), Fib(k + 1))
  }

  /** The prologue's three stores: word 0 receives the count 10, word 1
      receives F0 and word 2 receives F1. */
  lemma {:induction false} HeaderWords(mem: DataMemory.Memory, i: nat)
    requires |mem| >= 0x2C
    ensures DataWord(FibMemory(mem, 0), i) == if i == 0 then Ok(10) else if i <= 2 then Ok(i - 1) else DataWord(mem, i)
  {
    var m1 := DataMemory.StoreWord(mem, 0, 10);
    var m2 := DataMemory.StoreWord(m1, 4, 0);
    StoreDataWord(mem, 0, 10, i);
    StoreDataWord(m1, 1, 0, i);
    StoreDataWord(m2, 2, 1, i);
  }

  /** What that memory reads: word 0 holds the count, words 1 to k + 2 hold
      F0 to F(k+1), and every later word is as it was. */
  lemma {:induction false} FibMemoryWords(mem: DataMemory.Memory, k: nat, i: nat)
    requires |mem| >= 0x2C && k <= 8
    ensures DataWord(FibMemory(mem, k), i)
            == if i == 0 then Ok(10) else if i <= k + 2 then Ok(Fib(i - 1)) else DataWord(mem, i)
    decreases k
  {
    if k == 0 {
      HeaderWords(mem, i);
    } else {
      FibBound(k + 1);
      FibMemoryWords(mem, k - 1, i);
      StoreDataWord(FibMemory(mem, k - 1), k + 2, Fib(k + 1), i);
    }
  }

  /** The machine at the loop head after `k` iterations, over a memory that
      started as `mem`: x1 and x2 hold F(k) and F(k+1), the count x3 is
      8 - k, the address register x4 is at word k + 2, and the memory holds what the
      prologue and the first k iterations stored. */
  predicate LoopHead(m: Machine, mem: DataMemory.Memory, k: nat)
  {
    k <= 8 && |mem| >= 0x2C && m.pc == 36
    && Reg(m, 1) == Fib(k) && Reg(m, 2) == Fib(k + 1)
    && Reg(m, 3) == 8 - k && Reg(m, 4) == 0x1008 + 4 * k
    && m.mem == FibMemory(mem, k)
  }

  /** `li x1, 0`, `li x2, 1`. */
  lemma {:induction false} FibSetFirst(prog: Program, regs: RegisterFile.Regs, mem: DataMemory.Memory)
    requires FibCode(prog)
    ensures Run(prog, Machine(0, regs, mem), 2)
            == Ok(Machine(8, RegisterFile.Write(RegisterFile.Write(regs, 1, 0), 2, 1), mem))
  {
    var m0 := Machine(0, regs, mem);
    var m1 := Machine(4, RegisterFile.Write(regs, 1, 0), mem);
    StepAddi(prog, m0, 1, 0, 0);
    StepAddi(prog, m1, 2, 0, 1);
    RunCons(prog, m0, m1, 1);
    RunCons(prog, m1, Machine(8, RegisterFile.Write(m1.regs, 2, 1), mem), 0);
  }

  /** `li x3, 10`, `li x4, 0x1000`. */
  lemma {:induction false} FibSetCount(prog: Program, m: Machine)
    requires FibCode(prog)
    requires m.pc == 8
    ensures Run(prog, m, 2)
            == Ok(Machine(16, RegisterFile.Write(RegisterFile.Write(m.regs, 3, 10), 4, 0x1000), m.mem))
  {
    var m1 := Machine(12, RegisterFile.Write(m.regs, 3, 10), m.mem);
    StepAddi(prog, m, 3, 0, 10);
    StepLui(prog, m1, 4, 1);
    RunCons(prog, m, m1, 1);
    RunCons(prog, m1, Machine(16, RegisterFile.Write(m1.regs, 4, 0x1000), m.mem), 0);
  }

  /** `sw x3, 0(x4)`, `sw x1, 4(x4)`: the count and F0. */
  lemma {:induction false} FibStoreHeader(prog: Program, m: Machine)
    requires FibCode(prog)
    requires m.pc == 16 && |m.mem| >= 0x2C && Reg(m, 4) == 0x1000
    ensures Run(prog, m, 2)
            == Ok(m.(pc := 24, mem := DataMemory.StoreWord(DataMemory.StoreWord(m.mem, 0, Reg(m, 3)), 4, Reg(m, 1))))
  {
    var m1 := m.(pc := 20, mem := DataMemory.StoreWord(m.mem, 0, Reg(m, 3)));
    StepStore(prog, m, 3, 4, 0, 0);
    StepStore(prog, m1, 1, 4, 4, 1);
    RunCons(prog, m, m1, 1);
    RunCons(prog, m1, m1.(pc := 24, mem := DataMemory.StoreWord(m1.mem, 4, Reg(m, 1))), 0);
  }

  /** `sw x2, 8(x4)`, `addi x4, x4, 8`, `addi x3, x3, -2`: F1, then on to the
      loop head. */
  lemma {:induction false} FibStoreSecond(prog: Program, m: Machine)
    requires FibCode(prog)
    requires m.pc == 24 && |m.mem| >= 0x2C && Reg(m, 4) == 0x1000 && Reg(m, 3) == 10
    ensures Run(prog, m, 3)
            == Ok(Machine(36, RegisterFile.Write(RegisterFile.Write(m.regs, 4, 0x1008), 3, 8),
                          DataMemory.StoreWord(m.mem, 8, Reg(m, 2))))
  {
    var m1 := m.(pc := 28, mem := DataMemory.StoreWord(m.mem, 8, Reg(m, 2)));
    var m2 := Machine(32, RegisterFile.Write(m.regs, 4, 0x1008), m1.mem);
    StepStore(prog, m, 2, 4, 8, 2);
    StepAddi(prog, m1, 4, 4, 8);
    StepAddi(prog, m2, 3, 3, -2);
    RunCons(prog, m, m1, 2);
    RunCons(prog, m1, m2, 1);
    RunCons(prog, m2, Machine(36, RegisterFile.Write(m2.regs, 3, 8), m1.mem), 0);
  }

  /** The four `li` instructions. */
  lemma {:induction false} FibInit(prog: Program, regs: RegisterFile.Regs, mem: DataMemory.Memory)
    requires FibCode(prog)
    ensures Run(prog, Machine(0, regs, mem), 4)
            == Ok(Machine(16, RegisterFile.Write(RegisterFile.Write(RegisterFile.Write(RegisterFile.Write(
                                regs, 1, 0), 2, 1), 3, 10), 4, 0x1000), mem))
  {
    var m0 := Machine(0, regs, mem);
    FibSetFirst(prog, regs, mem);
    FibSetCount(prog, Run(prog, m0, 2).value);
    RunSplit(prog, m0, 2, 4);
  }

  /** The five instructions after the `li`s store the count, F0 and F1 and
      reach the loop head. */
  lemma {:induction false} FibStoreFirst(prog: Program, m: Machine, mem: DataMemory.Memory)
    requires FibCode(prog)
    requires m.pc == 16 && m.mem == mem && |mem| >= 0x2C
    requires Reg(m, 1) == 0 && Reg(m, 2) == 1 && Reg(m, 3) == 10 && Reg(m, 4) == 0x1000
    ensures Run(prog, m, 5).Ok?
    ensures LoopHead(Run(prog, m, 5).value, mem, 0)
  {
    FibStoreHeader(prog, m);
    FibStoreSecond(prog, Run(prog, m, 2).value);
    RunSplit(prog, m, 2, 5);
  }

  /** The first nine instructions reach the loop head with the count, F0
      and F1 stored, from any registers and any memory that holds the 44
      bytes the program writes. */
  lemma {:induction false} FibPrologue(prog: Program, regs: RegisterFile.Regs, mem: DataMemory.Memory)
    requires FibCode(prog)
    requires |mem| >= 0x2C
    ensures Run(prog, Machine(0, regs, mem), 9).Ok?
    ensures LoopHead(Run(prog, Machine(0, regs, mem), 9).value, mem, 0)
  {
    var m0 := Machine(0, regs, mem);
    FibInit(prog, regs, mem);
    FibStoreFirst(prog, Run(prog, m0, 4).value, mem);
    RunSplit(prog, m0, 4, 9);
  }

  /** `beqz x3, done` not taken, `add x5, x1, x2`. */
  lemma {:induction false} FibAdd(prog: Program, m: Machine)
    requires FibCode(prog)
    requires m.pc == 36 && Reg(m, 3) != 0 && Reg(m, 1) + Reg(m, 2) < WORD_SIZE
    ensures Run(prog, m, 2)
            == Ok(Machine(44, RegisterFile.Write(m.regs, 5, Reg(m, 1) + Reg(m, 2)), m.mem))
  {
    var m1 := m.(pc := 40);
    StepBeq(prog, m, 3, 0, 32);
    StepAdd(prog, m1, 5, 1, 2);
    RunCons(prog, m, m1, 1);
    RunCons(prog, m1, Machine(44, RegisterFile.Write(m.regs, 5, Reg(m, 1) + Reg(m, 2)), m.mem), 0);
  }

  /** `mv x1, x2`, `mv x2, x5`. */
  lemma {:induction false} FibShift(prog: Program, m: Machine)
    requires FibCode(prog)
    requires m.pc == 44
    ensures Run(prog, m, 2)
            == Ok(Machine(52, RegisterFile.Write(RegisterFile.Write(m.regs, 1, Reg(m, 2)), 2, Reg(m, 5)), m.mem))
  {
    var m1 := Machine(48, RegisterFile.Write(m.regs, 1, Reg(m, 2)), m.mem);
    StepAddi(prog, m, 1, 2, 0);
    StepAddi(prog, m1, 2, 5, 0);
    RunCons(prog, m, m1, 1);
    RunCons(prog, m1, Machine(52, RegisterFile.Write(m1.regs, 2, Reg(m, 5)), m.mem), 0);
  }

  /** `addi x4, x4, 4`, `sw x5, 0(x4)`: the new number stored in word `j`. */
  lemma {:induction false} FibStoreNext(prog: Program, m: Machine, j: nat)
    requires FibCode(prog)
    requires m.pc == 52 && Reg(m, 4) + 4 == 0x1000 + 4 * j && 4 * j + 4 <= |m.mem| && j < 1024
    ensures Run(prog, m, 2)
            == Ok(Machine(60, RegisterFile.Write(m.regs, 4, Reg(m, 4) + 4), DataMemory.StoreWord(m.mem, 4 * j, Reg(m, 5))))
  {
    var m1 := Machine(56, RegisterFile.Write(m.regs, 4, Reg(m, 4) + 4), m.mem);
    StepAddi(prog, m, 4, 4, 4);
    StepStore(prog, m1, 5, 4, 0, j);
    RunCons(prog, m, m1, 1);
    RunCons(prog, m1, m1.(pc := 60, mem := DataMemory.StoreWord(m.mem, 4 * j, Reg(m, 5))), 0);
  }

  /** `addi x3, x3, -1`, `j loop`: the count lowered and back to the head. */
  lemma {:induction false} FibLoopBack(prog: Program, m: Machine)
    requires FibCode(prog)
    requires m.pc == 60 && 1 <= Reg(m, 3)
    ensures Run(prog, m, 2) == Ok(Machine(36, RegisterFile.Write(m.regs, 3, Reg(m, 3) - 1), m.mem))
  {
    var m1 := Machine(64, RegisterFile.Write(m.regs, 3, Reg(m, 3) - 1), m.mem);
    StepAddi(prog, m, 3, 3, -1);
    StepJal(prog, m1, 0, -28);
    RunCons(prog, m, m1, 1);
    RunCons(prog, m1, m1.(pc := 36), 0);
  }

  /** One iteration, eight instructions, leads from the loop head after
      `k` iterations to the loop head after `k + 1`. */
  lemma {:induction false} FibIteration(prog: Program, m: Machine, mem: DataMemory.Memory, k: nat)
    requires FibCode(prog)
    requires LoopHead(m, mem, k) && k < 8
    ensures Run(prog, m, 8).Ok?
    ensures LoopHead(Run(prog, m, 8).value, mem, k + 1)
  {
    FibBound(k + 2);
    FibAdd(prog, m);
    var m2 := Run(prog, m, 2).value;
    FibShift(prog, m2);
    var m4 := Run(prog, m2, 2).value;
    FibStoreNext(prog, m4, k + 3);
    var m6 := Run(prog, m4, 2).value;
    FibLoopBack(prog, m6);
    RunSplit(prog, m, 2, 4);
    RunSplit(prog, m, 4, 6);
    RunSplit(prog, m, 6, 8);
  }

  /** The eight iterations: from the first loop head to the last, where the
      count has reached zero. */
  lemma {:induction false} FibLoop(prog: Program, m: Machine, mem: DataMemory.Memory)
    requires FibCode(prog)
    requires LoopHead(m, mem, 0)
    ensures Run(prog, m, 64).Ok?
    ensures LoopHead(Run(prog, m, 64).value, mem, 8)
  {
    var inv := (x: Machine, i: nat) => LoopHead(x, mem, i);
    forall x: Machine, i: nat | 0 <= i < 8 && inv(x, i)
      ensures Run(prog, x, 8).Ok? && inv(Run(prog, x, 8).value, i + 1)
    {
      FibIteration(prog, x, mem, i);
    }
    RunInvariant(prog, inv, m, 0, 8, 8, 64);
  }

  /** With the count at zero, `beqz x3, done` is taken and the `nop` ends
      the program. */
  lemma {:induction false} FibExit(prog: Program, m: Machine)
    requires FibCode(prog)
    requires m.pc == 36 && Reg(m, 3) == 0
    ensures Run(prog, m, 2) == Ok(m.(pc := 72))
    ensures Halted(prog, m.(pc := 72))
  {
    var m1 := m.(pc := 68);
    StepBeq(prog, m, 3, 0, 32);
    StepAddi(prog, m1, 0, 0, 0);
    RunCons(prog, m, m1, 1);
    RunCons(prog, m1, m.(pc := 72), 0);
  }

  /** The machine at `done` after the program: the memory holds what the
      prologue and all eight iterations stored. */
  predicate FibDone(m: Machine, mem: DataMemory.Memory)
  {
    |mem| >= 0x2C && m.pc == 72 && m.mem == FibMemory(mem, 8)
  }

  /** From the first loop head, 66 instructions finish the program. */
  lemma {:induction false} FibTail(prog: Program, m: Machine, mem: DataMemory.Memory)
    requires FibCode(prog)
    requires LoopHead(m, mem, 0)
    ensures Run(prog, m, 66).Ok?
    ensures FibDone(Run(prog, m, 66).value, mem)
  {
    FibLoop(prog, m, mem);
    var h := Run(prog, m, 64).value;
    FibExit(prog, h);
    RunSplit(prog, m, 64, 66);
  }

  /** From the start, 75 instructions finish the program. */
  lemma {:induction false} FibWhole(prog: Program, regs: RegisterFile.Regs, mem: DataMemory.Memory)
    requires FibCode(prog)
    requires |mem| >= 0x2C
    ensures Run(prog, Machine(0, regs, mem), 75).Ok?
    ensures FibDone(Run(prog, Machine(0, regs, mem), 75).value, mem)
  {
    var m0 := Machine(0, regs, mem);
    FibPrologue(prog, regs, mem);
    FibTail(prog, Run(prog, m0, 9).value, mem);
    RunSplit(prog, m0, 9, 75);
  }

  /** What the finished program leaves in memory: word 0 holds the count
      10, words 1 to 10 hold F0 to F9, and every later word is as it was. */
  lemma {:induction false} FibFinalWords(mem: DataMemory.Memory)
    requires |mem| >= 0x2C
    ensures DataWord(FibMemory(mem, 8), 0) == Ok(10)
    ensures forall i :: 1 <= i <= 10 ==> DataWord(FibMemory(mem, 8), i) == Ok(Fib(i - 1))
    ensures forall i :: 10 < i ==> DataWord(FibMemory(mem, 8), i) == DataWord(mem, i)
  {
    forall i | 1 <= i
      ensures 1 <= i <= 10 ==> DataWord(FibMemory(mem, 8), i) == Ok(Fib(i - 1))
      ensures 10 < i ==> DataWord(FibMemory(mem, 8), i) == DataWord(mem, i)
    {
      FibMemoryWords(mem, 8, i);
    }
    FibMemoryWords(mem, 8, 0);
  }

  /** After exactly 75 instructions the program has stopped at the end,
      with the count and F0 to F9 stored. */
  lemma {:induction false} FibFinished(prog: Program, regs: RegisterFile.Regs, mem: DataMemory.Memory)
    requires FibCode(prog)
    requires |mem| >= 0x2C
    ensures Run(prog, Machine(0, regs, mem), 75).Ok?
    ensures var f := Run(prog, Machine(0, regs, mem), 75).value;
            Halted(prog, f)
            && DataWord(f.mem, 0) == Ok(10)
            && (forall i :: 1 <= i <= 10 ==> DataWord(f.mem, i) == Ok(Fib(i - 1)))
            && (forall i :: 10 < i ==> DataWord(f.mem, i) == DataWord(mem, i))
  {
    FibWhole(prog, regs, mem);
    FibFinalWords(mem);
  }

  /** The whole program, for any program holding the instructions of
      `fibonacci.s`: from any registers and any memory of at least 44 bytes,
      after 75 instructions or more it has stopped at the end, word 0 holds
      the count 10, words 1 to 10 hold F0 to F9, and every later word is as
      it was. */
  lemma {:induction false} FibonacciStores(prog: Program, regs: RegisterFile.Regs, mem: DataMemory.Memory, n: nat)
    requires FibCode(prog)
    requires |mem| >= 0x2C && n >= 75
    ensures Run(prog, Machine(0, regs, mem), n).Ok?
    ensures var f := Run(prog, Machine(0, regs, mem), n).value;
            Halted(prog, f)
            && DataWord(f.mem, 0) == Ok(10)
            && (forall i :: 1 <= i <= 10 ==> DataWord(f.mem, i) == Ok(Fib(i - 1)))
            && (forall i :: 10 < i ==> DataWord(f.mem, i) == DataWord(mem, i))
  {
    FibFinished(prog, regs, mem);
    var m0 := Machine(0, regs, mem);
    RunPastHalt(prog, m0, Run(prog, m0, 75).value, 75, n);
  }

  /** The values the Fibonacci test expects in words 1 to 10. */
  const FIB_EXPECTED: seq<Word> := [0, 1, 1, 2, 3, 5, 8, 13, 21, 34]

  /** The Fibonacci test: after reset and after word 0 is cleared in the
      fallback array, a run of 75 instructions or more leaves the count 10
      in word 0 and the expected values in words 1 to 10. */
  lemma {:induction false} FibonacciTest(n: nat)
    requires n >= 75
    ensures DataMemory.WriteMemory(DataMemory.Fallback(), DataMemory.DMEM_BASE, 0).Ok?
    ensures var mem := DataMemory.WriteMemory(DataMemory.Fallback(), DataMemory.DMEM_BASE, 0).value;
            var r := Run(FIB_PROGRAM, Machine(0, RegisterFile.Zeros(), mem), n);
            r.Ok? && DataWord(r.value.mem, 0) == Ok(10)
            && forall i :: 0 <= i < 10 ==> DataWord(r.value.mem, i + 1) == Ok(FIB_EXPECTED[i])
  {
    var mem := DataMemory.WriteMemory(DataMemory.Fallback(), DataMemory.DMEM_BASE, 0).value;
    FibCodeIsProgram(FIB_PROGRAM);
    FibonacciStores(FIB_PROGRAM, RegisterFile.Zeros(), mem, n);
    forall i | 0 <= i < 10
      ensures Fib(i) == FIB_EXPECTED[i]
    {
      FibValues(i);
    }
  }

  // ---------------------------------------------------------------------
  // The add program.

  /** The custom test's program: `li x4, 0x1000` becomes a `lui`, then the
      four listed instructions, then the `nop` the generator appends. */
  const ADD_PROGRAM: Program := [
    Lui(4, 1), Addi(1, 0, 10), Addi(2, 0, 20), Add(3, 1, 2), Sw(3, 4, 0), Addi(0, 0, 0)]

  /** A program that holds exactly the add program's instructions. */
  predicate AddCode(prog: Program)
  {
    |prog| == 6
    && prog[0] == Lui(4, 1) && prog[1] == Addi(1, 0, 10) && prog[2] == Addi(2, 0, 20)
    && prog[3] == Add(3, 1, 2) && prog[4] == Sw(3, 4, 0) && prog[5] == Addi(0, 0, 0)
  }

  /** `AddCode` singles out the add program. */
  lemma {:induction false} AddCodeIsProgram(prog: Program)
    ensures AddCode(prog) <==> prog == ADD_PROGRAM
  {
    if AddCode(prog) {
      assert forall k :: 0 <= k < 6 ==> prog[k] == ADD_PROGRAM[k];
    }
  }

  /** `li x4, 0x1000`, `addi x1, x0, 10`, `addi x2, x0, 20`. */
  lemma {:induction false} AddSetup(prog: Program, regs: RegisterFile.Regs, mem: DataMemory.Memory)
    requires AddCode(prog)
    ensures Run(prog, Machine(0, regs, mem), 3)
            == Ok(Machine(12, RegisterFile.Write(RegisterFile.Write(RegisterFile.Write(
                                regs, 4, 0x1000), 1, 10), 2, 20), mem))
  {
    var m0 := Machine(0, regs, mem);
    var m1 := Machine(4, RegisterFile.Write(regs, 4, 0x1000), mem);
    var m2 := Machine(8, RegisterFile.Write(m1.regs, 1, 10), mem);
    StepLui(prog, m0, 4, 1);
    StepAddi(prog, m1, 1, 0, 10);
    StepAddi(prog, m2, 2, 0, 20);
    RunCons(prog, m0, m1, 2);
    RunCons(prog, m1, m2, 1);
    RunCons(prog, m2, Machine(12, RegisterFile.Write(m2.regs, 2, 20), mem), 0);
  }

  /** `add x3, x1, x2`, `sw x3, 0(x4)`, `nop`: the sum is stored at word 0
      and the program ends. */
  lemma {:induction false} AddStore(prog: Program, m: Machine)
    requires AddCode(prog)
    requires m.pc == 12 && |m.mem| >= 4
    requires Reg(m, 1) == 10 && Reg(m, 2) == 20 && Reg(m, 4) == 0x1000
    ensures Run(prog, m, 3)
            == Ok(Machine(24, RegisterFile.Write(m.regs, 3, 30), DataMemory.StoreWord(m.mem, 0, 30)))
  {
    var m1 := Machine(16, RegisterFile.Write(m.regs, 3, 30), m.mem);
    var m2 := m1.(pc := 20, mem := DataMemory.StoreWord(m.mem, 0, 30));
    StepAdd(prog, m, 3, 1, 2);
    StepStore(prog, m1, 3, 4, 0, 0);
    StepAddi(prog, m2, 0, 0, 0);
    RunCons(prog, m, m1, 2);
    RunCons(prog, m1, m2, 1);
    RunCons(prog, m2, m2.(pc := 24), 0);
  }

  /** The whole add program: from any registers and any memory of at least
      one word, after six instructions or more it has stopped, word 0 holds
      30 and every other word is as it was. */
  lemma {:induction false} AddProgramStores(prog: Program, regs: RegisterFile.Regs, mem: DataMemory.Memory, n: nat)
    requires AddCode(prog)
    requires |mem| >= 4 && n >= 6
    ensures Run(prog, Machine(0, regs, mem), n).Ok?
    ensures var f := Run(prog, Machine(0, regs, mem), n).value;
            Halted(prog, f)
            && DataWord(f.mem, 0) == Ok(30)
            && (forall i :: 0 < i ==> DataWord(f.mem, i) == DataWord(mem, i))
  {
    var m0 := Machine(0, regs, mem);
    AddSetup(prog, regs, mem);
    var m3 := Run(prog, m0, 3).value;
    AddStore(prog, m3);
    var f := Run(prog, m3, 3).value;
    RunSplit(prog, m0, 3, 6);
    RunPastHalt(prog, m0, f, 6, n);
    forall i | 0 <= i
      ensures DataWord(f.mem, i) == if i == 0 then Ok(30) else DataWord(mem, i)
    {
      StoreDataWord(mem, 0, 30, i);
    }
  }

  /** The custom-program test: after reset and after word 0 is cleared in
      the fallback array, a run of six instructions or more leaves 30 in
      word 0. */
  lemma {:induction false} AddProgramTest(n: nat)
    requires n >= 6
    ensures DataMemory.WriteMemory(DataMemory.Fallback(), DataMemory.DMEM_BASE, 0).Ok?
    ensures var mem := DataMemory.WriteMemory(DataMemory.Fallback(), DataMemory.DMEM_BASE, 0).value;
            var r := Run(ADD_PROGRAM, Machine(0, RegisterFile.Zeros(), mem), n);
            r.Ok? && DataWord(r.value.mem, 0) == Ok(30)
  {
    var mem := DataMemory.WriteMemory(DataMemory.Fallback(), DataMemory.DMEM_BASE, 0).value;
    AddCodeIsProgram(ADD_PROGRAM);
    AddProgramStores(ADD_PROGRAM, RegisterFile.Zeros(), mem, n);
  }
}
