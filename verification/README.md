# RV32I five-stage core: testbench contracts in Dafny

The repository is a five-stage pipelined RV32I processor. It has cocotb
testbenches, one per unit of the core, and two end-to-end program tests.
The processor's hardware description is not part of this model. What is
modelled is what the testbenches hold:

- **The reference helpers.** These are:
  - the instruction encoders of the control-unit and CPU-core benches;
  - the ALU's `sign_extend` helper and its expected-result calculator;
  - the little-endian `read_memory`/`write_memory` word helpers.
- **The input/output contract that each bench asserts of its unit.** The
  units are:
  - the ALU;
  - R-type decode in the control unit;
  - hazard detection;
  - forwarding;
  - the program counter;
  - the register file;
  - the four pipeline latches;
  - the instruction memory.
- **The two program tests.** The Fibonacci loop and the add program, run
  at the instruction level.

Combinational units are pure functions. Clocked units are immutable records
with a one-edge step function, and a test's sequence of edges is a run of
that function. Words are integers in [0, 2^32). The host language's `&`,
`|`, `^`, `<<` and `>>` on unbounded integers are defined in `Bits`, so a
negative operand reads in two's complement. Each concrete or random test
vector becomes a lemma quantified over all inputs. A lemma over the
directed vectors states them with the unmentioned inputs idle. The
exception is `ForwardingUnit.ForwardVectors`: there a vector keeps the
inputs of the test before it, as the forwarding testbench does within one
simulation.

The encoders, immediates and branch conditions follow the RISC-V
Unprivileged ISA:
- section 2.2 for the base instruction formats;
- section 2.3 for the immediate encoding variants;
- section 2.4 for the integer computational instructions and NOP;
- section 2.5 for the conditional branches.

The modules are:
- **`Bits`:** the host language's integer bit operations.
- **`Results`:** the Result and Option types.
- **`Isa`:** instruction fields, immediates, opcode classes and branch
  conditions.
- **`Encoding`:** the `encode_*_type` helpers.
- **`ControlUnit`:** R-type decode.
- **`Alu`:** the ALU.
- **The remaining units:** `HazardDetection`, `ForwardingUnit`,
  `ProgramCounter`, `RegisterFile`, `PipelineRegisters`,
  `InstructionMemory` and `DataMemory`.
- **`Programs`:** the instruction-level runs of the two test programs.

Behaviour the model takes from the testbenches, and its own choices:
- **Data-memory helper address out of range.** `read_memory` and
  `write_memory` raise an error on such an address. The model returns a
  failure.
- **Fibonacci loop.** The loop in `fibonacci.s` exits with `beqz` and
  closes with `j`. The model runs exactly that loop.
- **Branch targets.** The counter stores byte addresses, as every
  program-counter test drives them.
- **Unknown ALU operation codes.** The expected-result calculator falls
  through to AND. `Alu.Compute` yields 0 for them.

## Model

| member | source | states |
|---|---|---|
| Alu.SignExtendIsShift | tb/test_alu.py:131-144 | `sign_extend(v, s)`, for any word and any shift up to 32, is the arithmetic right shift: the floor of the signed reading divided by 2^s, as a 32-bit word |
| Alu.SltBias | tb/test_alu.py:349-350 | the sign-bias test `((a ^ 0x80000000) - (b ^ 0x80000000)) < 0` holds exactly when a < b as signed 32-bit numbers, for all words |
| Alu.ArithmeticMatches | tb/test_alu.py:343-348 | the calculator's masked ADD, SUB and SLL are the RV32I results modulo 2^32, for all words (SLL for shift amounts below 32) |
| Alu.SraMatches | tb/test_alu.py:357-358 | the calculator's SRA (`sign_extend`) is RV32I's arithmetic right shift for every word and every shift below 32 |
| Alu.ExpectedMatchesCompute | tb/test_alu.py:328-362 | for each of the ten operation codes and all operands, shift amounts drawn from 0..31, the calculator's expected result is the RV32I result of the operation |
| Alu.ShiftByZero | tb/test_alu.py:289-294 | a shift by 0 returns the operand unchanged for SLL, SRL and SRA, both in the ALU and in the calculator |
| Alu.ShiftBy31 | tb/test_alu.py:404-406 | a shift right by 31 keeps only the sign: SRL gives bit 31, SRA gives all ones for a negative word and 0 otherwise |
| Alu.NegativeIsBit31 | tb/test_alu.py:187-192 | a word is at least 2^31 exactly when its bit 31 is set |
| Alu.ExecuteFlags | tb/test_alu.py:174-192 | the zero flag is set exactly when the result is 0; the negative flag is set exactly when result bit 31 is set, i.e. when its signed reading is negative |
| Alu.AddOverflow | tb/test_alu.py:264-270 | ADD overflows exactly when the signed sum leaves the 32-bit range, and exactly when both operands have the same sign and the result's sign differs |
| Alu.SubOverflow | tb/test_alu.py:273-278 | SUB overflows exactly when the signed difference leaves the 32-bit range, and exactly when the operand signs differ and the result's sign differs from a's |
| Alu.LogicalIsBitwise | tb/test_alu.py:353-362 | AND, OR and XOR compute each result bit from the same bit of the two operands |
| Alu.XorSelf | tb/test_alu.py:226-227 | a word XOR itself is 0 |
| Alu.ComplementaryWords | tb/test_alu.py:305-316 | a word and its complement AND to 0 and OR and XOR to all ones |
| Alu.ArithmeticVectors | tb/test_alu.py:206-211 | the directed ADD/SUB vectors give the stated result words and zero, negative and overflow flags (with -5 and -7 as their 32-bit patterns); the overflow vectors of lines 266-278 and 320-321 give their result words and set overflow, and SUB 5, 5 gives 0 with zero set |
| Alu.ComparisonVectors | tb/test_alu.py:433-445 | the SLT/SLTU vectors give 1 or 0 as the tests expect: SLT around zero (0 against 1 and -1, 1 and -1 against 0), 0x80000000 against 0x7FFFFFFF both ways, SLTU on 0 and 0xFFFFFFFF, -5 against 5 from line 253, and equal operands from lines 484 and 489 |
| Alu.LogicalVectors | tb/test_alu.py:305-316 | the alternating-pattern vectors give their expected words: AND 0 and OR all ones on 0x55555555 and 0xAAAAAAAA, XOR of a pattern with itself 0, ADD 0x55555555 + 0x55555555 = 0xAAAAAAAA, and SUB 0xAAAAAAAA - 0x55555555 = 0x55555555; the zero-result vectors of lines 314-316 and 227 also set the zero flag |
| Isa.NopIsAddi | tb/test_pipeline_registers.py:58-60 | the NOP word 0x00000013 is `addi x0, x0, 0`: opcode OP-IMM, funct3 0, rd and rs1 x0, immediate 0 |
| Isa.ClassifyMatchesOpcodes | tb/test_control_unit.py:57-70 | an opcode is tracked as R, I, S, B, U or J exactly when it is one of that class's opcodes, and any other opcode is tracked as none |
| Isa.OpcodeClassesDisjoint | tb/test_control_unit.py:57-70 | no opcode belongs to two of the six classes |
| Isa.ClassifiedOpcodesAre32Bit | tb/test_control_unit.py:59-69 | every tracked opcode has its two low bits set, so it is a 32-bit encoding |
| Isa.BranchConditionDefined | tb/test_control_unit.py:98-109 | of the eight funct3 values exactly 0b010 and 0b011 name no branch condition |
| Isa.BranchBit0Negates | tb/test_control_unit.py:100-107 | the conditions at funct3 2k and 2k+1 (beq/bne, blt/bge, bltu/bgeu) are complementary on every pair of operands |
| Isa.BranchUnsignedAgrees | tb/test_control_unit.py:103-106 | blt and bltu, and bge and bgeu, agree on operands of the same sign |
| Encoding.EncodeRFields | tb/test_control_unit.py:169-177 | every field of `encode_r_type(rd, rs1, rs2, f3, f7)` reads back what was put in, and the word has opcode OP |
| Encoding.EncodeIFields | tb/test_control_unit.py:502-510 | the fixed fields of `encode_i_type` read back; its I-immediate is the 12-bit truncation of imm, equal to imm for -2048 <= imm <= 2047 |
| Encoding.EncodeSFields | tb/test_control_unit.py:512-521 | the fixed fields of `encode_s_type` read back, imm[11:5] and imm[4:0] land in bits 31:25 and 11:7, and the S-immediate round-trips for -2048 <= imm <= 2047 |
| Encoding.EncodeBFields | tb/test_control_unit.py:523-534 | the opcode, funct3 and register fields of `encode_b_type` read back |
| Encoding.EncodeBImm | tb/test_control_unit.py:523-534 | the B-immediate of `encode_b_type(imm)` is the 13-bit truncation of even imm, equal to imm for even imm in [-4096, 4094] |
| Encoding.EncodeUFields | tb/test_control_unit.py:536-542 | `encode_u_type` keeps exactly bits 31:12 of imm; the decoded U-immediate has its low 12 bits zero |
| Encoding.EncodeJFields | tb/test_control_unit.py:544-553 | the opcode and rd of `encode_j_type` read back |
| Encoding.EncodeJImm | tb/test_control_unit.py:544-553 | the J-immediate of `encode_j_type(imm)` is the 21-bit truncation of even imm, equal to imm for even imm in [-2^20, 2^20 - 2] |
| Encoding.EncodeBMaskedAgrees | tb/test_cpu_core.py:42-53 | the CPU-core bench's mask-based `encode_b_type` builds the same word as the control-unit bench's shift-based one, for every immediate and field value |
| Encoding.EncodeBMaskedFields | tb/test_cpu_core.py:42-53 | every field of a mask-based B word reads back, the immediate for even imm in [-4096, 4094] |
| Encoding.CoreBranchVectors | tb/test_cpu_core.py:120-130 | `beq x1, x2, 8` and `bne x3, x4, -8` as that bench encodes them decode to those registers, conditions and offsets 8 and -8 |
| ControlUnit.AluOpOfRType | tb/test_control_unit.py:219-327 | for the ten R-type operations the ALU operation code is funct7 bit 5 above funct3 (ADD 0000, SUB 1000, SRA 1101, ...), it is a valid ALU code, and it determines funct3 and funct7 back |
| ControlUnit.FunctsOfIsInverse | tb/test_control_unit.py:219-327 | every ALU operation code comes from exactly one R-type funct3/funct7 pair |
| ControlUnit.DecodeEncodeR | tb/test_control_unit.py:185-217 | decoding `encode_r_type` sets reg_write and clears alu_src, mem_write, branch, jump and result_src, with alu_op from the funct fields and rd, rs1, rs2, funct3, funct7 as encoded, for all register numbers including x0 and rd = rs1 = rs2 |
| ControlUnit.DecodeRTypeSignals | tb/test_control_unit.py:204-211 | exactly the words with the OP opcode decode, and every such word sets reg_write, clears alu_src, mem_write, branch, jump and result_src, and yields a 4-bit ALU operation code |
| HazardDetection.StallIffLoadDependency | tb/test_hazard_detection.py:28-50 | stall_if and stall_id agree and are set exactly when a load in EX writes a non-zero register that the ID instruction reads on either port |
| HazardDetection.FlushRules | tb/test_hazard_detection.py:52-83 | flush_if and flush_id agree and are set exactly on a taken branch in EX or a jump in ID; flush_ex is set exactly on a stall or such a flush |
| HazardDetection.QuietIffNoHazard | tb/test_hazard_detection.py:5-26 | all five outputs are 0 exactly when there is no load-use dependency, no taken branch and no jump |
| HazardDetection.LoadUseDominates | tb/test_hazard_detection.py:85-100 | a load-use hazard asserts stall_if, stall_id and flush_ex whatever branch or jump coincides with it |
| HazardDetection.X0NeverStalls | tb/test_hazard_detection.py:102-116 | a load into x0 never stalls, even when every address is 0 |
| HazardDetection.BranchMarkerIgnored | tb/test_hazard_detection.py:65-71 | the ID-stage branch marker alone changes no output, so a not-taken branch flushes nothing |
| HazardDetection.MemStageIgnored | tb/test_hazard_detection.py:5-26 | the MEM-stage inputs `mem_rd_addr` and `mem_reg_write`, which the bench drives, change no output |
| HazardDetection.HazardVectors | tb/test_hazard_detection.py:5-116 | each directed vector, with the inputs it does not set idle and any MEM-stage inputs, gives the asserted outputs |
| ForwardingUnit.SelectCases | tb/test_forwarding_unit.py:21-109 | MEM (1) is selected exactly when MEM writes the non-zero source register; WB (2) exactly when WB does and MEM does not; none (0) otherwise; each operand independently |
| ForwardingUnit.ForwardedIsArchitectural | tb/test_forwarding_unit.py:69-81 | the forwarded operand is the value the register holds once the WB and then the MEM instruction have written back, so MEM priority yields the freshest value |
| ForwardingUnit.ForwardVectors | tb/test_forwarding_unit.py:5-109 | each directed vector gives the asserted forward_a and forward_b |
| ProgramCounter.StepCases | tb/test_program_counter.py:119-230 | one edge gives 0 under reset, holds under stall, loads the target on a taken branch and otherwise adds 4 modulo 2^32, in that priority |
| ProgramCounter.ResetRun | tb/test_program_counter.py:119-138 | however long reset is held, and whatever the other inputs, the counter is 0 |
| ProgramCounter.IncrementRun | tb/test_program_counter.py:150-164 | n plain edges advance the counter by 4n modulo 2^32 |
| ProgramCounter.StallRun | tb/test_program_counter.py:166-192 | under any number of stalled edges the counter keeps its value, whatever the branch inputs |
| ProgramCounter.BranchThenIncrement | tb/test_program_counter.py:205-230 | a taken branch followed by n plain edges leaves target + 4n |
| ProgramCounter.BranchRun | tb/test_program_counter.py:246-251 | holding a taken branch leaves the counter at the target, any 32-bit target including 2^32 - 8 |
| ProgramCounter.StallOverBranch | tb/test_program_counter.py:256-267 | a stall overrides a pending branch for as long as it lasts; once released the branch loads its target |
| ProgramCounter.AlignedRun | tb/test_program_counter.py:246-248 | the counter stays word-aligned as long as every loaded branch target is aligned |
| ProgramCounter.PcScenarios | tb/test_program_counter.py:271-330 | the directed scenarios: two reset edges then two plain edges give 8; a branch to 0x100, 0x200, 0x300, 0x400 or 0x1000 then a plain edge gives target + 4; a branch to 2^32 - 8 held two edges gives 2^32 - 8; three stalled edges then a plain edge at 8, 0x10, 0x18 or 0x20 give the value + 4 |
| RegisterFile.ResetClears | tb/test_register_file.py:116-126 | after a reset edge every register reads 0 |
| RegisterFile.X0ReadsZero | tb/test_register_file.py:128-148 | a write to x0 is discarded and x0 reads 0 |
| RegisterFile.WriteThenRead | tb/test_register_file.py:150-183 | after a write to a non-zero register, a read of it on either port returns the written word and every other register reads as before |
| RegisterFile.ReadBeforeWrite | tb/test_register_file.py:185-216 | a port-1 read in the same cycle as a write to that register returns the old value, and after the edge the register holds the new one |
| RegisterFile.ShadowKeys | tb/test_register_file.py:223-224 | the shadow map has an entry for exactly the 32 registers after any access sequence |
| RegisterFile.ReplayMatchesShadow | tb/test_register_file.py:218-250 | after reset and any sequence of writes to non-zero registers and reads, every register reads what the shadow map holds for it |
| PipelineRegisters.LatchCases | tb/test_pipeline_registers.py:27-60 | a latch edge loads the inputs when plain, holds under stall, and loads the bubble under reset or flush |
| PipelineRegisters.StallHolds | tb/test_pipeline_registers.py:41-52 | however many stalled edges pass, and whatever is presented, a latch keeps its contents |
| PipelineRegisters.PlainEdgesLatchLast | tb/test_cpu_core.py:92-96 | after a run of plain edges a latch holds the last inputs presented, so the fetch latch shows each presented word one edge later |
| PipelineRegisters.IfIdFlushIsNop | tb/test_pipeline_registers.py:54-60 | a flushed IF/ID holds `addi x0, x0, 0`, whatever it held or was presented |
| PipelineRegisters.IdExBubbleInert | tb/test_pipeline_registers.py:71-78 | the ID/EX bundle loaded under reset or flush never causes a load-use stall and is never forwarded from |
| PipelineRegisters.ExMemBubbleInert | tb/test_pipeline_registers.py:132-139 | the EX/MEM bundle loaded under reset or flush stores nothing and is never forwarded from |
| PipelineRegisters.MemWbBubbleInert | tb/test_pipeline_registers.py:178-184 | the MEM/WB bundle loaded under reset writes no register |
| PipelineRegisters.IfIdScenario | tb/test_pipeline_registers.py:15-60 | the IF/ID sequence: reset gives the NOP, a plain edge latches 0x1000/0x12345678, a stall keeps it against new inputs, and a flush loads the NOP |
| PipelineRegisters.PropagationVectors | tb/test_pipeline_registers.py:80-207 | ID/EX, EX/MEM and MEM/WB pass every field of the presented vectors through a plain edge unchanged |
| InstructionMemory.AlignDownIsFloor | tb/test_instruction_memory.py:139 | `addr & ~3` rounds the address down to a multiple of four |
| InstructionMemory.FetchIgnoresLowBits | tb/test_instruction_memory.py:129-141 | a fetch returns the word containing the address, the same as at `addr & ~3`, and is defined exactly below 1024 |
| InstructionMemory.InitialIsNop | tb/test_instruction_memory.py:111-122 | before a program is loaded every address below 1024 reads 0x00000013 |
| InstructionMemory.RunIsReadOnly | tb/test_instruction_memory.py:199-214 | reads never change the stored words, and after a read the data is the word at the last address |
| InstructionMemory.RepeatedReadsAgree | tb/test_instruction_memory.py:199-214 | reading the same in-range address again gives the same result |
| InstructionMemory.ImemVectors | tb/test_instruction_memory.py:163-192 | the directed reads, including the last four words, give NOP, and reads at 1024, 1028, 1032 and 2048 are accepted with the value left to the environment |
| DataMemory.PackValue | tb/test_programs.py:49-52 | the packed word `b3 << 24 \| b2 << 16 \| b1 << 8 \| b0` is the little-endian base-256 value of the four bytes, below 2^32 |
| DataMemory.UnpackPack | tb/test_programs.py:63-66 | unpacking a packed word gives back its four bytes |
| DataMemory.PackUnpack | tb/test_programs.py:49-66 | packing the four unpacked bytes of any integer gives its low 32 bits |
| DataMemory.LoadWordIsPack | tb/test_programs.py:49-52 | the word load at an offset is the helper's packing of the four bytes there |
| DataMemory.StoreWordFrame | tb/test_programs.py:62-66 | a word store writes byte k of the data at offset + k and changes no other byte |
| DataMemory.LoadStoreWord | tb/test_programs.py:49-66 | loading a stored word gives back its low 32 bits |
| DataMemory.LoadOtherWord | tb/test_programs.py:59-66 | a word store leaves every other aligned word unchanged |
| DataMemory.StoreLoadWord | tb/test_programs.py:45-66 | storing the word just loaded leaves the memory unchanged |
| DataMemory.ByteAddrIsFloor | tb/test_programs.py:45-46 | `((addr - 0x1000) >> 2) << 2` is the offset rounded down to a multiple of four |
| DataMemory.WindowExceedsFallback | tb/test_programs.py:29-32 | as written, 0x1400 passes the window check but fails on a list index in the 1024-byte fallback array; the corrected read rejects it with the range error |
| DataMemory.BackedRange | tb/test_programs.py:43-44 | the corrected helpers accept exactly the addresses in [0x1000, 0x2000) whose word lies in the array |
| DataMemory.HelpersReject | tb/test_programs.py:43-44 | both corrected helpers fail exactly on addresses that are not backed, naming the address |
| DataMemory.WriteExceedsFallback | tb/test_programs.py:55-66 | as written, `write_memory(0x1400)` passes the window check and fails on its first list write, at index 0x400 of the 1024-byte fallback array, with nothing written; the corrected write rejects it with the range error |
| DataMemory.CorrectedWriteAgrees | tb/test_programs.py:55-66 | wherever the array covers the whole window, or the window check rejects, the corrected write succeeds exactly when the written one raises nothing, with the same memory, and otherwise raises the same error with memory unchanged |
| DataMemory.CorrectedAgrees | tb/test_programs.py:41-53 | the corrected read equals the as-written read wherever the array covers the whole window and wherever the window check rejects |
| DataMemory.ReadAfterWrite | tb/test_programs.py:41-66 | after a successful write, a read anywhere in the same word returns the data reduced to 32 bits; other words read as before |
| DataMemory.WriteFrame | tb/test_programs.py:62-66 | a write changes only the four bytes of the addressed word |
| DataMemory.FullWordWrite | tb/test_cpu_core.py:173-185 | a data-port write with byte enables 0xF stores the whole word, and a read of it returns the written word |
| DataMemory.DisabledLanesKept | tb/test_cpu_core.py:175-178 | a data-port write leaves disabled lanes and bytes outside the word unchanged |
| Programs.RunPastHalt | tb/test_programs.py:129-131 | once the program has run past its last instruction, further steps change nothing, so any longer run ends in the same state |
| Programs.FibValues | tb/test_programs.py:138 | the first ten Fibonacci numbers are 0, 1, 1, 2, 3, 5, 8, 13, 21, 34 |
| Programs.FibCodeIsProgram | tb/test_programs.py:88-116 | the instruction-by-instruction description of `fibonacci.s` holds of exactly the Fibonacci program |
| Programs.FibMemoryWords | tb/test_programs.py:95-112 | after the header and k loop stores, word 0 holds 10, words 1 to k+2 hold F(0) to F(k+1), and every other word is unchanged |
| Programs.FibPrologue | tb/test_programs.py:88-102 | the nine set-up instructions store the count and F0, F1 and reach the loop head with the loop registers set |
| Programs.FibIteration | tb/test_programs.py:104-112 | one loop pass of eight instructions preserves the loop invariant with one more number stored |
| Programs.FibLoop | tb/test_programs.py:104-112 | eight passes from the first loop head reach the loop head with all ten numbers stored |
| Programs.FibExit | tb/test_programs.py:104-116 | at the loop head with counter 0, `beqz` and `nop` end the program |
| Programs.FibWhole | tb/test_programs.py:88-116 | from any registers, the program stops after 75 instructions with the memory of ten stores |
| Programs.FibFinalWords | tb/test_programs.py:134-141 | the final memory holds 10 in word 0, F(i-1) in word i for i in 1..10, and the old contents above |
| Programs.FibonacciStores | tb/test_programs.py:127-141 | from any registers and any memory of at least eleven words, a run of 75 instructions or more ends halted with those words |
| Programs.FibonacciTest | tb/test_programs.py:119-141 | after reset and after word 0 is cleared, a run of 75 or more instructions leaves [10, 0, 1, 1, 2, 3, 5, 8, 13, 21, 34] at 0x1000..0x1028 |
| Programs.AddCodeIsProgram | tb/test_programs.py:147-152 | the description of the add program holds of exactly the add program |
| Programs.AddSetup | tb/test_programs.py:148-150 | the first three instructions set x4 = 0x1000, x1 = 10, x2 = 20 |
| Programs.AddStore | tb/test_programs.py:151-152 | from the `add`, `sw` and the closing `nop` with x1 = 10, x2 = 20, x4 = 0x1000: x3 and word 0 hold 30 and every other register and byte is as before |
| Programs.AddProgramStores | tb/test_programs.py:147-173 | from any registers, after six or more instructions the program has stopped, word 0 holds 30, and every other word is unchanged |
| Programs.AddProgramTest | tb/test_programs.py:143-173 | after reset and after word 0 is cleared, a run of six or more instructions leaves 30 at 0x1000 |

## Left out

- **Coverage collectors, `atexit` hooks and JSON reports.** These appear in
  every testbench. They are instrumentation with global counters and file
  output, not behaviour of the core.
- **The coverage report generator and the compile script.** They list
  directories, parse JSON and shell out to a toolchain.
- **The assembler and loader (`ProgramLoader`).** These call the GNU
  assembler and objcopy.
  - The two programs are given as lists of instructions. They are what the
    assembler makes of `li`, `mv`, `beqz`, `j` and `nop`, and the `nop`
    that `create_test_program` appends (tb/program_loader.py:72).
  - Only the six instructions the programs use have semantics.
- **cocotb timing: `Timer` offsets, `Clock` and `start_soon`.** The model
  takes one step per rising edge. The PC value 8 after 20 ns is modelled
  as two plain edges after reset.
- **`random` stimulus.** Every random test is a lemma over all inputs.
- **Cycle-by-cycle composition of the five stages.** The programs run one
  instruction per step. The test's 100 cycles become any run of 75 or more
  instructions, and its 10 cycles any run of 6 or more. No claim is made
  that the pipelined core finishes within the cycles the tests wait.
- **Control-unit outputs for loads, stores, branches, U- and J-types.**
  Their tests only record coverage and assert nothing. `ControlUnit.Decode`
  is defined for R-type words only.
- **Data-port sizes other than a word (`mem_size` byte and half).** No
  test drives them.
- **Alu.ExpectedMatchesCompute: shift amounts of 32 and above.** The
  contract requires them below 32 because the random test draws them from
  0..31. At those amounts the calculator does not mask the shift amount,
  and the ALU uses its low five bits, so the two differ. At 32 itself
  `sign_extend` gives all ones for a negative word and 0 otherwise, and the
  calculator's SLL and SRL give 0, while the ALU shifts by 0 and returns the
  operand. Above 32 the calculator's SRA of a negative word raises an
  error, from the negative shift count at tb/test_alu.py:139.
- **Alu.Compute: operation codes outside the ten.** It yields 0, as a
  choice. The calculator yields AND.
- **Alu.ArithmeticMatches: negative operands.** Every negative operand the
  ALU tests pass is taken as its 32-bit pattern, because the ALU's inputs
  are words. The sites are tb/test_alu.py:207 (-5, -7), 253 (-5), 434
  (-1), 436 (-1), 452 (-1) and 460 (-1).
- **PipelineRegisters.LatchCases: flush together with stall.** Flush wins
  over stall, a modelling choice. No test combines them.
- **DataMemory.DisabledLanesKept: partial byte enables.** They are
  modelled as a choice, each enabled lane takes its byte. The tests only
  use 0xF.
- **InstructionMemory.ImemVectors: the value read at or above 1024.** It is
  an environment parameter, because the tests leave it unconstrained.
- **Programs.ValidInstr: branch and jump offsets.** It does not bound them,
  because the programs' offsets are fixed.

## Findings

| source | as written | input that shows it | evidently intended | confidence | as-written member | corrected member |
|---|---|---|---|---|---|---|
| tb/test_programs.py:43 | `read_memory`/`write_memory` accept any address in the 4096-byte window [0x1000, 0x2000), but the fallback byte array built at lines 29-32 has only 1024 entries | with the fallback array, `read_memory(dut, 0x1400)` passes the range check and then fails on `mem[0x403]`, and `write_memory(dut, 0x1400, d)` fails on `mem[0x400]` before writing anything; both raise an index error instead of the range error | an address is rejected with the range error unless its whole word lies in the array | medium (only when the fallback array is in use); not executed | DataMemory.ReadMemoryAsWritten, DataMemory.WindowExceedsFallback, DataMemory.WriteMemoryAsWritten, DataMemory.WriteExceedsFallback | DataMemory.ReadMemory, DataMemory.WriteMemory, DataMemory.HelpersReject, DataMemory.CorrectedAgrees, DataMemory.CorrectedWriteAgrees |
