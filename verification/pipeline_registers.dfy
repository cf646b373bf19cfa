/** The four pipeline registers between the five stages. Each is a latch
    that at a rising edge loads its inputs, holds its contents under a
    stall, or loads a bubble under a flush or reset. A bubble has every
    control signal cleared; the IF/ID bubble carries the NOP instruction. */
module PipelineRegisters {
  import opened Bits
  import Isa
  import RegisterFile
  import HazardDetection
  import ForwardingUnit

  /** The latch controls sampled at one edge; `rstN` is active low. */
  datatype LatchCtl = LatchCtl(rstN: bool, stall: bool, flush: bool)

  /** A cycle that neither resets, stalls nor flushes. */
  const PLAIN: LatchCtl := LatchCtl(true, false, false)

  /** One edge of a latch. Reset and flush load the bubble; a flush wins over
      a stall, a modelling choice, since no test combines them. */
  function Latch<T>(held: T, input: T, bubble: T, c: LatchCtl): T
  {
    if !c.rstN || c.flush then bubble
    else if c.stall then held
    else input
  }

  /** The contents after a sequence of edges, oldest first. */
  function Clocked<T>(held: T, inputs: seq<T>, bubble: T, ctls: seq<LatchCtl>): T
    requires |inputs| == |ctls|
    decreases |inputs|
  {
    if inputs == [] then held
    else Clocked(Latch(held, inputs[0], bubble, ctls[0]), inputs[1..], bubble, ctls[1..])
  }

  /** The outcome of one edge under each control combination. */
  lemma {:induction false} LatchCases<T>(held: T, input: T, bubble: T, c: LatchCtl)
    ensures c.rstN && !c.stall && !c.flush ==> Latch(held, input, bubble, c) == input
    ensures c.rstN && c.stall && !c.flush ==> Latch(held, input, bubble, c) == held
    ensures !c.rstN || c.flush ==> Latch(held, input, bubble, c) == bubble
  {
  }

  /** The contents after a last edge that is plain are that edge's inputs;
      after a last edge that flushes or resets, the bubble. */
  lemma {:induction false} ClockedLast<T>(held: T, inputs: seq<T>, bubble: T, ctls: seq<LatchCtl>)
    requires |inputs| == |ctls| > 0
    ensures var last := |ctls| - 1;
            var prev := Clocked(held, inputs[..last], bubble, ctls[..last]);
            Clocked(held, inputs, bubble, ctls) == Latch(prev, inputs[last], bubble, ctls[last])
    decreases |inputs|
  {
    if |inputs| > 1 {
      var last := |ctls| - 1;
      assert inputs[1..][..last - 1] == inputs[..last][1..];
      assert ctls[1..][..last - 1] == ctls[..last][1..];
      ClockedLast(Latch(held, inputs[0], bubble, ctls[0]), inputs[1..], bubble, ctls[1..]);
    }
  }

  /** However many edges a stall lasts, and whatever is presented meanwhile,
      the latch keeps its contents. */
  lemma {:induction false} StallHolds<T>(held: T, inputs: seq<T>, bubble: T, ctls: seq<LatchCtl>)
    requires |inputs| == |ctls|
    requires forall k :: 0 <= k < |ctls| ==> ctls[k] == LatchCtl(true, true, false)
    ensures Clocked(held, inputs, bubble, ctls) == held
    decreases |inputs|
  {
    if inputs != [] {
      StallHolds(held, inputs[1..], bubble, ctls[1..]);
    }
  }

  /** After a run of plain edges a latch holds the last inputs presented,
      whatever it held before: the core's fetch latch shows, one edge after
      each word is presented, exactly that word. */
  lemma {:induction false} PlainEdgesLatchLast<T>(held: T, inputs: seq<T>, bubble: T, ctls: seq<LatchCtl>)
    requires |inputs| == |ctls| > 0
    requires forall k :: 0 <= k < |ctls| ==> ctls[k] == PLAIN
    ensures Clocked(held, inputs, bubble, ctls) == inputs[|inputs| - 1]
  {
    ClockedLast(held, inputs, bubble, ctls);
  }

  // ---------------------------------------------------------------------
  // The four registers.

  /** IF/ID: the fetched instruction and its address. */
  datatype IfId = IfId(pc: Word, instruction: Word)

  /** IF/ID after a flush or reset: the NOP at address 0. */
  const IF_ID_BUBBLE: IfId := IfId(0, Isa.NOP)

  /** ID/EX: the decoded control signals, the register operands and the
      immediate. */
  datatype IdEx = IdEx(
    regWrite: bool, aluSrc: bool, aluOp: nat, memWrite: bool, memRead: bool, memSize: nat,
    branch: bool, jump: bool, resultSrc: nat,
    pc: Word, rs1Data: Word, rs2Data: Word, imm: Word,
    rs1: nat, rs2: nat, rd: nat, funct3: nat)

  const ID_EX_BUBBLE: IdEx := IdEx(false, false, 0, false, false, 0, false, false, 0,
                                   0, 0, 0, 0, 0, 0, 0, 0)

  /** EX/MEM: the ALU result, the store data and the write-back controls. */
  datatype ExMem = ExMem(
    regWrite: bool, memWrite: bool, memRead: bool, memSize: nat, resultSrc: nat,
    aluResult: Word, rs2Data: Word, rd: nat, pcPlus4: Word)

  const EX_MEM_BUBBLE: ExMem := ExMem(false, false, false, 0, 0, 0, 0, 0, 0)

  /** MEM/WB: the three candidate write-back values and the destination. */
  datatype MemWb = MemWb(
    regWrite: bool, resultSrc: nat, aluResult: Word, readData: Word, rd: nat, pcPlus4: Word)

  const MEM_WB_BUBBLE: MemWb := MemWb(false, 0, 0, 0, 0, 0)

  /** A flushed IF/ID holds `addi x0, x0, 0`, whatever it held or was
      presented. */
  lemma {:induction false} IfIdFlushIsNop(held: IfId, input: IfId, stall: bool)
    ensures var r := Latch(held, input, IF_ID_BUBBLE, LatchCtl(true, stall, true));
            r.instruction == Isa.NOP
            && Isa.Opcode(r.instruction) == Isa.OP_IMM && Isa.Funct3(r.instruction) == 0
            && Isa.Rd(r.instruction) == 0 && Isa.Rs1(r.instruction) == 0
            && Isa.ImmI(r.instruction) == 0
  {
    Isa.NopIsAddi();
  }

  /** An ID/EX bubble in EX is inert: it never causes a load-use stall and
      is never forwarded from once it moves on, whatever registers the
      instruction in ID reads. */
  lemma {:induction false} IdExBubbleInert(idRs1: nat, idRs2: nat, memRd: nat, memRegWrite: bool,
                                           idBranch: bool, idJump: bool, exBranchTaken: bool,
                                           src: nat, wbRd: nat, wbRegWrite: bool)
    ensures !HazardDetection.LoadUse(HazardDetection.HazardIn(
              idRs1, idRs2, ID_EX_BUBBLE.rd, ID_EX_BUBBLE.memRead, ID_EX_BUBBLE.regWrite,
              memRd, memRegWrite, idBranch, idJump, exBranchTaken))
    ensures ForwardingUnit.Select(src, ID_EX_BUBBLE.rd, ID_EX_BUBBLE.regWrite, wbRd, wbRegWrite)
            != ForwardingUnit.FORWARD_MEM
  {
  }

  /** An EX/MEM bubble stores nothing and is never forwarded from. */
  lemma {:induction false} ExMemBubbleInert(src: nat, wbRd: nat, wbRegWrite: bool)
    ensures !EX_MEM_BUBBLE.memWrite
    ensures ForwardingUnit.Select(src, EX_MEM_BUBBLE.rd, EX_MEM_BUBBLE.regWrite, wbRd, wbRegWrite)
            != ForwardingUnit.FORWARD_MEM
  {
  }

  /** A MEM/WB bubble writes back nothing: the register file is unchanged
      at the next edge. */
  lemma {:induction false} MemWbBubbleInert(rf: RegisterFile.Regs, data: Word, rs1: nat, rs2: nat)
    requires rs1 < 32 && rs2 < 32
    ensures RegisterFile.Clock(rf, RegisterFile.RfIn(true, MEM_WB_BUBBLE.regWrite, MEM_WB_BUBBLE.rd,
                                                     data, rs1, rs2)).next == rf
  {
  }

  /** The IF/ID sequence of the test: reset for two edges, then a plain edge
      latches 0x1000/0x12345678, a stall keeps it against new inputs, and a
      flush loads the NOP. The instruction-fetch latch of the core behaves
      the same: after a plain edge it holds the word that was presented. */
  lemma {:induction false} IfIdScenario(start: IfId, idle: IfId)
    ensures var reset := LatchCtl(false, false, false);
            var s1 := Latch(Latch(start, idle, IF_ID_BUBBLE, reset), idle, IF_ID_BUBBLE, reset);
            var s2 := Latch(s1, idle, IF_ID_BUBBLE, PLAIN);
            var s3 := Latch(s2, IfId(0x1000, 0x1234_5678), IF_ID_BUBBLE, PLAIN);
            var s4 := Latch(s3, IfId(0x2000, 0x8765_4321), IF_ID_BUBBLE, LatchCtl(true, true, false));
            var s5 := Latch(s4, IfId(0x2000, 0x8765_4321), IF_ID_BUBBLE, LatchCtl(true, false, true));
            s1 == IF_ID_BUBBLE && s3 == IfId(0x1000, 0x1234_5678) && s4 == s3
            && s5.instruction == Isa.NOP
  {
  }

  /** The ID/EX, EX/MEM and MEM/WB vectors: after a plain edge every field
      presented comes out unchanged. */
  lemma {:induction false} PropagationVectors(idEx: IdEx, exMem: ExMem, memWb: MemWb)
    ensures var v := IdEx(true, true, 5, false, true, 2, false, false, 1,
                          0x1000, 0x1234_5678, 0x8765_4321, 0xFFF, 5, 0xA, 0xF, 3);
            Latch(idEx, v, ID_EX_BUBBLE, PLAIN) == v
    ensures var v := ExMem(true, true, false, 2, 1, 0x1234_5678, 0x8765_4321, 0xF, 0x1004);
            Latch(exMem, v, EX_MEM_BUBBLE, PLAIN) == v
    ensures var v := MemWb(true, 1, 0x1234_5678, 0x8765_4321, 0xF, 0x1004);
            Latch(memWb, v, MEM_WB_BUBBLE, PLAIN) == v
  {
  }
}
