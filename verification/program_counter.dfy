/** The program counter: a 32-bit register that at each rising edge resets
    to 0, holds under a stall, loads a branch target, or advances by four,
    in that order of priority. */
module ProgramCounter {
  import opened Bits

  /** The inputs sampled at one rising edge; `rstN` is active low. */
  datatype PcIn = PcIn(rstN: bool, stall: bool, branchTaken: bool, branchTarget: Word)

  /** The address of the reset vector. */
  const RESET_PC: Word := 0

  /** One rising edge. The increment wraps around at 2^32. */
  function Step(pc: Word, i: PcIn): Word
  {
    if !i.rstN then RESET_PC
    else if i.stall then pc
    else if i.branchTaken then i.branchTarget
    else ToWord(pc + 4)
  }

  /** The value after the edges of `ins`, oldest first. */
  function Run(pc: Word, ins: seq<PcIn>): Word
    decreases |ins|
  {
    if ins == [] then pc else Run(Step(pc, ins[0]), ins[1..])
  }

  /** A cycle with no reset, stall or branch. */
  const IDLE: PcIn := PcIn(true, false, false, 0)

  /** `n` cycles with the given inputs held. */
  function Hold(i: PcIn, n: nat): (r: seq<PcIn>)
    ensures |r| == n
    ensures forall k :: 0 <= k < n ==> r[k] == i
  {
    seq(n, _ => i)
  }

  /** Each outcome of an edge, with the condition under which it happens. */
  lemma {:induction false} StepCases(pc: Word, i: PcIn)
    ensures !i.rstN ==> Step(pc, i) == 0
    ensures i.rstN && i.stall ==> Step(pc, i) == pc
    ensures i.rstN && !i.stall && i.branchTaken ==> Step(pc, i) == i.branchTarget
    ensures i.rstN && !i.stall && !i.branchTaken ==>
              Step(pc, i) == (if pc < WORD_SIZE - 4 then pc + 4 else pc + 4 - WORD_SIZE)
  {
    if pc >= WORD_SIZE - 4 {
      DivModUnique(pc + 4, WORD_SIZE, 1, pc + 4 - WORD_SIZE);
    }
  }

  /** Running two input sequences one after the other. */
  lemma {:induction false} RunAppend(pc: Word, a: seq<PcIn>, b: seq<PcIn>)
    ensures Run(pc, a + b) == Run(Run(pc, a), b)
    decreases |a|
  {
    if a == [] {
      assert a + b == b;
    } else {
      assert (a + b)[1..] == a[1..] + b;
      RunAppend(Step(pc, a[0]), a[1..], b);
    }
  }

  /** `n` plain cycles advance the counter by `4 * n`, modulo 2^32. */
  lemma {:induction false} IncrementRun(pc: Word, n: nat)
    ensures Run(pc, Hold(IDLE, n)) == ToWord(pc + 4 * n)
    decreases n
  {
    if n > 0 {
      assert Hold(IDLE, n)[1..] == Hold(IDLE, n - 1);
      IncrementRun(ToWord(pc + 4), n - 1);
      ToWordAdd(pc + 4, 4 * (n - 1));
    }
  }

  /** While the stall input is high (and reset is not) the counter keeps its
      value, whatever the branch inputs are doing. */
  lemma {:induction false} StallRun(pc: Word, ins: seq<PcIn>)
    requires forall k :: 0 <= k < |ins| ==> ins[k].rstN && ins[k].stall
    ensures Run(pc, ins) == pc
    decreases |ins|
  {
    if ins != [] {
      StallRun(pc, ins[1..]);
    }
  }

  /** Holding a taken branch for one or more cycles leaves the counter at
      the target, any 32-bit target included. */
  lemma {:induction false} BranchRun(pc: Word, target: Word, n: nat)
    requires n >= 1
    ensures Run(pc, Hold(PcIn(true, false, true, target), n)) == target
    decreases n
  {
    var i := PcIn(true, false, true, target);
    assert Hold(i, n)[1..] == Hold(i, n - 1);
    if n > 1 {
      BranchRun(target, target, n - 1);
    }
  }

  /** Holding reset for one or more cycles leaves the counter at 0, whatever
      the other inputs are. */
  lemma {:induction false} ResetRun(pc: Word, i: PcIn, n: nat)
    requires n >= 1 && !i.rstN
    ensures Run(pc, Hold(i, n)) == 0
    decreases n
  {
    assert Hold(i, n)[1..] == Hold(i, n - 1);
    if n > 1 {
      ResetRun(0, i, n - 1);
    }
  }

  /** Word alignment is kept as long as every branch target that is loaded
      is aligned. */
  lemma {:induction false} AlignedRun(pc: Word, ins: seq<PcIn>)
    requires pc % 4 == 0
    requires forall k :: 0 <= k < |ins| && ins[k].branchTaken ==> ins[k].branchTarget % 4 == 0
    ensures Run(pc, ins) % 4 == 0
    decreases |ins|
  {
    if ins != [] {
      var next := Step(pc, ins[0]);
      if ins[0].rstN && !ins[0].stall && !ins[0].branchTaken {
        ToWordAligned(pc + 4);
      }
      assert next % 4 == 0;
      AlignedRun(next, ins[1..]);
    }
  }

  /** A stall held over a pending branch: the counter keeps its value, and
      once the stall is released the held branch loads its target. */
  lemma {:induction false} StallOverBranch(pc: Word, target: Word, m: nat, n: nat)
    requires n >= 1
    ensures Run(pc, Hold(PcIn(true, true, true, target), m)) == pc
    ensures Run(pc, Hold(PcIn(true, true, true, target), m) + Hold(PcIn(true, false, true, target), n))
            == target
  {
    StallRun(pc, Hold(PcIn(true, true, true, target), m));
    RunAppend(pc, Hold(PcIn(true, true, true, target), m), Hold(PcIn(true, false, true, target), n));
    BranchRun(pc, target, n);
  }

  /** A taken branch followed by plain cycles continues sequentially from
      the target. */
  lemma {:induction false} BranchThenIncrement(pc: Word, target: Word, n: nat)
    ensures Run(pc, [PcIn(true, false, true, target)] + Hold(IDLE, n)) == ToWord(target + 4 * n)
  {
    assert ([PcIn(true, false, true, target)] + Hold(IDLE, n))[1..] == Hold(IDLE, n);
    IncrementRun(target, n);
  }

  /** The directed scenarios: two plain cycles after reset reach 8; the
      branch targets 0x1000 and 0x100..0x400 followed by one plain cycle; a
      target 8 below 2^32 is loaded unchanged; and a stall released after
      three cycles at each of 8, 0x10, 0x18 and 0x20 advances by four. */
  lemma {:induction false} PcScenarios(i: PcIn)
    requires !i.rstN
    ensures Run(0, Hold(i, 2) + Hold(IDLE, 2)) == 8
    ensures forall t :: t in {0x100, 0x200, 0x300, 0x400, 0x1000} ==>
              Run(0, [PcIn(true, false, true, t)] + Hold(IDLE, 1)) == t + 4
    ensures Run(8, Hold(PcIn(true, false, true, WORD_SIZE - 8), 2)) == WORD_SIZE - 8
    ensures forall p :: p in {8, 0x10, 0x18, 0x20} ==>
              Run(p, Hold(PcIn(true, true, false, 0), 3) + Hold(IDLE, 1)) == p + 4
  {
    ResetRun(8, i, 2);
    RunAppend(8, Hold(i, 2), Hold(IDLE, 2));
    IncrementRun(0, 2);
    forall t | t in {0x100, 0x200, 0x300, 0x400, 0x1000}
      ensures Run(0, [PcIn(true, false, true, t)] + Hold(IDLE, 1)) == t + 4
    {
      BranchThenIncrement(0, t, 1);
    }
    BranchRun(8, WORD_SIZE - 8, 2);
    forall p | p in {8, 0x10, 0x18, 0x20}
      ensures Run(p, Hold(PcIn(true, true, false, 0), 3) + Hold(IDLE, 1)) == p + 4
    {
      StallRun(p, Hold(PcIn(true, true, false, 0), 3));
      RunAppend(p, Hold(PcIn(true, true, false, 0), 3), Hold(IDLE, 1));
      IncrementRun(p, 1);
    }
  }
}
