/** The register file: 32 words with x0 hardwired to zero, two
    combinational read ports and one write port that takes effect at the
    rising edge, so a read in the same cycle as a write sees the old value. */
module RegisterFile {
  import opened Bits

  /** The stored words; entry 0 is never read. */
  type Regs = s: seq<Word> | |s| == 32 witness seq(32, i => 0)

  /** The registers after reset: all zero. */
  function Zeros(): Regs
  {
    seq(32, i => 0)
  }

  /** A read port. */
  function Read(rf: Regs, a: nat): Word
    requires a < 32
  {
    if a == 0 then 0 else rf[a]
  }

  /** The write port at a rising edge: a write to x0 is discarded. */
  function Write(rf: Regs, rd: nat, data: Word): Regs
    requires rd < 32
  {
    if rd == 0 then rf else rf[rd := data]
  }

  /** The inputs sampled in one cycle; `rstN` is active low. */
  datatype RfIn = RfIn(rstN: bool, we: bool, rd: nat, data: Word, rs1: nat, rs2: nat)

  predicate ValidIn(i: RfIn)
  {
    i.rd < 32 && i.rs1 < 32 && i.rs2 < 32
  }

  /** One cycle: the read data presented before the edge, and the registers
      after it. */
  datatype Cycle = Cycle(rs1Data: Word, rs2Data: Word, next: Regs)

  function Clock(rf: Regs, i: RfIn): Cycle
    requires ValidIn(i)
  {
    var next := if !i.rstN then Zeros() else if i.we then Write(rf, i.rd, i.data) else rf;
    Cycle(Read(rf, i.rs1), Read(rf, i.rs2), next)
  }

  /** After reset every register reads zero. */
  lemma {:induction false} ResetClears(rf: Regs, i: RfIn, a: nat)
    requires ValidIn(i) && !i.rstN && a < 32
    ensures Read(Clock(rf, i).next, a) == 0
  {
  }

  /** x0 reads zero on both ports whatever was written to it. */
  lemma {:induction false} X0ReadsZero(rf: Regs, data: Word)
    ensures Write(rf, 0, data) == rf
    ensures Read(Write(rf, 0, data), 0) == 0
  {
  }

  /** A write to a non-zero register is read back on either port from the
      next cycle, and no other register changes. */
  lemma {:induction false} WriteThenRead(rf: Regs, rd: nat, data: Word, a: nat)
    requires 0 < rd < 32 && a < 32
    ensures Read(Write(rf, rd, data), a) == if a == rd then data else Read(rf, a)
  {
  }

  /** A read in the same cycle as a write to the same register returns the
      old value; the next cycle's read returns the new one. */
  lemma {:induction false} ReadBeforeWrite(rf: Regs, i: RfIn)
    requires ValidIn(i) && i.rstN && i.we && i.rd != 0 && i.rs1 == i.rd
    ensures Clock(rf, i).rs1Data == Read(rf, i.rd)
    ensures Read(Clock(rf, i).next, i.rd) == i.data
  {
  }

  // ---------------------------------------------------------------------
  // Replay against a shadow map.

  /** An access of the random-access test: a write of a non-zero register
      or a read. */
  datatype Access = WriteReg(rd: nat, data: Word) | ReadReg(rs: nat)

  predicate ValidAccess(x: Access)
  {
    match x
    case WriteReg(rd, _) => 0 < rd < 32
    case ReadReg(rs) => rs < 32
  }

  /** The registers after one access: a write stores its word at the
      rising edge, a read leaves them alone. */
  function Apply(rf: Regs, x: Access): Regs
    requires ValidAccess(x)
  {
    match x
    case WriteReg(rd, data) => Write(rf, rd, data)
    case ReadReg(_) => rf
  }

  /** The registers after replaying the accesses in order. */
  function Replay(rf: Regs, xs: seq<Access>): Regs
    requires forall k :: 0 <= k < |xs| ==> ValidAccess(xs[k])
    decreases |xs|
  {
    if xs == [] then rf else Replay(Apply(rf, xs[0]), xs[1..])
  }

  /** The map from each of the registers below `n` to 0. */
  function ZeroMap(n: nat): map<nat, Word>
  {
    if n == 0 then map[] else ZeroMap(n - 1)[n - 1 := 0]
  }

  lemma {:induction false} ZeroMapEntries(n: nat)
    ensures forall r: nat :: r in ZeroMap(n) <==> r < n
    ensures forall r: nat :: r in ZeroMap(n) ==> ZeroMap(n)[r] == 0
  {
    if n > 0 {
      ZeroMapEntries(n - 1);
    }
  }

  /** The shadow map of the test: every register starts at 0 and a write
      updates exactly its own entry. */
  function Shadow(xs: seq<Access>): map<nat, Word>
    requires forall k :: 0 <= k < |xs| ==> ValidAccess(xs[k])
    decreases |xs|
  {
    if xs == [] then ZeroMap(32)
    else
      var m := Shadow(xs[..|xs| - 1]);
      match xs[|xs| - 1]
      case WriteReg(rd, data) => m[rd := data]
      case ReadReg(_) => m
  }

  lemma {:induction false} ShadowKeys(xs: seq<Access>)
    requires forall k :: 0 <= k < |xs| ==> ValidAccess(xs[k])
    ensures forall r: nat :: r < 32 <==> r in Shadow(xs)
    decreases |xs|
  {
    if xs == [] {
      ZeroMapEntries(32);
    } else {
      ShadowKeys(xs[..|xs| - 1]);
    }
  }

  /** Replaying the last access on top of the first ones. */
  lemma {:induction false} ReplaySnoc(rf: Regs, xs: seq<Access>, x: Access)
    requires forall k :: 0 <= k < |xs| ==> ValidAccess(xs[k])
    requires ValidAccess(x)
    ensures forall k :: 0 <= k < |xs + [x]| ==> ValidAccess((xs + [x])[k])
    ensures Replay(rf, xs + [x]) == Apply(Replay(rf, xs), x)
    decreases |xs|
  {
    if xs != [] {
      assert (xs + [x])[1..] == xs[1..] + [x];
      ReplaySnoc(Apply(rf, xs[0]), xs[1..], x);
    }
  }

  /** Any sequence of writes and reads after reset: every read port returns
      what the shadow map holds for that register. */
  lemma {:induction false} ReplayMatchesShadow(xs: seq<Access>, a: nat)
    requires forall k :: 0 <= k < |xs| ==> ValidAccess(xs[k])
    requires a < 32
    ensures a in Shadow(xs)
    ensures Read(Replay(Zeros(), xs), a) == Shadow(xs)[a]
    decreases |xs|
  {
    ShadowKeys(xs);
    if xs == [] {
      ZeroMapEntries(32);
    } else {
      var front, x := xs[..|xs| - 1], xs[|xs| - 1];
      assert xs == front + [x];
      ReplaySnoc(Zeros(), front, x);
      ReplayMatchesShadow(front, a);
      ShadowKeys(front);
    }
  }
}
