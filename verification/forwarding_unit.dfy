/** The forwarding unit: for each ALU operand in EX it chooses between the
    register-file value, the result in MEM and the result in WB. The most
    recent producer wins, a producer must be writing a register, and x0 is
    never forwarded. */
module ForwardingUnit {
  import opened Bits
  import RegisterFile

  /** The select codes: 0 keeps the register value, 1 takes the MEM result,
      2 takes the WB result. */
  const FORWARD_NONE: nat := 0
  const FORWARD_MEM: nat := 1
  const FORWARD_WB: nat := 2

  /** The unit's inputs. */
  datatype FwdIn = FwdIn(
    exRs1: nat, exRs2: nat,
    memRd: nat, memRegWrite: bool,
    wbRd: nat, wbRegWrite: bool)

  datatype FwdOut = FwdOut(forwardA: nat, forwardB: nat)

  /** The select code of one operand: MEM has priority over WB. */
  function Select(src: nat, memRd: nat, memRegWrite: bool, wbRd: nat, wbRegWrite: bool): nat
  {
    if memRegWrite && memRd != 0 && memRd == src then FORWARD_MEM
    else if wbRegWrite && wbRd != 0 && wbRd == src then FORWARD_WB
    else FORWARD_NONE
  }

  /** Both operands are selected by the same rule, independently. */
  function Forward(f: FwdIn): FwdOut
  {
    FwdOut(Select(f.exRs1, f.memRd, f.memRegWrite, f.wbRd, f.wbRegWrite),
           Select(f.exRs2, f.memRd, f.memRegWrite, f.wbRd, f.wbRegWrite))
  }

  /** The operand the ALU sees for a select code. */
  function Operand(sel: nat, regValue: Word, memResult: Word, wbResult: Word): Word
  {
    if sel == FORWARD_MEM then memResult else if sel == FORWARD_WB then wbResult else regValue
  }

  /** Each code is chosen exactly when its condition holds. */
  lemma {:induction false} SelectCases(src: nat, memRd: nat, memRegWrite: bool, wbRd: nat, wbRegWrite: bool)
    ensures var s := Select(src, memRd, memRegWrite, wbRd, wbRegWrite);
            s <= 2
            && (s == FORWARD_MEM <==> memRegWrite && src != 0 && memRd == src)
            && (s == FORWARD_WB <==>
                  wbRegWrite && src != 0 && wbRd == src && !(memRegWrite && memRd == src))
            && (s == FORWARD_NONE <==>
                  src == 0 || ((!memRegWrite || memRd != src) && (!wbRegWrite || wbRd != src)))
  {
  }

  /** The register-file contents once the older WB result and then the newer
      MEM result are written back. */
  function Retired(rf: RegisterFile.Regs, memRd: nat, memRegWrite: bool, memResult: Word,
                   wbRd: nat, wbRegWrite: bool, wbResult: Word): RegisterFile.Regs
    requires memRd < 32 && wbRd < 32
  {
    var afterWb := if wbRegWrite then RegisterFile.Write(rf, wbRd, wbResult) else rf;
    if memRegWrite then RegisterFile.Write(afterWb, memRd, memResult) else afterWb
  }

  /** Forwarding is correct: the operand selected for any source register is
      the value that register holds once the instructions in MEM and WB have
      retired in program order. */
  lemma {:induction false} ForwardedIsArchitectural(
      rf: RegisterFile.Regs, src: nat, memRd: nat, memRegWrite: bool, memResult: Word,
      wbRd: nat, wbRegWrite: bool, wbResult: Word)
    requires src < 32 && memRd < 32 && wbRd < 32
    ensures Operand(Select(src, memRd, memRegWrite, wbRd, wbRegWrite),
                    RegisterFile.Read(rf, src), memResult, wbResult)
            == RegisterFile.Read(Retired(rf, memRd, memRegWrite, memResult, wbRd, wbRegWrite, wbResult), src)
  {
    var afterWb := if wbRegWrite then RegisterFile.Write(rf, wbRd, wbResult) else rf;
    if wbRegWrite && wbRd != 0 {
      RegisterFile.WriteThenRead(rf, wbRd, wbResult, src);
    }
    if memRegWrite && memRd != 0 {
      RegisterFile.WriteThenRead(afterWb, memRd, memResult, src);
    }
  }

  /** The directed vectors. Inputs a test leaves unset keep the values of
      the test before it in the same simulation. */
  lemma {:induction false} ForwardVectors()
    ensures Forward(FwdIn(1, 2, 3, true, 4, true)) == FwdOut(0, 0)
    ensures Forward(FwdIn(5, 2, 5, true, 4, true)) == FwdOut(1, 0)
    ensures Forward(FwdIn(1, 5, 5, true, 4, true)) == FwdOut(0, 1)
    ensures Forward(FwdIn(6, 2, 3, true, 6, true)) == FwdOut(2, 0)
    ensures Forward(FwdIn(1, 6, 3, true, 6, true)) == FwdOut(0, 2)
    ensures Forward(FwdIn(7, 6, 7, true, 7, true)).forwardA == 1
    ensures Forward(FwdIn(8, 6, 8, false, 7, true)).forwardA == 0
    ensures Forward(FwdIn(0, 1, 0, true, 0, true)) == FwdOut(0, 0)
  {
  }
}
