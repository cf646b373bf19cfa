/** The hazard detection unit: a load-use dependency stalls fetch and decode
    and turns the EX stage into a bubble; a taken branch in EX or a jump in
    ID flushes the three younger stages. Register x0 never causes a stall. */
module HazardDetection {

  /** The unit's inputs. `memRd` and `memRegWrite` describe the instruction
      in MEM and `idBranch` marks a branch in ID; they are inputs of the unit
      but no output depends on them. */
  datatype HazardIn = HazardIn(
    idRs1: nat, idRs2: nat, exRd: nat,
    exMemRead: bool, exRegWrite: bool,
    memRd: nat, memRegWrite: bool,
    idBranch: bool, idJump: bool, exBranchTaken: bool)

  datatype HazardOut = HazardOut(
    stallIf: bool, stallId: bool, flushIf: bool, flushId: bool, flushEx: bool)

  /** A load in EX writes a non-zero register that the instruction in ID
      reads. */
  predicate LoadUse(h: HazardIn)
  {
    h.exMemRead && h.exRegWrite && h.exRd != 0 && (h.exRd == h.idRs1 || h.exRd == h.idRs2)
  }

  /** A control transfer: a taken branch in EX or a jump in ID. */
  predicate Redirect(h: HazardIn)
  {
    h.exBranchTaken || h.idJump
  }

  function Detect(h: HazardIn): HazardOut
  {
    var lu := LoadUse(h);
    var cf := Redirect(h);
    HazardOut(stallIf := lu, stallId := lu, flushIf := cf, flushId := cf, flushEx := lu || cf)
  }

  /** The registers an instruction in ID reads, x0 excluded. */
  function Sources(h: HazardIn): set<nat>
  {
    {h.idRs1, h.idRs2} - {0}
  }

  /** The stall signals say exactly that a load in EX is about to write a
      register the ID instruction reads; the fetch and decode stalls agree. */
  lemma {:induction false} StallIffLoadDependency(h: HazardIn)
    ensures Detect(h).stallIf == Detect(h).stallId
    ensures Detect(h).stallIf <==> h.exMemRead && h.exRegWrite && h.exRd in Sources(h)
  {
    if h.exRd in Sources(h) {
      assert h.exRd == h.idRs1 || h.exRd == h.idRs2;
    }
  }

  /** The flush signals: IF and ID are flushed exactly on a redirect, and EX
      is flushed on a redirect or a load-use stall. */
  lemma {:induction false} FlushRules(h: HazardIn)
    ensures Detect(h).flushIf == Detect(h).flushId
    ensures Detect(h).flushIf <==> h.exBranchTaken || h.idJump
    ensures Detect(h).flushEx <==> Detect(h).stallIf || Detect(h).flushIf
  {
  }

  /** Without a load dependency, a taken branch or a jump, no output is
      asserted, and conversely. */
  lemma {:induction false} QuietIffNoHazard(h: HazardIn)
    ensures Detect(h) == HazardOut(false, false, false, false, false)
            <==> !LoadUse(h) && !h.exBranchTaken && !h.idJump
  {
  }

  /** A load-use hazard always stalls and bubbles EX, whatever branch or jump
      coincides with it. */
  lemma {:induction false} LoadUseDominates(h: HazardIn)
    requires LoadUse(h)
    ensures Detect(h).stallIf && Detect(h).stallId && Detect(h).flushEx
  {
  }

  /** A load into x0 never stalls, even when every address is 0. */
  lemma {:induction false} X0NeverStalls(h: HazardIn)
    requires h.exRd == 0
    ensures !Detect(h).stallIf && !Detect(h).stallId
    ensures Detect(h).flushEx <==> Redirect(h)
  {
  }

  /** The branch marker in ID does not influence any output. */
  lemma {:induction false} BranchMarkerIgnored(h: HazardIn, b: bool)
    ensures Detect(h.(idBranch := b)) == Detect(h)
  {
  }

  /** The MEM-stage inputs do not influence any output: a result still in
      MEM reaches EX by forwarding, so it never needs a stall. */
  lemma {:induction false} MemStageIgnored(h: HazardIn, rd: nat, w: bool)
    ensures Detect(h.(memRd := rd, memRegWrite := w)) == Detect(h)
  {
  }

  /** The directed vectors, each an isolated input with the unmentioned
      inputs idle, for any MEM-stage inputs: the first test sets them to
      x4 and 1, and the later tests leave them as they are. For the load-use vector that coincides with a taken branch
      the test checks only the stalls and `flush_ex`; its `flush_if` and
      `flush_id` values are the model's own. */
  lemma {:induction false} HazardVectors(memRd: nat, memRegWrite: bool)
    ensures Detect(HazardIn(1, 2, 3, false, true, memRd, memRegWrite, false, false, false))
            == HazardOut(false, false, false, false, false)
    ensures Detect(HazardIn(5, 0, 5, true, true, memRd, memRegWrite, false, false, false))
            == HazardOut(true, true, false, false, true)
    ensures Detect(HazardIn(1, 5, 5, true, true, memRd, memRegWrite, false, false, false))
            == HazardOut(true, true, false, false, true)
    ensures Detect(HazardIn(0, 0, 0, false, false, memRd, memRegWrite, true, false, true))
            == HazardOut(false, false, true, true, true)
    ensures Detect(HazardIn(0, 0, 0, false, false, memRd, memRegWrite, true, false, false))
            == HazardOut(false, false, false, false, false)
    ensures Detect(HazardIn(0, 0, 0, false, false, memRd, memRegWrite, false, true, false))
            == HazardOut(false, false, true, true, true)
    ensures Detect(HazardIn(6, 0, 6, true, true, memRd, memRegWrite, true, false, true))
            == HazardOut(true, true, true, true, true)
    ensures Detect(HazardIn(0, 0, 0, true, true, memRd, memRegWrite, false, false, false))
            == HazardOut(false, false, false, false, false)
  {
  }
}
