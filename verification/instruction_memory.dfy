/** The instruction memory: 1024 bytes organised as 256 words, every one
    initialised to NOP, read one word per rising edge at the address with
    its low two bits ignored. */
module InstructionMemory {
  import opened Bits
  import opened Results
  import Isa

  const IMEM_BYTES: nat := 1024
  const IMEM_WORDS: nat := 256

  type Words = s: seq<Word> | |s| == 256 witness seq(256, _ => 0)

  /** The contents before any program is loaded. */
  function Initial(): Words
  {
    seq(256, _ => Isa.NOP)
  }

  /** `addr & ~3`: the address of the word that contains `addr`. */
  function AlignDown(addr: Word): Word
  {
    Pow2Word();
    AndMask(addr, 0xFFFF_FFFC, 32)
  }

  /** Clearing the two low bits rounds down to a multiple of four. */
  lemma {:induction false} AlignDownIsFloor(addr: Word)
    ensures AlignDown(addr) == addr - addr % 4
    ensures AlignDown(addr) == 4 * (addr / 4)
  {
    Pow2Values();
    AndMaskRange(addr, 2, 30, 32, 0xFFFF_FFFC);
    ShrDiv(addr, 2);
    MaskSmall(Shr(addr, 2), 30);
    ShlMul(Shr(addr, 2), 2);
  }

  /** The word index of a byte address, `addr >> 2`. */
  function WordIndex(addr: Word): nat
  {
    Shr(addr, 2)
  }

  /** The word at `addr`, or None at or beyond the end of the memory, where
      the read value is not determined. */
  function Fetch(mem: Words, addr: Word): Option<Word>
  {
    if addr < IMEM_BYTES then
      ShrDiv(addr, 2);
      Some(mem[WordIndex(addr)])
    else
      None
  }

  /** A fetch reads the word containing the address: the low two bits do
      not matter, and a fetch fails exactly beyond the memory. */
  lemma {:induction false} FetchIgnoresLowBits(mem: Words, addr: Word)
    ensures Fetch(mem, addr).Some? <==> addr < IMEM_BYTES
    ensures Fetch(mem, AlignDown(addr)) == Fetch(mem, addr)
    ensures addr < IMEM_BYTES ==> Fetch(mem, addr) == Some(mem[addr / 4])
  {
    AlignDownIsFloor(addr);
    ShrDiv(addr, 2);
    ShrDiv(AlignDown(addr), 2);
    Pow2Values();
    DivModUnique(AlignDown(addr), 4, addr / 4, 0);
  }

  /** Before a program is loaded every fetch within the memory returns NOP,
      aligned or not. */
  lemma {:induction false} InitialIsNop(addr: Word)
    requires addr < IMEM_BYTES
    ensures Fetch(Initial(), addr) == Some(Isa.NOP)
  {
    FetchIgnoresLowBits(Initial(), addr);
  }

  /** The clocked memory: the words and the registered read data. */
  datatype Imem = Imem(words: Words, rdata: Word)

  /** One rising edge with `addr` presented. Beyond the memory the read
      data is whatever the environment makes of it, `env`; no error is
      raised. */
  function Step(m: Imem, addr: Word, env: Word): Imem
  {
    var data := match Fetch(m.words, addr)
      case Some(w) => w
      case None => env;
    Imem(m.words, data)
  }

  /** The read data after the addresses of `addrs` are presented one edge
      each; `envs` supplies the undetermined values. */
  function Run(m: Imem, addrs: seq<Word>, envs: seq<Word>): Imem
    requires |addrs| == |envs|
    decreases |addrs|
  {
    if addrs == [] then m else Run(Step(m, addrs[0], envs[0]), addrs[1..], envs[1..])
  }

  /** Reads never change the stored words, and after at least one edge the
      read data is the last address's word when that address lies in the
      memory. */
  lemma {:induction false} RunIsReadOnly(m: Imem, addrs: seq<Word>, envs: seq<Word>)
    requires |addrs| == |envs|
    ensures Run(m, addrs, envs).words == m.words
    ensures addrs != [] && addrs[|addrs| - 1] < IMEM_BYTES ==>
              Some(Run(m, addrs, envs).rdata) == Fetch(m.words, addrs[|addrs| - 1])
    decreases |addrs|
  {
    if addrs != [] {
      RunIsReadOnly(Step(m, addrs[0], envs[0]), addrs[1..], envs[1..]);
    }
  }

  /** Reading the same in-range address again returns the same word. */
  lemma {:induction false} RepeatedReadsAgree(m: Imem, addr: Word, env1: Word, env2: Word)
    requires addr < IMEM_BYTES
    ensures Step(Step(m, addr, env1), addr, env2) == Step(m, addr, env1)
  {
  }

  /** The directed reads of the initial memory: the start, unaligned
      addresses at 0x0..0x300 plus 1..3, the last four words and 0x3FC all
      give NOP, and addresses from 1024 on are accepted. */
  lemma {:induction false} ImemVectors(env: Word)
    ensures forall a :: a in {0, 1, 0x102, 0x203, 0x301, 0x3F0, 0x3F4, 0x3F8, 0x3FC} ==>
              Step(Imem(Initial(), 0), a, env).rdata == Isa.NOP
    ensures forall a :: a in {1024, 1028, 1032, 2048} ==>
              Step(Imem(Initial(), 0), a, env) == Imem(Initial(), env)
  {
    forall a | a in {0, 1, 0x102, 0x203, 0x301, 0x3F0, 0x3F4, 0x3F8, 0x3FC}
      ensures Step(Imem(Initial(), 0), a, env).rdata == Isa.NOP
    {
      InitialIsNop(a);
    }
  }
}
