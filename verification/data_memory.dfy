/** The data memory as the test helpers see it: an array of bytes holding
    words in little-endian order. `read_memory` and `write_memory` accept an
    address in the 4096-byte window from 0x1000, round it down to its word
    and move the four bytes; the core's own data port writes the byte lanes
    its byte enables select. */
module DataMemory {
  import opened Bits
  import opened Results

  const DMEM_BASE: int := 0x1000
  const DMEM_WINDOW: int := 4096
  /** The size of the byte array the helpers fall back on. */
  const FALLBACK_BYTES: nat := 1024

  type Memory = seq<Byte>

  /** The fallback array: 1024 zero bytes. */
  function Fallback(): Memory
  {
    seq(FALLBACK_BYTES, _ => 0)
  }

  // ---------------------------------------------------------------------
  // Little-endian words.

  /** `(data >> 8k) & 0xFF`: byte `k` of any integer, negative ones read in
      two's complement. */
  function ByteOf(data: int, k: nat): Byte
  {
    AndMask(Shr(data, 8 * k), 0xFF, 8)
  }

  /** `b3 << 24 | b2 << 16 | b1 << 8 | b0`. */
  function Pack(b0: Byte, b1: Byte, b2: Byte, b3: Byte): nat
  {
    Or(Or(Or(Shl(b3, 24), Shl(b2, 16)), Shl(b1, 8)), b0)
  }

  /** The packed bytes are the base-256 digits of the word they form. */
  lemma {:induction false} PackValue(b0: Byte, b1: Byte, b2: Byte, b3: Byte)
    ensures Pack(b0, b1, b2, b3) == b0 + 0x100 * b1 + 0x1_0000 * b2 + 0x100_0000 * b3
    ensures Pack(b0, b1, b2, b3) < WORD_SIZE
  {
    Pow2Values();
    var c := Concat(b3, b2, 8);
    var c2 := Concat(c, b1, 8);
    OrPlace(b3, b2, 16, 24, 8);
    OrPlace(c, b1, 8, 16, 8);
    OrDisjoint(c2, b0, 8);
    ShlMul(b3, 8);
    ShlMul(c, 8);
    ShlMul(c2, 8);
  }

  /** Byte `k` is the field of bits `8k` to `8k + 7`. */
  lemma {:induction false} ByteOfIsField(data: int, k: nat)
    ensures ByteOf(data, k) == Field(data, 8 * k, 8)
  {
    Pow2Values();
    AndMaskLow(Shr(data, 8 * k), 8, 0xFF);
  }

  /** Unpacking a packed word gives back its four bytes. */
  lemma {:induction false} UnpackPack(b0: Byte, b1: Byte, b2: Byte, b3: Byte)
    ensures ByteOf(Pack(b0, b1, b2, b3), 0) == b0
    ensures ByteOf(Pack(b0, b1, b2, b3), 1) == b1
    ensures ByteOf(Pack(b0, b1, b2, b3), 2) == b2
    ensures ByteOf(Pack(b0, b1, b2, b3), 3) == b3
  {
    PackValue(b0, b1, b2, b3);
    Pow2Values();
    var x := Pack(b0, b1, b2, b3);
    var c := Concat(b3, b2, 8);
    var c2 := Concat(c, b1, 8);
    ShlMul(b3, 8);
    ShlMul(c, 8);
    ShlMul(c2, 8);
    assert x == Concat(c2, b0, 8);
    ByteOfIsField(x, 0);
    FieldLow(c2, b0, 8);
    ByteOfIsField(x, 1);
    FieldPeel(c2, b0, 8, 8, 0, 8);
    FieldLow(c, b1, 8);
    ByteOfIsField(x, 2);
    FieldPeel(c2, b0, 8, 16, 8, 8);
    FieldPeel(c, b1, 8, 8, 0, 8);
    FieldLow(b3, b2, 8);
    ByteOfIsField(x, 3);
    FieldPeel(c2, b0, 8, 24, 16, 8);
    FieldPeel(c, b1, 8, 16, 8, 8);
    FieldPeel(b3, b2, 8, 8, 0, 8);
    FieldWhole(b3, 8);
  }

  /** Packing the four bytes of any integer gives its low 32 bits. */
  lemma {:induction false} PackUnpack(data: int)
    ensures Pack(ByteOf(data, 0), ByteOf(data, 1), ByteOf(data, 2), ByteOf(data, 3)) == ToWord(data)
  {
    Pow2Values();
    var b0, b1, b2, b3 := ByteOf(data, 0), ByteOf(data, 1), ByteOf(data, 2), ByteOf(data, 3);
    ByteOfIsField(data, 0);
    ByteOfIsField(data, 1);
    ByteOfIsField(data, 2);
    ByteOfIsField(data, 3);
    MaskSplit(data, 32, 24, 8);
    MaskSplit(data, 24, 16, 8);
    MaskSplit(data, 16, 8, 8);
    ShlMul(b3, 24);
    ShlMul(b2, 16);
    ShlMul(b1, 8);
    MaskWord(data);
    PackValue(b0, b1, b2, b3);
  }

  /** Base-256 digit `k` of any integer: the byte the source's shift and
      mask extract, stated arithmetically. */
  function Digit(data: int, k: nat): Byte
    requires k < 4
  {
    if k == 0 then data % 0x100
    else if k == 1 then (data / 0x100) % 0x100
    else if k == 2 then (data / 0x1_0000) % 0x100
    else (data / 0x100_0000) % 0x100
  }

  /** The shift-and-mask byte is the base-256 digit. */
  lemma {:induction false} DigitIsByteOf(data: int, k: nat)
    requires k < 4
    ensures Digit(data, k) == ByteOf(data, k)
  {
    Pow2Values();
    ByteOfIsField(data, k);
    ShrDiv(data, 8 * k);
    ShrDiv(Shr(data, 8 * k), 8);
  }

  // ---------------------------------------------------------------------
  // Word accesses at a byte offset.

  /** The four bytes at `off` as a little-endian word. */
  function LoadWord(mem: Memory, off: nat): Word
    requires off + 4 <= |mem|
  {
    mem[off] as int + 0x100 * (mem[off + 1] as int)
    + 0x1_0000 * (mem[off + 2] as int) + 0x100_0000 * (mem[off + 3] as int)
  }

  /** The load is the source's `b3 << 24 | b2 << 16 | b1 << 8 | b0`. */
  lemma {:induction false} LoadWordIsPack(mem: Memory, off: nat)
    requires off + 4 <= |mem|
    ensures LoadWord(mem, off) == Pack(mem[off], mem[off + 1], mem[off + 2], mem[off + 3])
  {
    PackValue(mem[off], mem[off + 1], mem[off + 2], mem[off + 3]);
  }

  /** The digits of `data` stored from `off`, lowest first. */
  function StoreWord(mem: Memory, off: nat, data: int): Memory
    requires off + 4 <= |mem|
  {
    seq(|mem|, i requires 0 <= i < |mem| => StoredByte(mem, off, data, i))
  }

  /** The byte at index `i` after the store. */
  function StoredByte(mem: Memory, off: nat, data: int, i: nat): Byte
    requires i < |mem|
  {
    if off <= i < off + 4 then Digit(data, i - off) else mem[i]
  }

  /** A store changes exactly the four bytes at `off`, to the bytes
      `(data >> 8k) & 0xFF` the source writes. */
  lemma {:induction false} StoreWordFrame(mem: Memory, off: nat, data: int)
    requires off + 4 <= |mem|
    ensures |StoreWord(mem, off, data)| == |mem|
    ensures forall i :: 0 <= i < |mem| && !(off <= i < off + 4) ==> StoreWord(mem, off, data)[i] == mem[i]
    ensures forall k :: 0 <= k < 4 ==> StoreWord(mem, off, data)[off + k] == ByteOf(data, k)
  {
    forall k | 0 <= k < 4
      ensures StoreWord(mem, off, data)[off + k] == ByteOf(data, k)
    {
      DigitIsByteOf(data, k);
    }
  }

  /** Loading a stored word gives back its low 32 bits. */
  lemma {:induction false} LoadStoreWord(mem: Memory, off: nat, data: int)
    requires off + 4 <= |mem|
    ensures LoadWord(StoreWord(mem, off, data), off) == ToWord(data)
  {
    StoreWordFrame(mem, off, data);
    LoadWordIsPack(StoreWord(mem, off, data), off);
    PackUnpack(data);
  }

  /** Two different multiples of four are at least four apart. */
  lemma {:induction false} AlignedApart(x: nat, y: nat)
    requires x % 4 == 0 && y % 4 == 0 && x != y
    ensures x + 4 <= y || y + 4 <= x
  {
    var a, b := x / 4, y / 4;
    assert x == a * 4 + x % 4 && y == b * 4 + y % 4;
    assert a != b;
    if a < b {
      assert a * 4 + 4 <= b * 4;
    } else {
      assert b * 4 + 4 <= a * 4;
    }
  }

  /** A store leaves every other aligned word as it was. */
  lemma {:induction false} LoadOtherWord(mem: Memory, off: nat, data: int, other: nat)
    requires off + 4 <= |mem| && other + 4 <= |mem|
    requires off % 4 == 0 && other % 4 == 0 && off != other
    ensures LoadWord(StoreWord(mem, off, data), other) == LoadWord(mem, other)
  {
    StoreWordFrame(mem, off, data);
    AlignedApart(off, other);
    var m := StoreWord(mem, off, data);
    assert m[other] == mem[other] && m[other + 1] == mem[other + 1];
    assert m[other + 2] == mem[other + 2] && m[other + 3] == mem[other + 3];
  }

  /** Storing the word just loaded leaves the memory as it was. */
  lemma {:induction false} StoreLoadWord(mem: Memory, off: nat)
    requires off + 4 <= |mem|
    ensures StoreWord(mem, off, LoadWord(mem, off)) == mem
  {
    var w := LoadWord(mem, off);
    LoadWordIsPack(mem, off);
    UnpackPack(mem[off], mem[off + 1], mem[off + 2], mem[off + 3]);
    StoreWordFrame(mem, off, w);
    forall i | 0 <= i < |mem|
      ensures StoreWord(mem, off, w)[i] == mem[i]
    {
      if off <= i < off + 4 {
        assert StoreWord(mem, off, w)[off + (i - off)] == ByteOf(w, i - off);
      }
    }
  }

  // ---------------------------------------------------------------------
  // The test helpers `read_memory` and `write_memory`.

  predicate InWindow(addr: int)
  {
    DMEM_BASE <= addr < DMEM_BASE + DMEM_WINDOW
  }

  /** The offset of the word that contains `addr`. */
  function ByteAddr(addr: int): nat
    requires DMEM_BASE <= addr
  {
    4 * ((addr - DMEM_BASE) / 4)
  }

  /** The word offset is the source's `((addr - 0x1000) >> 2) << 2`: the
      byte offset rounded down to a multiple of 4. */
  lemma {:induction false} ByteAddrIsFloor(addr: int)
    requires DMEM_BASE <= addr
    ensures ByteAddr(addr) == Shl(Shr(addr - DMEM_BASE, 2), 2)
    ensures ByteAddr(addr) == (addr - DMEM_BASE) - (addr - DMEM_BASE) % 4
    ensures ByteAddr(addr) % 4 == 0
  {
    Pow2Values();
    ShrDiv(addr - DMEM_BASE, 2);
    ShlMul(Shr(addr - DMEM_BASE, 2), 2);
    DivModUnique(ByteAddr(addr), 4, (addr - DMEM_BASE) / 4, 0);
  }

  /** `read_memory` as written: the window check, then the four list
      reads, highest byte first, which fail past the end of the array. */
  function ReadMemoryAsWritten(mem: Memory, addr: int): Result<Word>
  {
    if !InWindow(addr) then Failure(AddressOutOfRange(addr))
    else if ByteAddr(addr) + 3 >= |mem| then Failure(IndexOutOfRange(ByteAddr(addr) + 3))
    else Ok(LoadWord(mem, ByteAddr(addr)))
  }

  /** The window address 0x1400 passes the range check, yet the fallback
      array has no byte for it: the read fails with a list index error rather
      than the range error the check is there to raise. */
  lemma {:induction false} WindowExceedsFallback()
    ensures InWindow(0x1400)
    ensures ReadMemoryAsWritten(Fallback(), 0x1400) == Failure(IndexOutOfRange(0x403))
    ensures ReadMemory(Fallback(), 0x1400) == Failure(AddressOutOfRange(0x1400))
  {
    ByteAddrIsFloor(0x1400);
  }

  /** An address is backed when it lies in the window and its whole word
      lies in the array. */
  predicate Backed(mem: Memory, addr: int)
  {
    InWindow(addr) && ByteAddr(addr) + 4 <= |mem|
  }

  /** `read_memory` with the range check taken against the array as well. */
  function ReadMemory(mem: Memory, addr: int): Result<Word>
  {
    if Backed(mem, addr) then Ok(LoadWord(mem, ByteAddr(addr))) else Failure(AddressOutOfRange(addr))
  }

  /** `write_memory` with the same check. */
  function WriteMemory(mem: Memory, addr: int, data: int): Result<Memory>
  {
    if Backed(mem, addr) then Ok(StoreWord(mem, ByteAddr(addr), data)) else Failure(AddressOutOfRange(addr))
  }

  /** The accepted addresses: for an array of whole words, exactly the
      window cut down to the array. */
  lemma {:induction false} BackedRange(mem: Memory, addr: int)
    requires |mem| % 4 == 0
    ensures Backed(mem, addr) <==>
              DMEM_BASE <= addr < DMEM_BASE + DMEM_WINDOW && addr < DMEM_BASE + |mem|
  {
    if DMEM_BASE <= addr {
      ByteAddrIsFloor(addr);
    }
  }

  /** Both helpers fail exactly on the addresses that are not backed, and
      the failure names the address. */
  lemma {:induction false} HelpersReject(mem: Memory, addr: int, data: int)
    ensures ReadMemory(mem, addr).Failure? <==> !Backed(mem, addr)
    ensures WriteMemory(mem, addr, data).Failure? <==> !Backed(mem, addr)
    ensures !Backed(mem, addr) ==> ReadMemory(mem, addr).error == AddressOutOfRange(addr)
  {
  }

  /** The corrected helpers agree with the written ones wherever the array
      covers the whole window, and wherever the window check rejects. */
  lemma {:induction false} CorrectedAgrees(mem: Memory, addr: int)
    requires |mem| >= DMEM_WINDOW || !InWindow(addr)
    ensures ReadMemory(mem, addr) == ReadMemoryAsWritten(mem, addr)
  {
    if InWindow(addr) {
      ByteAddrIsFloor(addr);
    }
  }

  /** What a helper that can fail part-way leaves behind: the memory as it
      stands when it stops, and the error it raised, if any. */
  datatype WriteOutcome = WriteOutcome(mem: Memory, error: Option<Error>)

  /** `write_memory` as written: the window check, then the four list
      writes, lowest byte first. A write past the end of the array raises a
      list index error, and the bytes written before it stay written. */
  function WriteMemoryAsWritten(mem: Memory, addr: int, data: int): WriteOutcome
  {
    if !InWindow(addr) then WriteOutcome(mem, Some(AddressOutOfRange(addr)))
    else WriteLanesFrom(mem, ByteAddr(addr), data, 0)
  }

  /** The list writes of bytes `k` to 3 of `data` at `off + k` onwards. */
  function WriteLanesFrom(mem: Memory, off: nat, data: int, k: nat): WriteOutcome
    requires k <= 4
    decreases 4 - k
  {
    if k == 4 then WriteOutcome(mem, None)
    else if off + k >= |mem| then WriteOutcome(mem, Some(IndexOutOfRange(off + k)))
    else WriteLanesFrom(mem[off + k := ByteOf(data, k)], off, data, k + 1)
  }

  /** Within the array the list writes from lane `k` on complete, and leave
      byte `(data >> 8j) & 0xFF` at `off + j` for every lane `j >= k`. */
  lemma {:induction false} WriteLanesStores(mem: Memory, off: nat, data: int, k: nat)
    requires off + 4 <= |mem| && k <= 4
    ensures WriteLanesFrom(mem, off, data, k).error == None
    ensures |WriteLanesFrom(mem, off, data, k).mem| == |mem|
    ensures forall i :: 0 <= i < |mem| ==>
              WriteLanesFrom(mem, off, data, k).mem[i]
              == if off + k <= i < off + 4 then ByteOf(data, i - off) else mem[i]
    decreases 4 - k
  {
    if k < 4 {
      WriteLanesStores(mem[off + k := ByteOf(data, k)], off, data, k + 1);
    }
  }

  /** The window address 0x1400 passes the range check of `write_memory`,
      yet its first list write, at index 0x400, is past the end of the
      fallback array: the helper raises a list index error with nothing
      written, where the corrected helper raises the range error. */
  lemma {:induction false} WriteExceedsFallback(data: int)
    ensures InWindow(0x1400)
    ensures WriteMemoryAsWritten(Fallback(), 0x1400, data)
            == WriteOutcome(Fallback(), Some(IndexOutOfRange(0x400)))
    ensures WriteMemory(Fallback(), 0x1400, data) == Failure(AddressOutOfRange(0x1400))
  {
    ByteAddrIsFloor(0x1400);
  }

  /** The corrected `write_memory` agrees with the written one wherever the
      array covers the whole window, and wherever the window check rejects:
      it succeeds exactly when the written helper raises nothing, with the
      same memory, and otherwise raises the same error with memory unchanged. */
  lemma {:induction false} CorrectedWriteAgrees(mem: Memory, addr: int, data: int)
    requires |mem| >= DMEM_WINDOW || !InWindow(addr)
    ensures var w := WriteMemoryAsWritten(mem, addr, data);
            match WriteMemory(mem, addr, data)
            case Ok(m) => w == WriteOutcome(m, None)
            case Failure(e) => w == WriteOutcome(mem, Some(e))
  {
    if InWindow(addr) {
      ByteAddrIsFloor(addr);
      var off := ByteAddr(addr);
      WriteLanesStores(mem, off, data, 0);
      StoreWordFrame(mem, off, data);
      var w := WriteLanesFrom(mem, off, data, 0).mem;
      assert w == StoreWord(mem, off, data) by {
        forall i | 0 <= i < |mem|
          ensures w[i] == StoreWord(mem, off, data)[i]
        {
          if off <= i < off + 4 {
            assert StoreWord(mem, off, data)[off + (i - off)] == ByteOf(data, i - off);
          }
        }
      }
    }
  }

  /** A read after a write returns the written word, reduced to 32 bits, at
      every address of the same word; other words are unaffected. */
  lemma {:induction false} ReadAfterWrite(mem: Memory, addr: int, data: int, other: int)
    requires WriteMemory(mem, addr, data).Ok?
    ensures var m := WriteMemory(mem, addr, data).value;
            |m| == |mem|
            && ReadMemory(m, addr) == Ok(ToWord(data))
            && (InWindow(other) && ByteAddr(other) == ByteAddr(addr) ==> ReadMemory(m, other) == Ok(ToWord(data)))
            && (InWindow(other) && ByteAddr(other) != ByteAddr(addr) ==> ReadMemory(m, other) == ReadMemory(mem, other))
  {
    var off := ByteAddr(addr);
    StoreWordFrame(mem, off, data);
    LoadStoreWord(mem, off, data);
    if InWindow(other) && ByteAddr(other) != off && ByteAddr(other) + 4 <= |mem| {
      ByteAddrIsFloor(addr);
      ByteAddrIsFloor(other);
      LoadOtherWord(mem, off, data, ByteAddr(other));
    }
  }

  /** A write changes only the four bytes of the addressed word. */
  lemma {:induction false} WriteFrame(mem: Memory, addr: int, data: int, i: int)
    requires WriteMemory(mem, addr, data).Ok? && 0 <= i < |mem|
    ensures var off := ByteAddr(addr);
            !(off <= i < off + 4) ==> WriteMemory(mem, addr, data).value[i] == mem[i]
  {
    StoreWordFrame(mem, ByteAddr(addr), data);
  }

  // ---------------------------------------------------------------------
  // The core's data port with byte enables.

  /** Byte lane `k` is written when bit `k` of the enables is set. */
  predicate LaneEnabled(be: nat, k: nat)
  {
    BitOf(be, k) == 1
  }

  /** A write through the data port: each enabled lane takes its byte of the
      data, the other lanes keep theirs. */
  function StoreLanes(mem: Memory, off: nat, data: Word, be: nat): (r: Memory)
    requires off + 4 <= |mem|
    ensures |r| == |mem|
  {
    seq(|mem|, i requires 0 <= i < |mem| => LaneByte(mem, off, data, be, i))
  }

  /** The byte at index `i` after a data-port write. */
  function LaneByte(mem: Memory, off: nat, data: Word, be: nat, i: nat): Byte
    requires i < |mem|
  {
    if off <= i < off + 4 && LaneEnabled(be, i - off) then ByteOf(data, i - off) else mem[i]
  }

  /** Every lane of 0xF is enabled. */
  lemma {:induction false} AllLanesEnabled(k: nat)
    requires k < 4
    ensures LaneEnabled(0xF, k)
  {
    Pow2Values();
    ShrDiv(0xF, k);
    ShrDiv(Shr(0xF, k), 1);
    if k == 0 {
      assert Shr(0xF, k) == 15;
    } else if k == 1 {
      assert Shr(0xF, k) == 7;
    } else if k == 2 {
      assert Shr(0xF, k) == 3;
    } else {
      assert Shr(0xF, k) == 1;
    }
  }

  /** With all four enables set, a data-port write stores the whole word:
      a later read of the same word returns it. */
  lemma {:induction false} FullWordWrite(mem: Memory, off: nat, data: Word)
    requires off + 4 <= |mem|
    ensures StoreLanes(mem, off, data, 0xF) == StoreWord(mem, off, data)
    ensures LoadWord(StoreLanes(mem, off, data, 0xF), off) == data
  {
    forall k | 0 <= k < 4
      ensures LaneEnabled(0xF, k)
    {
      AllLanesEnabled(k);
    }
    StoreWordFrame(mem, off, data);
    LoadStoreWord(mem, off, data);
  }

  /** A data-port write leaves the lanes it does not enable, and every byte
      outside the word, as they were. */
  lemma {:induction false} DisabledLanesKept(mem: Memory, off: nat, data: Word, be: nat, i: nat)
    requires off + 4 <= |mem| && i < |mem|
    requires !(off <= i < off + 4) || !LaneEnabled(be, i - off)
    ensures StoreLanes(mem, off, data, be)[i] == mem[i]
  {
  }
}
