/**
 * The PXI command word (`ctr_pxi.h`): a 4-bit transfer mode in bits 28-31, a 2-bit
 * access size in bits 24-25 and a register offset in the low bits, OR-ed together by
 * `CTR_PXI_CMD`; and the direction tests of `ctr_pxi.c` that read the mode back.
 */
module PxiDefs {

  // transfer modes (ctr_pxi.h)
  const PXI_WRITE: bv32 := 0 << 28
  const PXI_READ: bv32 := 1 << 28
  const PXI_IOSET: bv32 := 2 << 28
  const PXI_IOCLR: bv32 := 3 << 28
  const PXI_IRQGET: bv32 := 4 << 28
  const PXI_IRQMASK: bv32 := 5 << 28
  const PXI_IRQUNMASK: bv32 := 6 << 28

  // access sizes and their aliases (ctr_pxi.h)
  const PXI_BYTE: bv32 := 0 << 24
  const PXI_HALF: bv32 := 1 << 24
  const PXI_WORD: bv32 := 2 << 24
  const PXI_1B: bv32 := PXI_BYTE
  const PXI_2B: bv32 := PXI_HALF
  const PXI_4B: bv32 := PXI_WORD

  /** `CTR_PXI_CMD_MASK`: the mode nibble. */
  const CMD_MASK: bv32 := 0xF000_0000

  /** The modes, in the order of their codes 0..6. */
  const Modes: seq<bv32> := [PXI_WRITE, PXI_READ, PXI_IOSET, PXI_IOCLR, PXI_IRQGET, PXI_IRQMASK, PXI_IRQUNMASK]

  /** The sizes, in the order of their codes 0..2. */
  const Sizes: seq<bv32> := [PXI_BYTE, PXI_HALF, PXI_WORD]

  /** `CTR_PXI_CMD(mode, size, reg)`. */
  function Cmd(mode: bv32, size: bv32, reg: bv32): bv32 {
    mode | size | reg
  }

  /** `cmd & CTR_PXI_CMD_MASK`. */
  function ModeOf(cmd: bv32): bv32 {
    cmd & CMD_MASK
  }

  /** `pxi_cmd_needs_rx`: the command receives a word after it is sent. */
  predicate NeedsRx(cmd: bv32) {
    ModeOf(cmd) in {PXI_READ, PXI_IRQGET}
  }

  /** `pxi_cmd_needs_tx`: the command is followed by an argument word. */
  predicate NeedsTx(cmd: bv32) {
    ModeOf(cmd) in {PXI_WRITE, PXI_IOSET, PXI_IOCLR}
  }

  /** `mode` has bits only in the mode nibble. */
  predicate ModeBits(mode: bv32) { mode & 0x0FFF_FFFF == 0 }

  /** `size` has bits only in the size field, bits 24-25. */
  predicate SizeBits(size: bv32) { size & 0xFCFF_FFFF == 0 }

  /** `reg` stays below bit 24, where the size field starts. */
  predicate RegBits(reg: bv32) { reg & 0xFF00_0000 == 0 }

  /** The stated limit on `reg`: under 1 MiB. */
  predicate RegFits(reg: bv32) { reg < 0x10_0000 }

  /** The seven modes are the distinct codes 0..6 in the mode nibble. */
  lemma ModeCodes()
    ensures |Modes| == 7
    ensures forall k | 0 <= k < 7 :: Modes[k] == (k as bv32) << 28 && ModeBits(Modes[k])
    ensures forall j, k | 0 <= j < k < 7 :: Modes[j] != Modes[k]
  {
    forall k | 0 <= k < 7
      ensures Modes[k] == (k as bv32) << 28 && ModeBits(Modes[k])
    {
      if k == 0 {} else if k == 1 {} else if k == 2 {} else if k == 3 {}
      else if k == 4 {} else if k == 5 {} else {}
    }
  }

  /** The three sizes are the distinct codes 0..2 in bits 24-25. */
  lemma SizeCodes()
    ensures |Sizes| == 3
    ensures forall k | 0 <= k < 3 :: Sizes[k] == (k as bv32) << 24 && SizeBits(Sizes[k])
    ensures forall j, k | 0 <= j < k < 3 :: Sizes[j] != Sizes[k]
  {
    forall k | 0 <= k < 3
      ensures Sizes[k] == (k as bv32) << 24 && SizeBits(Sizes[k])
    {
      if k == 0 {} else if k == 1 {} else {}
    }
  }

  /** A register under 1 MiB stays out of the size and mode fields. */
  lemma FitsBits(reg: bv32)
    requires RegFits(reg)
    ensures RegBits(reg)
  {}

  /**
   * With the three parts in their own fields, the command word gives each of them
   * back: the mode nibble, the size field and the register offset.
   */
  lemma CmdFields(mode: bv32, size: bv32, reg: bv32)
    requires ModeBits(mode) && SizeBits(size) && RegBits(reg)
    ensures ModeOf(Cmd(mode, size, reg)) == mode
    ensures Cmd(mode, size, reg) & 0x0F00_0000 == size
    ensures Cmd(mode, size, reg) & 0x00FF_FFFF == reg
  {
    assert (mode | size | reg) & CMD_MASK == (mode & CMD_MASK) | (size & CMD_MASK) | (reg & CMD_MASK);
    assert (mode | size | reg) & 0x0F00_0000 == (mode & 0x0F00_0000) | (size & 0x0F00_0000) | (reg & 0x0F00_0000);
    assert (mode | size | reg) & 0x00FF_FFFF == (mode & 0x00FF_FFFF) | (size & 0x00FF_FFFF) | (reg & 0x00FF_FFFF);
  }

  /** Exactly one of the direction tests, or neither, holds for a command. */
  lemma DirectionExclusive(cmd: bv32)
    ensures !(NeedsRx(cmd) && NeedsTx(cmd))
    ensures ModeOf(cmd) == PXI_IRQMASK || ModeOf(cmd) == PXI_IRQUNMASK ==> !NeedsRx(cmd) && !NeedsTx(cmd)
  {}

  /**
   * For a command built by `CTR_PXI_CMD` from a mode, a size and a register under
   * 1 MiB, the direction depends on the mode alone: `READ` and `IRQGET` receive,
   * `WRITE`, `IOSET` and `IOCLR` send an argument, `IRQMASK` and `IRQUNMASK` do neither.
   */
  lemma CmdDirection(mode: bv32, size: bv32, reg: bv32)
    requires mode in Modes && size in Sizes && RegFits(reg)
    ensures NeedsRx(Cmd(mode, size, reg)) <==> mode == PXI_READ || mode == PXI_IRQGET
    ensures NeedsTx(Cmd(mode, size, reg)) <==> mode == PXI_WRITE || mode == PXI_IOSET || mode == PXI_IOCLR
  {
    ModeCodes();
    SizeCodes();
    FitsBits(reg);
    CmdFields(mode, size, reg);
  }

  /** Without the limit on `reg` the mode is misread: bit 28 of the offset turns a `WRITE` into a `READ`. */
  lemma WideRegisterMisread()
    ensures ModeOf(Cmd(PXI_WRITE, PXI_WORD, 0x1000_0000)) == PXI_READ
    ensures NeedsRx(Cmd(PXI_WRITE, PXI_WORD, 0x1000_0000)) && !NeedsTx(Cmd(PXI_WRITE, PXI_WORD, 0x1000_0000))
  {}
}
