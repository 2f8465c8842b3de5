/**
 * The register map and bit constants of the 3DS SD host controller.
 *
 * The header that fixes their numeric values is not part of this model, so every
 * constant is a parameter collected in a `Layout`. `Layout.Valid()` states only what
 * the driver relies on: each single-bit constant has exactly one bit set, the status
 * bits are pairwise disjoint, the command-word flags sit above the six opcode bits,
 * the response-kind codes stay out of the opcode and flag fields, and the clock pins
 * sit above the eight-bit divider code.
 */
module SdhcLayout {

  /** The controller registers the driver touches; `CmdResponse(i)` is `SDHC_CMD_RESPONSE + 4*i`. */
  datatype Reg =
    | Cmd | CardPortSel | CmdParam | StopInternal | CmdResponse(index: nat)
    | IrqStat | IrqMask | CardClkCtl | Data16BlkLen | Data16BlkCnt | CardOption
    | ErrorStatus | DataCtl | SoftReset | Data32Ctl | Data32BlkLen | Data32BlkCnt
    | CardIrqStat | CardIrqMask

  predicate SingleBit(x: bv32) { x != 0 && x & (x - 1) == 0 }
  predicate SingleBit16(x: bv16) { x != 0 && x & (x - 1) == 0 }

  /** `SDHC_STAT_*` and `SDHC_ERR_*`: single bits of the 32-bit `IRQ_STAT` register. */
  datatype IrqBits = IrqBits(
    cmdRespEnd: bv32, dataEnd: bv32, cardRemove: bv32, cardInsert: bv32,
    cardPresent: bv32, writeProt: bv32,
    badCmd: bv32, crcFail: bv32, stopBit: bv32, dataTimeout: bv32,
    txOverflow: bv32, rxUnderrun: bv32, cmdTimeout: bv32, illegalAcc: bv32)
  {
    /** Each bit is disjoint from every bit listed after it. */
    predicate Valid() {
      && SingleBit(cmdRespEnd) && SingleBit(dataEnd) && SingleBit(cardRemove) && SingleBit(cardInsert)
      && SingleBit(cardPresent) && SingleBit(writeProt)
      && SingleBit(badCmd) && SingleBit(crcFail) && SingleBit(stopBit) && SingleBit(dataTimeout)
      && SingleBit(txOverflow) && SingleBit(rxUnderrun) && SingleBit(cmdTimeout) && SingleBit(illegalAcc)
      && cmdRespEnd & (dataEnd | cardRemove | cardInsert | cardPresent | writeProt | Errors()) == 0
      && dataEnd & (cardRemove | cardInsert | cardPresent | writeProt | Errors()) == 0
      && cardRemove & (cardInsert | cardPresent | writeProt | Errors()) == 0
      && cardInsert & (cardPresent | writeProt | Errors()) == 0
      && cardPresent & (writeProt | Errors()) == 0
      && writeProt & Errors() == 0
      && badCmd & (crcFail | stopBit | dataTimeout | txOverflow | rxUnderrun | cmdTimeout | illegalAcc) == 0
      && crcFail & (stopBit | dataTimeout | txOverflow | rxUnderrun | cmdTimeout | illegalAcc) == 0
      && stopBit & (dataTimeout | txOverflow | rxUnderrun | cmdTimeout | illegalAcc) == 0
      && dataTimeout & (txOverflow | rxUnderrun | cmdTimeout | illegalAcc) == 0
      && txOverflow & (rxUnderrun | cmdTimeout | illegalAcc) == 0
      && rxUnderrun & (cmdTimeout | illegalAcc) == 0
      && cmdTimeout & illegalAcc == 0
    }

    /** The eight error bits, in the order `SDHC_ERR_MASK` lists them. */
    function Errors(): bv32 {
      badCmd | crcFail | stopBit | dataTimeout | txOverflow | rxUnderrun | cmdTimeout | illegalAcc
    }
  }

  /**
   * The command word: the opcode in bits 0-5, a response-kind code (`SDHC_CMDRSP_*`)
   * and single-bit flags (`SDHC_CMD_SECURE`, `SDHC_CMDTYPE_APP`, `SDHC_CMD_DATA_*`).
   */
  datatype CmdBits = CmdBits(
    rspNone: bv16, rspR1: bv16, rspR1b: bv16, rspR2: bv16, rspR3: bv16,
    secure: bv16, app: bv16, dataXfer: bv16, dataMulti: bv16, dataRead: bv16)
  {
    function FlagMask(): bv16 { secure | app | dataXfer | dataMulti | dataRead }

    /** The opcode field and the five flag bits. */
    function FieldMask(): bv16 { 0x3F | FlagMask() }

    predicate FlagsValid() {
      && SingleBit16(secure) && SingleBit16(app) && SingleBit16(dataXfer)
      && SingleBit16(dataMulti) && SingleBit16(dataRead)
      && FlagMask() & 0x3F == 0
      && secure & (app | dataXfer | dataMulti | dataRead) == 0
      && app & (dataXfer | dataMulti | dataRead) == 0
      && dataXfer & (dataMulti | dataRead) == 0
      && dataMulti & dataRead == 0
    }

    predicate Valid() {
      && FlagsValid()
      && rspNone & FieldMask() == 0 && rspR1 & FieldMask() == 0 && rspR1b & FieldMask() == 0
      && rspR2 & FieldMask() == 0 && rspR3 & FieldMask() == 0
    }
  }

  /**
   * Clock-control pins (`SDHC_CARD_CLKCTL_PIN_*`, above the 8-bit divider code), card
   * option codes (`SDHC_CARD_OPTION_*`) and the stop-internal and FIFO control values.
   */
  datatype CtlBits = CtlBits(
    pinEnable: bv16, pinFreeze: bv16,
    opt1Bit: bv16, opt4Bit: bv16, optRetries14: bv16, optTimeout14: bv16, optNoC2: bv16,
    stopIssue: bv16, stopEnable: bv16,
    dataCtlWordFifoEn: bv16, data32WordFifoEn: bv16, data32WordFifoClr: bv16,
    rxRdyPending: bv16, nTxRqPending: bv16)
  {
    predicate Valid() {
      && SingleBit16(pinEnable) && SingleBit16(pinFreeze)
      && pinEnable & 0xFF == 0 && pinFreeze & 0xFF == 0 && pinEnable & pinFreeze == 0
    }
  }

  datatype Layout = Layout(irq: IrqBits, cmd: CmdBits, ctl: CtlBits) {
    predicate Valid() { irq.Valid() && cmd.Valid() && ctl.Valid() }
  }

  /** `SDHC_ERR_MASK`: every error bit of `IRQ_STAT`. */
  function ErrMask(I: IrqBits): bv32 {
    I.Errors()
  }

  /** `SDHC_IRQMASK`: the interrupts the driver handles. */
  function HandledMask(I: IrqBits): bv32 {
    I.cmdRespEnd | I.dataEnd | I.cardRemove | I.cardInsert | ErrMask(I)
  }

  /** `SDHC_DEFAULT_CARDOPT`: 14 retries, timeout code 14, and `NOC2`. */
  function DefaultCardOpt(C: CtlBits): bv16 {
    C.optRetries14 | C.optTimeout14 | C.optNoC2
  }

  /** A status word has a bit of `m` set. */
  predicate Has(stat: bv32, m: bv32) { stat & m != 0 }

  /**
   * `irqstat & (SDHC_STAT_CARDREMOVE | SDHC_STAT_CARDINSERT)` is nonzero: a card was
   * removed or inserted (`HasUnion` states the two readings agree).
   */
  predicate HotplugPending(I: IrqBits, stat: bv32) {
    Has(stat, I.cardRemove) || Has(stat, I.cardInsert)
  }

  /** A status word meets a union of masks exactly when it meets one of them. */
  lemma HasUnion(stat: bv32, a: bv32, b: bv32)
    ensures Has(stat, a | b) <==> Has(stat, a) || Has(stat, b)
  {
    assert stat & (a | b) == (stat & a) | (stat & b);
  }

  /** The complement of `x` is zero at a single bit exactly where `x` is one. */
  lemma ComplementZeroAt(x: bv32, m: bv32)
    requires SingleBit(m)
    ensures (!x) & m == 0 <==> x & m != 0
  {}
}
