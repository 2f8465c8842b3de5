/**
 * The computations of the SD host driver that do not touch driver state: the clock
 * divider code and card option of `__ctr_sdhc_set_ios`, the command word of
 * `ctr_sdhc_start_mrq`, the error classification of `ctr_sdhc_irq_thread`, and the
 * 136-bit response repack of `ctr_sdhc_respend_irq`.
 */
module SdhcLogic {
  import opened Common
  import opened Mmc
  import opened SdhcLayout
  import opened SdhcMmio

  /** Above this card clock the clock pin is frozen while the bus is idle. */
  const SDHC_CLKFREEZE_THRESHOLD: nat := 5000000

  function Pow2(k: nat): (r: nat)
    ensures r >= 1
  {
    if k == 0 then 1 else 2 * Pow2(k - 1)
  }

  ghost predicate IsPow2(p: nat) { exists k: nat :: p == Pow2(k) }

  /** `fls_long(n - 1)`: the exponent of the least power of two that is at least `n`. */
  function CeilLog2(n: nat): (k: nat)
    ensures n <= Pow2(k)
    ensures k > 0 ==> Pow2(k - 1) < n
    decreases n
  {
    if n <= 1 then 0 else CeilLog2((n + 1) / 2) + 1
  }

  /** `roundup_pow_of_two`: the least power of two that is at least `n`. */
  function RoundupPowOfTwo(n: nat): (p: nat)
    requires n >= 1
    ensures IsPow2(p) && n <= p < 2 * n
  {
    var k := CeilLog2(n);
    assert Pow2(k) == Pow2(CeilLog2(n));
    Pow2(k)
  }

  /** A power of two of at least 4 is four times a power of two. */
  lemma QuarterOfPow2(p: nat)
    requires IsPow2(p)
    ensures p >= 4 ==> 4 * (p / 4) == p && IsPow2(p / 4)
  {
    var k: nat :| p == Pow2(k);
    if k >= 2 {
      assert Pow2(k) == 4 * Pow2(k - 2);
    }
  }

  /**
   * The divider code for a ratio `div` of source clock to card clock: 0 for ratios up
   * to 1, otherwise a quarter of the least power of two not below `div` (so 0 for 2).
   */
  function DividerCode(div: nat): (c: nat)
    ensures div <= 2 ==> c == 0
    ensures div > 2 ==> div <= 4 * c < 2 * div && IsPow2(4 * c)
  {
    if div <= 1 then 0
    else
      var p := RoundupPowOfTwo(div);
      QuarterOfPow2(p);
      p / 4
  }

  /** A divider code for a ratio the controller supports fits the eight-bit divider field. */
  lemma DividerCodeFits(div: nat)
    requires div <= 512
    ensures DividerCode(div) < 256
  {}

  /** The divider code as the driver stores it in a `u16`. */
  function ClockCode(div: nat): bv16 {
    (DividerCode(div) % U16_MODULUS) as bv16
  }

  /** For a supported ratio the stored code is the divider code itself, inside the low byte. */
  lemma ClockCodeFits(div: nat)
    requires div <= 512
    ensures ClockCode(div) == DividerCode(div) as bv16
    ensures ClockCode(div) & !0xFF == 0
  {
    DividerCodeFits(div);
    CodeFitsByte(DividerCode(div));
  }

  /** For a supported ratio the stored code has no bit above the low byte. */
  lemma ClockCodeInByte(div: nat)
    requires div <= 512
    ensures ClockCode(div) & !0xFF == 0
  {
    ClockCodeFits(div);
  }

  lemma CodeFitsByte(c: nat)
    requires c < 256
    ensures (c as bv16) & !0xFF == 0
  {}

  /** A running clock: the code, the enable pin, and the freeze pin when `freeze`. */
  function ClockWord(C: CtlBits, code: bv16, freeze: bool): bv16 {
    code | C.pinEnable | Pick(freeze, C.pinFreeze)
  }

  /**
   * The `CARD_CLKCTL` value `__ctr_sdhc_set_ios` computes for a source clock `rate` and
   * a requested card clock `clock`: 0 stops the clock; otherwise the divider code for
   * `rate / clock` with the enable pin, and the freeze pin from the threshold up.
   */
  function ClockControl(C: CtlBits, rate: nat, clock: nat): bv16 {
    if clock == 0 then 0 else ClockWord(C, ClockCode(rate / clock), clock >= SDHC_CLKFREEZE_THRESHOLD)
  }

  /** The enable pin is always set in a running clock, and the freeze pin whenever asked. */
  lemma ClockWordPins(C: CtlBits, code: bv16, freeze: bool)
    ensures ClockWord(C, code, freeze) & C.pinEnable == C.pinEnable
    ensures freeze ==> ClockWord(C, code, freeze) & C.pinFreeze == C.pinFreeze
  {
    if freeze {} else {}
  }

  /**
   * With a code inside the low byte, the word splits into disjoint fields: the low byte
   * is the code, the freeze pin is set exactly when asked, and no other bit is set.
   */
  lemma ClockWordFields(C: CtlBits, code: bv16, freeze: bool)
    requires C.Valid() && code & !0xFF == 0
    ensures ClockWord(C, code, freeze) & 0xFF == code
    ensures ClockWord(C, code, freeze) & C.pinFreeze != 0 <==> freeze
    ensures ClockWord(C, code, freeze) & !(0xFF | C.pinEnable | C.pinFreeze) == 0
  {
    if freeze {} else {}
  }

  /** The four field facts of `ClockWord`, together. */
  predicate ClockFields(C: CtlBits, word: bv16, code: bv16, freeze: bool) {
    && word & 0xFF == code
    && word & C.pinEnable == C.pinEnable
    && (word & C.pinFreeze != 0 <==> freeze)
    && word & !(0xFF | C.pinEnable | C.pinFreeze) == 0
  }

  lemma ClockWordAll(C: CtlBits, code: bv16, freeze: bool)
    requires C.Valid() && code & !0xFF == 0
    ensures ClockFields(C, ClockWord(C, code, freeze), code, freeze)
  {
    ClockWordFields(C, code, freeze);
    ClockWordPins(C, code, freeze);
  }

  /**
   * The clock control for a running clock with a supported ratio: the low byte is the
   * divider code, the enable pin is set, the freeze pin is set exactly from the
   * threshold up, and no other bit is set.
   */
  lemma ClockControlFields(C: CtlBits, rate: nat, clock: nat)
    requires C.Valid() && clock > 0 && rate / clock <= 512
    ensures var word := ClockControl(C, rate, clock);
      && word & 0xFF == ClockCode(rate / clock)
      && word & C.pinEnable == C.pinEnable
      && (word & C.pinFreeze != 0 <==> clock >= SDHC_CLKFREEZE_THRESHOLD)
      && word & !(0xFF | C.pinEnable | C.pinFreeze) == 0
  {
    var code := ClockCode(rate / clock);
    var freeze := clock >= SDHC_CLKFREEZE_THRESHOLD;
    ClockCodeInByte(rate / clock);
    ClockWordAll(C, code, freeze);
    assert ClockControl(C, rate, clock) == ClockWord(C, code, freeze);
  }

  /** A ratio of 8 between source and card clock gives divider code 2. */
  lemma DividerExample()
    ensures DividerCode(8) == 2
  {
    assert CeilLog2(8) == 3 by {
      assert CeilLog2(1) == 0;
      assert CeilLog2(2) == 1;
      assert CeilLog2(4) == 2;
    }
    assert Pow2(3) == 8 by {
      assert Pow2(1) == 2;
      assert Pow2(2) == 4;
    }
  }

  /** A 16 MHz source and a 2 MHz card clock: ratio 8, divider code 2 with the enable pin, no freeze. */
  lemma ClockExample(C: CtlBits)
    ensures ClockControl(C, 16000000, 2000000) == 2 | C.pinEnable
  {
    assert 16000000 / 2000000 == 8;
    DividerExample();
    assert ClockCode(8) == 2;
    assert ClockWord(C, 2, false) == 2 | C.pinEnable;
  }

  /** The `CARD_OPTION` value for a bus width: the defaults plus the width bit, or None for an unsupported width. */
  function CardOptionValue(C: CtlBits, busWidth: nat): (r: Option<bv16>)
    ensures r.None? <==> busWidth != MMC_BUS_WIDTH_1 && busWidth != MMC_BUS_WIDTH_4
    ensures busWidth == MMC_BUS_WIDTH_1 ==> r == Some(DefaultCardOpt(C) | C.opt1Bit)
    ensures busWidth == MMC_BUS_WIDTH_4 ==> r == Some(DefaultCardOpt(C) | C.opt4Bit)
  {
    if busWidth == MMC_BUS_WIDTH_1 then Some(DefaultCardOpt(C) | C.opt1Bit)
    else if busWidth == MMC_BUS_WIDTH_4 then Some(DefaultCardOpt(C) | C.opt4Bit)
    else None
  }

  /** The register writes of `__ctr_sdhc_set_ios`. */
  function SetIosWrites(L: Layout, rate: nat, ios: Ios): seq<Write> {
    var clk := ClockControl(L.ctl, rate, ios.clock);
    match CardOptionValue(L.ctl, ios.busWidth)
    case None => []
    case Some(opt) => SetClkOptWrites(if ios.powerMode == MMC_POWER_OFF then 0 else clk, opt)
  }

  /**
   * `__ctr_sdhc_set_ios` writes nothing for an unsupported bus width; otherwise it
   * writes the clock control and then the card option, the clock control being 0
   * whenever the power is off, whatever clock was asked for.
   */
  lemma SetIosEffect(L: Layout, rate: nat, ios: Ios)
    ensures var ws := SetIosWrites(L, rate, ios);
      && (ws == [] <==> CardOptionValue(L.ctl, ios.busWidth).None?)
      && (ws != [] ==>
            && |ws| == 2 && ws[0].W16? && ws[0].reg == CardClkCtl
            && ws[1] == W16(CardOption, CardOptionValue(L.ctl, ios.busWidth).value)
            && (ios.powerMode == MMC_POWER_OFF ==> ws[0].v16 == 0)
            && (ios.powerMode != MMC_POWER_OFF ==> ws[0].v16 == ClockControl(L.ctl, rate, ios.clock)))
  {}

  /** The `SDHC_CMDRSP_*` code for the response kind of the command flags; an unknown kind adds none. */
  function RspCode(C: CmdBits, flags: bv32): bv16 {
    var t := RespType(flags);
    if t == MMC_RSP_NONE then C.rspNone
    else if t == MMC_RSP_R1 then C.rspR1
    else if t == MMC_RSP_R1B then C.rspR1b
    else if t == MMC_RSP_R2 then C.rspR2
    else if t == MMC_RSP_R3 then C.rspR3
    else 0
  }

  /** Every response code lies outside the opcode and flag field. */
  lemma RspCodeOutsideField(C: CmdBits, flags: bv32)
    requires C.Valid()
    ensures RspCode(C, flags) & C.FieldMask() == 0
  {}

  function Pick(b: bool, f: bv16): bv16 { if b then f else 0 }

  /**
   * A command word from its opcode bits, its response code and the condition of each of
   * the driver's conditional `|=`: `SECURE`, `APP`, `DATA_XFER`, `DATA_MULTI`, `DATA_READ`.
   */
  function NormalWord(C: CmdBits, op: bv16, rsp: bv16, bs: bool, ba: bool, bx: bool, bm: bool, br: bool): bv16 {
    op | rsp | Pick(bs, C.secure) | Pick(ba, C.app) | Pick(bx, C.dataXfer) | Pick(bm, C.dataMulti) | Pick(br, C.dataRead)
  }

  /**
   * The 16-bit command word `ctr_sdhc_start_mrq` composes for a command and its
   * optional data; the multi-block and read flags are only set when data is present.
   */
  function CommandWord(C: CmdBits, cmd: Command, data: Option<Data>): bv16 {
    NormalWord(C, cmd.opcode as bv16, RspCode(C, cmd.flags),
               cmd.opcode == SD_IO_RW_DIRECT || cmd.opcode == SD_IO_RW_EXTENDED,
               cmd.opcode == MMC_APP_CMD, data.Some?,
               data.Some? && data.value.blocks > 1, data.Some? && data.value.read)
  }

  /** The opcode bits lie in the opcode field and the response code outside the whole field. */
  predicate WordParts(C: CmdBits, op: bv16, rsp: bv16) {
    C.FlagsValid() && op & !0x3F == 0 && rsp & C.FieldMask() == 0
  }

  /** The parts of every command word are well placed. */
  lemma CommandWordParts(C: CmdBits, cmd: Command)
    requires C.Valid()
    ensures WordParts(C, cmd.opcode as bv16, RspCode(C, cmd.flags))
  {
    OpcodeField(cmd.opcode);
    RspCodeOutsideField(C, cmd.flags);
  }

  /** Each flag of a normal-form word is set exactly when it was picked. */
  lemma NormalSecureFlag(C: CmdBits, op: bv16, rsp: bv16, bs: bool, ba: bool, bx: bool, bm: bool, br: bool)
    requires WordParts(C, op, rsp)
    ensures NormalWord(C, op, rsp, bs, ba, bx, bm, br) & C.secure != 0 <==> bs
  {}

  lemma NormalAppFlag(C: CmdBits, op: bv16, rsp: bv16, bs: bool, ba: bool, bx: bool, bm: bool, br: bool)
    requires WordParts(C, op, rsp)
    ensures NormalWord(C, op, rsp, bs, ba, bx, bm, br) & C.app != 0 <==> ba
  {}

  lemma NormalDataXferFlag(C: CmdBits, op: bv16, rsp: bv16, bs: bool, ba: bool, bx: bool, bm: bool, br: bool)
    requires WordParts(C, op, rsp)
    ensures NormalWord(C, op, rsp, bs, ba, bx, bm, br) & C.dataXfer != 0 <==> bx
  {}

  lemma NormalDataMultiFlag(C: CmdBits, op: bv16, rsp: bv16, bs: bool, ba: bool, bx: bool, bm: bool, br: bool)
    requires WordParts(C, op, rsp)
    ensures NormalWord(C, op, rsp, bs, ba, bx, bm, br) & C.dataMulti != 0 <==> bm
  {}

  lemma NormalDataReadFlag(C: CmdBits, op: bv16, rsp: bv16, bs: bool, ba: bool, bx: bool, bm: bool, br: bool)
    requires WordParts(C, op, rsp)
    ensures NormalWord(C, op, rsp, bs, ba, bx, bm, br) & C.dataRead != 0 <==> br
  {}

  /** The low six bits of a normal-form word are the opcode. */
  lemma NormalOpcode(C: CmdBits, op: bv16, rsp: bv16, bs: bool, ba: bool, bx: bool, bm: bool, br: bool)
    requires WordParts(C, op, rsp)
    ensures NormalWord(C, op, rsp, bs, ba, bx, bm, br) & 0x3F == op
  {}

  /** The bits of a normal-form word outside the opcode and flag field are the response code. */
  lemma NormalRsp(C: CmdBits, op: bv16, rsp: bv16, bs: bool, ba: bool, bx: bool, bm: bool, br: bool)
    requires op & !0x3F == 0 && rsp & C.FieldMask() == 0
    ensures NormalWord(C, op, rsp, bs, ba, bx, bm, br) & !C.FieldMask() == rsp
  {
    var F := C.FieldMask();
    FlagsInField(C.secure, C.app, C.dataXfer, C.dataMulti, C.dataRead);
    PickInside(bs, C.secure, F);
    PickInside(ba, C.app, F);
    PickInside(bx, C.dataXfer, F);
    PickInside(bm, C.dataMulti, F);
    PickInside(br, C.dataRead, F);
    FieldRest(op, rsp, Pick(bs, C.secure), Pick(ba, C.app), Pick(bx, C.dataXfer), Pick(bm, C.dataMulti), Pick(br, C.dataRead), F);
  }

  /**
   * Outside a field `f` that holds the opcode bits and the parts `p1 .. p5`, the word
   * `op | rsp | p1 | .. | p5` is `rsp`, when `rsp` lies outside `f`.
   */
  lemma FieldRest(op: bv16, rsp: bv16, p1: bv16, p2: bv16, p3: bv16, p4: bv16, p5: bv16, f: bv16)
    requires op & !0x3F == 0 && 0x3F & !f == 0 && rsp & f == 0
    requires p1 & !f == 0 && p2 & !f == 0 && p3 & !f == 0 && p4 & !f == 0 && p5 & !f == 0
    ensures (op | rsp | p1 | p2 | p3 | p4 | p5) & !f == rsp
  {}

  /** A picked flag lies inside every mask that holds the flag. */
  lemma PickInside(b: bool, flag: bv16, m: bv16)
    requires flag & !m == 0
    ensures Pick(b, flag) & !m == 0
  {}

  /** The opcode bits and each of five flags lie inside the field they make up. */
  lemma FlagsInField(s: bv16, a: bv16, x: bv16, m: bv16, r: bv16)
    ensures s & !(0x3F | (s | a | x | m | r)) == 0 && a & !(0x3F | (s | a | x | m | r)) == 0
    ensures x & !(0x3F | (s | a | x | m | r)) == 0 && m & !(0x3F | (s | a | x | m | r)) == 0
    ensures r & !(0x3F | (s | a | x | m | r)) == 0 && 0x3F & !(0x3F | (s | a | x | m | r)) == 0
  {}

  /** An opcode below 64 lies in the opcode field. */
  lemma OpcodeField(opcode: Opcode)
    ensures (opcode as bv16) & !0x3F == 0
  {}

  /**
   * Every field of a normal-form word gives back the part it was built from: the
   * opcode in the low six bits, the response-kind code outside the field, and each flag
   * exactly when it was picked. `CommandWord` builds such a word from parts that
   * `CommandWordParts` shows well placed, picking `SECURE` for `SD_IO_RW_DIRECT` and
   * `SD_IO_RW_EXTENDED`, `APP` for `MMC_APP_CMD`, `DATA_XFER` when data is present,
   * `DATA_MULTI` when more than one block moves and `DATA_READ` when the data is read.
   */
  lemma NormalFields(C: CmdBits, op: bv16, rsp: bv16, bs: bool, ba: bool, bx: bool, bm: bool, br: bool)
    requires WordParts(C, op, rsp)
    ensures var word := NormalWord(C, op, rsp, bs, ba, bx, bm, br);
      && word & 0x3F == op
      && word & !C.FieldMask() == rsp
      && (word & C.secure != 0 <==> bs)
      && (word & C.app != 0 <==> ba)
      && (word & C.dataXfer != 0 <==> bx)
      && (word & C.dataMulti != 0 <==> bm)
      && (word & C.dataRead != 0 <==> br)
  {
    NormalOpcode(C, op, rsp, bs, ba, bx, bm, br);
    NormalRsp(C, op, rsp, bs, ba, bx, bm, br);
    NormalSecureFlag(C, op, rsp, bs, ba, bx, bm, br);
    NormalAppFlag(C, op, rsp, bs, ba, bx, bm, br);
    NormalDataXferFlag(C, op, rsp, bs, ba, bx, bm, br);
    NormalDataMultiFlag(C, op, rsp, bs, ba, bx, bm, br);
    NormalDataReadFlag(C, op, rsp, bs, ba, bx, bm, br);
  }

  /**
   * The driver's error code for an `IRQ_STAT` snapshot: a command timeout wins, then a
   * CRC failure, then any other error bit.
   */
  function Classify(I: IrqBits, stat: bv32): int {
    if Has(stat, I.cmdTimeout) then -ETIMEDOUT
    else if Has(stat, I.crcFail) then -EILSEQ
    else if Has(stat, ErrMask(I)) then -EIO
    else 0
  }

  /** A snapshot holding a bit of a mask holds the mask. */
  lemma InUnion(stat: bv32, m: bv32, u: bv32)
    requires m & !u == 0 && stat & m != 0
    ensures stat & u != 0
  {}

  /** A command timeout is one of the error bits. */
  lemma TimeoutIsError(I: IrqBits, stat: bv32)
    requires Has(stat, I.cmdTimeout)
    ensures Has(stat, ErrMask(I))
  {
    TimeoutInErrors(I);
    InUnion(stat, I.cmdTimeout, ErrMask(I));
  }

  /** A CRC failure is one of the error bits. */
  lemma CrcIsError(I: IrqBits, stat: bv32)
    requires Has(stat, I.crcFail)
    ensures Has(stat, ErrMask(I))
  {
    CrcInErrors(I);
    InUnion(stat, I.crcFail, ErrMask(I));
  }

  lemma TimeoutInErrors(I: IrqBits)
    ensures I.cmdTimeout & !ErrMask(I) == 0
  {}

  lemma CrcInErrors(I: IrqBits)
    ensures I.crcFail & !ErrMask(I) == 0
  {}

  /**
   * The classification: the code is one of 0, `-ETIMEDOUT`, `-EILSEQ` and `-EIO`;
   * `-ETIMEDOUT` exactly on a command timeout, `-EILSEQ` exactly on a CRC failure
   * without one.
   */
  lemma ClassifyCodes(I: IrqBits, stat: bv32)
    ensures var e := Classify(I, stat);
      && (e == 0 || e == -ETIMEDOUT || e == -EILSEQ || e == -EIO)
      && (e == -ETIMEDOUT <==> Has(stat, I.cmdTimeout))
      && (e == -EILSEQ <==> !Has(stat, I.cmdTimeout) && Has(stat, I.crcFail))
  {}

  /** The code is 0 exactly when no error bit of `SDHC_ERR_MASK` is set. */
  lemma ClassifyNoError(I: IrqBits, stat: bv32)
    ensures Classify(I, stat) == 0 <==> !Has(stat, ErrMask(I))
  {
    if Has(stat, I.cmdTimeout) {
      TimeoutIsError(I, stat);
    } else if Has(stat, I.crcFail) {
      CrcIsError(I, stat);
    }
  }

  /** The 128 bits of a response, first word most significant. */
  function Join(a: bv32, b: bv32, c: bv32, d: bv32): bv128 {
    ((a as bv128) << 96) | ((b as bv128) << 64) | ((c as bv128) << 32) | (d as bv128)
  }

  /**
   * The 136-bit response repack: the controller presents the response without its CRC
   * byte, least significant word first; the MMC core expects the four words most
   * significant first with the CRC byte position zero.
   */
  function Repack136(hw: seq<bv32>): (r: Response)
    requires |hw| == 4
    ensures r[3] & 0xFF == 0
  {
    [ (hw[3] << 8) | (hw[2] >> 24),
      (hw[2] << 8) | (hw[1] >> 24),
      (hw[1] << 8) | (hw[0] >> 24),
      hw[0] << 8 ]
  }

  /** Read as one 128-bit value, the repacked response is the presented one shifted left by a byte. */
  lemma Repack136Shift(hw: seq<bv32>)
    requires |hw| == 4
    ensures var r := Repack136(hw); Join(r[0], r[1], r[2], r[3]) == Join(hw[3], hw[2], hw[1], hw[0]) << 8
  {}
}
