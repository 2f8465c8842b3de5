/**
 * The controller's register layer: a register file plus the ordered log of every
 * write, the fixed write sequences of the driver's register helpers, and a
 * `RegisterBlock` object that issues them.
 *
 * The driver accesses each register at one width only, so the file keeps 16-bit and
 * 32-bit registers apart. The file holds the last value the driver wrote to each
 * register, or whatever the controller presented for one it has not written. The
 * controller's own changes, such as new bits in the interrupt status registers, are
 * not made here: they come in as `SdhcLifecycle.Op.Hardware` steps.
 */
module SdhcMmio {
  import opened Common
  import opened SdhcLayout

  /** One `iowrite16` or `iowrite32` to a controller register. */
  datatype Write = W16(reg: Reg, v16: bv16) | W32(reg: Reg, v32: bv32)

  /** The values of the 16-bit and of the 32-bit registers. */
  datatype RegFile = RegFile(r16: map<Reg, bv16>, r32: map<Reg, bv32>)

  function Apply(f: RegFile, w: Write): RegFile {
    match w
    case W16(r, v) => f.(r16 := f.r16[r := v])
    case W32(r, v) => f.(r32 := f.r32[r := v])
  }

  /** The file holds the value of the write `w`. */
  predicate Holds(f: RegFile, w: Write) {
    match w
    case W16(r, v) => r in f.r16 && f.r16[r] == v
    case W32(r, v) => r in f.r32 && f.r32[r] == v
  }

  /** The file agrees with `f` on register `r`, at both widths. */
  predicate SameAt(f: RegFile, g: RegFile, r: Reg) {
    && (r in f.r16 <==> r in g.r16) && (r in f.r16 ==> f.r16[r] == g.r16[r])
    && (r in f.r32 <==> r in g.r32) && (r in f.r32 ==> f.r32[r] == g.r32[r])
  }

  /** The register file after the writes `ws`, issued in order, on top of `f`. */
  function Commit(f: RegFile, ws: seq<Write>): (g: RegFile)
    ensures f.r16.Keys <= g.r16.Keys && f.r32.Keys <= g.r32.Keys
  {
    if ws == [] then f else Apply(Commit(f, ws[..|ws| - 1]), ws[|ws| - 1])
  }

  /** A register holds the value of the last write to it. */
  lemma {:induction false} CommitLast(f: RegFile, ws: seq<Write>, i: nat)
    requires i < |ws|
    requires forall j | i < j < |ws| :: ws[j].reg != ws[i].reg
    ensures Holds(Commit(f, ws), ws[i])
  {
    if i < |ws| - 1 {
      CommitLast(f, ws[..|ws| - 1], i);
    }
  }

  /** A register no write names keeps its value, and stays absent if it was absent. */
  lemma {:induction false} CommitUnwritten(f: RegFile, ws: seq<Write>, r: Reg)
    requires forall i | 0 <= i < |ws| :: ws[i].reg != r
    ensures SameAt(Commit(f, ws), f, r)
  {
    if ws != [] {
      CommitUnwritten(f, ws[..|ws| - 1], r);
    }
  }

  /** Writes issued in two batches leave the same file as the whole sequence. */
  lemma {:induction false} CommitAppend(f: RegFile, a: seq<Write>, b: seq<Write>)
    ensures Commit(f, a + b) == Commit(Commit(f, a), b)
  {
    if b == [] {
      assert a + b == a;
    } else {
      assert (a + b)[..|a + b| - 1] == a + b[..|b| - 1];
      CommitAppend(f, a, b[..|b| - 1]);
    }
  }

  /** `ctr_sdhc_reset`: soft reset, clear the transfer registers, select the 32-bit FIFO, mask and clear interrupts. */
  function ResetWrites(L: Layout): seq<Write> {
    [ W16(SoftReset, 0), W16(SoftReset, 1),
      W16(CardPortSel, 0), W16(CardClkCtl, 0), W32(ErrorStatus, 0), W16(StopInternal, 0),
      W16(Data16BlkCnt, 0), W16(Data16BlkLen, 0), W16(Data32BlkCnt, 0), W16(Data32BlkLen, 0),
      W16(DataCtl, L.ctl.dataCtlWordFifoEn),
      W16(Data32Ctl, L.ctl.data32WordFifoEn | L.ctl.data32WordFifoClr),
      W32(IrqMask, !HandledMask(L.irq)), W32(IrqStat, !HandledMask(L.irq)),
      W16(CardOption, DefaultCardOpt(L.ctl)) ]
  }

  /** `ctr_sdhc_set_clk_opt`. */
  function SetClkOptWrites(clk: bv16, opt: bv16): seq<Write> {
    [W16(CardClkCtl, clk), W16(CardOption, opt)]
  }

  /** `ctr_sdhc_send_cmdarg`. */
  function SendCmdArgWrites(cmd: bv16, arg: bv32): seq<Write> {
    [W32(CmdParam, arg), W16(Cmd, cmd)]
  }

  /** `ctr_sdhc_set_blk_len_cnt`. */
  function SetBlkLenCntWrites(len: bv16, cnt: bv16): seq<Write> {
    [W16(Data16BlkLen, len), W16(Data16BlkCnt, cnt), W16(Data32BlkLen, len), W16(Data32BlkCnt, cnt)]
  }

  /** `ctr_sdhc_stop_internal_set`. */
  function StopInternalWrites(v: bv16): seq<Write> {
    [W16(StopInternal, v)]
  }

  /** `ctr_sdhc_irqstat_ack`: status bits are cleared by writing zeros. */
  function IrqStatAckWrites(ack: bv32): seq<Write> {
    [W32(IrqStat, !ack)]
  }

  /** `ctr_sdhc_irqmask_set`. */
  function IrqMaskWrites(mask: bv32): seq<Write> {
    [W32(IrqMask, mask)]
  }

  /** `ctr_sdhc_sdioirq_set`: acknowledge card interrupts, then unmask only the SDIO one or none. */
  function SdioIrqSetWrites(enable: bool): seq<Write> {
    [W16(CardIrqStat, 0), W16(CardIrqMask, if enable then !(1 as bv16) else !(0 as bv16))]
  }

  /**
   * `ctr_sdhc_sdioirq_test` on a `CARD_IRQ_STAT` value: whether the SDIO interrupt is
   * pending, and the acknowledging writes.
   */
  function SdioIrqTest(state: bv16): (r: (bool, seq<Write>))
    ensures r.0 <==> state & 1 == 1
    ensures r.0 ==> |r.1| == 1 && r.1[0].W16? && r.1[0].reg == CardIrqStat
    ensures r.0 ==> r.1[0].v16 & 1 == 0 && r.1[0].v16 | 1 == state
    ensures !r.0 ==> r.1 == []
  {
    if state & 1 != 0 then (true, [W16(CardIrqStat, state & !1)]) else (false, [])
  }

  /** The registers the driver reads; the controller always answers them. */
  predicate Readable(f: RegFile) {
    && IrqStat in f.r32 && Data32Ctl in f.r16 && CardIrqStat in f.r16
    && (forall i: nat | i < 4 :: CmdResponse(i) in f.r32)
  }

  /** `ctr_sdhc_get_resp`: the first `n` entries of `out` replaced by response registers 0..n-1. */
  function GetResp(f: RegFile, out: seq<bv32>, n: nat): (r: seq<bv32>)
    requires n <= |out| && forall i: nat | i < n :: CmdResponse(i) in f.r32
    ensures |r| == |out|
    ensures forall i | 0 <= i < n :: r[i] == f.r32[CmdResponse(i)]
    ensures forall i | n <= i < |out| :: r[i] == out[i]
  {
    seq(|out|, i requires 0 <= i < |out| => if i < n then f.r32[CmdResponse(i)] else out[i])
  }

  /**
   * After reset: soft reset went 0 then 1, and clock control, stop-internal and both
   * block length/count pairs are 0.
   */
  lemma ResetClears(L: Layout, f: RegFile)
    ensures var ws := ResetWrites(L); var g := Commit(f, ws);
      && ws[0] == W16(SoftReset, 0) && ws[1] == W16(SoftReset, 1) && Holds(g, W16(SoftReset, 1))
      && Holds(g, W16(CardClkCtl, 0)) && Holds(g, W16(StopInternal, 0))
      && Holds(g, W16(Data16BlkLen, 0)) && Holds(g, W16(Data16BlkCnt, 0))
      && Holds(g, W16(Data32BlkLen, 0)) && Holds(g, W16(Data32BlkCnt, 0))
  {
    ResetLast(L, f, 1);
    ResetLast(L, f, 3);
    ResetLast(L, f, 5);
    ResetLast(L, f, 6);
    ResetLast(L, f, 7);
    ResetLast(L, f, 8);
    ResetLast(L, f, 9);
  }

  /**
   * After reset the interrupt mask is `~SDHC_IRQMASK`, so exactly the handled interrupts
   * are enabled, and the card option is the default.
   */
  lemma ResetMasks(L: Layout, f: RegFile)
    ensures var g := Commit(f, ResetWrites(L));
      && Holds(g, W32(IrqMask, !HandledMask(L.irq)))
      && Holds(g, W16(CardOption, DefaultCardOpt(L.ctl)))
  {
    ResetLast(L, f, 12);
    ResetLast(L, f, 14);
  }

  /** Every reset write but the first is the last one to its register. */
  lemma ResetLast(L: Layout, f: RegFile, i: nat)
    requires 1 <= i < |ResetWrites(L)|
    ensures Holds(Commit(f, ResetWrites(L)), ResetWrites(L)[i])
  {
    CommitLast(f, ResetWrites(L), i);
  }

  /** Reset leaves the command, argument, response and card-interrupt registers alone. */
  lemma ResetSilent(L: Layout, f: RegFile, r: Reg)
    requires r in {Cmd, CmdParam, CardIrqStat, CardIrqMask} || r.CmdResponse?
    ensures SameAt(Commit(f, ResetWrites(L)), f, r)
  {
    CommitUnwritten(f, ResetWrites(L), r);
  }

  /** `set_blk_len_cnt` leaves the same length and the same count in the 16-bit and 32-bit register pairs. */
  lemma BlkLenCntEffect(f: RegFile, len: bv16, cnt: bv16)
    ensures var g := Commit(f, SetBlkLenCntWrites(len, cnt));
      && Holds(g, W16(Data16BlkLen, len)) && Holds(g, W16(Data32BlkLen, len))
      && Holds(g, W16(Data16BlkCnt, cnt)) && Holds(g, W16(Data32BlkCnt, cnt))
  {
    var ws := SetBlkLenCntWrites(len, cnt);
    CommitLast(f, ws, 0);
    CommitLast(f, ws, 1);
    CommitLast(f, ws, 2);
    CommitLast(f, ws, 3);
  }

  /** The acknowledge write has a zero exactly at the bits of `ack`, so it clears those status bits and no others. */
  lemma AckClearsExactly(ack: bv32, m: bv32)
    requires SingleBit(m)
    ensures var w := IrqStatAckWrites(ack)[0]; w.reg == IrqStat && (w.v32 & m == 0 <==> ack & m != 0)
  {
    ComplementZeroAt(ack, m);
  }

  /** The controller's register window. */
  class RegisterBlock {
    const layout: Layout
    var file: RegFile
    var log: seq<Write>

    constructor (layout: Layout, file: RegFile)
      ensures this.layout == layout && this.file == file && log == []
    {
      this.layout := layout;
      this.file := file;
      log := [];
    }

    /** `ctr_sdhc_reg16_get`. */
    function Reg16Get(r: Reg): bv16
      reads this
      requires r in file.r16
    {
      file.r16[r]
    }

    /** `ctr_sdhc_reg32_get`. */
    function Reg32Get(r: Reg): bv32
      reads this
      requires r in file.r32
    {
      file.r32[r]
    }

    /** `ctr_sdhc_irqstat_get`. */
    function IrqStatGet(): bv32
      reads this
      requires IrqStat in file.r32
    {
      Reg32Get(IrqStat)
    }

    /** `ctr_sdhc_reg16_set`. */
    method Reg16Set(r: Reg, v: bv16)
      modifies this
      ensures file == Commit(old(file), [W16(r, v)]) && log == old(log) + [W16(r, v)]
    {
      file := Apply(file, W16(r, v));
      log := log + [W16(r, v)];
    }

    /** `ctr_sdhc_reg32_set`. */
    method Reg32Set(r: Reg, v: bv32)
      modifies this
      ensures file == Commit(old(file), [W32(r, v)]) && log == old(log) + [W32(r, v)]
    {
      file := Apply(file, W32(r, v));
      log := log + [W32(r, v)];
    }

    /** Issues the writes `ws` one at a time, in order. */
    method Program(ws: seq<Write>)
      modifies this
      ensures file == Commit(old(file), ws) && log == old(log) + ws
    {
      var i := 0;
      while i < |ws|
        invariant 0 <= i <= |ws|
        invariant file == Commit(old(file), ws[..i]) && log == old(log) + ws[..i]
      {
        match ws[i] {
          case W16(r, v) => Reg16Set(r, v);
          case W32(r, v) => Reg32Set(r, v);
        }
        assert ws[..i + 1][..i] == ws[..i];
        i := i + 1;
      }
      assert ws[..i] == ws;
    }

    /** `ctr_sdhc_reset`. */
    method Reset()
      modifies this
      ensures file == Commit(old(file), ResetWrites(layout)) && log == old(log) + ResetWrites(layout)
    {
      Program(ResetWrites(layout));
    }

    /** `ctr_sdhc_set_clk_opt`. */
    method SetClkOpt(clk: bv16, opt: bv16)
      modifies this
      ensures file == Commit(old(file), SetClkOptWrites(clk, opt)) && log == old(log) + SetClkOptWrites(clk, opt)
    {
      Program(SetClkOptWrites(clk, opt));
    }

    /** `ctr_sdhc_send_cmdarg`. */
    method SendCmdArg(cmd: bv16, arg: bv32)
      modifies this
      ensures file == Commit(old(file), SendCmdArgWrites(cmd, arg)) && log == old(log) + SendCmdArgWrites(cmd, arg)
    {
      Program(SendCmdArgWrites(cmd, arg));
    }

    /** `ctr_sdhc_set_blk_len_cnt`. */
    method SetBlkLenCnt(len: bv16, cnt: bv16)
      modifies this
      ensures file == Commit(old(file), SetBlkLenCntWrites(len, cnt)) && log == old(log) + SetBlkLenCntWrites(len, cnt)
    {
      Program(SetBlkLenCntWrites(len, cnt));
    }

    /** `ctr_sdhc_stop_internal_set`. */
    method StopInternalSet(v: bv16)
      modifies this
      ensures file == Commit(old(file), StopInternalWrites(v)) && log == old(log) + StopInternalWrites(v)
    {
      Program(StopInternalWrites(v));
    }

    /** `ctr_sdhc_irqstat_ack`. */
    method IrqStatAck(ack: bv32)
      modifies this
      ensures file == Commit(old(file), IrqStatAckWrites(ack)) && log == old(log) + IrqStatAckWrites(ack)
    {
      Program(IrqStatAckWrites(ack));
    }

    /** `ctr_sdhc_irqmask_set`. */
    method IrqMaskSet(mask: bv32)
      modifies this
      ensures file == Commit(old(file), IrqMaskWrites(mask)) && log == old(log) + IrqMaskWrites(mask)
    {
      Program(IrqMaskWrites(mask));
    }

    /** `ctr_sdhc_sdioirq_set`. */
    method SdioIrqSet(enable: bool)
      modifies this
      ensures file == Commit(old(file), SdioIrqSetWrites(enable)) && log == old(log) + SdioIrqSetWrites(enable)
    {
      Program(SdioIrqSetWrites(enable));
    }

    /** `ctr_sdhc_sdioirq_test`. */
    method SdioIrqTestAck() returns (pending: bool)
      requires CardIrqStat in file.r16
      modifies this
      ensures var r := SdioIrqTest(old(Reg16Get(CardIrqStat)));
        pending == r.0 && file == Commit(old(file), r.1) && log == old(log) + r.1
    {
      var state := Reg16Get(CardIrqStat);
      if state & 1 != 0 {
        Reg16Set(CardIrqStat, state & !1);
        return true;
      }
      assert log + [] == log;
      return false;
    }

    /** `ctr_sdhc_get_resp`: reads the first `n` response registers into `resp`. */
    method GetRespInto(resp: array<bv32>, n: nat)
      requires n <= resp.Length && forall i: nat | i < n :: CmdResponse(i) in file.r32
      modifies resp
      ensures resp[..] == GetResp(file, old(resp[..]), n)
    {
      var i := 0;
      while i < n
        invariant 0 <= i <= n
        invariant forall k | 0 <= k < i :: resp[k] == file.r32[CmdResponse(k)]
        invariant forall k | i <= k < resp.Length :: resp[k] == old(resp[k])
      {
        resp[i] := Reg32Get(CmdResponse(i));
        i := i + 1;
      }
    }
  }
}
