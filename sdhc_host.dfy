/**
 * The SD host driver's per-host state (`struct ctr_sdhc`) and its functions as they
 * run: each method updates the request slot, the scatter-list cursor, the register
 * block and the notifications step by step, and is proved to end in the state the
 * matching function of `SdhcSpec` gives.
 */
module SdhcHost {
  import opened Common
  import opened ScatterList
  import opened Mmc
  import opened SdhcLayout
  import opened SdhcMmio
  import opened SdhcLogic
  import opened SdhcSpec

  class Host {
    /** The controller's registers; their bit layout is `regs.layout`. */
    const regs: RegisterBlock
    /** `host->mrq`. */
    var mrq: Option<Request>
    /** `host->sg_miter`. */
    var miter: Cursor
    /** What has been handed to the MMC core, in order. */
    var events: seq<Event>
    /** The data FIFO transfers, in order. */
    var fifo: seq<FifoTransfer>

    function State(): HostState
      reads this, regs
    {
      HostState(regs.file, regs.log, mrq, miter, events, fifo)
    }

    ghost predicate Valid()
      reads this, regs
    {
      Wf(State())
    }

    constructor (regs: RegisterBlock)
      requires Readable(regs.file)
      ensures this.regs == regs && Valid()
      ensures mrq.None? && events == [] && fifo == [] && miter == Start([], false)
    {
      this.regs := regs;
      mrq := None;
      miter := Start([], false);
      events := [];
      fifo := [];
    }

    /** `ctr_sdhc_finish_request`. */
    method FinishRequest(err: int)
      modifies this
      ensures State() == SdhcSpec.FinishRequest(old(State()), err)
    {
      if mrq.None? {
        return;
      }
      var req := mrq.value;
      if err < 0 {
        req := req.(cmd := req.cmd.(error := err));
      }
      mrq := None;
      events := events + [RequestDone(req)];
    }

    /** `ctr_sdhc_dataend_irq`. */
    method DataEndIrq(stat: bv32) returns (outcome: IrqOutcome)
      requires Valid()
      modifies this, regs
      ensures (State(), outcome) == SdhcSpec.DataEndIrq(regs.layout, old(State()), stat)
    {
      if mrq.None? {
        return NullRequestRead;
      }
      var data := mrq.value.data;
      if !Has(stat, regs.layout.irq.dataEnd) {
        return Handled;
      }
      if data.None? {
        return Handled;
      }
      var d := data.value;
      var bytes: U32 := if d.error != 0 then 0 else (d.blocks * d.blksz) % U32_MODULUS;
      mrq := Some(mrq.value.(data := Some(d.(bytesXfered := bytes))));
      regs.StopInternalSet(0);
      FinishRequest(d.error);
      return Handled;
    }

    /** `ctr_sdhc_data_irq`. */
    method DataIrq(stat: bv32)
      requires Valid() && mrq.Some?
      modifies this
      ensures State() == SdhcSpec.DataIrq(regs.layout, old(State()), stat)
    {
      var data := mrq.value.data;
      if data.None? {
        return;
      }
      var d := data.value;
      var ctl := regs.Reg16Get(Data32Ctl);
      if !FifoReady(regs.layout.ctl, ctl, d.read) {
        return;
      }
      var next := Next(miter);
      if next.None? {
        return;
      }
      var m := next.value;
      var count := m.length;
      if count > d.blksz {
        count := d.blksz;
      }
      fifo := fifo + [FifoTransfer(d.read, m.index, m.pos, count / 4)];
      miter := Consume(miter, m, count);
    }

    /** The response capture of `ctr_sdhc_respend_irq`, through `ctr_sdhc_get_resp`. */
    method ReadResponse(cmd: Command) returns (resp: Response)
      requires Valid()
      ensures resp == CapturedResponse(regs.file, cmd)
    {
      resp := cmd.resp;
      if Has(cmd.flags, MMC_RSP_PRESENT) {
        if Has(cmd.flags, MMC_RSP_136) {
          resp := ReadLongResponse();
        } else {
          resp := ReadShortResponse(cmd.resp);
        }
      }
    }

    /** All four response registers, repacked for a 136-bit response. */
    method ReadLongResponse() returns (resp: Response)
      requires Valid()
      ensures resp == Repack136(GetResp(regs.file, [0, 0, 0, 0], 4))
    {
      var buf := new bv32[4](_ => 0);
      assert buf[..] == [0, 0, 0, 0];
      regs.GetRespInto(buf, 4);
      resp := Repack136(buf[..]);
    }

    /** Response register 0 over word 0 of `prev`, the other words kept. */
    method ReadShortResponse(prev: Response) returns (resp: Response)
      requires Valid()
      ensures resp == GetResp(regs.file, prev, 1)
    {
      var buf := new bv32[4];
      buf[0], buf[1], buf[2], buf[3] := prev[0], prev[1], prev[2], prev[3];
      assert buf[..] == prev;
      regs.GetRespInto(buf, 1);
      resp := buf[..];
    }

    /** `ctr_sdhc_respend_irq`. */
    method RespEndIrq(stat: bv32)
      requires Valid() && mrq.Some?
      modifies this
      ensures State() == SdhcSpec.RespEndIrq(regs.layout, old(State()), stat)
    {
      if !Has(stat, regs.layout.irq.cmdRespEnd) {
        return;
      }
      var req := mrq.value;
      var resp := ReadResponse(req.cmd);
      mrq := Some(req.(cmd := req.cmd.(resp := resp)));
      if req.data.Some? {
        return;
      }
      FinishRequest(0);
    }

    /** The body of `ctr_sdhc_card_hotplug_irq` once an insert or remove is pending. */
    method ResetAfterHotplug(absent: bool)
      modifies this, regs
      ensures var s1 := Emit(old(State()), ResetWrites(regs.layout));
        State() == Notify(if absent then SdhcSpec.FinishRequest(s1, -ENOMEDIUM) else s1, DetectChange)
    {
      regs.Reset();
      if absent {
        FinishRequest(-ENOMEDIUM);
      }
      events := events + [DetectChange];
    }

    /** `ctr_sdhc_card_hotplug_irq`. */
    method CardHotplugIrq(stat: bv32) returns (handled: bool)
      modifies this, regs
      ensures (State(), handled) == SdhcSpec.CardHotplugIrq(regs.layout, old(State()), stat)
    {
      if !HotplugPending(regs.layout.irq, stat) {
        return false;
      }
      ResetAfterHotplug(!Has(stat, regs.layout.irq.cardPresent));
      return true;
    }

    /** `ctr_sdhc_irq_thread`. */
    method IrqThread() returns (outcome: IrqOutcome)
      requires Valid()
      modifies this, regs
      ensures Valid()
      ensures (State(), outcome) == SdhcSpec.IrqThread(regs.layout, old(State()))
    {
      var stat := Acknowledge();
      outcome := Dispatch(stat);
    }

    /** The status read and acknowledgement that open `ctr_sdhc_irq_thread`. */
    method Acknowledge() returns (stat: bv32)
      requires Valid()
      modifies regs
      ensures Valid()
      ensures stat == Stat(old(State()))
      ensures State() == Emit(old(State()), IrqStatAckWrites(stat & HandledMask(regs.layout.irq)))
    {
      stat := regs.IrqStatGet();
      regs.IrqStatAck(stat & HandledMask(regs.layout.irq));
    }

    /** The hotplug test and the servicing of `ctr_sdhc_irq_thread`, after the acknowledgement. */
    method Dispatch(stat: bv32) returns (outcome: IrqOutcome)
      requires Valid()
      modifies this, regs
      ensures Valid()
      ensures (State(), outcome) == SdhcSpec.Dispatch(regs.layout, old(State()), stat)
    {
      var hot := CardHotplugIrq(stat);
      if hot {
        return Handled;
      }
      if mrq.None? {
        return Handled;
      }
      outcome := Service(stat);
    }

    /** The part of `ctr_sdhc_irq_thread` that runs with a request in flight. */
    method Service(stat: bv32) returns (outcome: IrqOutcome)
      requires Valid() && mrq.Some?
      modifies this, regs
      ensures (State(), outcome) == ServiceRequest(regs.layout, old(State()), stat)
    {
      var err := Classify(regs.layout.irq, stat);
      if err != 0 {
        mrq := Some(mrq.value.(cmd := mrq.value.cmd.(error := err)));
        if err != -ETIMEDOUT {
          return Handled;
        }
      }
      DataIrq(stat);
      RespEndIrq(stat);
      outcome := DataEndIrq(stat);
    }

    /** The card-present test of `__ctr_sdhc_get_cd`. */
    method GetCd() returns (present: bool)
      requires Valid()
      ensures present == SdhcSpec.GetCd(regs.layout, State())
    {
      var stat := regs.IrqStatGet();
      return Has(stat, regs.layout.irq.cardPresent);
    }

    /** The read-only test of `ctr_sdhc_get_ro`. */
    method GetRo() returns (readOnly: bool)
      requires Valid()
      ensures readOnly == SdhcSpec.GetRo(regs.layout, State())
    {
      var stat := regs.IrqStatGet();
      return !Has(stat, regs.layout.irq.writeProt);
    }

    /** `ctr_sdhc_start_data`. */
    method StartData(d: Data)
      modifies this, regs
      ensures State() == SdhcSpec.StartData(old(State()), d)
    {
      miter := Start(d.sg, d.read);
      regs.SetBlkLenCnt(Trunc16(d.blksz), Trunc16(d.blocks));
    }

    /** `ctr_sdhc_start_mrq` for the request in the slot. */
    method StartMrq()
      requires mrq.Some?
      modifies this, regs
      ensures State() == SdhcSpec.StartMrq(regs.layout, old(State()))
    {
      if mrq.value.cmd.opcode == MMC_STOP_TRANSMISSION {
        IssueStop();
      } else {
        IssueCommand();
      }
    }

    /** The `STOP_TRANSMISSION` branch of `ctr_sdhc_start_mrq`. */
    method IssueStop()
      requires mrq.Some? && mrq.value.cmd.opcode == MMC_STOP_TRANSMISSION
      modifies this, regs
      ensures State() == SdhcSpec.StartMrq(regs.layout, old(State()))
    {
      var req := mrq.value;
      var cmd := req.cmd;
      regs.StopInternalSet(regs.layout.ctl.stopIssue);
      mrq := Some(req.(cmd := cmd.(resp := [cmd.opcode as bv32, 0, 0, 0])));
      FinishRequest(0);
    }

    /** The branch of `ctr_sdhc_start_mrq` for every other command. */
    method IssueCommand()
      requires mrq.Some? && mrq.value.cmd.opcode != MMC_STOP_TRANSMISSION
      modifies this, regs
      ensures State() == SdhcSpec.StartMrq(regs.layout, old(State()))
    {
      var req := mrq.value;
      var cmd := req.cmd;
      var word := CommandWord(regs.layout.cmd, cmd, req.data);
      if req.data.Some? {
        var d := req.data.value;
        if d.blocks > 1 {
          regs.StopInternalSet(regs.layout.ctl.stopEnable);
        }
        StartData(d);
      }
      regs.SendCmdArg(word, cmd.arg);
    }

    /** `ctr_sdhc_request`. */
    method Request(req: Request)
      requires Valid()
      modifies this, regs
      ensures Valid()
      ensures State() == HandleRequest(regs.layout, old(State()), req)
    {
      var present := GetCd();
      if !present {
        events := events + [RequestDone(req.(cmd := req.cmd.(error := -ENOMEDIUM)))];
        return;
      }
      if mrq.Some? {
        events := events + [InFlightWarning(mrq.value)];
      }
      mrq := Some(req);
      StartMrq();
    }

    /** `ctr_sdhc_sdio_irq_thread`. */
    method SdioIrqThread() returns (handled: bool)
      requires Valid()
      modifies this, regs
      ensures Valid()
      ensures (State(), handled) == SdhcSpec.SdioIrqThread(old(State()))
    {
      var pending := regs.SdioIrqTestAck();
      if pending {
        events := events + [SdioSignal];
      }
      return pending;
    }

    /** The inner logic of `ctr_sdhc_enable_sdio_irq`. */
    method EnableSdioIrq(enable: bool)
      modifies regs
      ensures State() == SdhcSpec.EnableSdioIrq(old(State()), enable)
    {
      regs.SdioIrqSet(enable);
    }

    /** `__ctr_sdhc_set_ios` with the source clock rate `rate` (`clk_get_rate`). */
    method SetIos(rate: nat, ios: Ios)
      modifies regs
      ensures State() == SdhcSpec.SetIos(regs.layout, old(State()), rate, ios)
    {
      var clk: bv16 := 0;
      if ios.clock != 0 {
        var div := rate / ios.clock;
        clk := ClockWord(regs.layout.ctl, ClockCode(div), ios.clock >= SDHC_CLKFREEZE_THRESHOLD);
      }
      var opt: bv16;
      if ios.busWidth == MMC_BUS_WIDTH_1 {
        opt := DefaultCardOpt(regs.layout.ctl) | regs.layout.ctl.opt1Bit;
      } else if ios.busWidth == MMC_BUS_WIDTH_4 {
        opt := DefaultCardOpt(regs.layout.ctl) | regs.layout.ctl.opt4Bit;
      } else {
        assert SetIosWrites(regs.layout, rate, ios) == [];
        assert regs.log + [] == regs.log;
        return;
      }
      if ios.powerMode == MMC_POWER_OFF {
        clk := 0;
      }
      regs.SetClkOpt(clk, opt);
    }
  }
}
