/**
 * Properties of the SD host driver's request engine: what each entry point does to the
 * request slot, the register writes and the notifications, and the request lifecycle
 * invariant over any sequence of entry points.
 */
module SdhcProps {
  import opened Common
  import opened ScatterList
  import opened Mmc
  import opened SdhcLayout
  import opened SdhcMmio
  import opened SdhcLogic
  import opened SdhcSpec

  // ---------------------------------------------------------------- completion

  /** The request `ctr_sdhc_finish_request` hands back: `err` recorded only when negative. */
  function Completed(req: Request, err: int): Request {
    if err < 0 then req.(cmd := req.cmd.(error := err)) else req
  }

  /**
   * `ctr_sdhc_finish_request` does nothing with an empty slot; otherwise it empties the
   * slot and notifies exactly once, with a zero or positive `err` leaving the command's
   * earlier error in place. It writes no register and leaves the cursor alone.
   */
  lemma FinishRequestEffect(s: HostState, err: int)
    ensures var r := FinishRequest(s, err);
      && (s.mrq.None? ==> r == s)
      && (s.mrq.Some? ==>
            && r.mrq.None?
            && r.events == s.events + [RequestDone(Completed(s.mrq.value, err))]
            && r.file == s.file && r.log == s.log && r.miter == s.miter && r.fifo == s.fifo)
      && (s.mrq.Some? && err >= 0 ==> r.events[|s.events|].req.cmd.error == s.mrq.value.cmd.error)
      && (s.mrq.Some? && err < 0 ==> r.events[|s.events|].req.cmd.error == err)
  {}

  // ---------------------------------------------------------------- submission

  /**
   * With no card present, `ctr_sdhc_request` completes the request at once with
   * `-ENOMEDIUM`, leaves the slot as it was and writes no register.
   */
  lemma SubmitWithoutCard(L: Layout, s: HostState, req: Request)
    requires Wf(s) && !GetCd(L, s)
    ensures var r := HandleRequest(L, s, req);
      && r.mrq == s.mrq && r.file == s.file && r.log == s.log
      && r.events == s.events + [RequestDone(req.(cmd := req.cmd.(error := -ENOMEDIUM)))]
  {}

  /** The warning `ctr_sdhc_request` records when the slot is already occupied. */
  function Warned(s: HostState): seq<Event> {
    if s.mrq.Some? then [InFlightWarning(s.mrq.value)] else []
  }

  /** The response `ctr_sdhc_start_mrq` fakes for a controller-issued `STOP_TRANSMISSION`. */
  lemma StartStop(L: Layout, s: HostState)
    requires s.mrq.Some? && s.mrq.value.cmd.opcode == MMC_STOP_TRANSMISSION
    ensures var req := s.mrq.value; var r := StartMrq(L, s);
      && r.log == s.log + [W16(StopInternal, L.ctl.stopIssue)]
      && r.mrq.None?
      && r.events == s.events + [RequestDone(req.(cmd := req.cmd.(resp := [req.cmd.opcode as bv32, 0, 0, 0])))]
  {}

  /**
   * A `STOP_TRANSMISSION` submitted with a card present is issued by the controller:
   * the only write is `STOP_INTERNAL_ISSUE`, the response becomes `{opcode, 0, 0, 0}`
   * and the request completes with its error untouched, so neither the command nor
   * the argument register is written.
   */
  lemma SubmitStop(L: Layout, s: HostState, req: Request)
    requires Wf(s) && GetCd(L, s) && req.cmd.opcode == MMC_STOP_TRANSMISSION
    ensures var r := HandleRequest(L, s, req);
      && r.log == s.log + [W16(StopInternal, L.ctl.stopIssue)]
      && r.mrq.None?
      && r.events == s.events + Warned(s) + [RequestDone(req.(cmd := req.cmd.(resp := [req.cmd.opcode as bv32, 0, 0, 0])))]
  {
    var s1 := if s.mrq.Some? then Notify(s, InFlightWarning(s.mrq.value)) else s;
    assert s1.events == s.events + Warned(s) && s1.log == s.log;
    StartStop(L, s1.(mrq := Some(req)));
  }

  /** The writes `ctr_sdhc_start_mrq` issues before the command for the data of a request. */
  function DataSetupWrites(L: Layout, data: Option<Data>): seq<Write> {
    match data
    case None => []
    case Some(d) =>
      (if d.blocks > 1 then StopInternalWrites(L.ctl.stopEnable) else [])
        + SetBlkLenCntWrites(Trunc16(d.blksz), Trunc16(d.blocks))
  }

  /** `ctr_sdhc_start_mrq` for any other command: the data set-up writes, then the argument, then the command word. */
  lemma StartCommand(L: Layout, s: HostState)
    requires s.mrq.Some? && s.mrq.value.cmd.opcode != MMC_STOP_TRANSMISSION
    ensures var req := s.mrq.value; var r := StartMrq(L, s);
      && r.mrq == s.mrq && r.events == s.events
      && r.log == s.log + DataSetupWrites(L, req.data)
                        + [W32(CmdParam, req.cmd.arg), W16(Cmd, CommandWord(L.cmd, req.cmd, req.data))]
      && (req.data.Some? ==> r.miter == Start(req.data.value.sg, req.data.value.read))
      && (req.data.None? ==> r.miter == s.miter)
  {
    var req := s.mrq.value;
    var last := SendCmdArgWrites(CommandWord(L.cmd, req.cmd, req.data), req.cmd.arg);
    match req.data
    case None =>
      assert StartMrq(L, s) == Emit(s, last);
    case Some(d) =>
      var t := if d.blocks > 1 then Emit(s, StopInternalWrites(L.ctl.stopEnable)) else s;
      assert t.log == s.log + (if d.blocks > 1 then StopInternalWrites(L.ctl.stopEnable) else []);
      var u := StartData(t, d);
      assert u.log == s.log + DataSetupWrites(L, req.data);
      assert StartMrq(L, s) == Emit(u, last);
  }

  /**
   * Any other command submitted with a card present takes the slot (an occupied slot
   * only adds a warning, and its request is dropped). The writes are the automatic
   * stop for a multi-block transfer, then the block length and count, then the
   * argument, and last the command word; the cursor is started over the request's list.
   */
  lemma SubmitCommand(L: Layout, s: HostState, req: Request)
    requires Wf(s) && GetCd(L, s) && req.cmd.opcode != MMC_STOP_TRANSMISSION
    ensures var r := HandleRequest(L, s, req);
      && r.mrq == Some(req)
      && r.events == s.events + Warned(s)
      && r.log == s.log + DataSetupWrites(L, req.data)
                        + [W32(CmdParam, req.cmd.arg), W16(Cmd, CommandWord(L.cmd, req.cmd, req.data))]
      && (req.data.Some? ==> r.miter == Start(req.data.value.sg, req.data.value.read))
      && (req.data.None? ==> r.miter == s.miter)
  {
    var s1 := if s.mrq.Some? then Notify(s, InFlightWarning(s.mrq.value)) else s;
    assert s1.events == s.events + Warned(s) && s1.log == s.log && s1.miter == s.miter;
    StartCommand(L, s1.(mrq := Some(req)));
  }

  /**
   * The multi-block condition: `DATA_MULTI` is requested and the automatic stop is
   * enabled by the same test, `blocks > 1`.
   */
  lemma MultiBlockTogether(L: Layout, d: Data)
    ensures var ws := DataSetupWrites(L, Some(d));
      && (W16(StopInternal, L.ctl.stopEnable) in ws <==> d.blocks > 1)
      && |ws| >= 4 && ws[|ws| - 4..] == SetBlkLenCntWrites(Trunc16(d.blksz), Trunc16(d.blocks))
  {}

  // ---------------------------------------------------------------- interrupt sub-handlers

  /** `bytes_xfered` is 0 after a data error and `blocks * blksz`, reduced to 32 bits, otherwise. */
  lemma BytesXferedValue(d: Data)
    ensures d.error != 0 ==> BytesXfered(d) == 0
    ensures d.error == 0 && d.blocks * d.blksz < U32_MODULUS ==> BytesXfered(d) == d.blocks * d.blksz
  {}

  /**
   * `ctr_sdhc_dataend_irq` with a request in flight: without `DATA_END`, or without
   * data, nothing happens; otherwise the transferred byte count is set, the automatic
   * stop is switched off and the request completes with the data's error.
   */
  lemma DataEndEffect(L: Layout, s: HostState, stat: bv32)
    requires s.mrq.Some?
    ensures var req := s.mrq.value; var r := DataEndIrq(L, s, stat);
      && r.1 == Handled
      && (!Has(stat, L.irq.dataEnd) || req.data.None? ==> r.0 == s)
      && (Has(stat, L.irq.dataEnd) && req.data.Some? ==>
            var d := req.data.value;
            && r.0.log == s.log + [W16(StopInternal, 0)]
            && r.0.mrq.None?
            && r.0.events == s.events
                 + [RequestDone(Completed(req.(data := Some(d.(bytesXfered := BytesXfered(d)))), d.error))]
            && r.0.miter == s.miter && r.0.fifo == s.fifo)
  {}

  /** With an empty slot, `ctr_sdhc_dataend_irq` faults at its first line, whatever the status. */
  lemma DataEndEmptySlot(L: Layout, s: HostState, stat: bv32)
    requires s.mrq.None?
    ensures DataEndIrq(L, s, stat) == (s, NullRequestRead)
  {}

  /**
   * `ctr_sdhc_data_irq`: nothing happens without data, with the FIFO not ready or with
   * the list exhausted; otherwise one FIFO transfer of `min(length, blksz) / 4` words
   * at the mapped piece, and the cursor consumes exactly `min(length, blksz)` bytes.
   * The request itself and the registers are untouched.
   */
  lemma DataIrqEffect(L: Layout, s: HostState, stat: bv32)
    requires Wf(s) && s.mrq.Some?
    ensures var r := DataIrq(L, s, stat); var data := s.mrq.value.data;
      && r.mrq == s.mrq && r.file == s.file && r.log == s.log && r.events == s.events
      && ((data.None? || !FifoReady(L.ctl, s.file.r16[Data32Ctl], data.value.read)
           || Remaining(s.miter) == 0) ==> r == s)
      && (data.Some? && FifoReady(L.ctl, s.file.r16[Data32Ctl], data.value.read)
          && Remaining(s.miter) > 0 ==>
            var m := Next(s.miter).value; var count := Min(m.length, data.value.blksz);
            && r.fifo == s.fifo + [FifoTransfer(data.value.read, m.index, m.pos, count / 4)]
            && count <= data.value.blksz && count <= m.length
            && r.miter == Consume(s.miter, m, count)
            && Remaining(r.miter) + count == Remaining(s.miter))
  {}

  /**
   * The response captured at response end when there is one that is not 136 bits
   * long: register 0 in word 0, the other words kept; with no response at all every
   * word is kept.
   */
  lemma CapturedShortResponse(f: RegFile, cmd: Command)
    requires Readable(f) && !(Has(cmd.flags, MMC_RSP_PRESENT) && Has(cmd.flags, MMC_RSP_136))
    ensures var r := CapturedResponse(f, cmd);
      && (!Has(cmd.flags, MMC_RSP_PRESENT) ==> r == cmd.resp)
      && (Has(cmd.flags, MMC_RSP_PRESENT) ==> r[0] == f.r32[CmdResponse(0)] && r[1..] == cmd.resp[1..])
  {
    if Has(cmd.flags, MMC_RSP_PRESENT) {
      assert CapturedResponse(f, cmd) == GetResp(f, cmd.resp, 1);
    }
  }

  /**
   * A 136-bit response is `Repack136` of the four response registers, register 0
   * first: as one 128-bit value, those registers shifted left by 8 (`Repack136Shift`).
   */
  lemma CapturedLongResponse(f: RegFile, cmd: Command)
    requires Readable(f) && Has(cmd.flags, MMC_RSP_PRESENT) && Has(cmd.flags, MMC_RSP_136)
    ensures CapturedResponse(f, cmd)
         == Repack136([f.r32[CmdResponse(0)], f.r32[CmdResponse(1)], f.r32[CmdResponse(2)], f.r32[CmdResponse(3)]])
  {
    var hw := GetResp(f, [0, 0, 0, 0], 4);
    assert hw == [f.r32[CmdResponse(0)], f.r32[CmdResponse(1)], f.r32[CmdResponse(2)], f.r32[CmdResponse(3)]];
  }

  /**
   * `ctr_sdhc_respend_irq`: without `CMDRESPEND` nothing happens; otherwise the
   * response is captured, and a request without data completes with 0, which keeps
   * any error already on its command. A request with data stays in flight.
   */
  lemma RespEndEffect(L: Layout, s: HostState, stat: bv32)
    requires Wf(s) && s.mrq.Some?
    ensures var req := s.mrq.value; var r := RespEndIrq(L, s, stat);
      && (!Has(stat, L.irq.cmdRespEnd) ==> r == s)
      && (Has(stat, L.irq.cmdRespEnd) ==>
            var req' := req.(cmd := req.cmd.(resp := CapturedResponse(s.file, req.cmd)));
            && r.log == s.log && r.miter == s.miter && r.fifo == s.fifo
            && (req.data.Some? ==> r.mrq == Some(req') && r.events == s.events)
            && (req.data.None? ==> r.mrq.None? && r.events == s.events + [RequestDone(req')]))
  {}

  /**
   * `ctr_sdhc_card_hotplug_irq`: without an insert or remove bit it does nothing and
   * answers false. Otherwise it resets the controller, fails a request in flight with
   * `-ENOMEDIUM` when the card is absent, reports the change and answers true.
   */
  lemma HotplugEffect(L: Layout, s: HostState, stat: bv32)
    ensures var r := CardHotplugIrq(L, s, stat);
      && (r.1 <==> HotplugPending(L.irq, stat))
      && (!r.1 ==> r.0 == s)
      && (r.1 ==>
            && r.0.log == s.log + ResetWrites(L)
            && r.0.miter == s.miter && r.0.fifo == s.fifo
            && (Has(stat, L.irq.cardPresent) ==> r.0.mrq == s.mrq && r.0.events == s.events + [DetectChange])
            && (!Has(stat, L.irq.cardPresent) && s.mrq.Some? ==>
                  && r.0.mrq.None?
                  && r.0.events == s.events + [RequestDone(Completed(s.mrq.value, -ENOMEDIUM)), DetectChange])
            && (!Has(stat, L.irq.cardPresent) && s.mrq.None? ==>
                  r.0.mrq.None? && r.0.events == s.events + [DetectChange]))
  {}

  // ---------------------------------------------------------------- interrupt thread

  /** The request after the error recorded by the interrupt thread, if any. */
  function WithCmdError(req: Request, err: int): Request {
    if err != 0 then req.(cmd := req.cmd.(error := err)) else req
  }

  /** The request after response capture, when `CMDRESPEND` is set. */
  function WithResponse(L: Layout, f: RegFile, req: Request, stat: bv32): Request
    requires Readable(f)
  {
    if Has(stat, L.irq.cmdRespEnd) then req.(cmd := req.cmd.(resp := CapturedResponse(f, req.cmd))) else req
  }

  /** The request handed back at data end: its byte count set, completed with the data's error. */
  function DataCompleted(req: Request): Request
    requires req.data.Some?
  {
    var d := req.data.value;
    Completed(req.(data := Some(d.(bytesXfered := BytesXfered(d)))), d.error)
  }

  /** The state after the error recording and the data pump, which the last two sub-handlers start from. */
  lemma ServicePumped(L: Layout, s: HostState, stat: bv32)
    requires Wf(s) && s.mrq.Some?
    requires Classify(L.irq, stat) == 0 || Classify(L.irq, stat) == -ETIMEDOUT
    ensures var err := Classify(L.irq, stat);
      var s2 := DataIrq(L, if err != 0 then SetCmdError(s, err) else s, stat);
      && Wf(s2)
      && ServiceRequest(L, s, stat) == DataEndIrq(L, RespEndIrq(L, s2, stat), stat)
      && s2.mrq == Some(WithCmdError(s.mrq.value, err))
      && s2.file == s.file && s2.log == s.log && s2.events == s.events
      && s2.miter == DataIrq(L, s, stat).miter && s2.fifo == DataIrq(L, s, stat).fifo
  {
    var err := Classify(L.irq, stat);
    var s1 := if err != 0 then SetCmdError(s, err) else s;
    DataIrqEffect(L, s1, stat);
  }

  /**
   * After no error or a timeout, a request without data gets the recorded error and,
   * at `CMDRESPEND`, its response, and then completes; the data-end handler then
   * reads the emptied slot. Without `CMDRESPEND` it stays in flight.
   */
  lemma ServiceWithoutData(L: Layout, s: HostState, stat: bv32)
    requires Wf(s) && s.mrq.Some? && s.mrq.value.data.None?
    requires Classify(L.irq, stat) == 0 || Classify(L.irq, stat) == -ETIMEDOUT
    ensures var r := ServiceRequest(L, s, stat);
      var req' := WithResponse(L, s.file, WithCmdError(s.mrq.value, Classify(L.irq, stat)), stat);
      && r.0.log == s.log && r.0.miter == s.miter && r.0.fifo == s.fifo
      && (Has(stat, L.irq.cmdRespEnd) ==>
            r.1 == NullRequestRead && r.0.mrq.None? && r.0.events == s.events + [RequestDone(req')])
      && (!Has(stat, L.irq.cmdRespEnd) ==>
            r.1 == Handled && r.0.mrq == Some(req') && r.0.events == s.events)
  {
    ServicePumped(L, s, stat);
    var err := Classify(L.irq, stat);
    var s2 := DataIrq(L, if err != 0 then SetCmdError(s, err) else s, stat);
    var s3 := RespEndIrq(L, s2, stat);
    RespEndEffect(L, s2, stat);
    if s3.mrq.Some? {
      DataEndEffect(L, s3, stat);
    } else {
      DataEndEmptySlot(L, s3, stat);
    }
  }

  /**
   * After no error or a timeout, a request with data gets the recorded error and, at
   * `CMDRESPEND`, its response; at `DATA_END` the automatic stop is switched off and
   * it completes with its byte count and its data's error. The data pump runs first.
   */
  lemma ServiceWithData(L: Layout, s: HostState, stat: bv32)
    requires Wf(s) && s.mrq.Some? && s.mrq.value.data.Some?
    requires Classify(L.irq, stat) == 0 || Classify(L.irq, stat) == -ETIMEDOUT
    ensures var r := ServiceRequest(L, s, stat);
      var req' := WithResponse(L, s.file, WithCmdError(s.mrq.value, Classify(L.irq, stat)), stat);
      && r.1 == Handled
      && r.0.miter == DataIrq(L, s, stat).miter && r.0.fifo == DataIrq(L, s, stat).fifo
      && (Has(stat, L.irq.dataEnd) ==>
            && r.0.mrq.None? && r.0.log == s.log + [W16(StopInternal, 0)]
            && r.0.events == s.events + [RequestDone(DataCompleted(req'))])
      && (!Has(stat, L.irq.dataEnd) ==>
            r.0.mrq == Some(req') && r.0.log == s.log && r.0.events == s.events)
  {
    ServicePumped(L, s, stat);
    var err := Classify(L.irq, stat);
    var s2 := DataIrq(L, if err != 0 then SetCmdError(s, err) else s, stat);
    var s3 := RespEndIrq(L, s2, stat);
    RespEndEffect(L, s2, stat);
    DataEndEffect(L, s3, stat);
  }

  /** The acknowledgement the interrupt thread writes first: exactly the handled bits pending at entry. */
  function Ack(L: Layout, s: HostState): seq<Write>
    requires Wf(s)
  {
    IrqStatAckWrites(Stat(s) & HandledMask(L.irq))
  }

  /** An insert or remove bit is set at entry. */
  predicate Hotplug(L: Layout, s: HostState)
    requires Wf(s)
  {
    HotplugPending(L.irq, Stat(s))
  }

  /** The interrupt thread's first step: the acknowledgement, then the dispatch on the status read. */
  lemma IrqEntry(L: Layout, s: HostState)
    requires Wf(s)
    ensures var s1 := Emit(s, Ack(L, s));
      && Wf(s1) && s1.mrq == s.mrq
      && IrqThread(L, s) == Dispatch(L, s1, Stat(s))
  {
  }

  /** The dispatch after the acknowledgement: hotplug first, then the slot. */
  lemma DispatchCases(L: Layout, s: HostState, stat: bv32)
    requires Wf(s)
    ensures HotplugPending(L.irq, stat) ==> Dispatch(L, s, stat) == (CardHotplugIrq(L, s, stat).0, Handled)
    ensures !HotplugPending(L.irq, stat) && s.mrq.None? ==> Dispatch(L, s, stat) == (s, Handled)
    ensures !HotplugPending(L.irq, stat) && s.mrq.Some? ==> Dispatch(L, s, stat) == ServiceRequest(L, s, stat)
  {
    HotplugEffect(L, s, stat);
  }

  /**
   * `ctr_sdhc_irq_thread` on an insert or remove: after the acknowledgement, the
   * controller is reset, a request in flight fails with `-ENOMEDIUM` if the card is
   * absent, the change is reported, and nothing else is done.
   */
  lemma IrqHotplug(L: Layout, s: HostState)
    requires Wf(s) && Hotplug(L, s)
    ensures var r := IrqThread(L, s);
      && r.1 == Handled
      && r.0.log == s.log + Ack(L, s) + ResetWrites(L)
      && r.0.miter == s.miter && r.0.fifo == s.fifo
      && (Has(Stat(s), L.irq.cardPresent) ==> r.0.mrq == s.mrq && r.0.events == s.events + [DetectChange])
      && (!Has(Stat(s), L.irq.cardPresent) && s.mrq.Some? ==>
            && r.0.mrq.None?
            && r.0.events == s.events + [RequestDone(Completed(s.mrq.value, -ENOMEDIUM)), DetectChange])
      && (!Has(Stat(s), L.irq.cardPresent) && s.mrq.None? ==>
            r.0.mrq.None? && r.0.events == s.events + [DetectChange])
  {
    IrqEntry(L, s);
    DispatchCases(L, Emit(s, Ack(L, s)), Stat(s));
    HotplugEffect(L, Emit(s, Ack(L, s)), Stat(s));
  }

  /** With no insert or remove and an empty slot, the acknowledgement is all the thread does. */
  lemma IrqIdle(L: Layout, s: HostState)
    requires Wf(s) && !Hotplug(L, s) && s.mrq.None?
    ensures IrqThread(L, s) == (s.(file := Commit(s.file, Ack(L, s)), log := s.log + Ack(L, s)), Handled)
  {
    IrqEntry(L, s);
    DispatchCases(L, Emit(s, Ack(L, s)), Stat(s));
  }

  /**
   * A CRC failure or another error bit without a timeout is recorded on the command
   * (`-EILSEQ` or `-EIO`) and ends the thread: the request stays in flight, nothing
   * but the acknowledgement is written, and nothing is reported.
   */
  lemma IrqSeriousError(L: Layout, s: HostState)
    requires Wf(s) && !Hotplug(L, s) && s.mrq.Some?
    requires Classify(L.irq, Stat(s)) != 0 && Classify(L.irq, Stat(s)) != -ETIMEDOUT
    ensures var r := IrqThread(L, s); var err := Classify(L.irq, Stat(s));
      && (err == -EILSEQ || err == -EIO)
      && r.1 == Handled
      && r.0.mrq == Some(s.mrq.value.(cmd := s.mrq.value.cmd.(error := err)))
      && r.0.log == s.log + Ack(L, s)
      && r.0.events == s.events && r.0.miter == s.miter && r.0.fifo == s.fifo
  {
    IrqEntry(L, s);
    DispatchCases(L, Emit(s, Ack(L, s)), Stat(s));
    ClassifyCodes(L.irq, Stat(s));
  }

  /**
   * The interrupt thread faults on the emptied slot exactly when, with no insert or
   * remove, no error or a timeout, a request without data gets `CMDRESPEND`: response
   * end completes it and data end then reads `host->mrq->data` from the empty slot.
   */
  lemma IrqNullRequestRead(L: Layout, s: HostState)
    requires Wf(s)
    ensures var err := Classify(L.irq, Stat(s));
      (IrqThread(L, s).1 == NullRequestRead)
        <==> (&& !Hotplug(L, s) && s.mrq.Some? && s.mrq.value.data.None?
              && (err == 0 || err == -ETIMEDOUT) && Has(Stat(s), L.irq.cmdRespEnd))
  {
    IrqEntry(L, s);
    DispatchCases(L, Emit(s, Ack(L, s)), Stat(s));
    var s1 := Emit(s, Ack(L, s));
    var err := Classify(L.irq, Stat(s));
    if !Hotplug(L, s) && s.mrq.Some? {
      if err == 0 || err == -ETIMEDOUT {
        if s.mrq.value.data.None? {
          ServiceWithoutData(L, s1, Stat(s));
        } else {
          ServiceWithData(L, s1, Stat(s));
        }
      }
    }
  }

  /**
   * An error the interrupt thread classifies goes on the command and never on the
   * data: afterwards the request, in flight or just handed back, has the same data
   * error as before, and its command carries the classified error, unless the request
   * completed at data end with a negative data error, which `ctr_sdhc_finish_request`
   * then puts there instead.
   */
  lemma IrqErrorOnCommand(L: Layout, s: HostState)
    requires Wf(s) && !Hotplug(L, s) && s.mrq.Some?
    requires Classify(L.irq, Stat(s)) != 0
    ensures var r := IrqThread(L, s); var req := s.mrq.value; var err := Classify(L.irq, Stat(s));
      && (r.0.mrq.Some? ==>
            && r.0.events == s.events
            && r.0.mrq.value.cmd.error == err
            && r.0.mrq.value.data == req.data)
      && (r.0.mrq.None? ==>
            && |r.0.events| == |s.events| + 1 && r.0.events[|s.events|].RequestDone?
            && var done := r.0.events[|s.events|].req;
               && done.data.Some? == req.data.Some?
               && (req.data.Some? ==> done.data.value.error == req.data.value.error)
               && done.cmd.error
                    == (if req.data.Some? && req.data.value.error < 0 then req.data.value.error else err))
  {
    IrqEntry(L, s);
    DispatchCases(L, Emit(s, Ack(L, s)), Stat(s));
    var s1 := Emit(s, Ack(L, s));
    var err := Classify(L.irq, Stat(s));
    if err == -ETIMEDOUT {
      if s.mrq.value.data.None? {
        ServiceWithoutData(L, s1, Stat(s));
      } else {
        ServiceWithData(L, s1, Stat(s));
      }
    } else {
      IrqSeriousError(L, s);
    }
  }

  /** The writes after the acknowledgement: the reset on hotplug, the automatic stop switched off at data end. */
  function IrqTailWrites(L: Layout, s: HostState): seq<Write>
    requires Wf(s)
  {
    var err := Classify(L.irq, Stat(s));
    if Hotplug(L, s) then ResetWrites(L)
    else if && s.mrq.Some? && s.mrq.value.data.Some? && (err == 0 || err == -ETIMEDOUT)
            && Has(Stat(s), L.irq.dataEnd) then [W16(StopInternal, 0)]
    else []
  }

  /**
   * Every register write of the interrupt thread: first the acknowledgement of exactly
   * `irqstat & SDHC_IRQMASK`, then the reset on insert or remove, or the automatic
   * stop switched off when a data request completes; nothing else.
   */
  lemma IrqWrites(L: Layout, s: HostState)
    requires Wf(s)
    ensures IrqThread(L, s).0.log == s.log + Ack(L, s) + IrqTailWrites(L, s)
  {
    IrqEntry(L, s);
    DispatchCases(L, Emit(s, Ack(L, s)), Stat(s));
    var s1 := Emit(s, Ack(L, s));
    var err := Classify(L.irq, Stat(s));
    if Hotplug(L, s) {
      IrqHotplug(L, s);
    } else if s.mrq.Some? {
      if err == 0 || err == -ETIMEDOUT {
        if s.mrq.value.data.None? {
          ServiceWithoutData(L, s1, Stat(s));
        } else {
          ServiceWithData(L, s1, Stat(s));
        }
      } else {
        IrqSeriousError(L, s);
      }
    }
  }

  // ---------------------------------------------------------------- SDIO interrupt

  /**
   * `ctr_sdhc_sdio_irq_thread` answers handled exactly when bit 0 of `CARD_IRQ_STAT`
   * is set; it then acknowledges that bit alone and signals the SDIO interrupt.
   * Otherwise nothing changes.
   */
  lemma SdioIrqEffect(s: HostState)
    requires Wf(s)
    ensures var r := SdioIrqThread(s); var state := s.file.r16[CardIrqStat];
      && (r.1 <==> state & 1 == 1)
      && (r.1 ==>
            && r.0.log == s.log + [W16(CardIrqStat, state & !1)]
            && r.0.events == s.events + [SdioSignal]
            && r.0.mrq == s.mrq && r.0.miter == s.miter && r.0.fifo == s.fifo)
      && (!r.1 ==> r.0 == s)
  {
    var state := s.file.r16[CardIrqStat];
    if state & 1 == 1 {
      assert SdioIrqTest(state).1 == [W16(CardIrqStat, state & !1)];
    } else {
      assert s.log + [] == s.log;
    }
  }
}
