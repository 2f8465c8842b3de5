/**
 * The SD host driver's request engine as state transitions: one function per driver
 * function of `ctr_sdhc.c`, each taking the host state before the call to the host
 * state after it. The host state is the register file with its write log, the request
 * slot `host->mrq`, the scatter-list cursor `host->sg_miter`, the notifications handed
 * to the MMC core, and the FIFO transfers of the data pump.
 *
 * Every entry point runs as one atomic step (the driver holds `host->lock` throughout).
 * Between entry points the controller may change any register it presents; the
 * functions below make no assumption about the values they read.
 */
module SdhcSpec {
  import opened Common
  import opened ScatterList
  import opened Mmc
  import opened SdhcLayout
  import opened SdhcMmio
  import opened SdhcLogic

  /** What the driver hands to the MMC core, or reports, in order. */
  datatype Event =
    | RequestDone(req: Request)   // mmc_request_done
    | DetectChange                // mmc_detect_change
    | SdioSignal                  // mmc_signal_sdio_irq
    | InFlightWarning(dropped: Request)  // WARN_ON(host->mrq != NULL) in ctr_sdhc_request; `dropped`
                                       // is the request the slot held, which the driver then overwrites

  /** One `ioread32_rep`/`iowrite32_rep` on the data FIFO: direction, mapped piece, word count. */
  datatype FifoTransfer = FifoTransfer(read: bool, index: nat, pos: nat, words: nat)

  datatype HostState = HostState(
    file: RegFile, log: seq<Write>,
    mrq: Option<Request>, miter: Cursor,
    events: seq<Event>, fifo: seq<FifoTransfer>)

  /**
   * How the interrupt thread ends: normally, or at the read of `host->mrq->data` in
   * `ctr_sdhc_dataend_irq` while the slot is empty (a NULL dereference in the driver).
   */
  datatype IrqOutcome = Handled | NullRequestRead

  /** The registers the driver reads are present and the cursor is well formed. */
  ghost predicate Wf(s: HostState) {
    Readable(s.file) && s.miter.Valid()
  }

  /** Issuing the register writes `ws`. */
  function Emit(s: HostState, ws: seq<Write>): (r: HostState)
    ensures r.file == Commit(s.file, ws) && r.log == s.log + ws
    ensures r.mrq == s.mrq && r.miter == s.miter && r.events == s.events && r.fifo == s.fifo
    ensures Wf(s) ==> Wf(r)
  {
    s.(file := Commit(s.file, ws), log := s.log + ws)
  }

  function Notify(s: HostState, e: Event): HostState {
    s.(events := s.events + [e])
  }

  /** The in-flight request with the given command error. */
  function SetCmdError(s: HostState, err: int): (r: HostState)
    requires s.mrq.Some?
  {
    var req := s.mrq.value;
    s.(mrq := Some(req.(cmd := req.cmd.(error := err))))
  }

  // ---------------------------------------------------------------- completion

  /**
   * `ctr_sdhc_finish_request`: with a request in flight, record a negative `err` on its
   * command, empty the slot and hand the request back to the MMC core.
   */
  function FinishRequest(s: HostState, err: int): HostState {
    match s.mrq
    case None => s
    case Some(req) =>
      var done := if err < 0 then req.(cmd := req.cmd.(error := err)) else req;
      s.(mrq := None, events := s.events + [RequestDone(done)])
  }

  // ---------------------------------------------------------------- interrupt sub-handlers

  /** `data->bytes_xfered` on data end: nothing after an error, else `blocks * blksz` as an `unsigned int`. */
  function BytesXfered(d: Data): U32 {
    if d.error != 0 then 0 else (d.blocks * d.blksz) % U32_MODULUS
  }

  /**
   * `ctr_sdhc_dataend_irq`. It reads `host->mrq->data` before anything else, so an
   * empty slot ends the thread with `NullRequestRead`.
   */
  function DataEndIrq(L: Layout, s: HostState, stat: bv32): (HostState, IrqOutcome) {
    match s.mrq
    case None => (s, NullRequestRead)
    case Some(req) =>
      if !Has(stat, L.irq.dataEnd) then (s, Handled)
      else match req.data
        case None => (s, Handled)   // spurious data end: a warning only
        case Some(d) =>
          var d' := d.(bytesXfered := BytesXfered(d));
          var s1 := s.(mrq := Some(req.(data := Some(d'))));
          (FinishRequest(Emit(s1, StopInternalWrites(0)), d.error), Handled)
  }

  /** The FIFO can move data in the transfer's direction (`RXRDY` pending for a read, `NTXRQ` clear for a write). */
  function FifoReady(C: CtlBits, ctl: bv16, read: bool): bool {
    if read then ctl & C.rxRdyPending != 0 else ctl & C.nTxRqPending == 0
  }

  /**
   * `ctr_sdhc_data_irq`: when the FIFO is ready and the list has bytes left, move one
   * mapped piece, at most one block of it, and consume that many bytes.
   */
  function DataIrq(L: Layout, s: HostState, stat: bv32): (r: HostState)
    requires Wf(s) && s.mrq.Some?
    ensures Wf(r)
  {
    match s.mrq.value.data
    case None => s
    case Some(d) =>
      if !FifoReady(L.ctl, s.file.r16[Data32Ctl], d.read) then s
      else match Next(s.miter)
        case None => s
        case Some(m) =>
          var count := Min(m.length, d.blksz);
          s.(miter := Consume(s.miter, m, count),
             fifo := s.fifo + [FifoTransfer(d.read, m.index, m.pos, count / 4)])
  }

  /** The response words a command receives: repacked for 136 bits, word 0 only otherwise, none without a response. */
  function CapturedResponse(f: RegFile, cmd: Command): Response
    requires Readable(f)
  {
    if !Has(cmd.flags, MMC_RSP_PRESENT) then cmd.resp
    else if Has(cmd.flags, MMC_RSP_136) then Repack136(GetResp(f, [0, 0, 0, 0], 4))
    else GetResp(f, cmd.resp, 1)
  }

  /**
   * `ctr_sdhc_respend_irq`: on response end, capture the response; a request without
   * data completes here, one with data waits for data end.
   */
  function RespEndIrq(L: Layout, s: HostState, stat: bv32): (r: HostState)
    requires Wf(s) && s.mrq.Some?
    ensures Wf(r)
  {
    if !Has(stat, L.irq.cmdRespEnd) then s
    else
      var req := s.mrq.value;
      var req' := req.(cmd := req.cmd.(resp := CapturedResponse(s.file, req.cmd)));
      var s1 := s.(mrq := Some(req'));
      if req.data.Some? then s1 else FinishRequest(s1, 0)
  }

  /** `ctr_sdhc_card_hotplug_irq`: on insert or remove, reset, fail a request if the card is gone, notify. */
  function CardHotplugIrq(L: Layout, s: HostState, stat: bv32): (r: (HostState, bool))
    ensures Wf(s) ==> Wf(r.0)
  {
    if !HotplugPending(L.irq, stat) then (s, false)
    else
      var s1 := Emit(s, ResetWrites(L));
      var s2 := if !Has(stat, L.irq.cardPresent) then FinishRequest(s1, -ENOMEDIUM) else s1;
      (Notify(s2, DetectChange), true)
  }

  // ---------------------------------------------------------------- interrupt thread

  /** The `IRQ_STAT` snapshot the thread works on. */
  function Stat(s: HostState): bv32
    requires Wf(s)
  {
    s.file.r32[IrqStat]
  }

  /**
   * The part of `ctr_sdhc_irq_thread` after hotplug, with a request in flight: record
   * an error on the command; on no error or a timeout run the data, response and
   * data-end handlers in that order.
   */
  function ServiceRequest(L: Layout, s: HostState, stat: bv32): (r: (HostState, IrqOutcome))
    requires Wf(s) && s.mrq.Some?
    ensures Wf(r.0)
  {
    var err := Classify(L.irq, stat);
    var s1 := if err != 0 then SetCmdError(s, err) else s;
    if err != 0 && err != -ETIMEDOUT then (s1, Handled)
    else
      var s2 := DataIrq(L, s1, stat);
      var s3 := RespEndIrq(L, s2, stat);
      DataEndIrq(L, s3, stat)
  }

  /**
   * `ctr_sdhc_irq_thread`: acknowledge exactly the handled pending interrupts, handle
   * hotplug, and with a request in flight service it.
   */
  function IrqThread(L: Layout, s: HostState): (r: (HostState, IrqOutcome))
    requires Wf(s)
    ensures Wf(r.0)
  {
    var stat := Stat(s);
    Dispatch(L, Emit(s, IrqStatAckWrites(stat & HandledMask(L.irq))), stat)
  }

  /** What `ctr_sdhc_irq_thread` does with the status word `stat` once it is acknowledged. */
  function Dispatch(L: Layout, s: HostState, stat: bv32): (r: (HostState, IrqOutcome))
    requires Wf(s)
    ensures Wf(r.0)
  {
    var h := CardHotplugIrq(L, s, stat);
    if h.1 then (h.0, Handled)
    else if h.0.mrq.None? then (h.0, Handled)
    else ServiceRequest(L, h.0, stat)
  }

  // ---------------------------------------------------------------- queries

  /** `__ctr_sdhc_get_cd`: the card-present status bit. */
  function GetCd(L: Layout, s: HostState): bool
    requires Wf(s)
  {
    Has(Stat(s), L.irq.cardPresent)
  }

  /** The inner logic of `ctr_sdhc_get_ro`: 1 when the write-protect status bit is clear. */
  function GetRo(L: Layout, s: HostState): bool
    requires Wf(s)
  {
    !Has(Stat(s), L.irq.writeProt)
  }

  // ---------------------------------------------------------------- submission

  /** The block length and count as the `u16` arguments of `ctr_sdhc_set_blk_len_cnt`. */
  function Trunc16(x: U32): bv16 {
    (x % U16_MODULUS) as bv16
  }

  /** `ctr_sdhc_start_data`: start the cursor over the list and program the block length and count. */
  function StartData(s: HostState, d: Data): (r: HostState)
    ensures Wf(s) ==> Wf(r)
  {
    Emit(s.(miter := Start(d.sg, d.read)), SetBlkLenCntWrites(Trunc16(d.blksz), Trunc16(d.blocks)))
  }

  /** The response `ctr_sdhc_start_mrq` fakes for a `STOP_TRANSMISSION` the controller issues itself. */
  function StopResponse(cmd: Command): Response {
    [cmd.opcode as bv32, 0, 0, 0]
  }

  /**
   * `ctr_sdhc_start_mrq` for the request in the slot: a `STOP_TRANSMISSION` is issued
   * by the controller and completes at once; any other command has its data set up
   * (with the controller's automatic stop for more than one block) and is then sent.
   */
  function StartMrq(L: Layout, s: HostState): (r: HostState)
    requires s.mrq.Some?
    ensures Wf(s) ==> Wf(r)
  {
    var req := s.mrq.value;
    var cmd := req.cmd;
    if cmd.opcode == MMC_STOP_TRANSMISSION then
      var s1 := Emit(s, StopInternalWrites(L.ctl.stopIssue));
      var s2 := s1.(mrq := Some(req.(cmd := cmd.(resp := StopResponse(cmd)))));
      FinishRequest(s2, 0)
    else
      var word := CommandWord(L.cmd, cmd, req.data);
      var s1 := match req.data
        case None => s
        case Some(d) =>
          var t := if d.blocks > 1 then Emit(s, StopInternalWrites(L.ctl.stopEnable)) else s;
          StartData(t, d);
      Emit(s1, SendCmdArgWrites(word, cmd.arg))
  }

  /**
   * `ctr_sdhc_request`: with no card, fail the request with `-ENOMEDIUM` at once;
   * otherwise warn if a request is already in flight, put the new one in the slot
   * (the old one is dropped) and start it.
   */
  function HandleRequest(L: Layout, s: HostState, req: Request): (r: HostState)
    requires Wf(s)
    ensures Wf(r)
  {
    if !GetCd(L, s) then
      Notify(s, RequestDone(req.(cmd := req.cmd.(error := -ENOMEDIUM))))
    else
      var s1 := if s.mrq.Some? then Notify(s, InFlightWarning(s.mrq.value)) else s;
      StartMrq(L, s1.(mrq := Some(req)))
  }

  // ---------------------------------------------------------------- SDIO and bus settings

  /** `ctr_sdhc_sdio_irq_thread`: acknowledge and signal a pending SDIO interrupt; the result is whether it was handled. */
  function SdioIrqThread(s: HostState): (r: (HostState, bool))
    requires Wf(s)
    ensures Wf(r.0)
  {
    var t := SdioIrqTest(s.file.r16[CardIrqStat]);
    var s1 := Emit(s, t.1);
    if t.0 then (Notify(s1, SdioSignal), true) else (s1, false)
  }

  /** The inner logic of `ctr_sdhc_enable_sdio_irq`. */
  function EnableSdioIrq(s: HostState, enable: bool): (r: HostState)
    ensures Wf(s) ==> Wf(r)
  {
    Emit(s, SdioIrqSetWrites(enable))
  }

  /** `__ctr_sdhc_set_ios` with the source clock rate `rate`. */
  function SetIos(L: Layout, s: HostState, rate: nat, ios: Ios): (r: HostState)
    ensures Wf(s) ==> Wf(r)
  {
    Emit(s, SetIosWrites(L, rate, ios))
  }
}
