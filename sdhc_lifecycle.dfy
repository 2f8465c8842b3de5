/**
 * The request lifecycle of the SD host driver over any sequence of entry points,
 * interleaved with the controller changing its registers: every request the MMC core
 * submits is, at every point, either handed back exactly once, dropped from the slot
 * by a later submission (with a warning), or the one request in flight. The ledger of
 * a state is the multiset of those requests, each up to the fields the driver fills
 * in; every entry point keeps it, and a submission adds its request.
 */
module SdhcLifecycle {
  import opened Common
  import opened Mmc
  import opened SdhcLayout
  import opened SdhcMmio
  import opened SdhcLogic
  import opened SdhcSpec
  import opened SdhcProps

  /** An entry point of the driver, or the controller presenting new register contents. */
  datatype Op =
    | Submit(req: Request)            // ctr_sdhc_request
    | Interrupt                       // ctr_sdhc_irq_thread
    | SdioInterrupt                   // ctr_sdhc_sdio_irq_thread
    | EnableSdio(enable: bool)        // ctr_sdhc_enable_sdio_irq
    | SetBus(rate: nat, ios: Ios)     // ctr_sdhc_set_ios
    | Hardware(file: RegFile)         // the controller changes its registers

  function Step(L: Layout, s: HostState, op: Op): (r: HostState)
    requires Wf(s)
    ensures Wf(r)
  {
    match op
    case Submit(req) => HandleRequest(L, s, req)
    case Interrupt => IrqThread(L, s).0
    case SdioInterrupt => SdioIrqThread(s).0
    case EnableSdio(enable) => EnableSdioIrq(s, enable)
    case SetBus(rate, ios) => SetIos(L, s, rate, ios)
    case Hardware(f) => if Readable(f) then s.(file := f) else s
  }

  /** The state after the operations `ops`, in order. */
  function Run(L: Layout, s: HostState, ops: seq<Op>): (r: HostState)
    requires Wf(s)
    ensures Wf(r)
  {
    if ops == [] then s else Step(L, Run(L, s, ops[..|ops| - 1]), ops[|ops| - 1])
  }

  /**
   * A request as the MMC core submitted it: the fields the driver fills in (the
   * command's response and error, the data's byte count) cleared, everything else kept.
   */
  function AsSubmitted(req: Request): Request {
    req.(cmd := req.cmd.(resp := [0, 0, 0, 0], error := 0),
         data := if req.data.Some? then Some(req.data.value.(bytesXfered := 0)) else None)
  }

  /** The request an event settles: the one handed back, or the one dropped with a warning. */
  function SettledBy(e: Event): multiset<Request> {
    match e
    case RequestDone(req) => multiset{AsSubmitted(req)}
    case InFlightWarning(req) => multiset{AsSubmitted(req)}
    case _ => multiset{}
  }

  /** The requests the events `es` settle. */
  function Settled(es: seq<Event>): multiset<Request> {
    if es == [] then multiset{} else Settled(es[..|es| - 1]) + SettledBy(es[|es| - 1])
  }

  function InFlight(s: HostState): multiset<Request> {
    if s.mrq.Some? then multiset{AsSubmitted(s.mrq.value)} else multiset{}
  }

  /** Requests settled or in flight. */
  function Ledger(s: HostState): multiset<Request> {
    Settled(s.events) + InFlight(s)
  }

  /** The requests submitted by `ops`. */
  function Submissions(ops: seq<Op>): multiset<Request> {
    if ops == [] then multiset{}
    else Submissions(ops[..|ops| - 1]) + (if ops[|ops| - 1].Submit? then multiset{AsSubmitted(ops[|ops| - 1].req)} else multiset{})
  }

  /** One more event settles what it settles and leaves the rest of the ledger alone. */
  lemma LedgerNotify(s: HostState, r: HostState, e: Event)
    requires r.events == s.events + [e]
    ensures Settled(r.events) == Settled(s.events) + SettledBy(e)
  {
    assert r.events[..|r.events| - 1] == s.events;
  }

  /** The same events and the same request in flight, up to the fields the driver fills in, make the same ledger. */
  lemma LedgerKeep(s: HostState, r: HostState)
    requires r.events == s.events && r.mrq.Some? == s.mrq.Some?
    requires s.mrq.Some? ==> AsSubmitted(r.mrq.value) == AsSubmitted(s.mrq.value)
    ensures Ledger(r) == Ledger(s)
  {}

  /** Taking the slot for `req`, and warning about the request it held, adds exactly `req` to the ledger. */
  lemma TakeSlot(s: HostState, r: HostState, req: Request)
    requires r.events == s.events + Warned(s) && r.mrq == Some(req)
    ensures Ledger(r) == Ledger(s) + multiset{AsSubmitted(req)}
  {
    if s.mrq.Some? {
      LedgerNotify(s, r, InFlightWarning(s.mrq.value));
    } else {
      assert r.events == s.events;
    }
  }

  /** Handing back the request in flight, up to the fields the driver fills in, moves it from the slot to the settled events. */
  lemma FinishBalance(s: HostState, r: HostState, done: Request)
    requires s.mrq.Some? && r.mrq.None? && r.events == s.events + [RequestDone(done)]
    requires AsSubmitted(done) == AsSubmitted(s.mrq.value)
    ensures Ledger(r) == Ledger(s)
  {
    LedgerNotify(s, r, RequestDone(done));
  }

  /** A submission settles or takes the slot for exactly the submitted request, and settles the one it drops. */
  lemma SubmitBalance(L: Layout, s: HostState, req: Request)
    requires Wf(s)
    ensures Ledger(HandleRequest(L, s, req)) == Ledger(s) + multiset{AsSubmitted(req)}
  {
    var r := HandleRequest(L, s, req);
    if !GetCd(L, s) {
      SubmitWithoutCard(L, s, req);
      var done := req.(cmd := req.cmd.(error := -ENOMEDIUM));
      assert AsSubmitted(done) == AsSubmitted(req);
      LedgerNotify(s, r, RequestDone(done));
    } else if req.cmd.opcode == MMC_STOP_TRANSMISSION {
      SubmitStop(L, s, req);
      var taken := s.(mrq := Some(req), events := s.events + Warned(s));
      TakeSlot(s, taken, req);
      var done := req.(cmd := req.cmd.(resp := [req.cmd.opcode as bv32, 0, 0, 0]));
      assert AsSubmitted(done) == AsSubmitted(req);
      FinishBalance(taken, r, done);
    } else {
      SubmitCommand(L, s, req);
      TakeSlot(s, r, req);
    }
  }

  /** An insert or remove keeps the ledger: a failed request moves to the settled events. */
  lemma HotplugBalance(L: Layout, s: HostState, stat: bv32)
    ensures Ledger(CardHotplugIrq(L, s, stat).0) == Ledger(s)
  {
    HotplugEffect(L, s, stat);
    var r := CardHotplugIrq(L, s, stat).0;
    if HotplugPending(L.irq, stat) {
      var before := r.(events := r.events[..|r.events| - 1]);
      assert r.events == before.events + [DetectChange];
      LedgerNotify(before, r, DetectChange);
      if !Has(stat, L.irq.cardPresent) && s.mrq.Some? {
        var done := Completed(s.mrq.value, -ENOMEDIUM);
        assert AsSubmitted(done) == AsSubmitted(s.mrq.value);
        FinishBalance(s, before, done);
      } else {
        LedgerKeep(s, before);
      }
    }
  }

  /** The request after the interrupt thread's error and response, as submitted, is the request before them. */
  lemma ServiceFields(L: Layout, f: RegFile, req: Request, err: int, stat: bv32)
    requires Readable(f)
    ensures var req' := WithResponse(L, f, WithCmdError(req, err), stat);
      && AsSubmitted(req') == AsSubmitted(req)
      && (req'.data.Some? ==> AsSubmitted(DataCompleted(req')) == AsSubmitted(req))
  {}

  /** Servicing the request in flight either keeps it there or hands it back once, as submitted up to the driver's fields. */
  lemma ServiceBalance(L: Layout, s: HostState, stat: bv32)
    requires Wf(s) && s.mrq.Some?
    ensures Ledger(ServiceRequest(L, s, stat).0) == Ledger(s)
  {
    var r := ServiceRequest(L, s, stat).0;
    var err := Classify(L.irq, stat);
    var req' := WithResponse(L, s.file, WithCmdError(s.mrq.value, err), stat);
    if err != 0 && err != -ETIMEDOUT {
      assert r == SetCmdError(s, err);
      LedgerKeep(s, r);
    } else {
      ServiceFields(L, s.file, s.mrq.value, err, stat);
      if s.mrq.value.data.None? {
        ServiceWithoutData(L, s, stat);
        if r.mrq.None? {
          FinishBalance(s, r, req');
        } else {
          LedgerKeep(s, r);
        }
      } else {
        ServiceWithData(L, s, stat);
        if r.mrq.None? {
          FinishBalance(s, r, DataCompleted(req'));
        } else {
          LedgerKeep(s, r);
        }
      }
    }
  }

  /** The interrupt thread never starts or drops a request, and hands back at most the one in flight. */
  lemma IrqBalance(L: Layout, s: HostState)
    requires Wf(s)
    ensures Ledger(IrqThread(L, s).0) == Ledger(s)
  {
    IrqEntry(L, s);
    DispatchCases(L, Emit(s, Ack(L, s)), Stat(s));
    if Hotplug(L, s) {
      HotplugBalance(L, Emit(s, Ack(L, s)), Stat(s));
    } else if s.mrq.Some? {
      ServiceBalance(L, Emit(s, Ack(L, s)), Stat(s));
    }
  }

  /** The SDIO interrupt thread only signals, and leaves the slot alone. */
  lemma SdioBalance(s: HostState)
    requires Wf(s)
    ensures Ledger(SdioIrqThread(s).0) == Ledger(s)
  {
    var r := SdioIrqThread(s).0;
    if r.events != s.events {
      SdioIrqEffect(s);
      LedgerNotify(s, r, SdioSignal);
    }
  }

  /** One entry point adds its request to the ledger when it is a submission, and changes it in no other way. */
  lemma StepBalance(L: Layout, s: HostState, op: Op)
    requires Wf(s)
    ensures Ledger(Step(L, s, op)) == Ledger(s) + (if op.Submit? then multiset{AsSubmitted(op.req)} else multiset{})
  {
    match op
    case Submit(req) => SubmitBalance(L, s, req);
    case Interrupt => IrqBalance(L, s);
    case SdioInterrupt => SdioBalance(s);
    case EnableSdio(_) =>
    case SetBus(_, _) =>
    case Hardware(_) =>
  }

  /**
   * Over any run, the settled requests plus the one in flight grow by exactly the
   * requests submitted: no request is handed back twice, none is lost silently.
   */
  lemma {:induction false} RunBalance(L: Layout, s: HostState, ops: seq<Op>)
    requires Wf(s)
    ensures Ledger(Run(L, s, ops)) == Ledger(s) + Submissions(ops)
  {
    if ops != [] {
      RunBalance(L, s, ops[..|ops| - 1]);
      StepBalance(L, Run(L, s, ops[..|ops| - 1]), ops[|ops| - 1]);
    }
  }

  /**
   * From an idle host with nothing reported, the submitted requests are, after any
   * run and as a multiset, exactly those handed back, those dropped with a warning
   * and the one in flight, each compared up to the fields the driver fills in; so
   * their numbers agree too.
   */
  lemma FromIdle(L: Layout, s: HostState, ops: seq<Op>)
    requires Wf(s) && s.mrq.None? && s.events == []
    ensures var r := Run(L, s, ops); Settled(r.events) + InFlight(r) == Submissions(ops)
    ensures var r := Run(L, s, ops); |Settled(r.events)| + |InFlight(r)| == |Submissions(ops)|
  {
    RunBalance(L, s, ops);
  }

  /** An event settles a request that the events as a whole settle. */
  lemma {:induction false} SettledHas(es: seq<Event>, i: nat)
    requires i < |es|
    ensures SettledBy(es[i]) <= Settled(es)
    decreases |es|
  {
    if i < |es| - 1 {
      SettledHas(es[..|es| - 1], i);
      assert es[..|es| - 1][i] == es[i];
    }
  }

  /** Every request an event of `r` settles, and the one in flight, is in the ledger of `r`. */
  lemma LedgerHas(r: HostState)
    ensures forall i | 0 <= i < |r.events| && (r.events[i].RequestDone? || r.events[i].InFlightWarning?) ::
      AsSubmitted(if r.events[i].RequestDone? then r.events[i].req else r.events[i].dropped) in Ledger(r)
    ensures r.mrq.Some? ==> AsSubmitted(r.mrq.value) in Ledger(r)
  {
    forall i | 0 <= i < |r.events| && (r.events[i].RequestDone? || r.events[i].InFlightWarning?)
      ensures AsSubmitted(if r.events[i].RequestDone? then r.events[i].req else r.events[i].dropped) in Ledger(r)
    {
      SettledHas(r.events, i);
    }
  }

  /**
   * From an idle host, every request handed back or dropped with a warning, and the
   * one in flight, is one of the submitted requests, up to the fields the driver
   * fills in.
   */
  lemma OnlySubmitted(L: Layout, s: HostState, ops: seq<Op>)
    requires Wf(s) && s.mrq.None? && s.events == []
    ensures var r := Run(L, s, ops);
      && (forall i | 0 <= i < |r.events| && (r.events[i].RequestDone? || r.events[i].InFlightWarning?) ::
            AsSubmitted(if r.events[i].RequestDone? then r.events[i].req else r.events[i].dropped) in Submissions(ops))
      && (r.mrq.Some? ==> AsSubmitted(r.mrq.value) in Submissions(ops))
  {
    FromIdle(L, s, ops);
    LedgerHas(Run(L, s, ops));
  }
}
