# Nintendo 3DS SD host controller and PXI transport, in Dafny

This project models two drivers of the Linux port to the Nintendo 3DS and proves what
they do.

**The SD host controller driver** (`ctr_sdhc.c` and its register layer
`ctr_sdhc_mmio.c`) serves requests from the MMC core.
- A request is a command with optional data.
- The driver takes the request into its single slot `host->mrq` and starts it. It builds
  a 16-bit command word from the opcode, the response kind and the data flags.
  `STOP_TRANSMISSION` is a special case: the controller issues it by itself.
- The threaded interrupt handler first acknowledges the pending interrupts. It then
  handles card insert and remove and classifies errors. Last it runs the data pump, the
  response capture and the data-end handler, in that fixed order.
- A finished request goes back to the MMC core through `mmc_request_done`.
- `set_ios` computes the clock divider code and the card option.

**The PXI transport** (`ctr_pxi.h`, `ctr_pxi.c`) carries commands to the ARM11 over two
FIFOs.
- The command word holds a 4-bit mode, a 2-bit access size and a register offset.
- `pxi_cmd_one` sends the command word, then either sends an argument word or receives
  a word into the argument.
- `ctr_pxi_cmd` runs parallel command and argument arrays and stops at the first error.

**The PRNG device** (`pxi/ctr_prng.c`) uses that transport to fill a buffer from the PRNG
register, in chunks of at most eight `READ` commands.

Layout of the model:
- `common.dfy`, `mmc.dfy` and `scatterlist.dfy` hold the vocabulary:
  - errno values and an `Option`;
  - the MMC core's command, data, request and bus-setting records, with the constants of
    the public Linux headers;
  - the kernel scatter-list mapping iterator, as a cursor over segments.
- `sdhc_layout.dfy` holds the controller's registers and bit constants. The header that
  fixes their numbers is not part of this model, so the constants are parameters. The
  predicate `Layout.Valid()` states about them only what the driver relies on: each
  single bit is one bit, and the status bits do not overlap.
- `sdhc_mmio.dfy` is the register layer:
  - a register file with an ordered log of writes;
  - the fixed write sequences of the register helpers;
  - a `RegisterBlock` class whose methods issue them.
- `sdhc_logic.dfy` holds the pure computations: the clock divider, the card option, the
  command word, the error classification and the 136-bit response repack.
- `sdhc_spec.dfy` gives each driver function as a transition of the host state. The host
  state is the registers, the request slot, the scatter cursor, the notifications and
  the FIFO transfers. `sdhc_host.dfy` has the driver's functions as methods of a `Host`
  class that update that state step by step. Each method is proved to reach the state
  its specification function gives.
- `sdhc_props.dfy` states what each entry point does.
- `sdhc_lifecycle.dfy` proves the request-lifecycle invariant over any sequence of entry
  points, interleaved with arbitrary changes in the controller's registers.
- `pxi_defs.dfy` holds the command encoding and the direction tests.
- `pxi_transport.dfy` holds the single command and the batch:
  - as functions over a `Link` that says what each FIFO operation does;
  - as the `PxiHost` methods;
  - lemmas about how batches compose.
- `pxi_prng.dfy` holds the chunked PRNG read, as a specification function and as the
  `Prng.Read` loop.

Two source behaviours are modelled as the code has them, not corrected:
- **Empty slot at data end.** `ctr_sdhc_dataend_irq` reads `host->mrq->data` before it
  looks at the status. Earlier in the same interrupt run, the response handler may
  already have emptied the slot. The model gives this run the outcome `NullRequestRead`.
  `SdhcProps.IrqNullRequestRead` states exactly when it happens.
- **A second request replaces the first.** `ctr_sdhc_request` only warns when one is
  already in flight. The old request is then dropped, not failed. The model's warning
  records the request the slot held, and the lifecycle counts that warning as settling it.

## Model

| member | source | states |
|---|---|---|
| Common.Min | drivers/platform/nintendo3ds/pxi/ctr_prng.c:64 | `min(a, b)` is at most both arguments and equals one of them |
| ScatterList.Start | drivers/platform/nintendo3ds/ctr_sdhc.c:317-322 | `sg_miter_start` gives a well-formed cursor over the list, in the copy direction asked for, with all of the list's bytes remaining |
| ScatterList.Settle | drivers/platform/nintendo3ds/ctr_sdhc.c:145 | skipping fully consumed entries keeps the remaining byte count and lands on an entry with bytes left, or at the end of the list |
| ScatterList.Next | drivers/platform/nintendo3ds/ctr_sdhc.c:145-151 | `sg_miter_next` returns nothing exactly when no byte remains. Otherwise the piece lies inside one entry, is 1 to PAGE_SIZE bytes long and starts at the first unconsumed byte |
| ScatterList.Consume | drivers/platform/nintendo3ds/ctr_sdhc.c:161-162 | setting `consumed` and stopping the iterator reduces the remaining bytes by exactly the count consumed |
| SdhcLayout.HasUnion | drivers/platform/nintendo3ds/ctr_sdhc.c:205 | the status meets `CARDREMOVE \| CARDINSERT` exactly when it has one of the two bits |
| SdhcLayout.ComplementZeroAt | drivers/platform/nintendo3ds/ctr_sdhc_mmio.c:111 | the complement of a value is zero at a bit exactly where the value is one |
| SdhcMmio.Commit | drivers/platform/nintendo3ds/ctr_sdhc_mmio.c:16-31 | writing registers in order only adds registers to the file, never removes one |
| SdhcMmio.CommitLast | drivers/platform/nintendo3ds/ctr_sdhc_mmio.c:16-31 | after a sequence of writes, a register holds the value of the last write to it |
| SdhcMmio.CommitUnwritten | drivers/platform/nintendo3ds/ctr_sdhc_mmio.c:16-31 | a register that no write names keeps its value, or stays absent |
| SdhcMmio.CommitAppend | drivers/platform/nintendo3ds/ctr_sdhc_mmio.c:16-31 | two batches of writes leave the same file as the whole sequence written at once |
| SdhcMmio.SdioIrqTest | drivers/platform/nintendo3ds/ctr_sdhc_mmio.c:121-131 | pending exactly when bit 0 of `CARD_IRQ_STAT` is set. Then the one write stores the state with bit 0 cleared and every other bit kept; otherwise nothing is written |
| SdhcMmio.GetResp | drivers/platform/nintendo3ds/ctr_sdhc_mmio.c:90-96 | entries `i < n` become response register `i`; the other entries are untouched |
| SdhcMmio.ResetClears | drivers/platform/nintendo3ds/ctr_sdhc_mmio.c:34-50 | reset writes soft reset 0 and then 1, and leaves 1 there. Clock control, stop-internal and both block length/count pairs end at 0 |
| SdhcMmio.ResetMasks | drivers/platform/nintendo3ds/ctr_sdhc_mmio.c:58-62 | after reset the interrupt mask is `~SDHC_IRQMASK` and the card option is the default |
| SdhcMmio.ResetLast | drivers/platform/nintendo3ds/ctr_sdhc_mmio.c:34-64 | every reset write after the first is the last one to its register |
| SdhcMmio.ResetSilent | drivers/platform/nintendo3ds/ctr_sdhc_mmio.c:34-64 | reset leaves the command, argument, response and card-interrupt registers alone |
| SdhcMmio.BlkLenCntEffect | drivers/platform/nintendo3ds/ctr_sdhc_mmio.c:80-88 | the same length and the same count end up in both the 16-bit and the 32-bit register pairs |
| SdhcMmio.AckClearsExactly | drivers/platform/nintendo3ds/ctr_sdhc_mmio.c:109-113 | the acknowledge writes `IRQ_STAT` with a zero exactly at the bits acknowledged, so it clears those bits and no others |
| SdhcMmio.RegisterBlock.constructor | drivers/platform/nintendo3ds/ctr_sdhc_mmio.c:11-31 | a register window over the given file, with an empty log |
| SdhcMmio.RegisterBlock.Reg16Set | drivers/platform/nintendo3ds/ctr_sdhc_mmio.c:16-20 | one 16-bit write, applied to the file and appended to the log |
| SdhcMmio.RegisterBlock.Reg32Set | drivers/platform/nintendo3ds/ctr_sdhc_mmio.c:27-31 | one 32-bit write, applied to the file and appended to the log |
| SdhcMmio.RegisterBlock.Program | drivers/platform/nintendo3ds/ctr_sdhc_mmio.c:34-142 | issues a write sequence one write at a time; the file is the sequence applied in order and the log grows by exactly that sequence |
| SdhcMmio.RegisterBlock.Reset | drivers/platform/nintendo3ds/ctr_sdhc_mmio.c:34-64 | issues exactly the fifteen reset writes, in order |
| SdhcMmio.RegisterBlock.SetClkOpt | drivers/platform/nintendo3ds/ctr_sdhc_mmio.c:66-71 | writes `CARD_CLKCTL`, then `CARD_OPTION`, and nothing else |
| SdhcMmio.RegisterBlock.SendCmdArg | drivers/platform/nintendo3ds/ctr_sdhc_mmio.c:73-78 | writes the argument register strictly before the command register, and nothing else |
| SdhcMmio.RegisterBlock.SetBlkLenCnt | drivers/platform/nintendo3ds/ctr_sdhc_mmio.c:80-88 | writes the 16-bit length and count, then the 32-bit length and count |
| SdhcMmio.RegisterBlock.StopInternalSet | drivers/platform/nintendo3ds/ctr_sdhc_mmio.c:98-102 | one write to `STOP_INTERNAL` |
| SdhcMmio.RegisterBlock.IrqStatAck | drivers/platform/nintendo3ds/ctr_sdhc_mmio.c:109-113 | one write of `~ack` to `IRQ_STAT` |
| SdhcMmio.RegisterBlock.IrqMaskSet | drivers/platform/nintendo3ds/ctr_sdhc_mmio.c:115-119 | one write of the mask to `IRQ_MASK` |
| SdhcMmio.RegisterBlock.SdioIrqSet | drivers/platform/nintendo3ds/ctr_sdhc_mmio.c:133-142 | writes 0 to `CARD_IRQ_STAT`, then `~1` to the card interrupt mask when enabling and `~0` otherwise |
| SdhcMmio.RegisterBlock.SdioIrqTestAck | drivers/platform/nintendo3ds/ctr_sdhc_mmio.c:121-131 | the read-modify-write of `sdioirq_test`: its answer and its writes are those of `SdioIrqTest` on the register's value at entry |
| SdhcMmio.RegisterBlock.GetRespInto | drivers/platform/nintendo3ds/ctr_sdhc_mmio.c:90-96 | the loop fills `resp[i]` from response register `i` for `i < n` and leaves the rest of the array as it was |
| SdhcLogic.Pow2 | drivers/platform/nintendo3ds/ctr_sdhc.c:57 | a power of two is at least 1 |
| SdhcLogic.CeilLog2 | drivers/platform/nintendo3ds/ctr_sdhc.c:57 | the exponent of the least power of two that is at least `n` |
| SdhcLogic.RoundupPowOfTwo | drivers/platform/nintendo3ds/ctr_sdhc.c:57 | `roundup_pow_of_two(n)` is a power of two, at least `n` and below `2n` |
| SdhcLogic.DividerCode | drivers/platform/nintendo3ds/ctr_sdhc.c:54-57 | the divider code is 0 for ratios up to 2. Otherwise four times the code is the least power of two not below the ratio: a power of two with `div <= 4c < 2 div` |
| SdhcLogic.DividerCodeFits | drivers/platform/nintendo3ds/ctr_sdhc.c:57 | for a ratio up to 512 the code fits the 8-bit divider field |
| SdhcLogic.ClockCodeFits | drivers/platform/nintendo3ds/ctr_sdhc.c:57 | for a ratio up to 512 the `u16` truncation leaves the code unchanged and inside the low byte |
| SdhcLogic.ClockWordPins | drivers/platform/nintendo3ds/ctr_sdhc.c:58-61 | a running clock always has the enable pin, and the freeze pin whenever it is asked for |
| SdhcLogic.ClockWordFields | drivers/platform/nintendo3ds/ctr_sdhc.c:57-61 | with the code in the low byte, the word gives back the code, has the freeze pin exactly when asked, and sets no bit outside the code and the two pins |
| SdhcLogic.ClockControlFields | drivers/platform/nintendo3ds/ctr_sdhc.c:53-61 | for a nonzero clock and a ratio up to 512, the low byte is the divider code of `rate / clock` and the enable pin is set. `PIN_FREEZE` is set exactly when the clock is at least 5 MHz. No other bit is set |
| SdhcLogic.DividerExample | drivers/platform/nintendo3ds/ctr_sdhc.c:57 | a ratio of 8 gives divider code 2 |
| SdhcLogic.ClockExample | drivers/platform/nintendo3ds/ctr_sdhc.c:53-61 | a 16 MHz source and a 2 MHz card clock give code 2 with the enable pin and no freeze |
| SdhcLogic.CardOptionValue | drivers/platform/nintendo3ds/ctr_sdhc.c:66-76 | no value exactly for a width other than 1 or 4 bits; otherwise `DEFAULT_CARDOPT` with the matching width bit |
| SdhcLogic.SetIosEffect | drivers/platform/nintendo3ds/ctr_sdhc.c:49-84 | nothing is written exactly for an unsupported width. Otherwise it writes the clock control and then the card option. With the power off the clock control is 0, whatever clock was asked for; otherwise it is the computed clock control |
| SdhcLogic.RspCodeOutsideField | drivers/platform/nintendo3ds/ctr_sdhc.c:348-368 | the response-kind code (including none for an unknown kind) has no bit in the opcode and flag field |
| SdhcLogic.CommandWordParts | drivers/platform/nintendo3ds/ctr_sdhc.c:329-368 | the opcode of every command lies in bits 0-5 and its response code lies outside the opcode and flag field |
| SdhcLogic.OpcodeField | drivers/platform/nintendo3ds/ctr_sdhc.c:329 | an opcode below 64 lies in bits 0-5 |
| SdhcLogic.NormalSecureFlag | drivers/platform/nintendo3ds/ctr_sdhc.c:371-372 | `SECURE` is set in the word exactly when it was picked |
| SdhcLogic.NormalAppFlag | drivers/platform/nintendo3ds/ctr_sdhc.c:374-375 | `APP` is set in the word exactly when it was picked |
| SdhcLogic.NormalDataXferFlag | drivers/platform/nintendo3ds/ctr_sdhc.c:377-379 | `DATA_XFER` is set in the word exactly when it was picked |
| SdhcLogic.NormalDataMultiFlag | drivers/platform/nintendo3ds/ctr_sdhc.c:381-385 | `DATA_MULTI` is set in the word exactly when it was picked |
| SdhcLogic.NormalDataReadFlag | drivers/platform/nintendo3ds/ctr_sdhc.c:387-388 | `DATA_READ` is set in the word exactly when it was picked |
| SdhcLogic.NormalOpcode | drivers/platform/nintendo3ds/ctr_sdhc.c:329 | bits 0-5 of the word are the opcode |
| SdhcLogic.NormalRsp | drivers/platform/nintendo3ds/ctr_sdhc.c:348-368 | the bits of the word outside the opcode and flag field are the response code |
| SdhcLogic.NormalFields | drivers/platform/nintendo3ds/ctr_sdhc.c:329-393 | every field of the command word gives back its part: the opcode, the response code, and each flag exactly when its condition was picked. `CommandWord` picks `SECURE` for `SD_IO_RW_DIRECT`/`EXTENDED`, `APP` for `MMC_APP_CMD`, `DATA_XFER` with data, `DATA_MULTI` for more than one block and `DATA_READ` for a read |
| SdhcLogic.TimeoutIsError | drivers/platform/nintendo3ds/ctr_sdhc.c:31-34 | a command-timeout bit in the status is one of the `SDHC_ERR_MASK` bits |
| SdhcLogic.CrcIsError | drivers/platform/nintendo3ds/ctr_sdhc.c:31-34 | a CRC-failure bit in the status is one of the `SDHC_ERR_MASK` bits |
| SdhcLogic.ClassifyCodes | drivers/platform/nintendo3ds/ctr_sdhc.c:238-248 | the code is 0, `-ETIMEDOUT`, `-EILSEQ` or `-EIO`. It is `-ETIMEDOUT` exactly on a command timeout, and `-EILSEQ` exactly on a CRC failure without a timeout |
| SdhcLogic.ClassifyNoError | drivers/platform/nintendo3ds/ctr_sdhc.c:238-248 | the code is 0 exactly when no `SDHC_ERR_MASK` bit is set |
| SdhcLogic.Repack136 | drivers/platform/nintendo3ds/ctr_sdhc.c:184-188 | the repacked response has its CRC byte position zero |
| SdhcLogic.Repack136Shift | drivers/platform/nintendo3ds/ctr_sdhc.c:184-188 | read as one 128-bit value, most significant word first, the repacked response is the hardware's four registers, word 3 highest, shifted left by 8 |
| SdhcSpec.Emit | drivers/platform/nintendo3ds/ctr_sdhc_mmio.c:16-31 | issuing writes changes only the file (the writes applied in order) and the log (grown by them), and keeps the state well formed |
| SdhcSpec.DataIrq | drivers/platform/nintendo3ds/ctr_sdhc.c:120-164 | the data pump keeps the state well formed; its effect is `SdhcProps.DataIrqEffect` |
| SdhcSpec.RespEndIrq | drivers/platform/nintendo3ds/ctr_sdhc.c:166-201 | response end keeps the state well formed; its effect is `SdhcProps.RespEndEffect` |
| SdhcSpec.CardHotplugIrq | drivers/platform/nintendo3ds/ctr_sdhc.c:203-214 | hotplug keeps the state well formed; its effect is `SdhcProps.HotplugEffect` |
| SdhcSpec.ServiceRequest | drivers/platform/nintendo3ds/ctr_sdhc.c:238-262 | servicing keeps the state well formed; its effect is `SdhcProps.ServiceWithData`/`ServiceWithoutData`/`IrqSeriousError` |
| SdhcSpec.IrqThread | drivers/platform/nintendo3ds/ctr_sdhc.c:216-267 | the interrupt thread keeps the state well formed; its effect is `SdhcProps.IrqEntry` and the `Irq*` lemmas |
| SdhcSpec.Dispatch | drivers/platform/nintendo3ds/ctr_sdhc.c:230-262 | the dispatch after the acknowledgement keeps the state well formed; its cases are `SdhcProps.DispatchCases` |
| SdhcSpec.StartData | drivers/platform/nintendo3ds/ctr_sdhc.c:308-324 | starting data keeps the state well formed; its writes are in `SdhcProps.StartCommand` |
| SdhcSpec.StartMrq | drivers/platform/nintendo3ds/ctr_sdhc.c:326-394 | starting a request keeps the state well formed; its effect is `SdhcProps.StartStop` and `SdhcProps.StartCommand` |
| SdhcSpec.HandleRequest | drivers/platform/nintendo3ds/ctr_sdhc.c:396-413 | a submission keeps the state well formed; its effect is `SdhcProps.SubmitWithoutCard`, `SubmitStop` and `SubmitCommand` |
| SdhcSpec.SdioIrqThread | drivers/platform/nintendo3ds/ctr_sdhc.c:417-429 | the SDIO thread keeps the state well formed; its effect is `SdhcProps.SdioIrqEffect` |
| SdhcSpec.EnableSdioIrq | drivers/platform/nintendo3ds/ctr_sdhc.c:431-437 | enabling or disabling the SDIO interrupt keeps the state well formed |
| SdhcSpec.SetIos | drivers/platform/nintendo3ds/ctr_sdhc.c:49-84 | the bus settings keep the state well formed; they issue exactly the writes `SdhcLogic.SetIosEffect` characterises |
| SdhcProps.FinishRequestEffect | drivers/platform/nintendo3ds/ctr_sdhc.c:86-98 | no effect with an empty slot. Otherwise the slot is emptied and the request notified exactly once: with `err` on its command when `err < 0`, else with its earlier error kept. No register, cursor or FIFO change |
| SdhcProps.SubmitWithoutCard | drivers/platform/nintendo3ds/ctr_sdhc.c:400-404 | with no card the request completes at once with `-ENOMEDIUM`; the slot is unchanged and no register is written |
| SdhcProps.StartStop | drivers/platform/nintendo3ds/ctr_sdhc.c:331-346 | `STOP_TRANSMISSION` writes only `STOP_INTERNAL_ISSUE`, fakes the response `{opcode, 0, 0, 0}` and completes the request |
| SdhcProps.SubmitStop | drivers/platform/nintendo3ds/ctr_sdhc.c:396-413 | a submitted `STOP_TRANSMISSION` with a card present writes only `STOP_INTERNAL_ISSUE` (never the command or argument register), warns if the slot was occupied and completes with response `{opcode, 0, 0, 0}` |
| SdhcProps.StartCommand | drivers/platform/nintendo3ds/ctr_sdhc.c:348-393 | any other command writes, in order: the automatic stop for more than one block, the block length and count, the argument, then the command word. The slot and notifications are unchanged; the cursor starts over the request's list when there is data |
| SdhcProps.SubmitCommand | drivers/platform/nintendo3ds/ctr_sdhc.c:396-413 | with a card present the new request takes the slot; an occupied slot only adds the warning and its request is overwritten. Then the writes of `StartCommand` |
| SdhcProps.MultiBlockTogether | drivers/platform/nintendo3ds/ctr_sdhc.c:381-390 | `STOP_INTERNAL_ENABLE` is written exactly when blocks > 1, the same test that sets `DATA_MULTI`; the block length and count are the last set-up writes |
| SdhcProps.BytesXferedValue | drivers/platform/nintendo3ds/ctr_sdhc.c:112 | `bytes_xfered` is 0 after a data error and `blocks * blksz` otherwise (when the product fits 32 bits) |
| SdhcProps.DataEndEffect | drivers/platform/nintendo3ds/ctr_sdhc.c:100-118 | without `DATA_END` or without data nothing changes. Otherwise it sets `bytes_xfered`, writes stop-internal 0 and completes the request with the data's error |
| SdhcProps.DataEndEmptySlot | drivers/platform/nintendo3ds/ctr_sdhc.c:102 | with an empty slot data end faults at its first line, whatever the status |
| SdhcProps.DataIrqEffect | drivers/platform/nintendo3ds/ctr_sdhc.c:120-164 | no change without data, with the FIFO not ready, or with the list exhausted. Otherwise one FIFO transfer of `min(length, blksz) / 4` words at the mapped piece. The cursor becomes `Consume` of that piece by exactly `min(length, blksz)` bytes: same list, same direction, that many bytes further on. The request, registers and notifications are untouched |
| SdhcProps.CapturedShortResponse | drivers/platform/nintendo3ds/ctr_sdhc.c:179-191 | with no response, all words are kept; with a short one, word 0 comes from response register 0 and words 1-3 are kept |
| SdhcProps.CapturedLongResponse | drivers/platform/nintendo3ds/ctr_sdhc.c:179-188 | a 136-bit response is the repack of the four response registers, read in order 0..3 |
| SdhcProps.RespEndEffect | drivers/platform/nintendo3ds/ctr_sdhc.c:166-201 | nothing without `CMDRESPEND`. Otherwise the response is captured and no register is written. A request with data stays in flight; one without completes with 0, keeping any error on its command |
| SdhcProps.HotplugEffect | drivers/platform/nintendo3ds/ctr_sdhc.c:203-214 | answers true exactly when an insert or remove bit is set, and then: reset, `-ENOMEDIUM` completion only without `CARDPRESENT`, one detect notification. Otherwise nothing changes |
| SdhcProps.ServicePumped | drivers/platform/nintendo3ds/ctr_sdhc.c:250-262 | after no error or a timeout, the error is recorded on the command and the data pump runs before the response and data-end handlers |
| SdhcProps.ServiceWithoutData | drivers/platform/nintendo3ds/ctr_sdhc.c:250-262 | a request without data gets the error and, at `CMDRESPEND`, its response, then completes, and data end reads the emptied slot. Without `CMDRESPEND` it stays in flight |
| SdhcProps.ServiceWithData | drivers/platform/nintendo3ds/ctr_sdhc.c:250-262 | a request with data gets the error and, at `CMDRESPEND`, its response. At `DATA_END` the automatic stop is cleared and the request completes with its byte count |
| SdhcProps.IrqEntry | drivers/platform/nintendo3ds/ctr_sdhc.c:224-228 | the thread first acknowledges exactly `irqstat & SDHC_IRQMASK`, then dispatches on the status it read |
| SdhcProps.DispatchCases | drivers/platform/nintendo3ds/ctr_sdhc.c:231-262 | a hotplug event is handled and nothing else runs. An empty slot ends the thread. Otherwise the request is serviced |
| SdhcProps.IrqHotplug | drivers/platform/nintendo3ds/ctr_sdhc.c:224-232 | on insert or remove: the acknowledgement, the reset, `-ENOMEDIUM` completion only if the card is absent, the detect notification, and nothing more |
| SdhcProps.IrqIdle | drivers/platform/nintendo3ds/ctr_sdhc.c:235-236 | with no hotplug and an empty slot, the acknowledgement is all that happens |
| SdhcProps.IrqSeriousError | drivers/platform/nintendo3ds/ctr_sdhc.c:238-258 | a CRC or other error without a timeout is recorded on the command as `-EILSEQ` or `-EIO`. The request stays in flight and nothing runs after it |
| SdhcProps.IrqNullRequestRead | drivers/platform/nintendo3ds/ctr_sdhc.c:100-262 | the thread reads the emptied slot exactly when there is no hotplug, no error or a timeout, a request without data and `CMDRESPEND` |
| SdhcProps.IrqErrorOnCommand | drivers/platform/nintendo3ds/ctr_sdhc.c:250-258 | a classified error goes on `cmd->error` and never on `data->error`. It survives completion unless data end finishes the request with a negative data error |
| SdhcProps.IrqWrites | drivers/platform/nintendo3ds/ctr_sdhc.c:216-267 | every write of the thread: the acknowledgement, then the reset on hotplug or stop-internal 0 at data end, and nothing else |
| SdhcProps.SdioIrqEffect | drivers/platform/nintendo3ds/ctr_sdhc.c:417-429 | answers handled exactly when bit 0 of `CARD_IRQ_STAT` is set. Then the only write clears that bit and keeps the others, and the SDIO interrupt is signalled once; otherwise nothing changes |
| SdhcLifecycle.Step | drivers/platform/nintendo3ds/ctr_sdhc.c:216-437 | each entry point keeps the host state well formed |
| SdhcLifecycle.Run | drivers/platform/nintendo3ds/ctr_sdhc.c:216-437 | any sequence of entry points keeps the host state well formed |
| SdhcLifecycle.SubmitBalance | drivers/platform/nintendo3ds/ctr_sdhc.c:396-413 | a submission adds exactly the submitted request to the ledger (settled requests plus the one in flight, each up to the fields the driver fills in): refused without a card, handed back for `STOP_TRANSMISSION`, or taking the slot. A request it drops from the slot moves to the settled ones through its warning |
| SdhcLifecycle.TakeSlot | drivers/platform/nintendo3ds/ctr_sdhc.c:406-410 | taking the slot for a request, with a warning that records the request it held, adds exactly the new request to the ledger |
| SdhcLifecycle.FinishBalance | drivers/platform/nintendo3ds/ctr_sdhc.c:86-98 | handing back the request in flight, changed only in the fields the driver fills in, moves it from the slot to the settled ones and keeps the ledger |
| SdhcLifecycle.HotplugBalance | drivers/platform/nintendo3ds/ctr_sdhc.c:203-214 | hotplug keeps the ledger: a request failed with `-ENOMEDIUM` moves from the slot to the settled ones, the change notification settles nothing |
| SdhcLifecycle.ServiceBalance | drivers/platform/nintendo3ds/ctr_sdhc.c:238-262 | servicing keeps the ledger: the request in flight stays there or is handed back once, in both cases the same request as submitted up to the fields the driver fills in |
| SdhcLifecycle.IrqBalance | drivers/platform/nintendo3ds/ctr_sdhc.c:216-267 | the interrupt thread keeps the ledger: it starts no request, and drops or duplicates none |
| SdhcLifecycle.SdioBalance | drivers/platform/nintendo3ds/ctr_sdhc.c:417-429 | the SDIO thread keeps the ledger |
| SdhcLifecycle.StepBalance | drivers/platform/nintendo3ds/ctr_sdhc.c:216-437 | an entry point adds its request to the ledger when it is a submission and otherwise keeps it |
| SdhcLifecycle.RunBalance | drivers/platform/nintendo3ds/ctr_sdhc.c:216-437 | over any run, the ledger grows by exactly the multiset of submitted requests |
| SdhcLifecycle.FromIdle | drivers/platform/nintendo3ds/ctr_sdhc.c:216-437 | from an idle host, after any run, the requests handed back, the requests dropped with a warning and the one in flight are, as a multiset and up to the fields the driver fills in, exactly the submitted requests; so their numbers agree too |
| SdhcLifecycle.OnlySubmitted | drivers/platform/nintendo3ds/ctr_sdhc.c:216-437 | from an idle host, every request handed back or dropped, and the one in flight, is one of the submitted requests |
| SdhcHost.Host.constructor | drivers/platform/nintendo3ds/ctr_sdhc.c:86-437 | an idle, well-formed host: empty slot, no notifications, no transfers |
| SdhcHost.Host.FinishRequest | drivers/platform/nintendo3ds/ctr_sdhc.c:86-98 | ends in the state `SdhcSpec.FinishRequest` gives |
| SdhcHost.Host.DataEndIrq | drivers/platform/nintendo3ds/ctr_sdhc.c:100-118 | ends in the state and outcome `SdhcSpec.DataEndIrq` gives |
| SdhcHost.Host.DataIrq | drivers/platform/nintendo3ds/ctr_sdhc.c:120-164 | ends in the state `SdhcSpec.DataIrq` gives |
| SdhcHost.Host.ReadResponse | drivers/platform/nintendo3ds/ctr_sdhc.c:179-192 | returns the response `CapturedResponse` specifies |
| SdhcHost.Host.ReadLongResponse | drivers/platform/nintendo3ds/ctr_sdhc.c:180-188 | returns the repack of the four response registers |
| SdhcHost.Host.ReadShortResponse | drivers/platform/nintendo3ds/ctr_sdhc.c:189-190 | returns the old response with word 0 replaced by response register 0 |
| SdhcHost.Host.RespEndIrq | drivers/platform/nintendo3ds/ctr_sdhc.c:166-201 | ends in the state `SdhcSpec.RespEndIrq` gives |
| SdhcHost.Host.ResetAfterHotplug | drivers/platform/nintendo3ds/ctr_sdhc.c:209-212 | the reset writes, the `-ENOMEDIUM` completion when the card is absent, then the detect notification |
| SdhcHost.Host.CardHotplugIrq | drivers/platform/nintendo3ds/ctr_sdhc.c:203-214 | ends in the state and answer `SdhcSpec.CardHotplugIrq` gives |
| SdhcHost.Host.IrqThread | drivers/platform/nintendo3ds/ctr_sdhc.c:216-267 | ends in the state and outcome `SdhcSpec.IrqThread` gives |
| SdhcHost.Host.Acknowledge | drivers/platform/nintendo3ds/ctr_sdhc.c:224-228 | returns the status at entry and writes only its acknowledgement |
| SdhcHost.Host.Dispatch | drivers/platform/nintendo3ds/ctr_sdhc.c:230-262 | ends in the state and outcome `SdhcSpec.Dispatch` gives |
| SdhcHost.Host.Service | drivers/platform/nintendo3ds/ctr_sdhc.c:238-262 | ends in the state and outcome `SdhcSpec.ServiceRequest` gives |
| SdhcHost.Host.GetCd | drivers/platform/nintendo3ds/ctr_sdhc.c:291-294 | answers whether the card-present status bit is set |
| SdhcHost.Host.GetRo | drivers/platform/nintendo3ds/ctr_sdhc.c:286 | answers whether the write-protect status bit is clear |
| SdhcHost.Host.StartData | drivers/platform/nintendo3ds/ctr_sdhc.c:308-324 | ends in the state `SdhcSpec.StartData` gives |
| SdhcHost.Host.StartMrq | drivers/platform/nintendo3ds/ctr_sdhc.c:326-394 | ends in the state `SdhcSpec.StartMrq` gives |
| SdhcHost.Host.IssueStop | drivers/platform/nintendo3ds/ctr_sdhc.c:331-346 | the `STOP_TRANSMISSION` branch ends in the state `SdhcSpec.StartMrq` gives |
| SdhcHost.Host.IssueCommand | drivers/platform/nintendo3ds/ctr_sdhc.c:348-393 | the branch for other commands ends in the state `SdhcSpec.StartMrq` gives |
| SdhcHost.Host.Request | drivers/platform/nintendo3ds/ctr_sdhc.c:396-413 | ends in the state `SdhcSpec.HandleRequest` gives, and stays well formed |
| SdhcHost.Host.SdioIrqThread | drivers/platform/nintendo3ds/ctr_sdhc.c:417-429 | ends in the state and answer `SdhcSpec.SdioIrqThread` gives |
| SdhcHost.Host.EnableSdioIrq | drivers/platform/nintendo3ds/ctr_sdhc.c:431-437 | ends in the state `SdhcSpec.EnableSdioIrq` gives |
| SdhcHost.Host.SetIos | drivers/platform/nintendo3ds/ctr_sdhc.c:49-84 | ends in the state `SdhcSpec.SetIos` gives |
| PxiDefs.ModeCodes | drivers/platform/nintendo3ds/ctr_pxi.h:13-23 | the seven modes are the distinct values 0..6 shifted left by 28, each inside the top nibble |
| PxiDefs.SizeCodes | drivers/platform/nintendo3ds/ctr_pxi.h:25-29 | the three sizes are the distinct values 0..2 shifted left by 24, each inside bits 24-25 |
| PxiDefs.FitsBits | drivers/platform/nintendo3ds/ctr_pxi.h:35 | a register under 1 MiB has no bit in the size or mode fields |
| PxiDefs.CmdFields | drivers/platform/nintendo3ds/ctr_pxi.h:35-36 | with its parts in their own fields, the command word gives back the mode (`cmd & 0xF0000000`), the size and the register |
| PxiDefs.DirectionExclusive | drivers/platform/nintendo3ds/ctr_pxi.c:14-29 | no command both receives and sends; `IRQMASK` and `IRQUNMASK` do neither |
| PxiDefs.CmdDirection | drivers/platform/nintendo3ds/ctr_pxi.c:14-29 | for a built command with a register under 1 MiB, it receives exactly for `READ`/`IRQGET` and sends an argument exactly for `WRITE`/`IOSET`/`IOCLR` |
| PxiDefs.WideRegisterMisread | drivers/platform/nintendo3ds/ctr_pxi.h:35-36 | beyond the 1 MiB limit the mode is misread: register bit 28 turns a `WRITE` into a receiving `READ` |
| PxiTransport.Code | drivers/platform/nintendo3ds/ctr_pxi_hw.c:83-99 | a FIFO primitive returns 0 exactly when it moved its word without error, else `-ETIMEDOUT` or `-EIO` |
| PxiTransport.FirstError | drivers/platform/nintendo3ds/ctr_pxi.c:38-48 | the result of the first FIFO operation in a range that is not clean, or 0: always 0, `-ETIMEDOUT` or `-EIO` |
| PxiTransport.FirstErrorClean | drivers/platform/nintendo3ds/ctr_pxi.c:38-48 | the first error of a range is 0 exactly when every operation in it is clean |
| PxiTransport.FirstErrorSplit | drivers/platform/nintendo3ds/ctr_pxi.c:104-111 | the first error of two consecutive ranges is that of the first range, or, if there is none, that of the second |
| PxiTransport.Batch | drivers/platform/nintendo3ds/ctr_pxi.c:104-111 | the loop leaves an argument array of the same size |
| PxiTransport.OneLawful | drivers/platform/nintendo3ds/ctr_pxi.c:31-51 | `pxi_cmd_one` returns the result of its first FIFO operation that is not clean, or 0. That is 0, `-ETIMEDOUT` or `-EIO`. It changes the argument only for a receiving command. It succeeds exactly when its FIFO operations (two for a sending or receiving command, else one) are clean. Then the command word goes out first, a sending command's argument goes out second, and a receiving command's argument holds the word received |
| PxiTransport.OneSendFails | drivers/platform/nintendo3ds/ctr_pxi.c:38-39 | when sending the command word fails, that error is returned at once, `*arg` is untouched and no second FIFO operation happens |
| PxiTransport.OneLaws | drivers/platform/nintendo3ds/ctr_pxi.c:31-51 | `OneLawful` for every wire, command and argument |
| PxiTransport.BatchSplit | drivers/platform/nintendo3ds/ctr_pxi.c:104-111 | commands run in index order and the first error stops the batch: a batch is its first part and, only if that succeeds, the rest |
| PxiTransport.BatchResult | drivers/platform/nintendo3ds/ctr_pxi.c:104-114 | the result is the failing command's error, which is the result of the first FIFO operation of the batch that is not clean, or 0 when there is none; only the arguments of receiving commands in the batch can change |
| PxiTransport.BatchClean | drivers/platform/nintendo3ds/ctr_pxi.c:104-114 | the batch returns 0 exactly when every FIFO operation its commands take is clean |
| PxiTransport.BatchWire | drivers/platform/nintendo3ds/ctr_pxi.c:104-111 | on success, the batch took exactly its commands' FIFO operations and sent each command word, followed by its argument for a sending command |
| PxiTransport.BatchOutside | drivers/platform/nintendo3ds/ctr_pxi.c:104-111 | a batch never writes an argument outside its own commands' entries |
| PxiTransport.BatchArgs | drivers/platform/nintendo3ds/ctr_pxi.c:104-111 | on success, each receiving command's argument holds the RX word of that command's second FIFO operation |
| PxiTransport.BatchShift | drivers/platform/nintendo3ds/ctr_pxi.c:104-111 | a batch depends only on the commands it runs and the arguments they use, not on where the arrays start |
| PxiTransport.PxiHost.constructor | drivers/platform/nintendo3ds/ctr_pxi_hw.c:83-99 | a host over the given link, before any FIFO operation |
| PxiTransport.PxiHost.TxOne | drivers/platform/nintendo3ds/ctr_pxi_hw.c:83-90 | sends as `Send` says: one FIFO operation, the word out unless it timed out, its result code |
| PxiTransport.PxiHost.RxOne | drivers/platform/nintendo3ds/ctr_pxi_hw.c:92-99 | receives as `Receive` says: one FIFO operation, the destination written unless it timed out, nothing else of the array touched |
| PxiTransport.PxiHost.CmdOne | drivers/platform/nintendo3ds/ctr_pxi.c:31-51 | ends as `One` says, writing at most `args[m]` of the array |
| PxiTransport.PxiHost.Cmd | drivers/platform/nintendo3ds/ctr_pxi.c:94-115 | `ctr_pxi_cmd` returns 0 with nothing sent for no commands. Otherwise its loop ends with the wire, arguments and result of `Batch` over the `ncmd` commands |
| PxiPrng.Reads | drivers/platform/nintendo3ds/pxi/ctr_prng.c:31-38 | `n` PRNG read commands in a row |
| PxiPrng.PrngCommand | drivers/platform/nintendo3ds/pxi/ctr_prng.c:31-40 | every table entry is `CMD(READ, WORD, 0x11000)`, its register is under 1 MiB, it receives one word and sends none, and the table has 8 entries |
| PxiPrng.ReadsOps | drivers/platform/nintendo3ds/pxi/ctr_prng.c:66 | PRNG reads take two FIFO operations each |
| PxiPrng.ReadsFrames | drivers/platform/nintendo3ds/pxi/ctr_prng.c:66 | PRNG reads put only their command words on the TX FIFO |
| PxiPrng.ChunksAsBatch | drivers/platform/nintendo3ds/pxi/ctr_prng.c:63-78 | the chunked loop (each chunk `min(8, remaining)` commands at the advanced pointer) leaves the same wire and buffer as one batch over the remaining words. It returns that batch's error, or the byte count of all the words |
| PxiPrng.ChunkStep | drivers/platform/nintendo3ds/pxi/ctr_prng.c:64-71 | a failing chunk ends the whole batch with its negative error; a successful one hands over the wire and buffer for the next |
| PxiPrng.ChunkIsSlice | drivers/platform/nintendo3ds/pxi/ctr_prng.c:64-66 | one chunk on the table is the slice of the batch of PRNG reads at the words it covers |
| PxiPrng.ReadFills | drivers/platform/nintendo3ds/pxi/ctr_prng.c:42-79 | a blocking read succeeds exactly when its `2 * (size/4)` FIFO operations are clean. It then returns `(size/4) * 4`, has sent one command per word, and word `j` holds the RX word of operation `2j + 1`. Otherwise it returns the first error, the result of the first of those operations that is not clean, `-ETIMEDOUT` or `-EIO`. Words from `size/4` on are never written |
| PxiPrng.BatchReadsResult | drivers/platform/nintendo3ds/pxi/ctr_prng.c:66-67 | a batch of `n` PRNG reads returns the result of the first of its `2n` FIFO operations that is not clean, or 0, so it fails unless all are clean; it writes only its own words |
| PxiPrng.BatchReadsWire | drivers/platform/nintendo3ds/pxi/ctr_prng.c:66 | a clean batch of `n` PRNG reads takes `2n` FIFO operations and sends the `n` command words |
| PxiPrng.BatchReadsArgs | drivers/platform/nintendo3ds/pxi/ctr_prng.c:66 | in a clean batch of PRNG reads, word `j` is the RX word of FIFO operation `2j + 1` |
| PxiPrng.Prng.constructor | drivers/platform/nintendo3ds/pxi/ctr_prng.c:42-47 | a PRNG device over the given PXI host |
| PxiPrng.Prng.Read | drivers/platform/nintendo3ds/pxi/ctr_prng.c:42-79 | with `!wait` it returns 0 and issues nothing. Otherwise the do-while loop ends with the wire, buffer and result of the chunked read, which `ReadFills` characterises |

## Left out

- Locks (`host->lock`, `fifo_lock`, `prng->lock`): each entry point is one atomic step, as the driver's locking makes it; concurrency is not modelled.
- `mdelay`, `might_sleep`, the `dev_*`/`pr_*` logging and `WARN_ON_ONCE` in `pxi_cmd_one`: no effect on state. The `WARN_ON` in `ctr_sdhc_request` is kept as the `InFlightWarning` notification. That notification also records the request the slot held, which the kernel's warning does not print, so that the lifecycle can account for the dropped request.
- Probe, remove and module registration of both drivers, `ctr_pxi_host_get`/`ctr_pxi_host_put`, and `ctr_pxi_irqc.c`: platform glue with no logic of the core.
- The lock wrappers `ctr_sdhc_set_ios`, `ctr_sdhc_get_ro`, `ctr_sdhc_get_cd` and `ctr_sdhc_enable_sdio_irq`: only their inner logic is modelled.
- `ctr_sdhc.h` is not part of this model. Its register offsets are the `Reg` constructors and its bit constants are the parameters of `Layout`. Properties hold for every layout that satisfies `Layout.Valid()`.
- The controller's behaviour is not modelled. Status, FIFO-control, card-interrupt and response registers hold whatever the controller presents; between entry points it may change any of them (`SdhcLifecycle.Op.Hardware`).
- The data moved through the SD FIFO: a transfer is recorded by direction, mapped piece and word count, and the buffer contents are not modelled.
- `clk_get_rate` is the input `rate`. `SdhcLogic.ClockControlFields` covers ratios up to 512, the range whose code fits the 8-bit divider field. For larger ratios the model keeps the driver's `u16` truncation but proves no field layout.
- `sg_miter_*` is modelled on segment offsets and lengths, with pieces split at page boundaries. Page mapping is not modelled.
- `mrq->cmd` is taken to be non-NULL, as the MMC core always supplies one, so the `if (cmd)` tests on it are not modelled.
- SdhcLogic.NormalFields: the command-word fields are stated for the normal form `NormalWord` over the conditions `CommandWord` passes, together with `CommandWordParts`, rather than as one lemma with `CommandWord` in its conclusion.
- Opcodes are the 6-bit values below 64 that the SD bus carries (`Mmc.Opcode`).
- The PXI hardware layer (`ctr_pxi_hw.c`): its wait queues, jiffy timeouts and the error-acknowledge register write are abstracted as a `Link`. A `Link` gives each FIFO operation's outcome and the word the RX FIFO holds.
- The PRNG buffer is a caller's array of 32-bit words. `size` is a `nat` and the result an unbounded `int`: the driver's `size_t` and `int` widths are not modelled, which is faithful for the buffer sizes the random-number core passes.
