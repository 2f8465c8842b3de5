/**
 * The parts of the Linux MMC core the SD host driver consumes: command and data
 * descriptors, the request that bundles them, the bus settings, and the constants
 * of the public Linux headers (opcodes, response flags, bus widths).
 */
module Mmc {
  import opened Common
  import opened ScatterList

  // command opcodes (linux/mmc/mmc.h, linux/mmc/sd.h, linux/mmc/sdio.h)
  const MMC_STOP_TRANSMISSION: nat := 12
  const SD_IO_RW_DIRECT: nat := 52
  const SD_IO_RW_EXTENDED: nat := 53
  const MMC_APP_CMD: nat := 55

  // response flags of mmc_command.flags (linux/mmc/core.h)
  const MMC_RSP_PRESENT: bv32 := 1
  const MMC_RSP_136: bv32 := 2
  const MMC_RSP_CRC: bv32 := 4
  const MMC_RSP_BUSY: bv32 := 8
  const MMC_RSP_OPCODE: bv32 := 16

  const MMC_RSP_NONE: bv32 := 0
  const MMC_RSP_R1: bv32 := MMC_RSP_PRESENT | MMC_RSP_CRC | MMC_RSP_OPCODE
  const MMC_RSP_R1B: bv32 := MMC_RSP_PRESENT | MMC_RSP_CRC | MMC_RSP_OPCODE | MMC_RSP_BUSY
  const MMC_RSP_R2: bv32 := MMC_RSP_PRESENT | MMC_RSP_136 | MMC_RSP_CRC
  const MMC_RSP_R3: bv32 := MMC_RSP_PRESENT

  /** `mmc_resp_type`: the response-describing bits of the command flags. */
  function RespType(flags: bv32): bv32 {
    flags & (MMC_RSP_PRESENT | MMC_RSP_136 | MMC_RSP_CRC | MMC_RSP_BUSY | MMC_RSP_OPCODE)
  }

  // struct mmc_ios values (linux/mmc/host.h)
  const MMC_BUS_WIDTH_1: nat := 0
  const MMC_BUS_WIDTH_4: nat := 2
  const MMC_POWER_OFF: nat := 0

  /** Opcodes are six bits wide on the SD bus. */
  type Opcode = x: nat | x < 64

  /** The four response words of a command. */
  type Response = s: seq<bv32> | |s| == 4 witness [0, 0, 0, 0]

  /** `struct mmc_command`: the fields the driver reads or writes. */
  datatype Command = Command(opcode: Opcode, arg: bv32, flags: bv32, resp: Response, error: int)

  /** `struct mmc_data`: `read` is `flags & MMC_DATA_READ`; `sg` is the scatter list. */
  datatype Data = Data(blksz: U32, blocks: U32, read: bool, sg: seq<Segment>,
                       bytesXfered: U32, error: int)

  /** `struct mmc_request`: a command and, for a transfer, its data. */
  datatype Request = Request(cmd: Command, data: Option<Data>)

  /** `struct mmc_ios`: the requested clock in Hz, bus width and power mode. */
  datatype Ios = Ios(clock: U32, busWidth: nat, powerMode: nat)
}
