/**
 * The PXI random number source (`pxi/ctr_prng.c`): a read of `size` bytes fills
 * `size / 4` words of the caller's buffer with `READ` commands on the PRNG register,
 * issued through `ctr_pxi_cmd` in chunks of at most eight.
 */
module PxiPrng {
  import opened Common
  import opened PxiDefs
  import opened PxiTransport

  /** The PRNG's register offset in `CTR_PXI_READ_PRNG`. */
  const PRNG_REG: bv32 := 0x11000

  /** `CTR_PXI_READ_PRNG`: read one word of the PRNG register. */
  const READ_PRNG: bv32 := Cmd(PXI_READ, PXI_WORD, PRNG_REG)

  /** `ctr_prng_get`: the command table each chunk is issued from. */
  const PRNG_GET: seq<bv32> := [READ_PRNG, READ_PRNG, READ_PRNG, READ_PRNG, READ_PRNG, READ_PRNG, READ_PRNG, READ_PRNG]

  /** `CTR_PXI_CMD_PRNG_BLKS`: the number of entries of `ctr_prng_get`. */
  const PRNG_BLKS: nat := |PRNG_GET|

  /** `n` PRNG reads in a row. */
  function Reads(n: nat): (r: seq<bv32>)
    ensures |r| == n && forall j | 0 <= j < n :: r[j] == READ_PRNG
  {
    seq(n, _ => READ_PRNG)
  }

  /** What a read leaves: the wire, the caller's buffer and the value returned. */
  datatype ReadResult = ReadResult(wire: Wire, buf: seq<bv32>, ret: int)

  /**
   * The do-while loop of `ctr_prng_read` with `total` words already filled and `rem`
   * left: one `ctr_pxi_cmd` of `min(8, rem)` commands into the buffer at `total`, then
   * stop on its error, or when nothing is left, or go on.
   */
  function Chunks(k: Link, w: Wire, buf: seq<bv32>, total: nat, rem: nat): ReadResult
    requires total + rem <= |buf|
    decreases rem
  {
    var count := Min(PRNG_BLKS, rem);
    var o := Batch(PxiCmdOne(k), w, PRNG_GET, buf, total, 0, count);
    if o.err != 0 then ReadResult(o.wire, o.args, if o.err < 0 then o.err else total * 4)
    else if rem - count == 0 then ReadResult(o.wire, o.args, (total + count) * 4)
    else Chunks(k, o.wire, o.args, total + count, rem - count)
  }

  /** `ctr_prng_read` of `size` bytes into `buf`, blocking when `wait`. */
  function PrngRead(k: Link, w: Wire, buf: seq<bv32>, size: nat, wait: bool): ReadResult
    requires size / 4 <= |buf|
  {
    if !wait then ReadResult(w, buf, 0) else Chunks(k, w, buf, 0, size / 4)
  }

  /**
   * Every command the read issues is `CTR_PXI_CMD(READ, WORD, 0x11000)`: its register
   * is under 1 MiB, and it receives one word and sends none.
   */
  lemma PrngCommand()
    ensures RegFits(PRNG_REG)
    ensures NeedsRx(READ_PRNG) && !NeedsTx(READ_PRNG) && Cost(READ_PRNG) == 2
    ensures PRNG_BLKS == 8 && forall j | 0 <= j < PRNG_BLKS :: PRNG_GET[j] == READ_PRNG
  {
    CmdDirection(PXI_READ, PXI_WORD, PRNG_REG);
  }

  /** The FIFO operations of PRNG reads `i .. n - 1`: two each. */
  lemma {:induction false} ReadsOps(n: nat, i: nat, j: nat)
    requires i <= j <= n
    ensures OpsOf(Reads(n), i, j) == 2 * (j - i)
    decreases j - i
  {
    PrngCommand();
    if i < j {
      ReadsOps(n, i + 1, j);
    }
  }

  /** The words PRNG reads `i .. n - 1` put on the TX FIFO: their command words. */
  lemma {:induction false} ReadsFrames(n: nat, buf: seq<bv32>, i: nat)
    requires i <= n <= |buf|
    ensures Frames(Reads(n), buf, 0, i, n) == Reads(n)[i..]
    decreases n - i
  {
    PrngCommand();
    if i < n {
      ReadsFrames(n, buf, i + 1);
      assert Reads(n)[i..] == [Reads(n)[i]] + Reads(n)[i + 1..];
    }
  }

  /**
   * Chunking does not show: from word `total` with `rem` left, the loop leaves the
   * wire and the buffer exactly as one batch of `rem` PRNG reads into words
   * `total .. total + rem - 1` would, and returns that batch's error, or the byte
   * count of all the words when it succeeds.
   */
  lemma {:induction false} ChunksAsBatch(k: Link, w: Wire, buf: seq<bv32>, total: nat, rem: nat, n: nat)
    requires total + rem == n <= |buf|
    ensures Chunks(k, w, buf, total, rem) == ReadOutcome(Batch(PxiCmdOne(k), w, Reads(n), buf, 0, total, n), n)
    decreases rem
  {
    var one := PxiCmdOne(k);
    var count := Min(PRNG_BLKS, rem);
    var o := Batch(one, w, PRNG_GET, buf, total, 0, count);
    ChunkStep(k, w, buf, total, rem, n);
    if o.err == 0 && rem - count != 0 {
      ChunksAsBatch(k, o.wire, o.args, total + count, rem - count, n);
    }
  }

  /**
   * A batch of PRNG reads from word `total` runs the loop's next chunk first: when
   * that chunk fails (with a negative code) the batch ends with it, otherwise the
   * batch goes on from where the chunk left the wire and the buffer.
   */
  lemma {:induction false} ChunkStep(k: Link, w: Wire, buf: seq<bv32>, total: nat, rem: nat, n: nat)
    requires total + rem == n <= |buf|
    ensures var one := PxiCmdOne(k); var count := Min(PRNG_BLKS, rem);
      var o := Batch(one, w, PRNG_GET, buf, total, 0, count);
      var b := Batch(one, w, Reads(n), buf, 0, total, n);
      && (o.err != 0 ==> b == o && o.err < 0)
      && (o.err == 0 ==> b == Batch(one, o.wire, Reads(n), o.args, 0, total + count, n))
  {
    var one := PxiCmdOne(k);
    var count := Min(PRNG_BLKS, rem);
    ChunkIsSlice(one, w, buf, total, count, n);
    BatchSplit(one, w, Reads(n), buf, 0, total, total + count, n);
    OneLaws(k);
    BatchResult(k, one, w, PRNG_GET, buf, total, 0, count);
  }

  /** The read's result after the batch `b` of `words` PRNG reads: its error, or the bytes it filled. */
  function ReadOutcome(b: Outcome, words: nat): ReadResult {
    ReadResult(b.wire, b.args, if b.err != 0 then b.err else words * 4)
  }

  /** One chunk of the loop is the slice `total .. total + count - 1` of a batch of PRNG reads. */
  lemma {:induction false} ChunkIsSlice(one: CmdStep, w: Wire, buf: seq<bv32>, total: nat, count: nat, n: nat)
    requires count <= PRNG_BLKS && total + count <= n <= |buf|
    ensures Batch(one, w, PRNG_GET, buf, total, 0, count) == Batch(one, w, Reads(n), buf, 0, total, total + count)
  {
    PrngCommand();
    assert PRNG_GET[0..count] == Reads(n)[total..total + count];
    BatchShift(one, w, Reads(n), PRNG_GET, buf, 0, total, total, 0, total + count);
  }

  /**
   * A blocking read of `size` bytes fills words `0 .. size / 4 - 1` of the buffer in
   * order: it succeeds exactly when each of its `2 * (size / 4)` FIFO operations is
   * clean, and then returns `(size / 4) * 4`, has sent one `READ_PRNG` per word, and
   * word `j` holds the RX word of FIFO operation `2 * j + 1`; otherwise it returns
   * the first error: `-ETIMEDOUT` or `-EIO`, the result of the first FIFO operation
   * that is not clean. Words past `size / 4` are never written.
   */
  lemma {:induction false} ReadFills(k: Link, w: Wire, buf: seq<bv32>, size: nat)
    requires size / 4 <= |buf|
    ensures var n := size / 4; var r := PrngRead(k, w, buf, size, true);
      && |r.buf| == |buf|
      && (r.ret >= 0 <==> AllClean(k, w.ops, 2 * n))
      && (r.ret < 0 ==> (r.ret == -ETIMEDOUT || r.ret == -EIO) && r.ret == FirstError(k, w.ops, 2 * n))
      && (r.ret >= 0 ==>
            && r.ret == n * 4
            && r.wire.ops == w.ops + 2 * n
            && r.wire.tx == w.tx + Reads(n)
            && forall j | 0 <= j < n :: r.buf[j] == k.rx(w.ops + 2 * j + 1))
      && forall m | n <= m < |buf| :: r.buf[m] == buf[m]
  {
    var n := size / 4;
    var b := Batch(PxiCmdOne(k), w, Reads(n), buf, 0, 0, n);
    ChunksAsBatch(k, w, buf, 0, n, n);
    BatchReadsResult(k, w, buf, n);
    if b.err == 0 {
      BatchReadsWire(k, w, buf, n);
      BatchReadsArgs(k, w, buf, n);
    }
  }

  /**
   * A batch of `n` PRNG reads fails with `-ETIMEDOUT` or `-EIO` unless all its `2 * n`
   * FIFO operations are clean, with the result of the first one that is not, and
   * writes only words below `n`.
   */
  lemma {:induction false} BatchReadsResult(k: Link, w: Wire, buf: seq<bv32>, n: nat)
    requires n <= |buf|
    ensures var b := Batch(PxiCmdOne(k), w, Reads(n), buf, 0, 0, n);
      && |b.args| == |buf|
      && (b.err == 0 <==> AllClean(k, w.ops, 2 * n))
      && (b.err == 0 || b.err == -ETIMEDOUT || b.err == -EIO)
      && b.err == FirstError(k, w.ops, 2 * n)
      && forall m | n <= m < |buf| :: b.args[m] == buf[m]
  {
    OneLaws(k);
    BatchResult(k, PxiCmdOne(k), w, Reads(n), buf, 0, 0, n);
    BatchClean(k, PxiCmdOne(k), w, Reads(n), buf, 0, 0, n);
    ReadsOps(n, 0, n);
  }

  /** A clean batch of `n` PRNG reads takes `2 * n` FIFO operations and sends the `n` command words. */
  lemma {:induction false} BatchReadsWire(k: Link, w: Wire, buf: seq<bv32>, n: nat)
    requires n <= |buf|
    ensures var b := Batch(PxiCmdOne(k), w, Reads(n), buf, 0, 0, n);
      b.err == 0 ==> b.wire.ops == w.ops + 2 * n && b.wire.tx == w.tx + Reads(n)
  {
    OneLaws(k);
    BatchWire(k, PxiCmdOne(k), w, Reads(n), buf, 0, 0, n);
    ReadsOps(n, 0, n);
    ReadsFrames(n, buf, 0);
  }

  /** In a clean batch of PRNG reads, word `j` is the RX word of FIFO operation `2 * j + 1`. */
  lemma {:induction false} BatchReadsArgs(k: Link, w: Wire, buf: seq<bv32>, n: nat)
    requires n <= |buf|
    ensures var b := Batch(PxiCmdOne(k), w, Reads(n), buf, 0, 0, n);
      b.err == 0 ==> forall j | 0 <= j < n :: b.args[j] == k.rx(w.ops + 2 * j + 1)
  {
    var cmds := Reads(n);
    var b := Batch(PxiCmdOne(k), w, cmds, buf, 0, 0, n);
    if b.err == 0 {
      forall j | 0 <= j < n
        ensures b.args[j] == k.rx(w.ops + 2 * j + 1)
      {
        assert NeedsRx(cmds[j]) by { PrngCommand(); }
        assert b.args[0 + j] == k.rx(w.ops + OpsOf(cmds, 0, j) + 1) by {
          OneLaws(k);
          BatchArgs(k, PxiCmdOne(k), w, cmds, buf, 0, 0, n);
        }
        ReadsOps(n, 0, j);
      }
    }
  }

  /** The PRNG device (`struct ctr_prng`) and the PXI host it reads through. */
  class Prng {
    const pxi: PxiHost

    constructor (pxi: PxiHost)
      ensures this.pxi == pxi
    {
      this.pxi := pxi;
    }

    /** `ctr_prng_read` into the word buffer `buf`. */
    method Read(buf: array<bv32>, size: nat, wait: bool) returns (ret: int)
      requires size / 4 <= buf.Length
      modifies pxi, buf
      ensures var r := PrngRead(pxi.link, old(pxi.State()), old(buf[..]), size, wait);
        pxi.State() == r.wire && buf[..] == r.buf && ret == r.ret
    {
      var rem: nat := size / 4;
      var total: nat := 0;
      if !wait {
        return 0;
      }
      var err := 0;
      while true
        invariant total + rem == size / 4
        invariant Chunks(pxi.link, pxi.State(), buf[..], total, rem)
               == Chunks(pxi.link, old(pxi.State()), old(buf[..]), 0, size / 4)
        decreases rem
      {
        var count := Min(PRNG_BLKS, rem);
        ghost var before := Chunks(pxi.link, pxi.State(), buf[..], total, rem);
        err := pxi.Cmd(PRNG_GET, buf, total, count);
        if err != 0 {
          break;
        }
        total := total + count;
        rem := rem - count;
        if rem == 0 {
          break;
        }
        assert before == Chunks(pxi.link, pxi.State(), buf[..], total, rem);
      }
      if err < 0 {
        return err;
      }
      return total * 4;
    }
  }
}
