/**
 * The PXI transport (`ctr_pxi.c`): a command word goes out on the TX FIFO, followed
 * by its argument for a sending command, or answered by a word from the RX FIFO for a
 * receiving one; a batch walks parallel command and argument arrays and stops at the
 * first error.
 *
 * The FIFO primitives `pxi_tx_one` and `pxi_rx_one` are given by a `Link`: what the
 * n-th FIFO operation does, and the word the RX FIFO holds for it.
 */
module PxiTransport {
  import opened Common
  import opened PxiDefs

  /**
   * One FIFO operation: it times out before touching the FIFO, or moves its word and
   * then reports the FIFO error flag.
   */
  datatype FifoOp = TimedOut | Moved(ioError: bool)

  /** The value `pxi_tx_one` / `pxi_rx_one` return for the operation. */
  function Code(f: FifoOp): (e: int)
    ensures e == 0 <==> f == Moved(false)
    ensures e == 0 || e == -ETIMEDOUT || e == -EIO
  {
    match f
    case TimedOut => -ETIMEDOUT
    case Moved(ioError) => if ioError then -EIO else 0
  }

  /** The far end of the FIFOs: the outcome of the n-th FIFO operation and the RX word it would read. */
  datatype Link = Link(op: nat -> FifoOp, rx: nat -> bv32)

  /** FIFO operations done so far, and the words put on the TX FIFO, in order. */
  datatype Wire = Wire(ops: nat, tx: seq<bv32>)

  /** `pxi_tx_one`: the new wire and the result. */
  function Send(k: Link, w: Wire, word: bv32): (Wire, int)
  {
    var f := k.op(w.ops);
    (Wire(w.ops + 1, if f.Moved? then w.tx + [word] else w.tx), Code(f))
  }

  /** `pxi_rx_one` into a location holding `arg`: the new wire, the location's new value and the result. */
  function Receive(k: Link, w: Wire, arg: bv32): (Wire, bv32, int)
  {
    var f := k.op(w.ops);
    (Wire(w.ops + 1, w.tx), if f.Moved? then k.rx(w.ops) else arg, Code(f))
  }

  /** `pxi_cmd_one`: send `cmd`, then send `arg` or receive into it as the command's mode says. */
  function One(k: Link, w: Wire, cmd: bv32, arg: bv32): (Wire, bv32, int) {
    var t := Send(k, w, cmd);
    if t.1 != 0 then (t.0, arg, t.1)
    else if NeedsTx(cmd) then
      var u := Send(k, t.0, arg);
      (u.0, arg, u.1)
    else if NeedsRx(cmd) then Receive(k, t.0, arg)
    else (t.0, arg, 0)
  }

  /** The FIFO operations a command takes when they all succeed. */
  function Cost(cmd: bv32): nat {
    if NeedsTx(cmd) || NeedsRx(cmd) then 2 else 1
  }

  /** The FIFO operations `from .. from + count - 1` all move their word without error. */
  ghost predicate AllClean(k: Link, from: nat, count: nat) {
    forall o: nat | from <= o < from + count :: k.op(o) == Moved(false)
  }

  /**
   * The result of the first FIFO operation among `from .. from + count - 1` that is
   * not clean, or 0 when all of them are: what a run of primitives that stops at its
   * first error returns.
   */
  function FirstError(k: Link, from: nat, count: nat): (e: int)
    ensures e == 0 || e == -ETIMEDOUT || e == -EIO
    decreases count
  {
    if count == 0 then 0
    else if k.op(from) != Moved(false) then Code(k.op(from))
    else FirstError(k, from + 1, count - 1)
  }

  /** No operation fails exactly when all of them are clean. */
  lemma {:induction false} FirstErrorClean(k: Link, from: nat, count: nat)
    ensures FirstError(k, from, count) == 0 <==> AllClean(k, from, count)
    decreases count
  {
    if count > 0 {
      FirstErrorClean(k, from + 1, count - 1);
      if k.op(from) == Moved(false) {
        assert AllClean(k, from, count) <==> AllClean(k, from + 1, count - 1);
      } else {
        assert !AllClean(k, from, count);
      }
    }
  }

  /** The first failure among `a + b` operations is among the first `a`, or else among the next `b`. */
  lemma {:induction false} FirstErrorSplit(k: Link, from: nat, a: nat, b: nat)
    ensures FirstError(k, from, a + b)
         == if FirstError(k, from, a) != 0 then FirstError(k, from, a) else FirstError(k, from + a, b)
    decreases a
  {
    if a > 0 {
      FirstErrorSplit(k, from + 1, a - 1, b);
    }
  }

  /** What one command does to the wire and to its argument, and its result: the shape of `pxi_cmd_one`. */
  type CmdStep = (Wire, bv32, bv32) -> (Wire, bv32, int)

  /** `pxi_cmd_one` over the link `k`. */
  function PxiCmdOne(k: Link): CmdStep {
    (w: Wire, cmd: bv32, arg: bv32) => One(k, w, cmd, arg)
  }

  /** What a batch leaves: the wire, the argument array and the result. */
  datatype Outcome = Outcome(wire: Wire, args: seq<bv32>, err: int)

  /**
   * The loop of `ctr_pxi_cmd` from command `i` up to `n`, each command run by `one`:
   * command `j` takes `cmds[j]` and the argument at `base + j`; the first error ends
   * the batch.
   */
  function Batch(one: CmdStep, w: Wire, cmds: seq<bv32>, args: seq<bv32>, base: nat, i: nat, n: nat): (r: Outcome)
    requires i <= n <= |cmds| && base + n <= |args|
    ensures |r.args| == |args|
    decreases n - i
  {
    if i == n then Outcome(w, args, 0)
    else
      var o := one(w, cmds[i], args[base + i]);
      var a := args[base + i := o.1];
      if o.2 != 0 then Outcome(o.0, a, o.2)
      else Batch(one, o.0, cmds, a, base, i + 1, n)
  }

  /** The FIFO operations commands `i .. n - 1` take when they all succeed. */
  function OpsOf(cmds: seq<bv32>, i: nat, n: nat): nat
    requires i <= n <= |cmds|
    decreases n - i
  {
    if i == n then 0 else Cost(cmds[i]) + OpsOf(cmds, i + 1, n)
  }

  /** The words commands `i .. n - 1` put on the TX FIFO when they all succeed. */
  function Frames(cmds: seq<bv32>, args: seq<bv32>, base: nat, i: nat, n: nat): seq<bv32>
    requires i <= n <= |cmds| && base + n <= |args|
    decreases n - i
  {
    if i == n then []
    else [cmds[i]] + (if NeedsTx(cmds[i]) then [args[base + i]] else []) + Frames(cmds, args, base, i + 1, n)
  }

  // ---------------------------------------------------------------- one command

  /**
   * What `pxi_cmd_one` guarantees for `cmd` and `arg` on the wire `w`, given its outcome
   * `r`: the result is that of its first FIFO operation that is not clean, or 0;
   * the argument changes only for a receiving
   * command; the command succeeds exactly when each of its FIFO operations is clean, and
   * then the command word and, for a sending command, the argument go out, and a
   * receiving command holds the word read by its second operation.
   */
  ghost predicate Lawful(k: Link, w: Wire, cmd: bv32, arg: bv32, r: (Wire, bv32, int)) {
    && (r.2 == 0 || r.2 == -ETIMEDOUT || r.2 == -EIO)
    && r.2 == FirstError(k, w.ops, Cost(cmd))
    && (!NeedsRx(cmd) ==> r.1 == arg)
    && (r.2 == 0 <==> AllClean(k, w.ops, Cost(cmd)))
    && (r.2 == 0 ==>
          && r.0.ops == w.ops + Cost(cmd)
          && r.0.tx == w.tx + [cmd] + (if NeedsTx(cmd) then [arg] else [])
          && r.1 == (if NeedsRx(cmd) then k.rx(w.ops + 1) else arg))
  }

  /** `one` keeps the guarantees of `pxi_cmd_one` over the link `k` for every command. */
  ghost predicate StepLaws(k: Link, one: CmdStep) {
    forall w: Wire, cmd: bv32, arg: bv32 :: Lawful(k, w, cmd, arg, one(w, cmd, arg))
  }

  /** `pxi_cmd_one` keeps its guarantees. */
  lemma OneLawful(k: Link, w: Wire, cmd: bv32, arg: bv32)
    ensures Lawful(k, w, cmd, arg, One(k, w, cmd, arg))
  {
    DirectionExclusive(cmd);
    FirstErrorSplit(k, w.ops, 1, Cost(cmd) - 1);
    assert FirstError(k, w.ops + 1, 0) == 0;
    assert FirstError(k, w.ops, 1) == Code(k.op(w.ops));
    assert FirstError(k, w.ops + 1, 1) == Code(k.op(w.ops + 1));
  }

  /**
   * When sending the command word fails, `pxi_cmd_one` returns that error at once:
   * the argument is untouched and no second FIFO operation is made.
   */
  lemma OneSendFails(k: Link, w: Wire, cmd: bv32, arg: bv32)
    requires k.op(w.ops) != Moved(false)
    ensures var f := k.op(w.ops); var r := One(k, w, cmd, arg);
      && r.1 == arg && r.2 == Code(f) && r.2 != 0
      && r.0 == Wire(w.ops + 1, if f.Moved? then w.tx + [cmd] else w.tx)
  {
    var f := k.op(w.ops);
    assert Code(f) != 0;
  }

  lemma OneLaws(k: Link)
    ensures StepLaws(k, PxiCmdOne(k))
  {
    forall w: Wire, cmd: bv32, arg: bv32
      ensures Lawful(k, w, cmd, arg, PxiCmdOne(k)(w, cmd, arg))
    {
      OneLawful(k, w, cmd, arg);
    }
  }

  lemma AppendAssoc<T>(a: seq<T>, b: seq<T>, c: seq<T>)
    ensures (a + b) + c == a + (b + c)
  {}

  // ---------------------------------------------------------------- batches

  /**
   * A batch stops at its first error and runs its commands in index order: when the
   * commands up to `j` fail, nothing after them runs; otherwise the rest continue from
   * where those commands left the wire and the arguments.
   */
  lemma {:induction false} BatchSplit(one: CmdStep, w: Wire, cmds: seq<bv32>, args: seq<bv32>, base: nat, i: nat, j: nat, n: nat)
    requires i <= j <= n <= |cmds| && base + n <= |args|
    ensures var p := Batch(one, w, cmds, args, base, i, j);
      Batch(one, w, cmds, args, base, i, n) == if p.err != 0 then p else Batch(one, p.wire, cmds, p.args, base, j, n)
    decreases j - i
  {
    if i < j {
      var o := one(w, cmds[i], args[base + i]);
      if o.2 == 0 {
        BatchSplit(one, o.0, cmds, args[base + i := o.1], base, i + 1, j, n);
      }
    }
  }

  /**
   * A batch result is 0 or the error of the command that failed, which is the result
   * of the first FIFO operation of the batch that is not clean; only the arguments of
   * receiving commands in the batch can change.
   */
  lemma {:induction false} BatchResult(k: Link, one: CmdStep, w: Wire, cmds: seq<bv32>, args: seq<bv32>, base: nat, i: nat, n: nat)
    requires StepLaws(k, one)
    requires i <= n <= |cmds| && base + n <= |args|
    ensures var r := Batch(one, w, cmds, args, base, i, n);
      && (r.err == 0 || r.err == -ETIMEDOUT || r.err == -EIO)
      && r.err == FirstError(k, w.ops, OpsOf(cmds, i, n))
      && (forall m | 0 <= m < |args| && !(base + i <= m < base + n) :: r.args[m] == args[m])
      && (forall j | i <= j < n && !NeedsRx(cmds[j]) :: r.args[base + j] == args[base + j])
    decreases n - i
  {
    if i < n {
      var o := one(w, cmds[i], args[base + i]);
      assert Lawful(k, w, cmds[i], args[base + i], o);
      FirstErrorSplit(k, w.ops, Cost(cmds[i]), OpsOf(cmds, i + 1, n));
      if o.2 == 0 {
        BatchResult(k, one, o.0, cmds, args[base + i := o.1], base, i + 1, n);
      }
    }
  }

  /** `Frames` reads only the arguments of its own commands. */
  lemma {:induction false} FramesFrame(cmds: seq<bv32>, args: seq<bv32>, args': seq<bv32>, base: nat, i: nat, n: nat)
    requires i <= n <= |cmds| && base + n <= |args| && |args'| == |args|
    requires forall m | base + i <= m < base + n :: args'[m] == args[m]
    ensures Frames(cmds, args', base, i, n) == Frames(cmds, args, base, i, n)
    decreases n - i
  {
    if i < n {
      FramesFrame(cmds, args, args', base, i + 1, n);
    }
  }

  /** A batch succeeds exactly when each of the FIFO operations its commands take is clean. */
  lemma {:induction false} BatchClean(k: Link, one: CmdStep, w: Wire, cmds: seq<bv32>, args: seq<bv32>, base: nat, i: nat, n: nat)
    requires StepLaws(k, one)
    requires i <= n <= |cmds| && base + n <= |args|
    ensures Batch(one, w, cmds, args, base, i, n).err == 0 <==> AllClean(k, w.ops, OpsOf(cmds, i, n))
    decreases n - i
  {
    if i < n {
      var cmd := cmds[i];
      var o := one(w, cmd, args[base + i]);
      var rest := OpsOf(cmds, i + 1, n);
      assert Lawful(k, w, cmd, args[base + i], o);
      if o.2 == 0 {
        BatchClean(k, one, o.0, cmds, args[base + i := o.1], base, i + 1, n);
        assert AllClean(k, w.ops, Cost(cmd) + rest) <==> AllClean(k, w.ops + Cost(cmd), rest);
      } else {
        assert !AllClean(k, w.ops, Cost(cmd) + rest);
      }
    }
  }

  /**
   * On success the batch took exactly the FIFO operations its commands need, and the
   * wire carries each command word, followed by its argument for a sending command.
   */
  lemma {:induction false} BatchWire(k: Link, one: CmdStep, w: Wire, cmds: seq<bv32>, args: seq<bv32>, base: nat, i: nat, n: nat)
    requires StepLaws(k, one)
    requires i <= n <= |cmds| && base + n <= |args|
    ensures var r := Batch(one, w, cmds, args, base, i, n);
      r.err == 0 ==> r.wire.ops == w.ops + OpsOf(cmds, i, n) && r.wire.tx == w.tx + Frames(cmds, args, base, i, n)
    decreases n - i
  {
    if i < n {
      var cmd := cmds[i];
      var o := one(w, cmd, args[base + i]);
      var a := args[base + i := o.1];
      var r := Batch(one, w, cmds, args, base, i, n);
      if o.2 == 0 && r.err == 0 {
        assert r == Batch(one, o.0, cmds, a, base, i + 1, n);
        var head := [cmd] + (if NeedsTx(cmd) then [args[base + i]] else []);
        var tail := Frames(cmds, args, base, i + 1, n);
        assert Lawful(k, w, cmd, args[base + i], o);
        assert o.0.tx == w.tx + head;
        FramesFrame(cmds, args, a, base, i + 1, n);
        BatchWire(k, one, o.0, cmds, a, base, i + 1, n);
        assert Frames(cmds, args, base, i, n) == head + tail;
        AppendAssoc(w.tx, head, tail);
      }
    }
  }

  /** Whatever each command does, a batch writes only the arguments of its own commands. */
  lemma {:induction false} BatchOutside(one: CmdStep, w: Wire, cmds: seq<bv32>, args: seq<bv32>, base: nat, i: nat, n: nat, m: nat)
    requires i <= n <= |cmds| && base + n <= |args|
    requires m < |args| && !(base + i <= m < base + n)
    ensures Batch(one, w, cmds, args, base, i, n).args[m] == args[m]
    decreases n - i
  {
    if i < n {
      var o := one(w, cmds[i], args[base + i]);
      if o.2 == 0 {
        BatchOutside(one, o.0, cmds, args[base + i := o.1], base, i + 1, n, m);
      }
    }
  }

  /**
   * On success every receiving command's argument holds the RX word of its second
   * FIFO operation (the others are unchanged, by `BatchResult`).
   */
  lemma {:induction false} BatchArgs(k: Link, one: CmdStep, w: Wire, cmds: seq<bv32>, args: seq<bv32>, base: nat, i: nat, n: nat)
    requires StepLaws(k, one)
    requires i <= n <= |cmds| && base + n <= |args|
    ensures var r := Batch(one, w, cmds, args, base, i, n);
      r.err == 0 ==> forall j | i <= j < n && NeedsRx(cmds[j]) :: r.args[base + j] == k.rx(w.ops + OpsOf(cmds, i, j) + 1)
    decreases n - i
  {
    if i < n {
      var cmd := cmds[i];
      var o := one(w, cmd, args[base + i]);
      var a := args[base + i := o.1];
      var r := Batch(one, w, cmds, args, base, i, n);
      if o.2 == 0 && r.err == 0 {
        assert r == Batch(one, o.0, cmds, a, base, i + 1, n);
        assert o.0.ops == w.ops + Cost(cmd) && (NeedsRx(cmd) ==> o.1 == k.rx(w.ops + 1)) by {
          assert Lawful(k, w, cmd, args[base + i], o);
        }
        BatchOutside(one, o.0, cmds, a, base, i + 1, n, base + i);
        BatchArgs(k, one, o.0, cmds, a, base, i + 1, n);
        forall j | i <= j < n && NeedsRx(cmds[j])
          ensures r.args[base + j] == k.rx(w.ops + OpsOf(cmds, i, j) + 1)
        {
          if i < j {
            assert OpsOf(cmds, i, j) == Cost(cmd) + OpsOf(cmds, i + 1, j);
          }
        }
      }
    }
  }

  /**
   * A batch depends only on the commands it runs and the arguments they take:
   * shifting the command window, or the argument base, gives the same outcome.
   */
  lemma {:induction false} BatchShift(one: CmdStep, w: Wire, cmds: seq<bv32>, cmds': seq<bv32>, args: seq<bv32>,
                                      base: nat, base': nat, i: nat, i': nat, n: nat)
    requires i <= n <= |cmds| && base + n <= |args|
    requires i' + (n - i) <= |cmds'| && base' + i' == base + i
    requires cmds'[i'..i' + (n - i)] == cmds[i..n]
    ensures Batch(one, w, cmds', args, base', i', i' + (n - i)) == Batch(one, w, cmds, args, base, i, n)
    decreases n - i
  {
    if i < n {
      assert cmds'[i'] == cmds'[i'..i' + (n - i)][0] == cmds[i..n][0] == cmds[i];
      var o := one(w, cmds[i], args[base + i]);
      if o.2 == 0 {
        assert cmds'[i' + 1..i' + (n - i)] == cmds'[i'..i' + (n - i)][1..] == cmds[i..n][1..] == cmds[i + 1..n];
        BatchShift(one, o.0, cmds, cmds', args[base + i := o.1], base, base', i + 1, i' + 1, n);
      }
    }
  }

  // ---------------------------------------------------------------- the host

  /** The PXI host (`struct ctr_pxi_host`) as far as the transport sees it: its FIFOs. */
  class PxiHost {
    /** What the far end does with each FIFO operation. */
    const link: Link
    /** FIFO operations issued so far. */
    var ops: nat
    /** Words written to the TX FIFO, in order. */
    var tx: seq<bv32>

    function State(): Wire
      reads this
    {
      Wire(ops, tx)
    }

    constructor (link: Link)
      ensures this.link == link && State() == Wire(0, [])
    {
      this.link := link;
      ops := 0;
      tx := [];
    }

    /** `pxi_tx_one`. */
    method TxOne(word: bv32) returns (err: int)
      modifies this
      ensures (State(), err) == Send(link, old(State()), word)
    {
      var f := link.op(ops);
      if f.Moved? {
        tx := tx + [word];
      }
      ops := ops + 1;
      err := Code(f);
    }

    /** `pxi_rx_one` into `args[m]`. */
    method RxOne(args: array<bv32>, m: nat) returns (err: int)
      requires m < args.Length
      modifies this, args
      ensures var r := Receive(link, old(State()), old(args[m]));
        State() == r.0 && args[..] == old(args[..])[m := r.1] && err == r.2
    {
      var f := link.op(ops);
      if f.Moved? {
        args[m] := link.rx(ops);
      }
      ops := ops + 1;
      err := Code(f);
    }

    /** `pxi_cmd_one` with `arg` pointing at `args[m]`. */
    method CmdOne(cmd: bv32, args: array<bv32>, m: nat) returns (err: int)
      requires m < args.Length
      modifies this, args
      ensures var r := One(link, old(State()), cmd, old(args[m]));
        State() == r.0 && args[..] == old(args[..])[m := r.1] && err == r.2
    {
      err := TxOne(cmd);
      if err != 0 {
        assert args[..] == old(args[..])[m := args[m]];
        return;
      }
      if NeedsTx(cmd) {
        err := TxOne(args[m]);
        assert args[..] == old(args[..])[m := args[m]];
      } else if NeedsRx(cmd) {
        err := RxOne(args, m);
      } else {
        assert args[..] == old(args[..])[m := args[m]];
      }
    }

    /**
     * `ctr_pxi_cmd` with `cmds` holding the command table and the argument pointer at
     * `args[base]`: `ncmd` commands in order, stopping at the first error.
     */
    method Cmd(cmds: seq<bv32>, args: array<bv32>, base: nat, ncmd: nat) returns (err: int)
      requires ncmd <= |cmds| && base + ncmd <= args.Length
      modifies this, args
      ensures var r := Batch(PxiCmdOne(link), old(State()), cmds, old(args[..]), base, 0, ncmd);
        State() == r.wire && args[..] == r.args && err == r.err
    {
      if ncmd == 0 {
        return 0;
      }
      var i := 0;
      var left := ncmd;
      while left != 0
        invariant i + left == ncmd
        invariant Batch(PxiCmdOne(link), State(), cmds, args[..], base, i, ncmd)
               == Batch(PxiCmdOne(link), old(State()), cmds, old(args[..]), base, 0, ncmd)
        decreases left
      {
        err := CmdOne(cmds[i], args, base + i);
        if err != 0 {
          return;
        }
        i := i + 1;
        left := left - 1;
      }
      err := 0;
    }
  }
}
