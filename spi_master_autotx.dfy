/** SPI master on USART1 with DMA, using the USART's AUTOTX mode for receive-only
    transfers (spi_master_autotx.c).

    The file-level state of the C program and the handful of peripheral bits it
    touches are the fields of class Spi; each C entry point (the launcher, the DMA
    completion callback, the two USART interrupt handlers, the active query and
    the wait loop) is a method of it. The hardware itself appears only as the steps
    HwRxDmaDone, HwTxDmaDone and HwTransmitComplete, and as the wake-up events that
    the wait loop consumes.

    The same state as a value, Regs, with the buffers' contents as a map, is the
    reference the wait loop is proved against: Wake says what one wake-up does and
    Wait what the loop does with a list of them. */
module SpiMasterAutoTx {
  import opened Wrappers

  /** SPI_TRANSFER_SIZE: the transfer length the RX interrupt handler indexes by. */
  const TransferSize: int := 10

  /** Bytes still in the USART pipeline when the RX DMA count runs out in AUTOTX mode;
      the TX interrupt handler loads it into bytesLeft. */
  const TailLength: int := 3

  /** DMA_CHANNEL_TX and DMA_CHANNEL_RX. */
  const DmaChannelTx: nat := 0
  const DmaChannelRx: nat := 1

  /** Enable bits of USART1->IEN: the two the core uses by name, and every other one. */
  datatype UsartInt = Txc | RxDataV | OtherInt(bit: nat)

  /** Commands written to USART1->CMD. */
  datatype UsartCmd = ClearRx | ClearTx

  /** A basic-mode DMA activation: the memory-side buffer and the count argument,
      which is the number of elements to move minus one. */
  datatype Activation = Activation(buffer: array<bv8>, nMinus1: int)

  /** What can wake the core while it sleeps in the wait loop. An event whose hardware
      condition does not hold (a channel that is not armed, an interrupt that is not
      enabled) wakes the core without running any handler. */
  datatype Event =
    | RxDmaDone(data: seq<bv8>)   // the RX channel has moved its elements
    | TxDmaDone                   // the TX channel has moved its elements
    | TransmitComplete            // the USART raises its TXC interrupt flag
    | TxInterrupt                 // USART1_TX_IRQHandler is dispatched
    | RxInterrupt(rxData: bv8)    // a byte is in RXDATA and USART1_RX_IRQHandler is dispatched

  /** How the wait loop ends: the flags cleared, the wake-up events ran out while the
      transfer was still active, or an RX interrupt would have written through a
      NULL or out-of-range rxBufferG (undefined behaviour in C). */
  datatype WaitOutcome = Completed | StillActive | UndefinedWrite

  /** The fields of class Spi that the events act on, as a value. */
  datatype Regs = Regs(autoTx: bool, bytesLeft: int, rxBufferG: array?<bv8>,
                       rxActive: bool, txActive: bool,
                       ien: set<UsartInt>, ctrlAutoTx: bool, ifTxc: bool,
                       dmaRx: Option<Activation>, dmaTx: Option<Activation>)
  {
    /** The RX tail interrupt is enabled only while one to three tail bytes are due,
        and an armed channel's count fits its buffer. */
    ghost predicate Valid() {
      (RxDataV in ien ==> 1 <= bytesLeft <= TailLength) &&
      (dmaRx.Some? ==> 0 <= dmaRx.value.nMinus1 < dmaRx.value.buffer.Length) &&
      (dmaTx.Some? ==> 0 <= dmaTx.value.nMinus1 < dmaTx.value.buffer.Length)
    }

    /** A transfer is in progress on either side. */
    predicate Active() {
      rxActive || txActive
    }

    /** The RX handler's store rxBufferG[SPI_TRANSFER_SIZE - bytesLeft] is defined. */
    predicate TailWritable() {
      rxBufferG != null && 0 <= TransferSize - bytesLeft < rxBufferG.Length
    }

    /** An AUTOTX transfer with no receive buffer: no DMA channel is armed and neither
        tail interrupt is enabled, so nothing can ever clear txActive. */
    ghost predicate Stuck() {
      autoTx && txActive && dmaRx.None? && dmaTx.None? && Txc !in ien && RxDataV !in ien
    }

    /** No transfer, no armed channel and neither tail interrupt enabled: what the next
        spiDmaTransfer may start from. */
    predicate Idle() {
      !Active() && dmaRx.None? && dmaTx.None? && Txc !in ien && RxDataV !in ien
    }

    /** How the flags, the channels and the two tail interrupts hang together while the
        TX handler masks TXC off: an armed channel belongs to an active side, the TX
        channel is never armed with AUTOTX, and TXC or RXDATAV is enabled only during
        an AUTOTX transfer whose RX channel has finished, one at a time, with a
        receive buffer that the tail indices 7 to 9 fit. */
    ghost predicate Coherent() {
      (dmaRx.Some? ==> rxActive) &&
      (dmaTx.Some? ==> txActive && !autoTx) &&
      (autoTx && rxActive ==> txActive && rxBufferG != null && rxBufferG.Length >= TransferSize) &&
      (autoTx && dmaRx.Some? ==> rxBufferG == dmaRx.value.buffer) &&
      (Txc in ien ==> autoTx && rxActive && dmaRx.None? && RxDataV !in ien) &&
      (RxDataV in ien ==> autoTx && rxActive && dmaRx.None? && Txc !in ien)
    }

    /** No tail interrupt can be enabled, now or by a later event, without a receive
        buffer that the tail indices 7 to 9 fit: while rxBufferG is NULL, AUTOTX is off,
        so the RX callback does not enable TXC, and both tail interrupts are disabled;
        once set, rxBufferG holds at least SPI_TRANSFER_SIZE bytes. */
    ghost predicate TailSafe() {
      (rxBufferG == null ==> !autoTx && Txc !in ien && RxDataV !in ien) &&
      (rxBufferG != null ==> rxBufferG.Length >= TransferSize)
    }
  }

  /** The contents of the buffers a transfer can write. */
  type Mem = map<array<bv8>, seq<bv8>>

  ghost function Contents(frame: set<array<bv8>>): (mem: Mem)
    reads frame
    ensures mem.Keys == frame
  {
    map b | b in frame :: b[..]
  }

  /** `mem` holds, at full length, every buffer that the state `r` can write. */
  ghost predicate Framed(r: Regs, mem: Mem) {
    r.Valid() &&
    (r.rxBufferG != null ==> r.rxBufferG in mem && |mem[r.rxBufferG]| == r.rxBufferG.Length) &&
    (r.dmaRx.Some? ==>
       r.dmaRx.value.buffer in mem && |mem[r.dmaRx.value.buffer]| == r.dmaRx.value.buffer.Length)
  }

  /** The RX channel has written `data` to the front of its buffer, and transferComplete
      runs for DMA_CHANNEL_RX: with AUTOTX only TXC is enabled, otherwise the RX side ends. */
  ghost function RxChannelDone(r: Regs, mem: Mem, data: seq<bv8>): (next: (Regs, Mem))
    requires Framed(r, mem) && r.dmaRx.Some? && |data| == r.dmaRx.value.nMinus1 + 1
    ensures Framed(next.0, next.1)
    ensures (next.0.rxActive ==> r.rxActive) && next.0.txActive == r.txActive
    ensures next.0.dmaRx.None? && next.0.dmaTx == r.dmaTx
    ensures next.0.rxActive == (r.rxActive && r.autoTx)
    ensures next.0.ien == (if r.autoTx then r.ien + {Txc} else r.ien)
    ensures var b := r.dmaRx.value.buffer;
      next.1.Keys == mem.Keys && |next.1[b]| == |mem[b]| && next.1[b][..|data|] == data &&
      next.1[b][|data|..] == mem[b][|data|..] &&
      forall a :: a in mem && a != b ==> next.1[a] == mem[a]
  {
    var b := r.dmaRx.value.buffer;
    (r.(dmaRx := None,
        rxActive := r.autoTx && r.rxActive,
        ien := if r.autoTx then r.ien + {Txc} else r.ien),
     mem[b := data + mem[b][|data|..]])
  }

  /** USART1_TX_IRQHandler; `intended` picks the mask its comment describes instead of
      the one written. */
  ghost function TxIrqStep(r: Regs, intended: bool): (next: Regs)
    requires r.Valid()
    ensures next.Valid()
    ensures next.rxActive == r.rxActive && next.txActive == r.txActive
    ensures RxDataV in next.ien && next.bytesLeft == TailLength
    ensures !next.ifTxc && !next.ctrlAutoTx
    ensures Txc in next.ien <==> !intended && Txc in r.ien
    ensures next.dmaRx == r.dmaRx && next.dmaTx == r.dmaTx && next.rxBufferG == r.rxBufferG
  {
    var kept := if intended then r.ien - {Txc} else r.ien * {Txc};
    r.(ien := kept + {RxDataV}, ifTxc := false, ctrlAutoTx := false, bytesLeft := TailLength)
  }

  /** USART1_RX_IRQHandler: one tail byte stored, and the transfer over with the last. */
  ghost function RxIrqStep(r: Regs, mem: Mem, x: bv8): (next: (Regs, Mem))
    requires Framed(r, mem) && RxDataV in r.ien && r.TailWritable()
    ensures Framed(next.0, next.1)
    ensures (next.0.rxActive ==> r.rxActive) && (next.0.txActive ==> r.txActive)
    ensures next.0.bytesLeft == r.bytesLeft - 1
    ensures next.0.rxActive == (r.rxActive && r.bytesLeft != 1)
    ensures next.0.txActive == (r.txActive && r.bytesLeft != 1)
    ensures RxDataV in next.0.ien <==> r.bytesLeft != 1
  {
    var b, left := r.rxBufferG, r.bytesLeft - 1;
    (r.(bytesLeft := left,
        rxActive := r.rxActive && left != 0,
        txActive := r.txActive && left != 0,
        ien := if left == 0 then r.ien - {RxDataV} else r.ien),
     mem[b := mem[b][TransferSize - r.bytesLeft := x]])
  }

  /** The RX handler stores the received byte at index SPI_TRANSFER_SIZE - bytesLeft of
      rxBufferG and leaves every other byte of every buffer as it was. */
  lemma RxIrqStepStores(r: Regs, mem: Mem, x: bv8)
    requires Framed(r, mem) && RxDataV in r.ien && r.TailWritable()
    ensures var next, b := RxIrqStep(r, mem, x), r.rxBufferG;
      next.1.Keys == mem.Keys && |next.1[b]| == |mem[b]| &&
      next.1[b][TransferSize - r.bytesLeft] == x &&
      (forall i :: 0 <= i < |mem[b]| && i != TransferSize - r.bytesLeft ==> next.1[b][i] == mem[b][i]) &&
      forall a :: a in mem && a != b ==> next.1[a] == mem[a]
  {
  }

  /** One wake-up of the core, event by event: the hardware step or handler the event
      stands for runs when its condition holds, and nothing changes otherwise. There is
      no next state exactly when an enabled RX interrupt would store through an invalid
      rxBufferG, and no wake-up sets a flag. */
  ghost function Wake(r: Regs, mem: Mem, e: Event, intended: bool): (next: Option<(Regs, Mem)>)
    requires Framed(r, mem)
    ensures next.None? <==> e.RxInterrupt? && RxDataV in r.ien && !r.TailWritable()
    ensures next.Some? ==> Framed(next.value.0, next.value.1)
    ensures next.Some? ==> (next.value.0.rxActive ==> r.rxActive) && (next.value.0.txActive ==> r.txActive)
  {
    match e
    case RxDmaDone(data) =>
      if r.dmaRx.Some? && |data| == r.dmaRx.value.nMinus1 + 1 then Some(RxChannelDone(r, mem, data))
      else Some((r, mem))
    case TxDmaDone =>
      // transferComplete(DMA_CHANNEL_TX)
      if r.dmaTx.Some? then Some((r.(dmaTx := None, txActive := false), mem))
      else Some((r, mem))
    case TransmitComplete =>
      Some((r.(ifTxc := true), mem))
    case TxInterrupt =>
      if Txc in r.ien && r.ifTxc then Some((TxIrqStep(r, intended), mem))
      else Some((r, mem))
    case RxInterrupt(x) =>
      if RxDataV !in r.ien then Some((r, mem))
      else if !r.TailWritable() then None
      else Some(RxIrqStep(r, mem, x))
  }

  /** How the wait loop ends, after how many wake-ups, and in which state. */
  datatype WaitResult = WaitResult(outcome: WaitOutcome, slept: nat, regs: Regs, mem: Mem)

  /** sleepUntilTransferDone on a list of wake-ups: look at the flags, and while a
      transfer is active take the next wake-up. */
  ghost function Wait(r: Regs, mem: Mem, wakeups: seq<Event>, intended: bool): (w: WaitResult)
    requires Framed(r, mem)
    ensures w.slept <= |wakeups|
    ensures Framed(w.regs, w.mem)
    decreases |wakeups|
  {
    if !r.Active() then WaitResult(Completed, 0, r, mem)
    else if wakeups == [] then WaitResult(StillActive, 0, r, mem)
    else
      match Wake(r, mem, wakeups[0], intended)
      case None => WaitResult(UndefinedWrite, 1, r, mem)
      case Some(next) =>
        var w := Wait(next.0, next.1, wakeups[1..], intended);
        w.(slept := w.slept + 1)
  }

  /** One turn of the wait loop with a transfer active and a wake-up left. */
  lemma WaitStep(r: Regs, mem: Mem, wakeups: seq<Event>, intended: bool)
    requires Framed(r, mem) && r.Active() && wakeups != []
    ensures var next := Wake(r, mem, wakeups[0], intended);
      Wait(r, mem, wakeups, intended) ==
        if next.None? then WaitResult(UndefinedWrite, 1, r, mem)
        else Later(Wait(next.value.0, next.value.1, wakeups[1..], intended), 1)
  {
  }

  /** `states` is a run of the wait loop on `wakeups`: each state but the last has a
      transfer active, and its wake-up leads to the next. */
  ghost predicate Run(states: seq<(Regs, Mem)>, wakeups: seq<Event>, intended: bool) {
    1 <= |states| <= |wakeups| + 1 &&
    (forall k :: 0 <= k < |states| ==> Framed(states[k].0, states[k].1)) &&
    (forall k :: 0 <= k < |states| - 1 ==>
       states[k].0.Active() && Wake(states[k].0, states[k].1, wakeups[k], intended) == Some(states[k + 1]))
  }

  /** A run extends by one wake-up taken from its active last state. */
  lemma RunSnoc(states: seq<(Regs, Mem)>, wakeups: seq<Event>, intended: bool, next: (Regs, Mem))
    requires Run(states, wakeups, intended) && |states| <= |wakeups|
    requires var last := states[|states| - 1];
      last.0.Active() && Wake(last.0, last.1, wakeups[|states| - 1], intended) == Some(next)
    ensures Run(states + [next], wakeups, intended)
  {
  }

  /** After a run, the rest of the loop is the loop from the run's last state on the
      wake-ups not yet taken. */
  lemma {:induction false} RunWait(states: seq<(Regs, Mem)>, wakeups: seq<Event>, intended: bool)
    requires Run(states, wakeups, intended)
    ensures var n := |states| - 1;
      Wait(states[0].0, states[0].1, wakeups, intended) ==
        Later(Wait(states[n].0, states[n].1, wakeups[n..], intended), n)
    decreases |states|
  {
    if |states| > 1 {
      assert Run(states[1..], wakeups[1..], intended) by {
        forall k | 0 <= k < |states| - 2
          ensures states[1..][k].0.Active() &&
            Wake(states[1..][k].0, states[1..][k].1, wakeups[1..][k], intended) == Some(states[1..][k + 1])
        {
          assert states[1..][k] == states[k + 1] && states[1..][k + 1] == states[k + 2];
        }
      }
      RunWait(states[1..], wakeups[1..], intended);
      assert wakeups[1..][|states| - 2..] == wakeups[|states| - 1..];
      WaitStep(states[0].0, states[0].1, wakeups, intended);
    }
  }

  /** How a run ends decides the loop's result: it stops at a state with no transfer
      active, at an active state with the wake-ups used up, or at an active state whose
      next wake-up has no next state, having taken one wake-up more. */
  lemma RunEnd(states: seq<(Regs, Mem)>, wakeups: seq<Event>, intended: bool, outcome: WaitOutcome)
    requires Run(states, wakeups, intended)
    requires var n, last := |states| - 1, states[|states| - 1];
      match outcome
      case Completed => !last.0.Active()
      case StillActive => last.0.Active() && n == |wakeups|
      case UndefinedWrite =>
        last.0.Active() && n < |wakeups| && Wake(last.0, last.1, wakeups[n], intended).None?
    ensures var n, last := |states| - 1, states[|states| - 1];
      Wait(states[0].0, states[0].1, wakeups, intended) ==
        WaitResult(outcome, if outcome == UndefinedWrite then n + 1 else n, last.0, last.1)
  {
    RunWait(states, wakeups, intended);
  }

  /** `w` counted from `k` wake-ups earlier. */
  function Later(w: WaitResult, k: nat): WaitResult {
    w.(slept := w.slept + k)
  }

  /** The loop returns Completed exactly when it finds both flags clear; it gives up
      only once every wake-up has been used; it reports an undefined store only with
      RXDATAV enabled and rxBufferG invalid; and no wake-up ever sets a flag. */
  lemma {:induction false} WaitExit(r: Regs, mem: Mem, wakeups: seq<Event>, intended: bool)
    requires Framed(r, mem)
    ensures var w := Wait(r, mem, wakeups, intended);
      (w.outcome == Completed <==> !w.regs.Active()) &&
      (w.outcome == StillActive ==> w.slept == |wakeups|) &&
      (w.outcome == UndefinedWrite ==> RxDataV in w.regs.ien && !w.regs.TailWritable()) &&
      (w.regs.rxActive ==> r.rxActive) && (w.regs.txActive ==> r.txActive)
    decreases |wakeups|
  {
    if r.Active() && wakeups != [] {
      var next := Wake(r, mem, wakeups[0], intended);
      if next.Some? {
        WaitExit(next.value.0, next.value.1, wakeups[1..], intended);
      }
    }
  }

  /** An AUTOTX transfer without a receive buffer never completes, whatever wakes
      the core. */
  lemma {:induction false} WaitStuck(r: Regs, mem: Mem, wakeups: seq<Event>, intended: bool)
    requires Framed(r, mem) && r.Stuck()
    ensures Wait(r, mem, wakeups, intended).outcome == StillActive
    decreases |wakeups|
  {
    if wakeups != [] {
      var next := Wake(r, mem, wakeups[0], intended);
      assert next.Some? && next.value.0.Stuck();
      WaitStuck(next.value.0, next.value.1, wakeups[1..], intended);
    }
  }

  /** With TXC masked off in the TX handler, every wake-up keeps the state coherent and
      no RX interrupt can store out of range. */
  lemma WakeCoherent(r: Regs, mem: Mem, e: Event)
    requires Framed(r, mem) && r.Coherent()
    ensures var next := Wake(r, mem, e, true); next.Some? && next.value.0.Coherent()
  {
  }

  /** With TXC masked off in the TX handler, the wait loop keeps the state coherent,
      never stores out of range, and returns Completed only once both channels are done
      and both tail interrupts are disabled. */
  lemma {:induction false} WaitCoherent(r: Regs, mem: Mem, wakeups: seq<Event>)
    requires Framed(r, mem) && r.Coherent()
    ensures var w := Wait(r, mem, wakeups, true);
      w.outcome != UndefinedWrite && w.regs.Coherent() &&
      (w.outcome == Completed ==> w.regs.Idle())
    decreases |wakeups|
  {
    if r.Active() && wakeups != [] {
      WakeCoherent(r, mem, wakeups[0]);
      var next := Wake(r, mem, wakeups[0], true).value;
      WaitCoherent(next.0, next.1, wakeups[1..]);
    }
  }

  /** spiDmaTransfer started from an idle coherent state, with an AUTOTX receive buffer
      that the tail indices fit, gives a coherent state; `before` and `after` are related
      as SpiDmaTransfer's contract relates its old and new state. */
  lemma LaunchCoherent(before: Regs, after: Regs, txBuffer: array?<bv8>, rxBuffer: array?<bv8>)
    requires before.Idle() && before.Coherent()
    requires after.autoTx == (txBuffer == null) && after.txActive && after.ien == before.ien
    requires rxBuffer != null ==> after.rxActive && after.dmaRx.Some? && after.dmaRx.value.buffer == rxBuffer
    requires rxBuffer == null ==> after.rxActive == before.rxActive && after.dmaRx == before.dmaRx
    requires txBuffer == null ==> after.rxBufferG == rxBuffer && after.dmaTx == before.dmaTx
    requires txBuffer == null && rxBuffer != null ==> rxBuffer.Length >= TransferSize
    ensures after.Coherent()
  {
  }

  /** The TX handler's mask as written keeps TXC enabled next to RXDATAV, so the first
      TX interrupt of an AUTOTX transfer already leaves the coherent states. */
  lemma TxIrqAsWrittenIncoherent(r: Regs, mem: Mem)
    requires Framed(r, mem) && Txc in r.ien && r.ifTxc
    ensures var next := Wake(r, mem, TxInterrupt, false);
      next.Some? && !next.value.0.Coherent() && Txc in next.value.0.ien
  {
  }

  /** Under either mask of the TX handler, every wake-up from a state where the tail fits
      its buffer has a next state, and the tail still fits. */
  lemma WakeTailSafe(r: Regs, mem: Mem, e: Event, intended: bool)
    requires Framed(r, mem) && r.TailSafe()
    ensures var next := Wake(r, mem, e, intended); next.Some? && next.value.0.TailSafe()
  {
  }

  /** Under either mask, the wait loop from a state where the tail fits its buffer never
      stores out of range, and the tail still fits at the end. */
  lemma {:induction false} WaitTailSafe(r: Regs, mem: Mem, wakeups: seq<Event>, intended: bool)
    requires Framed(r, mem) && r.TailSafe()
    ensures var w := Wait(r, mem, wakeups, intended);
      w.outcome != UndefinedWrite && w.regs.TailSafe()
    decreases |wakeups|
  {
    if r.Active() && wakeups != [] {
      WakeTailSafe(r, mem, wakeups[0], intended);
      var next := Wake(r, mem, wakeups[0], intended).value;
      WaitTailSafe(next.0, next.1, wakeups[1..], intended);
    }
  }

  /** A launch keeps the tail fitting its buffer when an AUTOTX launch is given a
      receive buffer of SPI_TRANSFER_SIZE bytes, as every AUTOTX launch of main is;
      `before` and `after` are related as SpiDmaTransfer's contract relates them. */
  lemma LaunchTailSafe(before: Regs, after: Regs, txBuffer: array?<bv8>, rxBuffer: array?<bv8>)
    requires before.TailSafe()
    requires after.autoTx == (txBuffer == null) && after.ien == before.ien
    requires txBuffer == null ==> after.rxBufferG == rxBuffer
    requires txBuffer != null ==> after.rxBufferG == before.rxBufferG
    requires txBuffer == null ==> rxBuffer != null && rxBuffer.Length >= TransferSize
    ensures after.TailSafe()
  {
  }

  class Spi {
    // File-level state of spi_master_autotx.c.
    var autoTx: bool
    var bytesLeft: int
    var rxBufferG: array?<bv8>
    var rxActive: bool
    var txActive: bool

    // USART1: the enabled interrupts (IEN), CTRL.AUTOTX, the TXC interrupt flag (IF.TXC)
    // and the commands written to CMD.
    var ien: set<UsartInt>
    var ctrlAutoTx: bool
    var ifTxc: bool
    ghost var commands: seq<UsartCmd>

    // The DMA controller's two channels: the activation each one is running, if any.
    var dmaRx: Option<Activation>
    var dmaTx: Option<Activation>

    /** The fields the events act on. */
    function Snapshot(): Regs
      reads this
    {
      Regs(autoTx, bytesLeft, rxBufferG, rxActive, txActive, ien, ctrlAutoTx, ifTxc, dmaRx, dmaTx)
    }

    ghost predicate Valid()
      reads this
    {
      Snapshot().Valid()
    }

    predicate Active()
      reads this
    {
      Snapshot().Active()
    }

    predicate TailWritable()
      reads this
    {
      Snapshot().TailWritable()
    }

    ghost predicate Stuck()
      reads this
    {
      Snapshot().Stuck()
    }

    predicate Idle()
      reads this
    {
      Snapshot().Idle()
    }

    ghost predicate Coherent()
      reads this
    {
      Snapshot().Coherent()
    }

    ghost predicate TailSafe()
      reads this
    {
      Snapshot().TailSafe()
    }

    /** The buffers the hardware events may write. */
    ghost function Buffers(): set<array<bv8>>
      reads this
    {
      (if rxBufferG != null then {rxBufferG} else {}) +
      (if dmaRx.Some? then {dmaRx.value.buffer} else {})
    }

    /** The state after the static initialisers, with the USART and DMA reset. */
    constructor ()
      ensures Valid() && Idle() && Coherent() && TailSafe()
      ensures !autoTx && bytesLeft == 0 && rxBufferG == null
      ensures ien == {} && !ctrlAutoTx && !ifTxc && commands == []
      ensures dmaRx.None? && dmaTx.None?
    {
      autoTx := false;
      bytesLeft := 0;
      rxBufferG := null;
      rxActive := false;
      txActive := false;
      ien := {};
      ctrlAutoTx := false;
      ifTxc := false;
      commands := [];
      dmaRx := None;
      dmaTx := None;
    }

    /** USART1_RX_IRQHandler: stores one tail byte at SPI_TRANSFER_SIZE - bytesLeft
        and, with the last one, ends the transfer. */
    method RxIrqHandler(rxData: bv8)
      requires Valid()
      requires TailWritable()
      modifies this`bytesLeft, this`txActive, this`rxActive, this`ien, rxBufferG
      ensures Valid()
      ensures rxBufferG[..] == old(rxBufferG[..])[TransferSize - old(bytesLeft) := rxData]
      ensures bytesLeft == old(bytesLeft) - 1
      ensures bytesLeft == 0 ==> !txActive && !rxActive && ien == old(ien) - {RxDataV}
      ensures bytesLeft != 0 ==>
        txActive == old(txActive) && rxActive == old(rxActive) && ien == old(ien)
    {
      var index := TransferSize - bytesLeft;
      rxBufferG[index] := rxData;
      bytesLeft := bytesLeft - 1;
      if bytesLeft == 0 {
        txActive := false;
        rxActive := false;
        ien := ien - {RxDataV};
      }
    }

    /** USART1_TX_IRQHandler as written: the mask `IEN &= USART_IEN_TXC` keeps TXC
        enabled and clears every other enable bit. It then acknowledges TXC, stops
        AUTOTX and arms the RX interrupt for the tail. */
    method TxIrqHandler()
      requires Valid()
      modifies this`ien, this`ifTxc, this`ctrlAutoTx, this`bytesLeft
      ensures Valid()
      ensures ien == (old(ien) * {Txc}) + {RxDataV}
      ensures !ifTxc && !ctrlAutoTx && bytesLeft == TailLength
    {
      ien := ien * {Txc};
      ifTxc := false;
      ctrlAutoTx := false;
      bytesLeft := TailLength;
      ien := ien + {RxDataV};
    }

    /** USART1_TX_IRQHandler as its comment describes it: TXC disabled (`IEN &= ~TXC`),
        every other enable bit kept. */
    method TxIrqHandlerIntended()
      requires Valid()
      modifies this`ien, this`ifTxc, this`ctrlAutoTx, this`bytesLeft
      ensures Valid()
      ensures ien == (old(ien) - {Txc}) + {RxDataV}
      ensures Txc !in ien && RxDataV in ien
      ensures !ifTxc && !ctrlAutoTx && bytesLeft == TailLength
    {
      ien := ien - {Txc};
      ifTxc := false;
      ctrlAutoTx := false;
      bytesLeft := TailLength;
      ien := ien + {RxDataV};
    }

    /** transferComplete, the DMA callback: the TX channel ends the TX side; the RX
        channel ends the RX side, except in AUTOTX mode, where it only enables TXC so
        that the tail can be collected. Any other channel number does nothing. */
    method TransferComplete(channel: nat)
      requires Valid()
      modifies this`txActive, this`rxActive, this`ien
      ensures Valid()
      ensures channel == DmaChannelTx ==>
        !txActive && rxActive == old(rxActive) && ien == old(ien)
      ensures channel == DmaChannelRx && autoTx ==>
        txActive == old(txActive) && rxActive == old(rxActive) && ien == old(ien) + {Txc}
      ensures channel == DmaChannelRx && !autoTx ==>
        txActive == old(txActive) && !rxActive && ien == old(ien)
      ensures channel != DmaChannelTx && channel != DmaChannelRx ==>
        txActive == old(txActive) && rxActive == old(rxActive) && ien == old(ien)
    {
      if channel == DmaChannelTx {
        txActive := false;
      } else if channel == DmaChannelRx {
        if autoTx {
          ien := ien + {Txc};
        } else {
          rxActive := false;
        }
      }
    }

    /** spiDmaTransfer: AUTOTX exactly when there is no transmit buffer; the RX channel
        is armed only for a receive buffer, and the TX channel only without AUTOTX.
        The caller passes buffers that hold `bytes` bytes and a count whose DMA
        argument does not wrap (it is unsigned). */
    method SpiDmaTransfer(txBuffer: array?<bv8>, rxBuffer: array?<bv8>, bytes: int)
      requires Valid()
      requires rxBuffer != null ==> bytes >= (if txBuffer == null then TailLength + 1 else 1)
      requires rxBuffer != null ==> bytes <= rxBuffer.Length
      requires txBuffer != null ==> 1 <= bytes <= txBuffer.Length
      modifies this`autoTx, this`rxActive, this`txActive, this`rxBufferG, this`ctrlAutoTx
      modifies this`dmaRx, this`dmaTx, this`commands
      ensures Valid()
      ensures autoTx == (txBuffer == null)
      ensures txActive
      ensures rxBuffer != null ==>
        rxActive && dmaRx == Some(Activation(rxBuffer, bytes - (if autoTx then TailLength + 1 else 1)))
      ensures rxBuffer != null && autoTx ==> dmaRx.value.nMinus1 + 1 == bytes - TailLength
      ensures rxBuffer != null && !autoTx ==> dmaRx.value.nMinus1 + 1 == bytes
      ensures rxBuffer == null ==> rxActive == old(rxActive) && dmaRx == old(dmaRx)
      ensures txBuffer == null ==> rxBufferG == rxBuffer && ctrlAutoTx && dmaTx == old(dmaTx)
      ensures txBuffer != null ==>
        rxBufferG == old(rxBufferG) && ctrlAutoTx == old(ctrlAutoTx) &&
        dmaTx == Some(Activation(txBuffer, bytes - 1))
      ensures commands == old(commands) + (if rxBuffer != null then [ClearRx, ClearTx] else [ClearTx])
    {
      autoTx := txBuffer == null;
      if rxBuffer != null {
        rxActive := true;
        commands := commands + [ClearRx];
        // The argument is bytes - 4 with AUTOTX: the last TailLength bytes are left to the tail.
        dmaRx := Some(Activation(rxBuffer, bytes - (if autoTx then TailLength + 1 else 1)));
      }
      commands := commands + [ClearTx];
      txActive := true;
      if autoTx {
        rxBufferG := rxBuffer;
        ctrlAutoTx := true;
      } else {
        dmaTx := Some(Activation(txBuffer, bytes - 1));
      }
    }

    /** spiIsActive: a transfer is active while either side is. */
    method SpiIsActive() returns (active: bool)
      ensures active == (rxActive || txActive)
    {
      var temp := rxActive;
      temp := temp || txActive;
      active := temp;
    }

    /** Hardware step: the RX channel finishes, having written its nMinus1 + 1 elements
        to the front of its buffer, and the DMA controller calls transferComplete. */
    method HwRxDmaDone(data: seq<bv8>)
      requires Valid()
      requires dmaRx.Some? && |data| == dmaRx.value.nMinus1 + 1
      modifies dmaRx.value.buffer, this`dmaRx, this`txActive, this`rxActive, this`ien
      ensures Valid() && dmaRx.None?
      ensures old(dmaRx.value.buffer)[..] == data + old(dmaRx.value.buffer[|data|..])
      ensures autoTx ==>
        txActive == old(txActive) && rxActive == old(rxActive) && ien == old(ien) + {Txc}
      ensures !autoTx ==> txActive == old(txActive) && !rxActive && ien == old(ien)
    {
      var buffer := dmaRx.value.buffer;
      forall i | 0 <= i < |data| {
        buffer[i] := data[i];
      }
      dmaRx := None;
      TransferComplete(DmaChannelRx);
    }

    /** Hardware step: the TX channel finishes and the DMA controller calls
        transferComplete. */
    method HwTxDmaDone()
      requires Valid()
      requires dmaTx.Some?
      modifies this`dmaTx, this`txActive, this`rxActive, this`ien
      ensures Valid() && dmaTx.None?
      ensures !txActive && rxActive == old(rxActive) && ien == old(ien)
    {
      dmaTx := None;
      TransferComplete(DmaChannelTx);
    }

    /** Hardware step: the transmitter has shifted out its last frame and raises IF.TXC. */
    method HwTransmitComplete()
      requires Valid()
      modifies this`ifTxc
      ensures Valid() && ifTxc
    {
      ifTxc := true;
    }

    /** Wake-up by the RX channel: the channel finishes if it is armed for `data`. */
    method OnRxDmaDone(data: seq<bv8>, ghost frame: set<array<bv8>>)
      requires Valid() && Buffers() <= frame
      modifies this, frame
      ensures Valid() && Buffers() <= frame && commands == old(commands)
      ensures old(Wake(Snapshot(), Contents(frame), RxDmaDone(data), false)) ==
              Some((Snapshot(), Contents(frame)))
    {
      if dmaRx.Some? && |data| == dmaRx.value.nMinus1 + 1 {
        ghost var mem, b := Contents(frame), dmaRx.value.buffer;
        HwRxDmaDone(data);
        assert Contents(frame) == mem[b := data + mem[b][|data|..]];
      }
    }

    /** Wake-up by the TX channel: the channel finishes if it is armed. */
    method OnTxDmaDone(ghost frame: set<array<bv8>>)
      requires Valid() && Buffers() <= frame
      modifies this
      ensures Valid() && Buffers() <= frame && commands == old(commands)
      ensures old(Wake(Snapshot(), Contents(frame), TxDmaDone, false)) ==
              Some((Snapshot(), Contents(frame)))
    {
      if dmaTx.Some? {
        HwTxDmaDone();
      }
    }

    /** Wake-up by the transmitter: IF.TXC is raised. */
    method OnTransmitComplete(ghost frame: set<array<bv8>>)
      requires Valid() && Buffers() <= frame
      modifies this
      ensures Valid() && Buffers() <= frame && commands == old(commands)
      ensures old(Wake(Snapshot(), Contents(frame), TransmitComplete, false)) ==
              Some((Snapshot(), Contents(frame)))
    {
      HwTransmitComplete();
    }

    /** Wake-up by the TX interrupt: USART1_TX_IRQHandler runs if TXC is enabled and
        raised; `intended` picks its mask. */
    method OnTxInterrupt(intended: bool, ghost frame: set<array<bv8>>)
      requires Valid() && Buffers() <= frame
      modifies this
      ensures Valid() && Buffers() <= frame && commands == old(commands)
      ensures old(Wake(Snapshot(), Contents(frame), TxInterrupt, intended)) ==
              Some((Snapshot(), Contents(frame)))
    {
      if Txc in ien && ifTxc {
        if intended {
          TxIrqHandlerIntended();
        } else {
          TxIrqHandler();
        }
      }
    }

    /** Wake-up by a received byte: USART1_RX_IRQHandler runs if RXDATAV is enabled;
        false, with nothing changed, if its store would be undefined. */
    method OnRxInterrupt(rxData: bv8, ghost frame: set<array<bv8>>) returns (ok: bool)
      requires Valid() && Buffers() <= frame
      modifies this, frame
      ensures Valid() && Buffers() <= frame && commands == old(commands)
      ensures old(Wake(Snapshot(), Contents(frame), RxInterrupt(rxData), false)) ==
              (if ok then Some((Snapshot(), Contents(frame))) else None)
      ensures !ok ==> Snapshot() == old(Snapshot()) && Contents(frame) == old(Contents(frame))
    {
      ok := true;
      if RxDataV in ien {
        if TailWritable() {
          ghost var mem, b, index := Contents(frame), rxBufferG, TransferSize - bytesLeft;
          RxIrqHandler(rxData);
          assert Contents(frame) == mem[b := mem[b][index := rxData]];
        } else {
          ok := false;
        }
      }
    }

    /** One wake-up of the core: runs the hardware step or handler the event stands for
        when its hardware condition holds, and nothing otherwise, exactly as Wake says.
        Reports false, changing nothing, when an RX interrupt would store through an
        invalid rxBufferG. `frame` holds the buffers the state can write. */
    method Deliver(e: Event, intended: bool, ghost frame: set<array<bv8>>) returns (ok: bool)
      requires Valid() && Buffers() <= frame
      modifies this, frame
      ensures Valid() && Buffers() <= frame && commands == old(commands)
      ensures old(Wake(Snapshot(), Contents(frame), e, intended)) ==
              (if ok then Some((Snapshot(), Contents(frame))) else None)
      ensures !ok ==> Snapshot() == old(Snapshot()) && Contents(frame) == old(Contents(frame))
    {
      ok := true;
      match e
      case RxDmaDone(data) => OnRxDmaDone(data, frame);
      case TxDmaDone => OnTxDmaDone(frame);
      case TransmitComplete => OnTransmitComplete(frame);
      case TxInterrupt => OnTxInterrupt(intended, frame);
      case RxInterrupt(rxData) => ok := OnRxInterrupt(rxData, frame);
    }

    /** The loop of sleepUntilTransferDone: with interrupts masked, read the flags; if a
        transfer is active, sleep until the next event and look again. The C loop is
        unbounded; here each sleep consumes one of `wakeups`, and the loop gives up when
        they run out. `states` is the run it went through, and the outcome says where
        the run stopped. */
    method SleepLoop(wakeups: seq<Event>, intended: bool)
      returns (outcome: WaitOutcome, slept: nat, ghost states: seq<(Regs, Mem)>)
      requires Valid()
      modifies this, Buffers()
      ensures Valid() && Buffers() <= old(Buffers())
      ensures Run(states, wakeups, intended)
      ensures states[0] == (old(Snapshot()), old(Contents(Buffers())))
      ensures states[|states| - 1] == (Snapshot(), Contents(old(Buffers())))
      ensures match outcome
        case Completed => !Active() && slept == |states| - 1
        case StillActive => Active() && slept == |states| - 1 == |wakeups|
        case UndefinedWrite =>
          Active() && slept == |states| <= |wakeups| &&
          Wake(Snapshot(), Contents(old(Buffers())), wakeups[slept - 1], intended).None?
      ensures commands == old(commands)
    {
      ghost var frame := Buffers();
      ghost var start := (Snapshot(), Contents(frame));
      states := [start];
      var i := 0;
      while true
        invariant Valid() && Buffers() <= frame && 0 <= i <= |wakeups|
        invariant |states| == i + 1 && states[i] == (Snapshot(), Contents(frame))
        invariant states[0] == start
        invariant Run(states, wakeups, intended)
        invariant commands == old(commands)
        decreases |wakeups| - i
      {
        // INT_Disable(): no handler runs between reading the flags and going to sleep.
        var isActive := SpiIsActive();
        if !isActive {
          // INT_Enable(), and the loop ends.
          outcome := Completed;
          break;
        }
        if i == |wakeups| {
          outcome := StillActive;
          break;
        }
        // EMU_EnterEM1(): the pending event wakes the core, its handler runs once
        // interrupts are enabled again.
        var ok := Deliver(wakeups[i], intended, frame);
        i := i + 1;
        if !ok {
          outcome := UndefinedWrite;
          break;
        }
        RunSnoc(states, wakeups, intended, (Snapshot(), Contents(frame)));
        states := states + [(Snapshot(), Contents(frame))];
      }
      slept := i;
    }

    /** sleepUntilTransferDone: the outcome, the number of wake-ups taken and the final
        state are those of Wait; `intended` picks the TX handler's mask as its comment
        describes it. */
    method SleepUntilTransferDone(wakeups: seq<Event>, intended: bool)
      returns (outcome: WaitOutcome, slept: nat)
      requires Valid()
      modifies this, Buffers()
      ensures Valid()
      ensures old(Wait(Snapshot(), Contents(Buffers()), wakeups, intended)) ==
              WaitResult(outcome, slept, Snapshot(), Contents(old(Buffers())))
      ensures outcome == Completed <==> !rxActive && !txActive
      ensures outcome == StillActive ==> slept == |wakeups|
      ensures outcome == UndefinedWrite ==> RxDataV in ien && !TailWritable()
      ensures !old(Active()) ==> outcome == Completed && slept == 0 && Snapshot() == old(Snapshot())
      ensures old(Stuck()) ==> outcome == StillActive
      ensures rxActive ==> old(rxActive)
      ensures txActive ==> old(txActive)
      ensures intended && old(Coherent()) ==>
        Coherent() && outcome != UndefinedWrite && (outcome == Completed ==> Idle())
      ensures old(TailSafe()) ==> TailSafe() && outcome != UndefinedWrite
      ensures commands == old(commands)
    {
      ghost var states;
      outcome, slept, states := SleepLoop(wakeups, intended);
      RunEnd(states, wakeups, intended, outcome);
      ghost var r0, m0 := states[0].0, states[0].1;
      WaitExit(r0, m0, wakeups, intended);
      if old(Stuck()) {
        WaitStuck(r0, m0, wakeups, intended);
      }
      if intended && old(Coherent()) {
        WaitCoherent(r0, m0, wakeups);
      }
      if old(TailSafe()) {
        WaitTailSafe(r0, m0, wakeups, intended);
      }
    }
  }

  /** One receive-only AUTOTX transfer of SPI_TRANSFER_SIZE bytes into `rx`, from any
      state whose DMA channels are idle: launch, the RX channel fills the first
      SPI_TRANSFER_SIZE - 3 bytes, TXC fires, then the three tail bytes arrive.
      `intended` picks the TX handler with the mask its comment describes. */
  method RunAutoTxTransfer(s: Spi, rx: array<bv8>, dmaBytes: seq<bv8>, tail: seq<bv8>, intended: bool)
    requires s.Valid() && s.dmaRx.None? && s.dmaTx.None?
    requires rx.Length == TransferSize
    requires |dmaBytes| == TransferSize - TailLength && |tail| == TailLength
    modifies s, rx
    ensures s.Valid() && s.dmaRx.None? && s.dmaTx.None?
    ensures rx[..] == dmaBytes + tail
    ensures !s.rxActive && !s.txActive && !s.ctrlAutoTx && !s.ifTxc
    ensures s.autoTx && s.rxBufferG == rx && s.bytesLeft == 0
    ensures !intended ==> s.ien == {Txc}
    ensures intended ==> s.ien == old(s.ien) - {Txc, RxDataV}
  {
    s.SpiDmaTransfer(null, rx, TransferSize);
    s.HwRxDmaDone(dmaBytes);
    assert rx[..TransferSize - TailLength] == dmaBytes;
    s.HwTransmitComplete();
    assert Txc in s.ien && s.ifTxc;  // USART1_TX_IRQHandler is dispatched
    if intended {
      s.TxIrqHandlerIntended();
    } else {
      s.TxIrqHandler();
    }
    CollectTail(s, tail);
  }

  /** The three RX interrupts that collect an AUTOTX tail: rxBufferG's last three bytes
      receive `tail` in arrival order, and the transfer ends with RXDATAV disabled. */
  method CollectTail(s: Spi, tail: seq<bv8>)
    requires s.Valid() && RxDataV in s.ien && s.bytesLeft == TailLength
    requires s.rxBufferG != null && s.rxBufferG.Length == TransferSize && |tail| == TailLength
    modifies s`bytesLeft, s`txActive, s`rxActive, s`ien, s.rxBufferG
    ensures s.Valid()
    ensures s.rxBufferG[..] == old(s.rxBufferG[..TransferSize - TailLength]) + tail
    ensures !s.rxActive && !s.txActive && s.bytesLeft == 0 && s.ien == old(s.ien) - {RxDataV}
  {
    s.RxIrqHandler(tail[0]);
    s.RxIrqHandler(tail[1]);
    s.RxIrqHandler(tail[2]);
    assert s.rxBufferG[..] == old(s.rxBufferG[..TransferSize - TailLength]) + tail;
  }

  /** A transmit-only transfer of `bytes` bytes (the first demo transfer): TX DMA with
      argument bytes - 1, RX never active, and the transfer over when the TX channel
      finishes. */
  method TxOnlyScenario(bytes: int) returns (txCount: int, activeAfterLaunch: bool, rxSeen: bool,
                                             autoTxOn: bool, activeAfterDma: bool)
    requires 1 <= bytes
    ensures txCount == bytes - 1
    ensures activeAfterLaunch && !rxSeen && !autoTxOn
    ensures !activeAfterDma
  {
    var s := new Spi();
    var tx := new bv8[bytes];
    s.SpiDmaTransfer(tx, null, bytes);
    txCount := s.dmaTx.value.nMinus1;
    activeAfterLaunch := s.SpiIsActive();
    rxSeen := s.rxActive;
    autoTxOn := s.ctrlAutoTx;
    s.HwTxDmaDone();
    activeAfterDma := s.SpiIsActive();
  }

  /** A full-duplex transfer of SPI_TRANSFER_SIZE bytes: both channels armed with
      argument bytes - 1, so the RX channel fills the whole buffer; the transfer stays
      active after the first channel finishes, in either order, and ends with the second. */
  method FullDuplexScenario(received: seq<bv8>, rxFirst: bool)
    returns (rxCount: int, txCount: int, activeBetween: bool, activeAfter: bool, buffer: seq<bv8>)
    requires |received| == TransferSize
    ensures rxCount == TransferSize - 1 && txCount == TransferSize - 1
    ensures activeBetween && !activeAfter
    ensures buffer == received
  {
    var s := new Spi();
    var tx := new bv8[TransferSize];
    var rx := new bv8[TransferSize];
    s.SpiDmaTransfer(tx, rx, TransferSize);
    rxCount, txCount := s.dmaRx.value.nMinus1, s.dmaTx.value.nMinus1;
    if rxFirst {
      s.HwRxDmaDone(received);
      activeBetween := s.SpiIsActive();
      s.HwTxDmaDone();
    } else {
      s.HwTxDmaDone();
      activeBetween := s.SpiIsActive();
      s.HwRxDmaDone(received);
    }
    activeAfter := s.SpiIsActive();
    buffer := rx[..];
  }

  /** A receive-only AUTOTX transfer from reset (the third demo transfer): the RX channel
      is armed with argument SPI_TRANSFER_SIZE - 4 and the buffer ends up holding the
      DMA bytes followed by the three tail bytes in arrival order; both flags and
      CTRL.AUTOTX end clear, the RX interrupt ends disabled, and TXC ends enabled. */
  method AutoTxScenario(dmaBytes: seq<bv8>, tail: seq<bv8>)
    returns (rxCount: int, received: seq<bv8>, active: bool, autoTxOn: bool,
             rxIrqOn: bool, txcOn: bool)
    requires |dmaBytes| == TransferSize - TailLength && |tail| == TailLength
    ensures rxCount == TransferSize - 4
    ensures received == dmaBytes + tail
    ensures !active && !autoTxOn && !rxIrqOn
    ensures txcOn
  {
    var s := new Spi();
    var rx := new bv8[TransferSize];
    s.SpiDmaTransfer(null, rx, TransferSize);
    rxCount := s.dmaRx.value.nMinus1;
    s.HwRxDmaDone(dmaBytes);
    assert rx[..TransferSize - TailLength] == dmaBytes;
    s.HwTransmitComplete();
    s.TxIrqHandler();
    CollectTail(s, tail);
    received := rx[..];
    active := s.SpiIsActive();
    autoTxOn, rxIrqOn, txcOn := s.ctrlAutoTx, RxDataV in s.ien, Txc in s.ien;
  }

  /** The same AUTOTX transfer from reset, driven through the wait loop by the six
      wake-ups the hardware produces: the loop sleeps six times and returns Completed,
      with the buffer holding the DMA bytes followed by the tail. */
  method AutoTxThroughWaitLoop(dmaBytes: seq<bv8>, tail: seq<bv8>)
    returns (outcome: WaitOutcome, slept: nat, received: seq<bv8>)
    requires |dmaBytes| == TransferSize - TailLength && |tail| == TailLength
    ensures outcome == Completed && slept == 6
    ensures received == dmaBytes + tail
  {
    var s := new Spi();
    var rx := new bv8[TransferSize];
    s.SpiDmaTransfer(null, rx, TransferSize);
    var wakeups := [RxDmaDone(dmaBytes), TransmitComplete, TxInterrupt,
                    RxInterrupt(tail[0]), RxInterrupt(tail[1]), RxInterrupt(tail[2])];
    AutoTxWakeups(s.Snapshot(), Contents(s.Buffers()), rx, dmaBytes, tail);
    outcome, slept := s.SleepUntilTransferDone(wakeups, false);
    received := rx[..];
  }

  /** Wait on the six wake-ups of an AUTOTX transfer launched into `rx`. */
  lemma AutoTxWakeups(r0: Regs, m0: Mem, rx: array<bv8>, dmaBytes: seq<bv8>, tail: seq<bv8>)
    requires |dmaBytes| == TransferSize - TailLength && |tail| == TailLength
    requires rx.Length == TransferSize && m0.Keys == {rx} && |m0[rx]| == TransferSize
    requires r0.autoTx && r0.rxActive && r0.txActive && r0.rxBufferG == rx
    requires r0.dmaRx == Some(Activation(rx, TransferSize - TailLength - 1)) && r0.dmaTx.None?
    requires r0.ien == {} && !r0.ifTxc
    ensures var w := Wait(r0, m0, [RxDmaDone(dmaBytes), TransmitComplete, TxInterrupt,
                                   RxInterrupt(tail[0]), RxInterrupt(tail[1]), RxInterrupt(tail[2])], false);
      w.outcome == Completed && w.slept == 6 && w.mem == m0[rx := dmaBytes + tail]
  {
    var ws := [RxDmaDone(dmaBytes), TransmitComplete, TxInterrupt,
               RxInterrupt(tail[0]), RxInterrupt(tail[1]), RxInterrupt(tail[2])];
    var r1 := r0.(dmaRx := None, ien := {Txc});
    var m1 := m0[rx := dmaBytes + m0[rx][TransferSize - TailLength..]];
    var r2 := r1.(ifTxc := true);
    var r3 := r2.(ien := {Txc, RxDataV}, ifTxc := false, ctrlAutoTx := false, bytesLeft := TailLength);
    assert {} + {Txc} == {Txc};
    assert Wake(r0, m0, ws[0], false) == Some((r1, m1));
    assert Wake(r1, m1, ws[1], false) == Some((r2, m1));
    assert {Txc} * {Txc} + {RxDataV} == {Txc, RxDataV};
    assert Wake(r2, m1, ws[2], false) == Some((r3, m1));
    AutoTxTail(r3, m1, rx, tail);
    assert ws[3..] == [RxInterrupt(tail[0]), RxInterrupt(tail[1]), RxInterrupt(tail[2])];
    assert ws[2..][1..] == ws[3..];
    assert ws[1..][1..] == ws[2..];
    assert Wait(r2, m1, ws[2..], false).slept == 4;
    assert Wait(r1, m1, ws[1..], false).slept == 5;
    assert m1[rx][..TransferSize - TailLength] + tail == dmaBytes + tail;
  }

  /** The three tail bytes of an AUTOTX transfer, taken by the RX interrupt handler from
      the state the TX handler leaves: the loop sleeps three times and the transfer ends
      with the tail in the last three places of `rx`. */
  lemma AutoTxTail(r3: Regs, m3: Mem, rx: array<bv8>, tail: seq<bv8>)
    requires |tail| == TailLength && rx.Length == TransferSize
    requires m3.Keys == {rx} && |m3[rx]| == TransferSize
    requires r3.autoTx && r3.rxActive && r3.txActive && r3.rxBufferG == rx
    requires r3.dmaRx.None? && r3.dmaTx.None? && r3.ien == {Txc, RxDataV} && r3.bytesLeft == TailLength
    ensures var w := Wait(r3, m3, [RxInterrupt(tail[0]), RxInterrupt(tail[1]), RxInterrupt(tail[2])], false);
      w.outcome == Completed && w.slept == 3 &&
      w.mem == m3[rx := m3[rx][..TransferSize - TailLength] + tail] &&
      w.regs == r3.(bytesLeft := 0, rxActive := false, txActive := false, ien := {Txc})
  {
    var ws := [RxInterrupt(tail[0]), RxInterrupt(tail[1]), RxInterrupt(tail[2])];
    var r4 := r3.(bytesLeft := 2);
    var m4 := m3[rx := m3[rx][7 := tail[0]]];
    var r5 := r4.(bytesLeft := 1);
    var m5 := m4[rx := m4[rx][8 := tail[1]]];
    var r6 := r5.(bytesLeft := 0, rxActive := false, txActive := false, ien := {Txc});
    var m6 := m5[rx := m5[rx][9 := tail[2]]];
    assert Wake(r3, m3, ws[0], false) == Some((r4, m4));
    assert Wake(r4, m4, ws[1], false) == Some((r5, m5));
    assert {Txc, RxDataV} - {RxDataV} == {Txc};
    assert Wake(r5, m5, ws[2], false) == Some((r6, m6));
    assert ws[2..][1..] == [];
    assert ws[1..][1..] == ws[2..];
    assert Wait(r5, m5, ws[2..], false) == WaitResult(Completed, 1, r6, m6);
    assert Wait(r4, m4, ws[1..], false) == WaitResult(Completed, 2, r6, m6);
    assert m6[rx] == m3[rx][..TransferSize - TailLength] + tail;
  }

  /** Two AUTOTX transfers in a row, into the same buffer as the demo does or into two:
      each transfer's buffer holds exactly its own bytes once it is over; nothing of
      the first tail count carries over. */
  method TwoAutoTxScenario(dma1: seq<bv8>, tail1: seq<bv8>, dma2: seq<bv8>, tail2: seq<bv8>,
                           sameBuffer: bool)
    returns (received1: seq<bv8>, received2: seq<bv8>, active: bool)
    requires |dma1| == TransferSize - TailLength && |tail1| == TailLength
    requires |dma2| == TransferSize - TailLength && |tail2| == TailLength
    ensures received1 == dma1 + tail1 && received2 == dma2 + tail2
    ensures !active
  {
    var s := new Spi();
    var rx1 := new bv8[TransferSize];
    var rx2 := rx1;
    if !sameBuffer {
      rx2 := new bv8[TransferSize];
    }
    RunAutoTxTransfer(s, rx1, dma1, tail1, false);
    received1 := rx1[..];
    RunAutoTxTransfer(s, rx2, dma2, tail2, false);
    received2 := rx2[..];
    active := s.SpiIsActive();
  }

  /** The TX handler's mask as written: after an AUTOTX transfer into rx1 has completed,
      TXC is still enabled. A following transmit-only transfer looks finished once its
      DMA channel is done, but its TXC dispatches the TX handler again, which re-arms the
      tail capture, and three received bytes `echo` overwrite rx1's last three bytes. */
  method StaleTailCapture(dmaBytes: seq<bv8>, tail: seq<bv8>, echo: seq<bv8>)
    returns (first: seq<bv8>, activeAfterTxOnly: bool, txIrqDispatched: bool, later: seq<bv8>)
    requires |dmaBytes| == TransferSize - TailLength && |tail| == TailLength && |echo| == TailLength
    ensures first == dmaBytes + tail
    ensures !activeAfterTxOnly && txIrqDispatched
    ensures later == dmaBytes + echo
  {
    var s := new Spi();
    var rx1 := new bv8[TransferSize];
    var tx := new bv8[TransferSize];
    RunAutoTxTransfer(s, rx1, dmaBytes, tail, false);
    first := rx1[..];
    s.SpiDmaTransfer(tx, null, TransferSize);
    s.HwTxDmaDone();
    activeAfterTxOnly := s.SpiIsActive();
    s.HwTransmitComplete();
    txIrqDispatched := s.ifTxc && Txc in s.ien;
    s.TxIrqHandler();
    CollectTail(s, echo);
    later := rx1[..];
  }

  /** The same sequence with the TX handler masking TXC off: the AUTOTX transfer still
      fills its buffer, leaves neither tail interrupt enabled, and the later transmit-only
      transfer's TXC can no longer dispatch the TX handler. */
  method IntendedTailCapture(dmaBytes: seq<bv8>, tail: seq<bv8>)
    returns (received: seq<bv8>, txcOn: bool, rxIrqOn: bool, txIrqDispatched: bool)
    requires |dmaBytes| == TransferSize - TailLength && |tail| == TailLength
    ensures received == dmaBytes + tail
    ensures !txcOn && !rxIrqOn && !txIrqDispatched
  {
    var s := new Spi();
    var rx := new bv8[TransferSize];
    var tx := new bv8[TransferSize];
    RunAutoTxTransfer(s, rx, dmaBytes, tail, true);
    received := rx[..];
    txcOn, rxIrqOn := Txc in s.ien, RxDataV in s.ien;
    s.SpiDmaTransfer(tx, null, TransferSize);
    s.HwTxDmaDone();
    s.HwTransmitComplete();
    txIrqDispatched := s.ifTxc && Txc in s.ien;
  }

  /** An AUTOTX transfer from reset without a receive buffer: TXC is enabled only from
      the RX channel's callback, which never comes, so the wait loop never sees the
      transfer end, whatever events arrive. */
  method AutoTxWithoutRxBuffer(wakeups: seq<Event>) returns (outcome: WaitOutcome)
    ensures outcome == StillActive
  {
    var s := new Spi();
    s.SpiDmaTransfer(null, null, TransferSize);
    var slept;
    outcome, slept := s.SleepUntilTransferDone(wakeups, false);
  }

  /** One launch of the demo: which of its buffers spiDmaTransfer is given. */
  datatype Launch = Launch(tx: array?<bv8>, rx: array?<bv8>)

  /** The launch half of one block of main: spiDmaTransfer of SPI_TRANSFER_SIZE bytes,
      with what it keeps of the two invariants the wait loop needs. */
  method StartTransfer(s: Spi, launch: Launch, intended: bool, ghost bufs: set<array<bv8>>)
    requires s.Valid() && s.Buffers() <= bufs
    requires launch.tx != null ==> launch.tx.Length >= TransferSize
    requires launch.rx != null ==> launch.rx in bufs && launch.rx.Length == TransferSize
    requires intended ==> s.Coherent() && s.Idle()
    modifies s
    ensures s.Valid() && s.Buffers() <= bufs
    ensures s.autoTx == (launch.tx == null) && s.txActive
    ensures launch.rx != null ==> s.rxActive && s.dmaRx.Some? && s.dmaRx.value.buffer == launch.rx
    ensures s.commands == old(s.commands) + (if launch.rx != null then [ClearRx, ClearTx] else [ClearTx])
    ensures intended ==> s.Coherent()
    ensures old(s.TailSafe()) && (launch.tx == null ==> launch.rx != null) ==> s.TailSafe()
  {
    ghost var before := s.Snapshot();
    s.SpiDmaTransfer(launch.tx, launch.rx, TransferSize);
    assert s.Buffers() <= bufs;
    if intended {
      LaunchCoherent(before, s.Snapshot(), launch.tx, launch.rx);
    }
    if before.TailSafe() && (launch.tx == null ==> launch.rx != null) {
      LaunchTailSafe(before, s.Snapshot(), launch.tx, launch.rx);
    }
  }

  /** One block of main: spiDmaTransfer of SPI_TRANSFER_SIZE bytes, then
      sleepUntilTransferDone on `wakeups`. Under either mask, when the tail fits its
      buffer before the launch and an AUTOTX launch is given a receive buffer, the wait
      never stores out of range. With the TX handler masking TXC off and the SPI idle
      at the launch, the wait, when it completes, leaves the SPI idle again. */
  method TransferAndWait(s: Spi, launch: Launch, wakeups: seq<Event>, intended: bool,
                         ghost bufs: set<array<bv8>>)
    returns (outcome: WaitOutcome, ghost launched: Regs, ghost launchedMem: Mem)
    requires s.Valid() && s.Buffers() <= bufs
    requires launch.tx != null ==> launch.tx.Length >= TransferSize
    requires launch.rx != null ==> launch.rx in bufs && launch.rx.Length == TransferSize
    requires intended ==> s.Coherent() && s.Idle()
    modifies s, bufs
    ensures s.Valid() && s.Buffers() <= bufs
    ensures outcome == Completed ==> !s.Active()
    ensures intended ==> s.Coherent() && outcome != UndefinedWrite && (outcome == Completed ==> s.Idle())
    ensures old(s.TailSafe()) && (launch.tx == null ==> launch.rx != null) ==>
      s.TailSafe() && outcome != UndefinedWrite
    ensures launched.autoTx == (launch.tx == null) && launched.txActive
    ensures launch.rx != null ==>
      launched.rxActive && launched.dmaRx.Some? && launched.dmaRx.value.buffer == launch.rx
    ensures s.commands == old(s.commands) + (if launch.rx != null then [ClearRx, ClearTx] else [ClearTx])
    ensures Framed(launched, launchedMem)
    ensures var w := Wait(launched, launchedMem, wakeups, intended);
      w.outcome == outcome && w.regs == s.Snapshot()
  {
    StartTransfer(s, launch, intended, bufs);
    launched, launchedMem := s.Snapshot(), Contents(s.Buffers());
    var slept;
    outcome, slept := s.SleepUntilTransferDone(wakeups, intended);
  }

  /** main after the peripheral set-up: its seven spiDmaTransfer calls, each followed
      by sleepUntilTransferDone, which here consumes the next list of wake-ups; the run
      stops early at a wait that does not complete. Under either mask of the TX handler,
      no wait stores out of range: every AUTOTX launch of main has a receive buffer. */
  method DemoMain(txData: array<bv8>, rxData1: array<bv8>, rxData2: array<bv8>,
                  wakeups: seq<seq<Event>>, intended: bool)
    returns (outcomes: seq<WaitOutcome>)
    requires txData.Length >= TransferSize
    requires rxData1.Length == TransferSize && rxData2.Length == TransferSize
    modifies rxData1, rxData2
    ensures |outcomes| <= 7 && |outcomes| <= |wakeups|
    ensures forall k :: 0 <= k < |outcomes| - 1 ==> outcomes[k] == Completed
    ensures UndefinedWrite !in outcomes
    ensures |outcomes| < 7 && |outcomes| < |wakeups| ==>
      |outcomes| > 0 && outcomes[|outcomes| - 1] != Completed
  {
    var plan := [Launch(txData, null), Launch(txData, rxData1), Launch(null, rxData2),
                 Launch(null, rxData2), Launch(txData, null), Launch(txData, rxData1),
                 Launch(null, rxData2)];
    var s := new Spi();
    outcomes := [];
    var k := 0;
    while k < |plan| && k < |wakeups| && (k == 0 || outcomes[k - 1] == Completed)
      invariant 0 <= k <= |plan| && k <= |wakeups| && |outcomes| == k
      invariant forall j :: 0 <= j < k - 1 ==> outcomes[j] == Completed
      invariant s.Valid() && s.Buffers() <= {rxData1, rxData2}
      invariant s.TailSafe() && UndefinedWrite !in outcomes
      invariant intended ==> s.Coherent()
      invariant intended && (k == 0 || outcomes[k - 1] == Completed) ==> s.Idle()
      decreases |plan| - k
    {
      var outcome, _, _ := TransferAndWait(s, plan[k], wakeups[k], intended, {rxData1, rxData2});
      assert forall j :: 0 <= j < k ==> outcomes[j] == Completed;
      outcomes := outcomes + [outcome];
      k := k + 1;
    }
  }
}
