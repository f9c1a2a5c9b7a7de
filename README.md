# SPI master with DMA and AUTOTX tail capture, and the uC/OS-III task-three display

This project models two things from an EFM32 library.

The first is the transfer-completion state machine of the SPI master example
`spi_master_autotx.c`. USART1 runs as an SPI master, and DMA moves the bytes.
For a receive-only transfer, the USART's AUTOTX mode clocks out dummy bytes.
The RX DMA channel then stops three bytes short, and two USART interrupts
collect the last three bytes:
- TXC fires when the transmitter has drained.
- RXDATAV then fires once per byte.

The file-level state is the fields of the class `SpiMasterAutoTx.Spi`:
`autoTx`, `bytesLeft`, `rxBufferG`, `rxActive` and `txActive`. So are the
peripheral bits the code reads and writes:
- the enabled interrupts `IEN`, as a set of enable bits;
- `CTRL.AUTOTX`;
- the TXC interrupt flag;
- the commands written to `CMD`, as a ghost log;
- the activation each DMA channel is running: its buffer and its count argument.

Each C entry point is a method:
- `spiDmaTransfer` is `SpiDmaTransfer`;
- `transferComplete` is `TransferComplete`;
- `USART1_TX_IRQHandler` is `TxIrqHandler`;
- `USART1_RX_IRQHandler` is `RxIrqHandler`;
- `spiIsActive` is `SpiIsActive`;
- `sleepUntilTransferDone` is `SleepUntilTransferDone`.

Hardware events are separate methods:
- `HwRxDmaDone`: the RX channel writes its elements, then calls the callback.
- `HwTxDmaDone`: the TX channel finishes, then calls the callback.
- `HwTransmitComplete`: the transmitter raises its TXC flag.

A byte arriving is the `rxData` parameter of `RxIrqHandler`. Scenario methods
run the demo's transfers from reset and state their outcomes.

The same state as a value is the datatype `Regs`. Alongside it, `Mem` maps each
buffer a transfer can write to its contents. This value model is the reference
the wait loop is proved against:
- `Wake` is one wake-up of the core. The event is a DMA completion, TXC raised,
  or a USART interrupt being dispatched.
- `Wait` is `sleepUntilTransferDone` over a list of wake-ups.

`Spi.Deliver` runs one wake-up on the object and is proved equal to `Wake`.
`Spi.SleepUntilTransferDone` is proved equal to `Wait`: the same outcome, the same
number of wake-ups taken, the same final registers and buffer contents. The
properties of the loop are lemmas about `Wait`. `DemoMain` is `main`'s seven
launches, each followed by the wait loop.

The last argument of `DMA_ActivateBasic` is the number of elements minus one.
The code passes `bytes - 4` for the RX channel in AUTOTX mode. So the channel
fills indices `0 .. bytes-4`, which is `bytes - 3` bytes. The RX handler fills
the last three indices. Without AUTOTX, both channels get `bytes - 1`, so DMA
moves the whole transfer. Read as a plain byte count, the argument would mean
six bytes for a 10-byte transfer; the model follows the code and the
count-minus-one meaning.

The second is one pass of the task loop of `APP_TaskThree`
(`app_task_three.c`). The class `AppTaskThree.TaskThree` has the two static
variables. One pass is `Step`:
- `ringPos` goes round eight positions.
- If the queue poll returned a character, the 8-byte `taskStringBuffer` is
  shifted left in place by the source's loop, and the character is written at
  index 6.

The pure functions `Shifted` and `Slide` say what a run of passes does to the
seven display characters. `RunTask` connects the in-place method to them.

## Model

| member | source | states |
|---|---|---|
| `SpiMasterAutoTx.Spi.constructor` | v2/an/an0013_efm32_dma/spi_master_autotx.c:52-60 | initial state: `autoTx` false, `bytesLeft` 0, `rxBufferG` NULL, both flags false, no interrupt enabled, no DMA channel armed |
| `SpiMasterAutoTx.Spi.RxIrqHandler` | v2/an/an0013_efm32_dma/spi_master_autotx.c:76-91 | stores the byte at `SPI_TRANSFER_SIZE - bytesLeft` and changes no other buffer element; decrements `bytesLeft`; exactly when it reaches 0, clears both flags and the RXDATAV enable; flags never become true; keeps the tail invariant |
| `SpiMasterAutoTx.Spi.TxIrqHandler` | v2/an/an0013_efm32_dma/spi_master_autotx.c:100-112 | IEN becomes (old IEN ∩ {TXC}) ∪ {RXDATAV}, so every other enable bit is cleared and TXC stays; TXC flag acknowledged; CTRL.AUTOTX cleared; `bytesLeft` = 3; the frame shows that neither flag is touched |
| `SpiMasterAutoTx.Spi.TxIrqHandlerIntended` | v2/an/an0013_efm32_dma/spi_master_autotx.c:102-103 | the handler with the mask its comment describes: TXC disabled, other enable bits kept, RXDATAV enabled, the rest as `TxIrqHandler` |
| `SpiMasterAutoTx.Spi.TransferComplete` | v2/an/an0013_efm32_dma/spi_master_autotx.c:120-143 | TX channel: clears only `txActive`; RX channel, not AUTOTX: clears only `rxActive`; RX channel, AUTOTX: clears no flag and only enables TXC; any other channel: no change |
| `SpiMasterAutoTx.Spi.SpiDmaTransfer` | v2/an/an0013_efm32_dma/spi_master_autotx.c:264-315 | `autoTx` ⇔ `txBuffer` NULL; with an `rxBuffer`: `rxActive` set, CLEARRX issued, RX armed on `rxBuffer` with `bytes-4` in AUTOTX, which fills `bytes-3` elements, or with `bytes-1` otherwise; without one: RX not armed and `rxActive` unchanged; `txActive` always set and CLEARTX issued; AUTOTX: `rxBufferG` = `rxBuffer`, CTRL.AUTOTX set, TX never armed; otherwise TX armed on `txBuffer` with `bytes-1`, and CTRL.AUTOTX and `rxBufferG` unchanged |
| `SpiMasterAutoTx.Spi.SpiIsActive` | v2/an/an0013_efm32_dma/spi_master_autotx.c:321-327 | returns `rxActive || txActive` and changes nothing |
| `SpiMasterAutoTx.Spi.HwRxDmaDone` | v2/an/an0013_efm32_dma/spi_master_autotx.c:217-236 | the RX channel, set up with `transferComplete` as its callback, writes its `nMinus1 + 1` elements to the front of its buffer and leaves the rest alone; the channel becomes idle; then the callback's RX-channel effect |
| `SpiMasterAutoTx.Spi.HwTxDmaDone` | v2/an/an0013_efm32_dma/spi_master_autotx.c:238-253 | the TX channel becomes idle and its callback clears `txActive` only |
| `SpiMasterAutoTx.Spi.HwTransmitComplete` | v2/an/an0013_efm32_dma/spi_master_autotx.c:94-99 | the transmitter raises the TXC flag |
| `SpiMasterAutoTx.RxChannelDone` | v2/an/an0013_efm32_dma/spi_master_autotx.c:130-142 | the RX DMA channel finishing with `data` (as many bytes as it was armed for) and `transferComplete` for DMA_CHANNEL_RX: the channel is no longer armed; the first `|data|` bytes of its buffer are `data`, the rest of that buffer and every other buffer unchanged; with AUTOTX, `rxActive` stays and TXC is added to IEN; without, `rxActive` becomes false and IEN is unchanged; `txActive` and the TX channel untouched |
| `SpiMasterAutoTx.TxIrqStep` | v2/an/an0013_efm32_dma/spi_master_autotx.c:100-112 | the TX handler: RXDATAV enabled, `bytesLeft` 3, TXC flag cleared, CTRL.AUTOTX off; TXC stays enabled exactly when it was and the mask is the one written (`IEN &= TXC`), never with the mask the comment intends; both flags, both channels and `rxBufferG` unchanged |
| `SpiMasterAutoTx.RxIrqStep` | v2/an/an0013_efm32_dma/spi_master_autotx.c:76-91 | the RX handler: `bytesLeft` one less; both flags, and the RXDATAV enable, become false exactly when this was the last of the tail bytes (`bytesLeft` was 1), and are kept otherwise |
| `SpiMasterAutoTx.RxIrqStepStores` | v2/an/an0013_efm32_dma/spi_master_autotx.c:78-79 | the RX handler stores the received byte at index `SPI_TRANSFER_SIZE - bytesLeft` of `rxBufferG`; every other byte of that buffer and every other buffer is unchanged |
| `SpiMasterAutoTx.Wake` | v2/an/an0013_efm32_dma/spi_master_autotx.c:76-143 | one wake-up on the value state: the RX channel finishing (only if armed, for its own count), the TX channel finishing (only if armed), TXC being raised, the TX handler (only with TXC enabled and flagged) and the RX handler (only with RXDATAV enabled); there is no next state exactly when an enabled RX interrupt would store through a NULL or too-short `rxBufferG`; no wake-up sets a flag |
| `SpiMasterAutoTx.Spi.OnRxDmaDone` | v2/an/an0013_efm32_dma/spi_master_autotx.c:217-236 | the wake-up by the RX channel has the effect `Wake` gives it: the channel's elements written to the front of its buffer and the RX callback run when the channel is armed for that count, no change otherwise |
| `SpiMasterAutoTx.Spi.OnTxDmaDone` | v2/an/an0013_efm32_dma/spi_master_autotx.c:238-253 | the wake-up by the TX channel has the effect `Wake` gives it: channel idle and `txActive` cleared when armed, no change otherwise |
| `SpiMasterAutoTx.Spi.OnTransmitComplete` | v2/an/an0013_efm32_dma/spi_master_autotx.c:94-99 | the wake-up by the transmitter raises the TXC flag, as in `Wake` |
| `SpiMasterAutoTx.Spi.OnTxInterrupt` | v2/an/an0013_efm32_dma/spi_master_autotx.c:100-112 | the TX handler runs exactly when TXC is enabled and flagged, with the mask as written or as intended, as in `Wake` |
| `SpiMasterAutoTx.Spi.OnRxInterrupt` | v2/an/an0013_efm32_dma/spi_master_autotx.c:76-91 | with RXDATAV disabled nothing changes; with it enabled and the store in range, the RX handler runs; otherwise it reports the fault and changes nothing; in every case the result is `Wake`'s |
| `SpiMasterAutoTx.Spi.Deliver` | v2/an/an0013_efm32_dma/spi_master_autotx.c:76-143 | one wake-up of the core: registers and buffer contents afterwards are exactly `Wake`'s next state, and it reports a fault exactly when `Wake` has none, with nothing changed; the command log is untouched |
| `SpiMasterAutoTx.Wait` | v2/an/an0013_efm32_dma/spi_master_autotx.c:333-362 | the loop on a list of wake-ups: Completed at once when no transfer is active, StillActive when the list is used up, UndefinedWrite at a wake-up with no next state; never takes more wake-ups than it is given |
| `SpiMasterAutoTx.WaitExit` | v2/an/an0013_efm32_dma/spi_master_autotx.c:333-362 | Completed exactly when both flags are false at the end; StillActive only after every wake-up has been taken; UndefinedWrite only with RXDATAV enabled and `rxBufferG` invalid; a flag false at the start stays false |
| `SpiMasterAutoTx.WaitStuck` | v2/an/an0013_efm32_dma/spi_master_autotx.c:130-137 | an AUTOTX transfer launched without receive buffer (no channel armed, neither tail interrupt enabled) never completes, whatever list of wake-ups arrives |
| `SpiMasterAutoTx.WakeCoherent` | v2/an/an0013_efm32_dma/spi_master_autotx.c:100-143 | with TXC masked off in the TX handler, every wake-up from a coherent state has a next state and it is coherent |
| `SpiMasterAutoTx.WaitCoherent` | v2/an/an0013_efm32_dma/spi_master_autotx.c:333-362 | with TXC masked off, the loop from a coherent state never reports UndefinedWrite, ends coherent, and when it returns Completed the SPI is idle: no channel armed, neither tail interrupt enabled |
| `SpiMasterAutoTx.LaunchCoherent` | v2/an/an0013_efm32_dma/spi_master_autotx.c:264-315 | a launch from an idle coherent state, related to it as `SpiDmaTransfer`'s contract says, with an AUTOTX receive buffer that the tail indices fit, is coherent |
| `SpiMasterAutoTx.WakeTailSafe` | v2/an/an0013_efm32_dma/spi_master_autotx.c:76-143 | under either mask of the TX handler, every wake-up from a state where `rxBufferG` is NULL only with AUTOTX off and both tail interrupts disabled, and otherwise holds at least 10 bytes, has a next state, and that state keeps this property |
| `SpiMasterAutoTx.WaitTailSafe` | v2/an/an0013_efm32_dma/spi_master_autotx.c:333-362 | under either mask, the loop from such a state never reports UndefinedWrite and ends in such a state |
| `SpiMasterAutoTx.LaunchTailSafe` | v2/an/an0013_efm32_dma/spi_master_autotx.c:264-315 | a launch related to such a state as `SpiDmaTransfer`'s contract says keeps the property when an AUTOTX launch is given a 10-byte receive buffer, as every AUTOTX launch of `main` (lines 401, 407, 425) is |
| `SpiMasterAutoTx.TxIrqAsWrittenIncoherent` | v2/an/an0013_efm32_dma/spi_master_autotx.c:100-112 | with the mask as written, the TX handler run from a state with TXC enabled and flagged keeps TXC enabled next to RXDATAV, which no coherent state allows |
| `SpiMasterAutoTx.RunWait` | v2/an/an0013_efm32_dma/spi_master_autotx.c:333-362 | after a run of the loop through some wake-ups, the rest of the loop is the loop from the run's last state on the remaining wake-ups |
| `SpiMasterAutoTx.RunEnd` | v2/an/an0013_efm32_dma/spi_master_autotx.c:333-362 | a run that stops at an inactive state, at an active state with the wake-ups used up, or before a wake-up with no next state gives `Wait`'s result: Completed, StillActive or UndefinedWrite, with that many wake-ups taken and that final state |
| `SpiMasterAutoTx.Spi.SleepLoop` | v2/an/an0013_efm32_dma/spi_master_autotx.c:333-362 | the C loop: re-reads the flags, stops when both are false, otherwise takes the next wake-up; the states it passes through form a run, from the state at entry to the state at exit, and the outcome says where the run stopped |
| `SpiMasterAutoTx.Spi.SleepUntilTransferDone` | v2/an/an0013_efm32_dma/spi_master_autotx.c:333-362 | outcome, wake-ups taken, final registers and buffer contents equal `Wait`'s; Completed exactly when both flags are false; StillActive only once every wake-up is used; UndefinedWrite only with RXDATAV enabled and `rxBufferG` invalid; no transfer active at entry: Completed at once, nothing changed; a buffer-less AUTOTX transfer never completes; no flag becomes true; with TXC masked off, from a coherent state: no UndefinedWrite, coherent at the end, idle when Completed; under either mask, from a state where the tail fits `rxBufferG` (see `WaitTailSafe`): no UndefinedWrite, and the tail still fits at the end |
| `SpiMasterAutoTx.RunAutoTxTransfer` | v2/an/an0013_efm32_dma/spi_master_autotx.c:400-404 | from any state with idle channels: launch with `txBuffer` NULL, then RX DMA done, TXC, TX interrupt, three RX interrupts; the buffer is the DMA bytes followed by the tail bytes in arrival order; both flags and CTRL.AUTOTX off; IEN ends as {TXC} as written, or as the old IEN minus TXC and RXDATAV with the intended mask |
| `SpiMasterAutoTx.CollectTail` | v2/an/an0013_efm32_dma/spi_master_autotx.c:76-91 | three RX interrupts with `bytesLeft` 3 put the tail bytes in arrival order into the last three places of `rxBufferG`, leave its first seven bytes alone, clear both flags and the RXDATAV enable |
| `SpiMasterAutoTx.TxOnlyScenario` | v2/an/an0013_efm32_dma/spi_master_autotx.c:388-392 | transmit-only transfer: TX armed with `bytes-1`, active after launch, `rxActive` never set, AUTOTX off, inactive once the TX channel is done |
| `SpiMasterAutoTx.FullDuplexScenario` | v2/an/an0013_efm32_dma/spi_master_autotx.c:394-398 | transmit and receive: both channels armed with `bytes-1`; still active after the first channel finishes, in either order; inactive after the second; the buffer holds all received bytes |
| `SpiMasterAutoTx.AutoTxScenario` | v2/an/an0013_efm32_dma/spi_master_autotx.c:400-404 | receive-only AUTOTX from reset: RX argument `10-4`, received buffer = 7 DMA bytes followed by the 3 tail bytes at indices 7, 8 and 9; inactive, CTRL.AUTOTX and RXDATAV off, TXC left enabled |
| `SpiMasterAutoTx.AutoTxThroughWaitLoop` | v2/an/an0013_efm32_dma/spi_master_autotx.c:400-404 | an AUTOTX transfer from reset, then the wait loop on the six wake-ups the hardware produces (RX DMA done, TXC raised, TX interrupt, three RX interrupts): Completed after six wake-ups, and the buffer holds the seven DMA bytes followed by the three tail bytes |
| `SpiMasterAutoTx.AutoTxWakeups` | v2/an/an0013_efm32_dma/spi_master_autotx.c:400-404 | `Wait` on those six wake-ups from the state the AUTOTX launch leaves: Completed, six wake-ups, and the receive buffer is the DMA bytes followed by the tail |
| `SpiMasterAutoTx.AutoTxTail` | v2/an/an0013_efm32_dma/spi_master_autotx.c:76-91 | `Wait` on the three tail interrupts from the state the TX handler leaves: Completed after three, the tail in the last three places, both flags false and RXDATAV disabled |
| `SpiMasterAutoTx.TwoAutoTxScenario` | v2/an/an0013_efm32_dma/spi_master_autotx.c:400-410 | two AUTOTX transfers in a row, into the same buffer as `main` does with `spiRxData2` at lines 401 and 407, or into two buffers: each transfer's buffer holds exactly its own bytes once it is over, and nothing of the first tail count carries over |
| `SpiMasterAutoTx.StaleTailCapture` | v2/an/an0013_efm32_dma/spi_master_autotx.c:100-112 | as written, a transmit-only transfer after an AUTOTX one looks finished, but its TXC still dispatches the TX handler, and three received bytes overwrite the earlier buffer's indices 7-9 |
| `SpiMasterAutoTx.IntendedTailCapture` | v2/an/an0013_efm32_dma/spi_master_autotx.c:102-103 | with TXC masked off, the AUTOTX transfer still fills its buffer; afterwards neither tail interrupt is enabled, and a later TXC cannot dispatch the TX handler |
| `SpiMasterAutoTx.AutoTxWithoutRxBuffer` | v2/an/an0013_efm32_dma/spi_master_autotx.c:130-137 | from reset, an AUTOTX transfer with a NULL `rxBuffer` never reaches completion: TXC is enabled only from the RX callback, so the wait loop returns StillActive for every list of wake-ups |
| `SpiMasterAutoTx.StartTransfer` | v2/an/an0013_efm32_dma/spi_master_autotx.c:388-428 | the launch of one block of `main`: the model stays valid, within its buffers; AUTOTX exactly without a transmit buffer, `txActive` set, and with a receive buffer `rxActive` set and the RX channel armed on it; CLEARRX (with a receive buffer) then CLEARTX appended to the command log; with TXC masked off, an idle coherent SPI is coherent after the launch; under either mask, the tail still fits `rxBufferG` when an AUTOTX launch has a receive buffer |
| `SpiMasterAutoTx.TransferAndWait` | v2/an/an0013_efm32_dma/spi_master_autotx.c:388-428 | one block of `main`, a launch of 10 bytes followed by the wait loop: the state after the launch is returned, with AUTOTX exactly without a transmit buffer, `txActive` set, and with a receive buffer `rxActive` set and the RX channel armed on it; the launch's commands are appended to the log; the outcome and final registers are `Wait`'s from the launched state on `wakeups`; Completed leaves both flags false; under either mask, when the tail fits `rxBufferG` before the launch and an AUTOTX launch has a receive buffer, the wait never reports UndefinedWrite and the tail still fits afterwards; with TXC masked off and the SPI idle and coherent at the launch, when the wait completes it leaves the SPI idle and coherent again |
| `SpiMasterAutoTx.DemoMain` | v2/an/an0013_efm32_dma/spi_master_autotx.c:388-428 | `main`'s seven launches in order, `(spiTxData, NULL)`, `(spiTxData, spiRxData1)`, `(NULL, spiRxData2)` twice, then the first two again and `(NULL, spiRxData2)`, each followed by the wait loop on its own wake-ups; it stops at the first wait that does not complete, so every outcome but the last is Completed, and a run shorter than seven launches and than the list of wake-up lists ends with an outcome other than Completed; under either mask of the TX handler, no wait reports UndefinedWrite, because `rxBufferG` is NULL only before the first AUTOTX launch, when no tail interrupt can be enabled, and is `spiRxData2` afterwards |
| `AppTaskThree.Shifted` | v2/kits/EFM32_Gxxx_DK/examples/ucos3_port/src/app/app_task_three.c:123-129 | one received character: the text keeps its length, character `i+1` moves to place `i`, and the new character takes the last place |
| `AppTaskThree.Received` | v2/kits/EFM32_Gxxx_DK/examples/ucos3_port/src/app/app_task_three.c:112-120 | the characters the non-blocking queue polls deliver, in arrival order, a `NULL` poll giving none: no more of them than polls |
| `AppTaskThree.ReceivedMessages` | v2/kits/EFM32_Gxxx_DK/examples/ucos3_port/src/app/app_task_three.c:112-120 | every received character came from some poll, every delivered message is among them, and with a message on every poll none is dropped |
| `AppTaskThree.Slide` | v2/kits/EFM32_Gxxx_DK/examples/ucos3_port/src/app/app_task_three.c:122-129 | scrolling characters into the text keeps its length |
| `AppTaskThree.SlideWindow` | v2/kits/EFM32_Gxxx_DK/examples/ucos3_port/src/app/app_task_three.c:122-129 | after messages `m`, the text is the last `|text|` characters of `text + m`: a sliding window |
| `AppTaskThree.SlideSnoc` | v2/kits/EFM32_Gxxx_DK/examples/ucos3_port/src/app/app_task_three.c:122-129 | one more message shifts the window once more |
| `AppTaskThree.TaskThree.constructor` | v2/kits/EFM32_Gxxx_DK/examples/ucos3_port/src/app/app_task_three.c:90-91 | buffer `"uC/OS-3"` plus terminator, `ringPos` 0 |
| `AppTaskThree.TaskThree.Step` | v2/kits/EFM32_Gxxx_DK/examples/ucos3_port/src/app/app_task_three.c:99-136 | `ringPos` becomes `(old+1) mod 8` and stays in 0..7; no message: buffer unchanged; message `c`: new `buf[i]` = old `buf[i+1]` for `i` in 0..5, `buf[6]` = `c`; `buf[7]` never changes |
| `AppTaskThree.RunTask` | v2/kits/EFM32_Gxxx_DK/examples/ucos3_port/src/app/app_task_three.c:84-141 | from the initial state, after one pass per poll: the display is the last 7 characters of `"uC/OS-3"` followed by the received characters in arrival order; the terminator is still `'\0'`; `ringPos` = passes mod 8 |

## Findings

| source | as written | input that shows it | evidently intended | confidence | as-written member | corrected member |
|---|---|---|---|---|---|---|
| v2/an/an0013_efm32_dma/spi_master_autotx.c:102-103 | `USART1->IEN &= USART_IEN_TXC;` keeps TXC enabled and clears every other enable bit, although the comment says the TXC interrupt is disabled | AUTOTX transfer into `buf` completes; then `spiDmaTransfer(tx, NULL, 10)`; TX DMA done (transfer reported inactive); TXC raised: the TX handler runs again, re-arms RXDATAV with `bytesLeft = 3`, and three received bytes overwrite `buf[7..9]` | `USART1->IEN &= ~USART_IEN_TXC;` | high (the comment on line 102 states the intent); not executed | `SpiMasterAutoTx.StaleTailCapture` | `SpiMasterAutoTx.IntendedTailCapture` |

The main model keeps the handler as written, because that is what the program
does. `TxIrqHandler` and the scenarios use it. The corrected mask is
`Spi.TxIrqHandlerIntended`. `IntendedTailCapture` uses it, and so does
`RunAutoTxTransfer` when its `intended` argument is true.

## Left out
- `setupCmu`, `setupSpi`, `setupDma`, and in `main` `CHIP_Init` and
  `DMA_Reset`: these are one-time clock, GPIO, NVIC and DMA-descriptor set-up
  and clean-up through emlib calls that are not part of this model. The
  constructor stands for the state the set-up leaves. `DemoMain` is `main`'s
  transfers, and its final `while (1)` is left out.
- The internals of `DMA_ActivateBasic` and of the emlib calls: an activation
  is recorded as the channel's buffer and count argument. The memory copy is
  `HwRxDmaDone`'s write.
- `USART1->CMD` CLEARRX and CLEARTX are recorded in a ghost command log. Their
  effect on the USART FIFOs is not modelled.
- The bits actually shifted on the wire and the content of `txBuffer` are not
  modelled. An incoming byte is the parameter of `RxIrqHandler`.
- Interrupt preemption and `volatile`: handlers run only at the points where
  the scenarios call them, or between iterations of the wait loop.
- `INT_Disable`, `EMU_EnterEM1` and `INT_Enable` are comments at their places
  in the wait loop. Their race-freedom against a wake-up that arrives between
  the flag read and the sleep is not modelled.
- SpiMasterAutoTx.Spi.SleepUntilTransferDone: the C loop is unbounded. This one consumes a
  finite sequence of wake-up events and returns StillActive when they run out,
  so it does not prove that a transfer eventually ends.
- SpiMasterAutoTx.Spi.RxIrqHandler: the index stays hard-coded to `SPI_TRANSFER_SIZE`, and the
  handler requires the store to be in bounds. The tail lands at `bytes-3 ..
  bytes-1` only for 10-byte transfers, which is what the AUTOTX scenarios use.
- SpiMasterAutoTx.Spi.SpiDmaTransfer: it requires buffers that hold `bytes`, and a count
  argument that does not wrap (the argument is unsigned). The C code relies on
  its caller for these and does not check them. A launch over a channel that is
  still armed replaces its recorded activation.
- SpiMasterAutoTx.Spi.SleepUntilTransferDone: coherence, and an idle SPI after Completed, are
  proved only with TXC masked off as the handler's comment intends. With the
  mask as written, TXC stays enabled after an AUTOTX transfer, so a completed
  wait does not leave the SPI idle; `TxIrqAsWrittenIncoherent` and
  `StaleTailCapture` show what follows.
- SpiMasterAutoTx.DemoMain: with the mask as written, it does not state that the SPI is idle
  or coherent after each completed wait, because TXC stays enabled after an
  AUTOTX transfer.
- SpiMasterAutoTx.Spi.Deliver: an enabled RX interrupt with a NULL or too-short `rxBufferG`
  would be undefined behaviour in C. It is reported as a fault without changing
  state.
- The `primary` and `user` parameters of `transferComplete` are ignored, as in
  the code.
- `bytesLeft` is an unbounded integer. The values it takes (0 to 3) are far
  from the limits of C's `int`.
- `OSQPend`: each poll's result is the optional character passed to `Step`.
  `MsgSize` and the error code are not modelled.
- `OSTimeDly`, `printf`, `SegmentLCD_ARing` and `SegmentLCD_Write` are RTOS
  and display output, and are not modelled.
- The task's infinite `while (1)` is `RunTask` over a finite sequence of
  polls.
- The C `char` of the message is a Dafny `char`. No arithmetic is done on it.
