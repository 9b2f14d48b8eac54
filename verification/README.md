# Pressure-sensor CAN module firmware — Dafny model

This project models the control and data logic of the Inkley pressure-sensor
firmware (`main.c`), a Tiva C board that samples one ADC channel every
millisecond and serves the samples over CAN and I2C. The hardware is
abstracted away. Each interrupt handler and each pass of the main loop is one
atomic, pure step on an immutable `Device` record that holds the firmware's
globals. A step returns the next record and the side effects it caused, in
order: CAN frames sent, I2C bytes sent, flash pages erased and flash words
programmed.

Modules, following the source's structure:

- `Words` (`words.dfy`): `uint32_t` and `uint8_t` as bounded integers, with
  explicit modulo-2^32 wrap-around. It also holds the big-endian byte order of
  every 32-bit value on the bus.
- `Bits` (`bits.dfy`): `bit_clear`, `bit_toggle`, `bit_set` and `bit_check`
  on 32-bit bit-vectors.
- `CircBuf` (`circbuf.dfy`): the 1024-slot sample ring `circ_bbuf_t`. It is
  proved equivalent to a bounded FIFO queue of 1023 words.
- `Mailbox` (`mailbox.dfy`): the one-deep CAN receive slot `CAN_RECV`, with
  its NEW and OVERRUN flag bits.
- `Device` (`device.dfy`): the global state, the effect log, power-up, and
  the 8-byte reply frame.
- `Sampler` (`sampler.dfy`): `SysTickIntHandler`. It covers the bounded ADC
  wait, the ring push, the flash log cursor with its lazy page erase, and
  `GlobalTimer`.
- `Dispatch` (`dispatch.dfy`): the CAN command table and its I2C subset.
- `MainLoop` (`mainloop.dfy`): draining the mailbox, the heartbeat, the
  interrupt entry points, one loop pass, and any interleaving of steps.

Peripherals are oracles passed in as parameters:

- ADC completion: `ready(i)` is what the i-th status poll reads.
- ADC reading: a `sample` word.
- Flash contents: `mem(addr)`.
- CAN controller: a `CanIrq` giving the interrupt cause, the new-data bitmap
  and the frame in message object 1.
- I2C slave data: a command and a parameter word.

Behaviour of the code that the model keeps and that a reader might not
expect:

- OVERRUN is never cleared. The two `bit_clear` calls at lines 1012 and 1020
  throw away their results (`MainLoop.OverrunSticky`).
- `FlashEraseFull` erases the first page and answers `0x30000`. It does not
  move the log cursor.
- `FlashStatus` divides before it multiplies by 100, so it reports 100
  times the number of whole sessions' worth of bytes past `0x30000`, never a
  percentage in between. It is 0 inside the session, and 100 from the
  session's end up to one more session's worth (`Dispatch.FlashPercentSteps`).
  It is not capped at 100. With a sample size of 1 or 2 bytes the session
  ends at `0x30004`, which answers 400 or 200. A sample size shrunk after
  logging answers more still: cursor `0x40000` with size `0x100` answers
  25600 (`Dispatch.FlashPercentOvershoots`).
- The sampler programs each sample at the address after the cursor's old
  value. Word `0x30000` is never programmed, and the last word written can be
  `0x40000`. `FlashGetData` reads `size / 4 + 1` words from `0x30000`,
  because its loop bound is inclusive.
- The page erase happens only when `FlashIndex & 0x7ff == 0x400`. That is one
  erase every 2 KiB, at the odd 1 KiB boundaries.
- `ReadData` on an empty ring sends the previous `BufDataVar` again.
- The heartbeat uses a plain unsigned `GlobalTimer > HeatbeatTrigger`. It
  fires again on every pass during the last 10000 ticks before `GlobalTimer`
  wraps (`MainLoop.HeartbeatRefiresOnlyNearWrap`).
- `Device.Boot` is the static initial values of the globals followed by the
  erase at main.c:879. The CAN and SysTick interrupts are already live from
  `Init_Systick` and `Init_CAN`, so ticks and received frames can come
  before that erase. The model reaches those states too, with `MainLoop.Run`
  from `Boot`, but it orders the boot erase first.
- There are no streaming modes, no buffer-size command and no heartbeat
  suppression in this code. Only what `main.c` does is modelled.

## Model

| member | source | states |
|---|---|---|
| `Words.Add32` | main.c:407 | unsigned 32-bit addition: the sum when it fits, otherwise the sum minus 2^32 |
| `Words.Sub32` | main.c:977 | unsigned 32-bit subtraction: the difference, or the difference plus 2^32 when it would be negative |
| `Words.Mul32` | main.c:977 | unsigned 32-bit multiplication: the product when it fits, and otherwise the product less a multiple of 2^32 |
| `Words.BigEndian` | main.c:918-921 | a word's four bytes, most significant first; decoding them gives the word back |
| `Words.FromBigEndian` | main.c:900 | decoding four bytes gives a word whose top byte is the first byte and whose low byte is the last |
| `Words.BigEndianRoundTrip` | main.c:900 | encoding the decoded word gives back the same four bytes |
| `Words.BigEndianInjective` | main.c:918-921 | two different words never encode to the same four bytes |
| `Bits.BitCheckIsMask` | main.c:352-356 | `bit_check` holds exactly when the single-bit mask `1 << bit` meets the word, so it reads the bit the other three helpers change |
| `Bits.BitClear` | main.c:302-306 | the chosen bit reads 0 afterwards; every other bit is unchanged |
| `Bits.BitToggle` | main.c:319-323 | the chosen bit is inverted; every other bit is unchanged |
| `Bits.BitSet` | main.c:336-340 | the chosen bit reads 1 afterwards; every other bit is unchanged |
| `Bits.BitsDetermineWord` | main.c:352-356 | two words on which `bit_check` agrees at all 32 positions are equal, so the per-bit contracts above fix each helper's result |
| `Bits.ToggleInvolution` | main.c:319-323 | toggling the same bit twice restores the word |
| `Bits.SetClearIdempotent` | main.c:302-340 | setting a set bit, or clearing a clear bit, leaves the word unchanged |
| `CircBuf.Init` | main.c:163-169 | the initialised ring is valid, empty, and sits on the given 1024-word array |
| `CircBuf.Push` | main.c:183-202 | returns -1 and changes nothing exactly when `(head+1) mod maxlen == tail`, which is exactly when the ring holds maxlen-1 words; otherwise returns 0 and appends the word to the queue |
| `CircBuf.Pop` | main.c:216-235 | returns -1, leaving the ring and `*data` unchanged, exactly when `head == tail` (empty queue); otherwise returns 0, yields the oldest word and removes it |
| `CircBuf.PushContents` | main.c:197-199 | storing at `head` and advancing it appends the word behind the words already queued |
| `CircBuf.PopContents` | main.c:226-232 | advancing `tail` removes exactly the oldest queued word |
| `CircBuf.RingStepIsQueueStep` | main.c:183-235 | one push or pop on the ring shows the same status and output as the same call on a bounded queue of capacity maxlen-1, and leaves the ring holding that queue |
| `CircBuf.RingIsBoundedQueue` | main.c:183-235 | any sequence of pushes and pops on a valid ring is observed exactly like the same sequence on a bounded FIFO queue of capacity maxlen-1 |
| `CircBuf.FromInitIsQueue` | main.c:163-235 | from `Init_circ_bbuf`, the ring is a FIFO queue of at most 1023 words, and head and tail stay inside [0, 1024) |
| `Mailbox.Narrow` | main.c:678-680 | storing a 32-bit flag word into the `char FLAGS` keeps its low eight bits: bit j of the stored flags is bit j of the word, for j < 8 |
| `Mailbox.Receive` | main.c:670-681 | a frame whose id is not 0x107 changes nothing; otherwise the stored payload becomes the frame's, NEW is set, OVERRUN is set iff it was set or NEW was already set, and the other flag bits are untouched |
| `Mailbox.IntCan0Handler` | main.c:649-684 | a frame reaches the mailbox only when the cause is not the status interrupt and message object 1 has new data; otherwise the mailbox is unchanged |
| `Mailbox.Consume` | main.c:893-896 | clears NEW only: OVERRUN, the payload and the other bits stay as they were |
| `Mailbox.BurstKeepsLatest` | main.c:670-681 | after k >= 1 frames for 0x107, the mailbox holds the last frame with NEW set, and OVERRUN is set iff it already was, or a payload was unread, or k >= 2 |
| `Mailbox.ForeignFramesIgnored` | main.c:670 | any number of frames for other ids leave the mailbox unchanged |
| `Mailbox.OverrunSurvivesReceiving` | main.c:676-680 | once OVERRUN is set, further frames and a consume leave it set |
| `Device.Boot` | main.c:861-879 | power-up: the invariant holds, the ring is empty, no flag is set, the cursor is 0x40000, the sample size is 0x10000, both timers are 0, and the only effect is erasing 0x30000 |
| `Device.Response` | main.c:903-910 | a reply frame is `[8, CAN_ID high, CAN_ID low, opcode]` followed by a value that decodes back to the one given |
| `Sampler.PollAdc` | main.c:371-383 | the bounded wait succeeds iff one of polls 0..101 reads complete; on success the last poll made is the first complete one, and on timeout exactly 102 polls were made, all incomplete |
| `Sampler.SysTick` | main.c:366-408 | a timed-out conversion changes nothing. On success the timer rises by 1 (mod 2^32) and the sample is pushed. The cursor rises by exactly 4 iff it was below `0x30000 + FlashSampleSize`. The program address is the new cursor. An erase, at the old cursor, happens only when `FlashIndex & 0x7ff == 0x400`. The invariant is kept |
| `Sampler.TickAdvancesSession` | main.c:394-407 | a successful tick moves a cursor that is `done` words into the session to `min(done + 1, ceil(size / 4))` words |
| `Sampler.SessionCursor` | main.c:394-407 | after `FlashStart` and n successful ticks, the cursor is `0x30000 + 4 * min(n, ceil(size / 4))` and the timer has advanced by n mod 2^32 |
| `Dispatch.DestId` | main.c:899 | the destination id is `MSG[1] * 256 + MSG[2]`, below 0x10000 |
| `Dispatch.Argument` | main.c:900 | the argument is the big-endian word whose four bytes are `MSG[3..6]` |
| `Dispatch.Reply` | main.c:902-910 | a reply goes to the given destination, starts `[0x08, 0x01, 0x07, opcode]`, and carries the given value |
| `Dispatch.ClampSampleSize` | main.c:966-967 | 0 or anything above 0x10000 becomes 0x10000; anything else is kept; the result is always in 1..0x10000 |
| `Dispatch.FlashPercent` | main.c:977 | for a cursor in the log region, the status is 100 times the number of whole sessions in `FlashIndex - 0x30000`: a multiple of 100, with that count times the size at most the bytes logged and one more session beyond them |
| `Dispatch.FlashPercentOvershoots` | main.c:977 | the status is not capped at 100: a full 1- or 2-byte session answers 400 or 200, and cursor 0x40000 with size 0x100 answers 25600 |
| `Dispatch.FlashPercentSteps` | main.c:975-983 | in reachable states the status is a multiple of 100: it is 0 iff the cursor is inside the session, and exactly 100 from the session end up to one more session's worth |
| `Dispatch.FlashDump` | main.c:985-1008 | `FlashGetData` sends the size, then the `size/4 + 1` words at 0x30000, 0x30004, ..., then a zero, all as replies |
| `Dispatch.FlashGetDataLoop` | main.c:993-1001 | the inclusive `uint32_t` loop sends exactly the frames `FlashDump` describes |
| `Dispatch.CanDispatch` | main.c:899-1009 | see the list after this table |
| `Dispatch.I2cSendData` | main.c:534-584 | `I2C_SendData` puts four bytes on the bus, most significant first, which decode to the word |
| `Dispatch.I2cDispatch` | main.c:1024-1050 | the pending command is always consumed; opcodes outside 1..5 do nothing else; only I2C sends and the erase of 0x30000 can be emitted |
| `Dispatch.I2cAgreesWithCan` | main.c:1024-1048 | for opcodes 1-5 the I2C table changes the device exactly as the CAN table does; it sends the same value bytes for ReadVersion, ReadData and FlashReadPos, the same erase for FlashEraseFull, and no answer for FlashStart |
| `MainLoop.ServiceMailbox` | main.c:893-1014 | with NEW clear nothing happens; otherwise NEW is cleared, OVERRUN and the payload are kept, the payload is dispatched (its state change and its frames are exactly the command's), and the heartbeat deadline becomes `GlobalTimer + 10000` mod 2^32 |
| `MainLoop.Heartbeat` | main.c:1053-1069 | fires iff `GlobalTimer > HeatbeatTrigger` as an unsigned comparison; then it sends `[8, 1, 7, 0x7F, GlobalTimer]` to 0x7DF and re-arms the deadline to `GlobalTimer + 10000` mod 2^32 |
| `MainLoop.CanInterrupt` | main.c:637-685 | the CAN interrupt changes only the mailbox and sends nothing. A frame for 0x107 pending in object 1 outside a status interrupt is stored with NEW set, and OVERRUN is set iff it was set or NEW was. Anything else leaves the device unchanged. OVERRUN is never cleared |
| `MainLoop.MainPass` | main.c:890-1073 | one loop pass keeps the invariant and the timer, never clears OVERRUN, and consumes any pending I2C command. It emits the mailbox, I2C and heartbeat effects in that order. Its state is the mailbox step, then the I2C step, then the heartbeat step, then the CAN interrupt handler applied to the mailbox |
| `MainLoop.HeartbeatRefiresOnlyNearWrap` | main.c:1053-1068 | right after firing, the heartbeat is due again without a further tick iff `GlobalTimer >= 2^32 - 10000` |
| `MainLoop.CommandPostponesHeartbeat` | main.c:1013-1069 | a pass that dispatches a command sends no heartbeat, unless the timer is within 10000 ticks of wrapping |
| `MainLoop.Run` | main.c:890-1073 | every interleaving of ticks, CAN and I2C interrupts and loop passes from a state satisfying the invariant keeps it: ring indices in the array, sample size in 1..0x10000, and the cursor a word address in the log region |
| `MainLoop.OverrunSticky` | main.c:1012-1021 | once OVERRUN is set, no interleaving of ticks, interrupts and loop passes clears it |

`Dispatch.CanDispatch` states, for each opcode:

- Every frame goes to `DestId` and starts `[0x08, 0x01, 0x07, opcode]`.
- An opcode outside 1..8 sends nothing and changes nothing.
- Every handled opcode except `FlashGetData` sends exactly one frame, and it
  is the last effect.
- `ReadVersion` answers 1002.
- `ReadData` answers the oldest queued sample and removes it. On an empty
  ring it answers the previous `BufDataVar`.
- `FlashReadPos` answers the cursor.
- `FlashEraseFull` erases 0x30000, answers 0x30000, and leaves the cursor
  alone.
- `FlashStart` sets the cursor to 0x30000 and answers it.
- `FlashSetSampleSize` stores and answers the clamped argument.
- `FlashStatus` answers `((FlashIndex - 0x30000) / FlashSampleSize) * 100`.
- `FlashGetData` sends `FlashDump`.
- The invariant is kept.

## Left out

- Peripheral setup is not modelled: `Init_ADC`, `Init_Systick`, `Init_I2C`,
  `Init_CAN`, `CANListnerEX`, `DelayMS` and the clock setup. They only
  configure registers.
- `CANSendMSG`, `CANSendINT` and `CANPollCheck` are spin-waits on controller
  status, as are the busy-waits inside `I2C_SendData`. Each send is
  abstracted to one appended effect. Callers ignore the return values.
  `CANSendINT` and `CANPollCheck` are never called.
- The TivaWare calls are oracles (ADC status and data, `CANMessageGet`,
  `CANIntStatus`, `CANStatusGet`, `I2CSlaveDataGet`) or recorded effects
  (`FlashErase`, `FlashProgram`). Their bodies are not part of this model.
  Erases and programs do not feed back into the flash-contents oracle `mem`.
- The flash read `*((uint32_t *)lop)` is the oracle `mem(lop)`.
- Interrupt preemption is not modelled. Each handler and each loop pass is
  one indivisible step, so the unguarded read-modify-write of `CAN_RECV.FLAGS`
  is not analysed.
- `CAN_RECV.MSG` bytes are taken as unsigned `char` (0..255), as on the ARM
  target.
- `TimeOutClock` and `I2C_TimeOutClock` are kept local to the step that
  uses them, not as globals. Nothing else reads them.
- `I2C_RvcCommandParam` is recorded but never used by any command, as in the
  source.
- `Sampler.SysTick`: the test `(FlashIndex & 0x7ff) == 0x400` is written as
  `FlashIndex % 0x800 == 0x400`, which means the same for an unsigned word.
