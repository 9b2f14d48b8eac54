/** The firmware's shared state and its outputs. Every global the interrupt
    handlers and the main loop read or write is a field of one immutable
    `Device` record; each handler or loop pass is a pure step from one
    record to the next together with the list of side effects it caused
    (frames sent, flash pages erased, words programmed). */
module Device {
  import opened Words
  import CircBuf
  import Mailbox

  /** `BuildVersion`. */
  const BuildVersion: u32 := 1002

  /** `FlashUserSpace`: first address of the flash log region. */
  const FlashUserSpace: u32 := 0x30000

  /** Initial `FlashIndex` and `FlashSampleSize`, and the largest sample
      size `FlashSetSampleSize` accepts. */
  const InitialFlashIndex: u32 := 0x40000
  const MaxSampleSize: u32 := 0x10000

  /** `HeartBeatTime` in ticks, and where and with which code the heartbeat
      frame goes. */
  const HeartBeatTime: u32 := 10000
  const BroadcastId: u32 := 0x7DF
  const HeartbeatCode: byte := 0x7F

  /** `ADC_ReadTimeOut`. */
  const AdcReadTimeOut: nat := 100

  /** A side effect on the world outside the model. */
  datatype Effect =
    | CanSend(id: u32, data: Mailbox.Payload)   // `CANSendMSG(id, data)`
    | I2cSend(bytes: seq<byte>)                  // `I2C_SendData`: the bytes put on the bus, in order
    | FlashErase(addr: u32)                      // `FlashErase(addr)`
    | FlashProgram(addr: u32, value: u32)        // `FlashProgram(&value, addr, 4)`

  /** The globals of the firmware, plus `BufDataVar`, which is local to
      `main` but lives across every pass of its loop. */
  datatype Device = Device(
    buf: CircBuf.CircBuf,         // `SensorBuf`
    recv: Mailbox.CanMsg,         // `CAN_RECV`
    flashIndex: u32,              // `FlashIndex`
    sampleSize: u32,              // `FlashSampleSize`
    timer: u32,                   // `GlobalTimer`
    heartbeatTrigger: u32,        // `HeatbeatTrigger`
    bufDataVar: u32,              // `BufDataVar`
    i2cNewCommand: bool,          // `I2C_RcvNewCommand`
    i2cCommand: u32,              // `I2C_RcvCommand`
    i2cParam: u32                 // `I2C_RvcCommandParam`
  )

  datatype Step = Step(dev: Device, effects: seq<Effect>)

  /** What holds of every state the firmware reaches from power-up: the
      ring is a valid `SENSORBUFSIZE` ring, the sample size is one the
      setter can produce, and the flash cursor is a word-aligned address
      from the log start up to the end of the 64 KiB region. */
  ghost predicate Inv(d: Device)
  {
    && CircBuf.Valid(d.buf)
    && d.buf.maxlen == CircBuf.SensorBufSize
    && 1 <= d.sampleSize <= MaxSampleSize
    && FlashUserSpace <= d.flashIndex <= FlashUserSpace + MaxSampleSize
    && d.flashIndex % 4 == 0
  }

  /** Power-up: the globals' initial values, `Init_circ_bbuf` on the
      zero-filled static array, and the erase of the log's first page
      (main.c:100-112, main.c:861 and main.c:875-879). */
  function Boot(): (r: Step)
    ensures Inv(r.dev)
    ensures CircBuf.Contents(r.dev.buf) == []
    ensures !Mailbox.IsNew(r.dev.recv) && !Mailbox.IsOverrun(r.dev.recv)
    ensures r.dev.flashIndex == InitialFlashIndex && r.dev.sampleSize == MaxSampleSize
    ensures r.dev.timer == 0 && r.dev.heartbeatTrigger == 0
    ensures r.effects == [FlashErase(FlashUserSpace)]
  {
    var store := seq(CircBuf.SensorBufSize, _ => 0);
    Step(Device(CircBuf.Init(store), Mailbox.Empty, InitialFlashIndex, MaxSampleSize, 0, 0, 0, false, 0, 0),
         [FlashErase(FlashUserSpace)])
  }

  /** The 8-byte reply frame: length 8, the module's id `CAN_ID` high byte
      first, the echoed opcode, then the 32-bit value most significant byte
      first (main.c:903-910 with the value bytes of each case). */
  function Response(op: byte, value: u32): (r: Mailbox.Payload)
    ensures r[0] == 8 && r[1] as int * 0x100 + r[2] == Mailbox.CanId && r[3] == op
    ensures FromBigEndian(r[4..8]) == value
  {
    var r := [8, Mailbox.CanId / 0x100 % 0x100, Mailbox.CanId % 0x100, op] + BigEndian(value);
    assert r[4..8] == BigEndian(value);
    r
  }
}
