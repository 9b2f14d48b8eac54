/** The one-deep CAN receive mailbox `CAN_RECV`. The CAN interrupt is the
    producer: it keeps only frames addressed to the module's id, always
    overwrites the stored payload with the latest one, and records in the
    OVERRUN flag bit that an unread payload was overwritten. The main loop
    is the consumer: it clears the NEW flag bit before handling the payload.
    `CAN_F_NEW` (1) and `CAN_F_OVERRUN` (2) are bit POSITIONS passed to the
    bit helpers, so NEW is the value 2 and OVERRUN the value 4 in `FLAGS`. */
module Mailbox {
  import opened Words
  import opened Bits

  /** `CAN_ID`: the module's own CAN identifier. */
  const CanId: u32 := 0x107

  /** Flag bit positions `CAN_F_NEW` and `CAN_F_OVERRUN`. */
  const CanFNew: bv32 := 1
  const CanFOverrun: bv32 := 2

  /** An 8-byte CAN payload. */
  type Payload = s: seq<byte> | |s| == 8 witness [0, 0, 0, 0, 0, 0, 0, 0]

  /** A received frame as `CANMessageGet` fills in the message object. */
  datatype Frame = Frame(id: u32, data: Payload)

  /** `CAN_MSG_T`: the `char FLAGS`, the `short ID` and the `char MSG[8]`. */
  datatype CanMsg = CanMsg(flags: bv8, id: int, msg: Payload)

  /** What the CAN interrupt observes of the controller: whether the cause
      is the controller-status interrupt, the new-data bitmap of the message
      objects, and the frame held by message object 1. */
  datatype CanIrq = CanIrq(statusInterrupt: bool, newData: bv32, frame: Frame)

  /** `CAN_RECV` as zero-initialised static storage. */
  const Empty: CanMsg := CanMsg(0, 0, [0, 0, 0, 0, 0, 0, 0, 0])

  /** Storing a `uint32_t` result into the `char FLAGS` keeps its low byte:
      the eight bits of the stored flags are bits 0 to 7 of the word. */
  function Narrow(x: bv32): (f: bv8)
    ensures forall j: bv32 :: j < 8 ==> BitCheck(f as bv32, j) == BitCheck(x, j)
  {
    (x & 0xFF) as bv8
  }

  predicate IsNew(m: CanMsg)
  {
    BitCheck(m.flags as bv32, CanFNew)
  }

  predicate IsOverrun(m: CanMsg)
  {
    BitCheck(m.flags as bv32, CanFOverrun)
  }

  /** The flag bits other than NEW and OVERRUN. */
  function OtherFlags(m: CanMsg): bv8
  {
    m.flags & 0xF9
  }

  /** main.c:670-681: a frame for `CAN_ID` replaces the stored payload; the
      OVERRUN bit is set when NEW was already set, and NEW is set. A frame
      for any other id changes nothing. */
  function Receive(m: CanMsg, f: Frame): (r: CanMsg)
    ensures f.id != CanId ==> r == m
    ensures f.id == CanId ==> r.msg == f.data && r.id == CanId
    ensures f.id == CanId ==> IsNew(r)
    ensures f.id == CanId ==> (IsOverrun(r) <==> IsOverrun(m) || IsNew(m))
    ensures OtherFlags(r) == OtherFlags(m)
  {
    if f.id == CanId then
      var flags := if BitCheck(m.flags as bv32, CanFNew) then Narrow(BitSet(m.flags as bv32, CanFOverrun)) else m.flags;
      CanMsg(Narrow(BitSet(flags as bv32, CanFNew)), f.id, f.data)
    else
      m
  }

  /** `IntCAN0Handler`: unless the interrupt is a controller-status one, a
      frame pending in message object 1 (bit 0 of the new-data bitmap) is
      fetched and handed to `Receive`. */
  function IntCan0Handler(m: CanMsg, irq: CanIrq): (r: CanMsg)
    ensures r == m || r == Receive(m, irq.frame)
    ensures !irq.statusInterrupt && irq.newData & 1 == 1 ==> r == Receive(m, irq.frame)
    ensures irq.statusInterrupt || irq.newData & 1 == 0 ==> r == m
  {
    if !irq.statusInterrupt && irq.newData != 0 && irq.newData & 1 != 0 then
      Receive(m, irq.frame)
    else
      m
  }

  /** main.c:896: the main loop takes the payload by clearing NEW. OVERRUN,
      the payload and every other bit stay as they were. */
  function Consume(m: CanMsg): (r: CanMsg)
    ensures !IsNew(r)
    ensures IsOverrun(r) == IsOverrun(m)
    ensures OtherFlags(r) == OtherFlags(m)
    ensures r.msg == m.msg && r.id == m.id
  {
    m.(flags := Narrow(BitClear(m.flags as bv32, CanFNew)))
  }

  /** The frames of a burst of interrupts delivered one after another. */
  function ReceiveAll(m: CanMsg, frames: seq<Frame>): CanMsg
    decreases |frames|
  {
    if frames == [] then m else ReceiveAll(Receive(m, frames[0]), frames[1..])
  }

  /** After a burst of `k >= 1` frames for `CAN_ID`, the mailbox holds the
      last frame's payload with NEW set, and OVERRUN is set exactly when it
      was already set, or a payload was still unread before the burst, or
      the burst had two frames or more. */
  lemma {:induction false} BurstKeepsLatest(m: CanMsg, frames: seq<Frame>)
    requires |frames| >= 1
    requires forall i :: 0 <= i < |frames| ==> frames[i].id == CanId
    ensures var r := ReceiveAll(m, frames);
            && r.msg == frames[|frames| - 1].data
            && IsNew(r)
            && (IsOverrun(r) <==> IsOverrun(m) || IsNew(m) || |frames| >= 2)
    decreases |frames|
  {
    var m' := Receive(m, frames[0]);
    if |frames| > 1 {
      BurstKeepsLatest(m', frames[1..]);
    }
  }

  /** Frames for other ids leave the mailbox exactly as it was. */
  lemma {:induction false} ForeignFramesIgnored(m: CanMsg, frames: seq<Frame>)
    requires forall i :: 0 <= i < |frames| ==> frames[i].id != CanId
    ensures ReceiveAll(m, frames) == m
    decreases |frames|
  {
    if frames != [] {
      ForeignFramesIgnored(m, frames[1..]);
    }
  }

  /** Once set, OVERRUN survives any further frames and any consume. */
  lemma {:induction false} OverrunSurvivesReceiving(m: CanMsg, frames: seq<Frame>)
    requires IsOverrun(m)
    ensures IsOverrun(ReceiveAll(m, frames))
    ensures IsOverrun(Consume(ReceiveAll(m, frames)))
    decreases |frames|
  {
    if frames != [] {
      OverrunSurvivesReceiving(Receive(m, frames[0]), frames[1..]);
    }
  }
}
