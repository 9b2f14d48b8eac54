/** The command dispatcher of the main loop: the CAN command table
    (main.c:899-1009) and its smaller I2C copy (main.c:1024-1050). A CAN
    command is the 8-byte payload `[opcode, dest_hi, dest_lo, arg (4 bytes,
    most significant first), reserved]`; every handled opcode answers with
    `Response(opcode, value)` sent to the 2-byte destination the request
    names. Flash contents are an oracle `mem`: `mem(a)` is the 32-bit word
    stored at address `a`. */
module Dispatch {
  import opened Words
  import CircBuf
  import Mailbox
  import opened Device

  /** The command enumeration (main.c:78-88). */
  const ReadVersion: byte := 0x01
  const ReadData: byte := 0x02
  const FlashStart: byte := 0x03
  const FlashReadPos: byte := 0x04
  const FlashEraseFull: byte := 0x05
  const FlashSetSampleSize: byte := 0x06
  const FlashStatus: byte := 0x07
  const FlashGetData: byte := 0x08
  const FlashGenCsv: byte := 0x09

  /** Opcodes with a case in the CAN switch. `FlashGenCsv` has none. */
  predicate CanHandles(op: byte)
  {
    ReadVersion <= op <= FlashGetData
  }

  /** `CANID_tmp = (MSG[1] << 8) + MSG[2]`. */
  function DestId(msg: Mailbox.Payload): (id: u32)
    ensures id < 0x1_0000
    ensures id / 0x100 == msg[1] && id % 0x100 == msg[2]
  {
    msg[1] as int * 0x100 + msg[2]
  }

  /** `CANVAL_tmp`: bytes 3 to 6, most significant first. */
  function Argument(msg: Mailbox.Payload): (arg: u32)
    ensures BigEndian(arg) == msg[3..7]
  {
    BigEndianRoundTrip(msg[3..7]);
    FromBigEndian(msg[3..7])
  }

  /** The 32-bit value a reply frame carries. */
  function ValueOf(data: Mailbox.Payload): u32
  {
    FromBigEndian(data[4..8])
  }

  /** A reply carrying `value` for opcode `op`, sent to `dest`. */
  function Reply(dest: u32, op: byte, value: u32): (e: Effect)
    ensures e.CanSend? && e.id == dest
    ensures e.data[..4] == [8, 1, 7, op]
    ensures ValueOf(e.data) == value
  {
    var data := Response(op, value);
    assert data[1] == 1 && data[2] == 7;
    CanSend(dest, data)
  }

  /** main.c:966: a requested sample size of 0 or above 0x10000 becomes
      0x10000; any other request is kept. */
  function ClampSampleSize(arg: u32): (size: u32)
    ensures 1 <= size <= MaxSampleSize
    ensures 1 <= arg <= MaxSampleSize ==> size == arg
    ensures arg == 0 || arg > MaxSampleSize ==> size == MaxSampleSize
  {
    if arg == 0 || arg > MaxSampleSize then MaxSampleSize else arg
  }

  /** main.c:977: `((FlashIndex - FlashUserSpace) / FlashSampleSize) * 100`
      in `uint32_t` arithmetic, dividing before multiplying. */
  function FlashPercent(index: u32, size: u32): (r: u32)
    requires size != 0
    ensures FlashUserSpace <= index <= FlashUserSpace + MaxSampleSize ==>
      && r % 100 == 0
      && (r / 100) * size <= index - FlashUserSpace < (r / 100 + 1) * size
  {
    var x := Sub32(index, FlashUserSpace);
    WholeSessions(x, size);
    Mul32(x / size, 100)
  }

  /** `x / y` counts the whole multiples of `y` in `x`. */
  lemma WholeSessions(x: nat, y: nat)
    requires y != 0
    ensures x / y <= x
    ensures (x / y) * y <= x < (x / y + 1) * y
  {
    var q, r := x / y, x % y;
    assert x == y * q + r && 0 <= r < y;
    MulSign(y, q);
  }

  /** Because the division comes first, the status is the number of
      completed sessions' worth of bytes logged, times 100: 0 while the
      cursor is inside the session, exactly 100 once it has reached the
      session's end (and before a second session's worth), and never an
      intermediate percentage. */
  lemma FlashPercentSteps(index: u32, size: u32)
    requires 1 <= size <= MaxSampleSize
    requires FlashUserSpace <= index <= FlashUserSpace + MaxSampleSize
    ensures FlashPercent(index, size) % 100 == 0
    ensures FlashPercent(index, size) == 0 <==> index < FlashUserSpace + size
    ensures FlashUserSpace + size <= index < FlashUserSpace + 2 * size ==> FlashPercent(index, size) == 100
  {
    var x := index - FlashUserSpace;
    var q := x / size;
    DivFacts(x, size);
    assert Sub32(index, FlashUserSpace) == x;
    assert q * 100 < Two32;
  }

  /** Outside that window the status is not capped at 100: with a 1- or
      2-byte session the full session already answers 400 or 200, and
      shrinking the sample size after logging answers far more. */
  lemma FlashPercentOvershoots()
    ensures FlashPercent(FlashUserSpace + 4, 1) == 400
    ensures FlashPercent(FlashUserSpace + 4, 2) == 200
    ensures FlashPercent(FlashUserSpace + MaxSampleSize, 0x100) == 25600
  {
  }

  /** Euclidean division facts for a non-negative dividend. */
  lemma DivFacts(x: int, y: int)
    requires 0 <= x && 1 <= y
    ensures 0 <= x / y <= x
    ensures x / y == 0 <==> x < y
    ensures y <= x < 2 * y ==> x / y == 1
  {
    var q, r := x / y, x % y;
    assert x == y * q + r && 0 <= r < y;
    assert q >= 0 by {
      MulSign(y, q);
    }
  }

  lemma MulSign(y: int, q: int)
    requires 1 <= y
    ensures q < 0 ==> y * q <= -y
    ensures q >= 1 ==> y * q >= y && y * q >= q
    ensures q >= 2 ==> y * q >= 2 * y
  {
  }

  /** Address of the `k`-th word of the log region. */
  function LogAddr(k: nat): u32
    requires k <= MaxSampleSize / 4
  {
    FlashUserSpace + 4 * k
  }

  /** Replies carrying the first `n` words of the log region. */
  function DumpWords(dest: u32, op: byte, mem: u32 -> u32, n: nat): (s: seq<Effect>)
    requires n <= MaxSampleSize / 4 + 1
    ensures |s| == n
    ensures forall k :: 0 <= k < n ==> s[k] == Reply(dest, op, mem(LogAddr(k)))
  {
    seq(n, k requires 0 <= k < n => Reply(dest, op, mem(LogAddr(k))))
  }

  /** The frames `FlashGetData` sends (main.c:987-1007): the sample size,
      then `size / 4 + 1` log words from `FlashUserSpace` on (the loop bound
      is inclusive), then a zero terminator. */
  function FlashDump(dest: u32, op: byte, size: u32, mem: u32 -> u32): (s: seq<Effect>)
    requires 1 <= size <= MaxSampleSize
    ensures |s| == size / 4 + 3
    ensures s[0] == Reply(dest, op, size) && s[|s| - 1] == Reply(dest, op, 0)
    ensures forall k :: 0 <= k <= size / 4 ==> s[k + 1] == Reply(dest, op, mem(LogAddr(k)))
  {
    [Reply(dest, op, size)] + DumpWords(dest, op, mem, size / 4 + 1) + [Reply(dest, op, 0)]
  }

  /** The `FlashGetData` loop as the source writes it, over a `uint32_t`
      cursor `lop` with an inclusive bound; it sends what `FlashDump` says. */
  method FlashGetDataLoop(dest: u32, op: byte, size: u32, mem: u32 -> u32) returns (effects: seq<Effect>)
    requires 1 <= size <= MaxSampleSize
    ensures effects == FlashDump(dest, op, size, mem)
  {
    effects := [Reply(dest, op, size)];
    var lop: u32 := FlashUserSpace;
    var k: nat := 0;
    while lop <= Add32(FlashUserSpace, size)
      invariant k <= size / 4 + 1
      invariant lop == FlashUserSpace + 4 * k
      invariant effects == [Reply(dest, op, size)] + DumpWords(dest, op, mem, k)
      decreases size / 4 + 1 - k
    {
      effects := effects + [Reply(dest, op, mem(lop))];
      lop := Add32(lop, 4);
      k := k + 1;
    }
    effects := effects + [Reply(dest, op, 0)];
  }

  /** The CAN command switch (main.c:899-1009) for the drained payload
      `msg`. */
  function CanDispatch(d: Device, msg: Mailbox.Payload, mem: u32 -> u32): (r: Step)
    requires Inv(d)
    ensures Inv(r.dev)
    ensures r.dev.recv == d.recv && r.dev.timer == d.timer
    ensures r.dev.heartbeatTrigger == d.heartbeatTrigger
    ensures r.dev.i2cNewCommand == d.i2cNewCommand
    ensures r.dev.i2cCommand == d.i2cCommand && r.dev.i2cParam == d.i2cParam
    // framing: every frame sent goes to the requested destination, echoing the opcode
    ensures forall e :: e in r.effects && e.CanSend? ==>
      e.id == DestId(msg) && e.data[..4] == [8, 1, 7, msg[0]]
    // an opcode outside the switch does nothing at all
    ensures !CanHandles(msg[0]) ==> r == Step(d, [])
    // a handled opcode other than FlashGetData sends exactly one frame, last
    ensures CanHandles(msg[0]) && msg[0] != FlashGetData ==>
      && |r.effects| >= 1
      && r.effects[|r.effects| - 1].CanSend?
      && forall i :: 0 <= i < |r.effects| - 1 ==> !r.effects[i].CanSend?
    ensures msg[0] == ReadVersion ==>
      r.dev == d && r.effects == [Reply(DestId(msg), msg[0], BuildVersion)]
    ensures msg[0] == ReadData ==>
      var q := CircBuf.Contents(d.buf);
      var v := if q == [] then d.bufDataVar else q[0];
      && r.effects == [Reply(DestId(msg), msg[0], v)]
      && r.dev.bufDataVar == v
      && CircBuf.Contents(r.dev.buf) == (if q == [] then [] else q[1..])
      && r.dev.flashIndex == d.flashIndex && r.dev.sampleSize == d.sampleSize
    ensures msg[0] == FlashReadPos ==>
      r.dev == d && r.effects == [Reply(DestId(msg), msg[0], d.flashIndex)]
    ensures msg[0] == FlashEraseFull ==>
      r.dev == d && r.effects == [FlashErase(FlashUserSpace), Reply(DestId(msg), msg[0], FlashUserSpace)]
    ensures msg[0] == FlashStart ==>
      r.dev == d.(flashIndex := FlashUserSpace)
      && r.effects == [Reply(DestId(msg), msg[0], FlashUserSpace)]
    ensures msg[0] == FlashSetSampleSize ==>
      && r.dev == d.(sampleSize := r.dev.sampleSize)
      && (1 <= Argument(msg) <= MaxSampleSize ==> r.dev.sampleSize == Argument(msg))
      && (Argument(msg) == 0 || Argument(msg) > MaxSampleSize ==> r.dev.sampleSize == MaxSampleSize)
      && r.effects == [Reply(DestId(msg), msg[0], r.dev.sampleSize)]
    ensures msg[0] == FlashStatus ==>
      r.dev == d && r.effects == [Reply(DestId(msg), msg[0], FlashPercent(d.flashIndex, d.sampleSize))]
    ensures msg[0] == FlashGetData ==>
      r.dev == d && r.effects == FlashDump(DestId(msg), msg[0], d.sampleSize, mem)
  {
    var op, dest := msg[0], DestId(msg);
    if op == ReadVersion then
      Step(d, [Reply(dest, op, BuildVersion)])
    else if op == ReadData then
      var p := CircBuf.Pop(d.buf, d.bufDataVar);
      Step(d.(buf := p.buf, bufDataVar := p.out), [Reply(dest, op, p.out)])
    else if op == FlashReadPos then
      Step(d, [Reply(dest, op, d.flashIndex)])
    else if op == FlashEraseFull then
      Step(d, [FlashErase(FlashUserSpace), Reply(dest, op, FlashUserSpace)])
    else if op == FlashStart then
      Step(d.(flashIndex := FlashUserSpace), [Reply(dest, op, FlashUserSpace)])
    else if op == FlashSetSampleSize then
      var size := ClampSampleSize(Argument(msg));
      Step(d.(sampleSize := size), [Reply(dest, op, size)])
    else if op == FlashStatus then
      Step(d, [Reply(dest, op, FlashPercent(d.flashIndex, d.sampleSize))])
    else if op == FlashGetData then
      Step(d, FlashDump(dest, op, d.sampleSize, mem))
    else
      Step(d, [])
  }

  /** `I2C_SendData`: the four bytes of a word, most significant first. */
  function I2cSendData(value: u32): (e: Effect)
    ensures e.I2cSend? && |e.bytes| == 4 && FromBigEndian(e.bytes) == value
  {
    I2cSend(BigEndian(value))
  }

  /** The I2C command switch (main.c:1024-1050). It knows five of the
      opcodes; `FlashEraseFull` and `FlashStart` act without answering. */
  function I2cDispatch(d: Device): (r: Step)
    requires Inv(d)
    ensures Inv(r.dev)
    ensures !r.dev.i2cNewCommand
    ensures !d.i2cNewCommand ==> r == Step(d, [])
    ensures r.dev.recv == d.recv && r.dev.timer == d.timer && r.dev.sampleSize == d.sampleSize
    ensures r.dev.heartbeatTrigger == d.heartbeatTrigger
    ensures r.dev.i2cCommand == d.i2cCommand && r.dev.i2cParam == d.i2cParam
    ensures d.i2cNewCommand && !(ReadVersion as int <= d.i2cCommand <= FlashEraseFull as int) ==>
      r == Step(d.(i2cNewCommand := false), [])
    ensures forall e :: e in r.effects ==> e.I2cSend? || e == FlashErase(FlashUserSpace)
  {
    if !d.i2cNewCommand then
      Step(d, [])
    else
      var c := d.i2cCommand;
      var s :=
        if c == ReadVersion as int then
          Step(d, [I2cSendData(BuildVersion)])
        else if c == ReadData as int then
          var p := CircBuf.Pop(d.buf, d.bufDataVar);
          Step(d.(buf := p.buf, bufDataVar := p.out), [I2cSendData(p.out)])
        else if c == FlashReadPos as int then
          Step(d, [I2cSendData(d.flashIndex)])
        else if c == FlashEraseFull as int then
          Step(d, [FlashErase(FlashUserSpace)])
        else if c == FlashStart as int then
          Step(d.(flashIndex := FlashUserSpace), [])
        else
          Step(d, []);
      Step(s.dev.(i2cNewCommand := false), s.effects)
  }

  /** The I2C table is a copy of the CAN table's first five entries: for
      those opcodes it leaves the device as the CAN command would (apart
      from the I2C flag), sends over I2C exactly the value the CAN reply
      would carry for ReadVersion, ReadData and FlashReadPos, and performs
      the same erase for FlashEraseFull. */
  lemma I2cAgreesWithCan(d: Device, msg: Mailbox.Payload, mem: u32 -> u32)
    requires Inv(d) && d.i2cNewCommand
    requires ReadVersion <= msg[0] <= FlashEraseFull && d.i2cCommand == msg[0] as int
    ensures var i := I2cDispatch(d);
            var c := CanDispatch(d, msg, mem);
            && i.dev == c.dev.(i2cNewCommand := false)
            && (msg[0] in {ReadVersion, ReadData, FlashReadPos} ==>
                 |i.effects| == 1 && |c.effects| == 1
                 && i.effects[0].bytes == c.effects[0].data[4..8])
            && (msg[0] == FlashEraseFull ==> i.effects == c.effects[..1])
            && (msg[0] == FlashStart ==> i.effects == [])
  {
  }
}
