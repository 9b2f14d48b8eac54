/** The main loop of `main` (main.c:890-1073), the two interrupt handlers it
    shares state with, and the whole firmware as a sequence of atomic
    steps. Each pass of the loop drains the CAN mailbox and dispatches its
    payload, looks at the OVERRUN bit, serves a pending I2C command, sends
    the heartbeat when it is due, and finally calls the CAN interrupt
    handler itself. */
module MainLoop {
  import opened Words
  import CircBuf
  import Mailbox
  import opened Device
  import opened Dispatch
  import Sampler

  /** main.c:893-1014: when NEW is set, clear it, dispatch the stored
      payload and re-arm the heartbeat deadline. The `bit_clear` call at
      main.c:1012 discards its result and changes nothing. */
  function ServiceMailbox(d: Device, mem: u32 -> u32): (r: Step)
    requires Inv(d)
    ensures Inv(r.dev)
    ensures !Mailbox.IsNew(d.recv) ==> r == Step(d, [])
    ensures Mailbox.IsNew(d.recv) ==>
      && !Mailbox.IsNew(r.dev.recv)
      && Mailbox.IsOverrun(r.dev.recv) == Mailbox.IsOverrun(d.recv)
      && r.dev.recv.msg == d.recv.msg
      && r.dev.heartbeatTrigger == Add32(d.timer, HeartBeatTime)
      && r.effects == CanDispatch(d, d.recv.msg, mem).effects
      && r.dev == CanDispatch(d, d.recv.msg, mem).dev.(recv := Mailbox.Consume(d.recv),
                                                      heartbeatTrigger := Add32(d.timer, HeartBeatTime))
    ensures r.dev.timer == d.timer
    ensures r.dev.i2cNewCommand == d.i2cNewCommand && r.dev.i2cCommand == d.i2cCommand
  {
    if Mailbox.IsNew(d.recv) then
      var m := Mailbox.Consume(d.recv);
      var s := CanDispatch(d.(recv := m), m.msg, mem);
      Step(s.dev.(heartbeatTrigger := Add32(d.timer, HeartBeatTime)), s.effects)
    else
      Step(d, [])
  }

  /** main.c:1053-1069: when `GlobalTimer > HeatbeatTrigger` (unsigned),
      send `[8, 0x01, 0x07, 0x7F, GlobalTimer]` to 0x7DF and re-arm the
      deadline to `GlobalTimer + HeartBeatTime` modulo 2^32. */
  function Heartbeat(d: Device): (r: Step)
    ensures |r.effects| <= 1
    ensures |r.effects| == 1 <==> d.timer > d.heartbeatTrigger
    ensures d.timer > d.heartbeatTrigger ==>
      && r.effects == [CanSend(BroadcastId, Response(HeartbeatCode, d.timer))]
      && r.dev == d.(heartbeatTrigger := Add32(d.timer, HeartBeatTime))
    ensures d.timer <= d.heartbeatTrigger ==> r == Step(d, [])
  {
    if d.timer > d.heartbeatTrigger then
      Step(d.(heartbeatTrigger := Add32(d.timer, HeartBeatTime)),
           [CanSend(BroadcastId, Response(HeartbeatCode, d.timer))])
    else
      Step(d, [])
  }

  /** `IntCAN0Handler`, whether raised by the hardware or called at the end
      of a loop pass: only the mailbox changes, and nothing is sent. A frame
      for `CAN_ID` pending in message object 1 outside a status interrupt
      is stored and marked NEW; anything else leaves the device as it was.
      OVERRUN is never cleared. */
  function CanInterrupt(d: Device, irq: Mailbox.CanIrq): (r: Step)
    requires Inv(d)
    ensures Inv(r.dev)
    ensures r.effects == [] && r.dev.(recv := d.recv) == d
    ensures Mailbox.IsOverrun(d.recv) ==> Mailbox.IsOverrun(r.dev.recv)
    ensures !irq.statusInterrupt && irq.newData & 1 == 1 && irq.frame.id == Mailbox.CanId ==>
      && Mailbox.IsNew(r.dev.recv)
      && r.dev.recv.msg == irq.frame.data
      && (Mailbox.IsOverrun(r.dev.recv) <==> Mailbox.IsOverrun(d.recv) || Mailbox.IsNew(d.recv))
    ensures irq.statusInterrupt || irq.newData & 1 == 0 || irq.frame.id != Mailbox.CanId ==>
      r.dev == d
  {
    Step(d.(recv := Mailbox.IntCan0Handler(d.recv, irq)), [])
  }

  /** `I2C0SlaveIntHandler` (main.c:418-431): the two bytes read from the
      I2C master become the pending command and its parameter. */
  function I2cInterrupt(d: Device, command: u32, param: u32): (r: Step)
    requires Inv(d)
    ensures Inv(r.dev)
    ensures r.dev.i2cNewCommand && r.dev.i2cCommand == command && r.dev.i2cParam == param
    ensures r.dev.(i2cNewCommand := d.i2cNewCommand, i2cCommand := d.i2cCommand, i2cParam := d.i2cParam) == d
    ensures r.effects == []
  {
    Step(d.(i2cNewCommand := true, i2cCommand := command, i2cParam := param), [])
  }

  /** One pass of the main loop (main.c:892-1072). The OVERRUN check at
      main.c:1017-1021 discards the result of its `bit_clear`, so it leaves
      the state as it is. */
  function MainPass(d: Device, mem: u32 -> u32, irq: Mailbox.CanIrq): (r: Step)
    requires Inv(d)
    ensures Inv(r.dev)
    ensures r.dev.timer == d.timer
    ensures Mailbox.IsOverrun(d.recv) ==> Mailbox.IsOverrun(r.dev.recv)
    ensures !r.dev.i2cNewCommand
    ensures var a := ServiceMailbox(d, mem);
            var b := I2cDispatch(a.dev);
            var c := Heartbeat(b.dev);
            && r.effects == a.effects + b.effects + c.effects
            && r.dev == c.dev.(recv := Mailbox.IntCan0Handler(c.dev.recv, irq))
  {
    var a := ServiceMailbox(d, mem);
    var b := I2cDispatch(a.dev);
    var c := Heartbeat(b.dev);
    var e := CanInterrupt(c.dev, irq);
    Step(e.dev, a.effects + b.effects + c.effects)
  }

  /** The re-armed deadline stops the heartbeat from firing again at the
      same timer value, except in the last `HeartBeatTime` ticks before
      `GlobalTimer` wraps: there `GlobalTimer + HeartBeatTime` wraps below
      `GlobalTimer` and the unsigned comparison fires again at once. */
  lemma HeartbeatRefiresOnlyNearWrap(d: Device)
    requires d.timer > d.heartbeatTrigger
    ensures var d' := Heartbeat(d).dev;
            d'.timer > d'.heartbeatTrigger <==> d.timer >= Two32 - HeartBeatTime
  {
  }

  /** A drained command pushes the heartbeat back: unless the timer is in
      its last `HeartBeatTime` ticks, the pass that dispatches a command
      sends no heartbeat. */
  lemma CommandPostponesHeartbeat(d: Device, mem: u32 -> u32, irq: Mailbox.CanIrq)
    requires Inv(d) && Mailbox.IsNew(d.recv)
    requires d.timer < Two32 - HeartBeatTime
    ensures var a := ServiceMailbox(d, mem);
            var b := I2cDispatch(a.dev);
            Heartbeat(b.dev) == Step(b.dev, [])
            && MainPass(d, mem, irq).effects == a.effects + b.effects
  {
  }

  /** The firmware's atomic steps: a SysTick interrupt, a CAN interrupt, an
      I2C slave interrupt, and a main-loop pass. */
  datatype Event =
    | Tick(ready: nat -> bool, sample: u32)
    | CanIrqEvent(irq: Mailbox.CanIrq)
    | I2cIrqEvent(command: u32, param: u32)
    | Pass(mem: u32 -> u32, irq: Mailbox.CanIrq)

  function Apply(d: Device, ev: Event): (r: Step)
    requires Inv(d)
    ensures Inv(r.dev)
  {
    match ev
    case Tick(ready, sample) => Sampler.SysTick(d, ready, sample)
    case CanIrqEvent(irq) => CanInterrupt(d, irq)
    case I2cIrqEvent(command, param) => I2cInterrupt(d, command, param)
    case Pass(mem, irq) => MainPass(d, mem, irq)
  }

  /** Any interleaving of steps, collecting every effect in order. Every
      state it reaches keeps `Inv`: the ring indices stay inside the array,
      the sample size stays in 1..0x10000 (so the status division never
      divides by zero), and the flash cursor stays a word address in the
      log region. */
  function Run(d: Device, evs: seq<Event>): (r: Step)
    requires Inv(d)
    ensures Inv(r.dev)
    decreases |evs|
  {
    if evs == [] then Step(d, [])
    else
      var s := Apply(d, evs[0]);
      var rest := Run(s.dev, evs[1..]);
      Step(rest.dev, s.effects + rest.effects)
  }

  /** OVERRUN is sticky: once set, no interleaving of interrupts and loop
      passes ever clears it. */
  lemma {:induction false} OverrunSticky(d: Device, evs: seq<Event>)
    requires Inv(d) && Mailbox.IsOverrun(d.recv)
    ensures Mailbox.IsOverrun(Run(d, evs).dev.recv)
    decreases |evs|
  {
    if evs != [] {
      var s := Apply(d, evs[0]);
      assert Mailbox.IsOverrun(s.dev.recv) by {
        match evs[0]
        case Tick(_, _) =>
        case CanIrqEvent(irq) =>
          Mailbox.OverrunSurvivesReceiving(d.recv, [irq.frame]);
        case I2cIrqEvent(_, _) =>
        case Pass(mem, irq) =>
          var a := ServiceMailbox(d, mem);
          var b := I2cDispatch(a.dev);
          var c := Heartbeat(b.dev);
          Mailbox.OverrunSurvivesReceiving(c.dev.recv, [irq.frame]);
      }
      OverrunSticky(s.dev, evs[1..]);
    }
  }
}
