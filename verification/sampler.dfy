/** `SysTickIntHandler`, the 1 ms sampler. It starts one ADC conversion,
    polls for completion a bounded number of times, and on success pushes
    the reading into the sensor ring, appends it to the flash log while the
    log cursor is below the end of the current session, and advances
    `GlobalTimer`. A timed-out conversion is dropped silently. The ADC
    itself is an oracle: `ready(i)` is what the `i`-th status poll reads,
    and `sample` is the converted value. */
module Sampler {
  import opened Words
  import CircBuf
  import opened Device

  /** Whether one of the status polls the handler makes before giving up
      reads "complete". The poll counter `TimeOutClock` is compared with
      `ADC_ReadTimeOut` before it is incremented, so polls 0 to
      `ADC_ReadTimeOut + 1` are made. */
  predicate AdcCompletes(ready: nat -> bool)
  {
    exists i :: 0 <= i <= AdcReadTimeOut + 1 && ready(i)
  }

  /** main.c:371-383: the bounded wait for the conversion. `polls` is the
      number of status reads made. */
  method PollAdc(ready: nat -> bool) returns (ok: bool, polls: nat)
    ensures ok <==> AdcCompletes(ready)
    ensures 1 <= polls <= AdcReadTimeOut + 2
    ensures forall i :: 0 <= i < polls - 1 ==> !ready(i)
    ensures ok ==> ready(polls - 1)
    ensures !ok ==> polls == AdcReadTimeOut + 2 && !ready(polls - 1)
  {
    var clock := 0;            // `TimeOutClock`
    var status := ready(0);
    polls := 1;
    while !status
      invariant 0 <= clock <= AdcReadTimeOut + 1
      invariant polls == clock + 1
      invariant status == ready(polls - 1)
      invariant forall i :: 0 <= i < polls - 1 ==> !ready(i)
      decreases AdcReadTimeOut + 1 - clock
    {
      var expired := clock > AdcReadTimeOut;
      clock := clock + 1;
      if expired {
        return false, polls;
      }
      status := ready(polls);
      polls := polls + 1;
    }
    ok := true;
  }

  /** `(FlashIndex & 0x7ff) == 0x400`: the low eleven bits of the cursor,
      written as the remainder modulo 0x800. */
  predicate ErasesBefore(flashIndex: u32)
  {
    flashIndex % 0x800 == 0x400
  }

  /** Whether the log cursor is still inside the session:
      `FlashIndex < FlashUserSpace + FlashSampleSize`. */
  predicate Logging(d: Device)
  {
    d.flashIndex < Add32(FlashUserSpace, d.sampleSize)
  }

  /** `SysTickIntHandler` (main.c:366-408). */
  function SysTick(d: Device, ready: nat -> bool, sample: u32): (r: Step)
    requires Inv(d)
    ensures Inv(r.dev)
    ensures !AdcCompletes(ready) ==> r == Step(d, [])
    ensures AdcCompletes(ready) ==>
      && r.dev.timer == Add32(d.timer, 1)
      && r.dev.buf == CircBuf.Push(d.buf, sample).buf
    ensures AdcCompletes(ready) ==>
      (r.dev.flashIndex == d.flashIndex + 4 <==> d.flashIndex < FlashUserSpace + d.sampleSize)
    ensures AdcCompletes(ready) && d.flashIndex >= FlashUserSpace + d.sampleSize ==>
      r.dev.flashIndex == d.flashIndex && r.effects == []
    ensures AdcCompletes(ready) && d.flashIndex < FlashUserSpace + d.sampleSize ==>
      r.effects == (if ErasesBefore(d.flashIndex) then [FlashErase(d.flashIndex)] else [])
                   + [FlashProgram(r.dev.flashIndex, sample)]
    ensures forall e :: e in r.effects && e.FlashProgram? ==>
      FlashUserSpace < e.addr <= FlashUserSpace + MaxSampleSize && e.value == sample
    ensures forall e :: e in r.effects && e.FlashErase? ==> e.addr == d.flashIndex && ErasesBefore(d.flashIndex)
    ensures r.dev.recv == d.recv && r.dev.sampleSize == d.sampleSize
    ensures r.dev.heartbeatTrigger == d.heartbeatTrigger && r.dev.bufDataVar == d.bufDataVar
    ensures r.dev.i2cNewCommand == d.i2cNewCommand
    ensures r.dev.i2cCommand == d.i2cCommand && r.dev.i2cParam == d.i2cParam
  {
    if !AdcCompletes(ready) then
      Step(d, [])
    else
      var buf := CircBuf.Push(d.buf, sample).buf;
      var logged :=
        if Logging(d) then
          var erase := if ErasesBefore(d.flashIndex) then [FlashErase(d.flashIndex)] else [];
          var index := Add32(d.flashIndex, 4);
          Step(d.(flashIndex := index), erase + [FlashProgram(index, sample)])
        else
          Step(d, []);
      Step(logged.dev.(buf := buf, timer := Add32(d.timer, 1)), logged.effects)
  }

  /** The conversion completes on the first poll. */
  function AlwaysReady(i: nat): bool
  {
    true
  }

  /** A run of ticks whose conversions all succeed, one sample each. */
  function RunTicks(d: Device, samples: seq<u32>): (r: Step)
    requires Inv(d)
    ensures Inv(r.dev)
    decreases |samples|
  {
    if samples == [] then Step(d, [])
    else
      var s := SysTick(d, AlwaysReady, samples[0]);
      var rest := RunTicks(s.dev, samples[1..]);
      Step(rest.dev, s.effects + rest.effects)
  }

  /** Number of samples a session of `size` bytes logs: the cursor advances
      by 4 while it is below `FlashUserSpace + size`, so ceil(size / 4). */
  function SessionWords(size: nat): nat
  {
    (size + 3) / 4
  }

  /** Starting a session at `FlashUserSpace`, after `n` successful ticks the
      cursor is `FlashUserSpace + 4 * min(n, SessionWords(size))`: it moves
      by exactly one word per tick until the session is full and never
      afterwards, and the timer advanced by `n`. */
  lemma {:induction false} SessionCursor(d: Device, samples: seq<u32>, done: nat)
    requires Inv(d)
    requires done <= SessionWords(d.sampleSize)
    requires d.flashIndex == FlashUserSpace + 4 * done
    ensures var r := RunTicks(d, samples);
            && r.dev.flashIndex == FlashUserSpace + 4 * Min(done + |samples|, SessionWords(d.sampleSize))
            && r.dev.sampleSize == d.sampleSize
            && r.dev.timer == (d.timer + |samples|) % Two32
    decreases |samples|
  {
    if samples != [] {
      var s := SysTick(d, AlwaysReady, samples[0]);
      TickAdvancesSession(d, samples[0], done);
      SessionCursor(s.dev, samples[1..], Min(done + 1, SessionWords(d.sampleSize)));
      WrapAdd(d.timer, |samples| - 1);
    }
  }

  function Min(a: nat, b: nat): nat
  {
    if a <= b then a else b
  }

  /** One successful tick moves a cursor `done` words into the session one
      word further, unless the session is full. */
  lemma TickAdvancesSession(d: Device, sample: u32, done: nat)
    requires Inv(d)
    requires done <= SessionWords(d.sampleSize)
    requires d.flashIndex == FlashUserSpace + 4 * done
    ensures var s := SysTick(d, AlwaysReady, sample);
            && s.dev.flashIndex == FlashUserSpace + 4 * Min(done + 1, SessionWords(d.sampleSize))
            && s.dev.sampleSize == d.sampleSize
            && s.dev.timer == Add32(d.timer, 1)
  {
    assert AdcCompletes(AlwaysReady) by {
      assert AlwaysReady(0);
    }
    assert 4 * done < d.sampleSize <==> done < SessionWords(d.sampleSize);
  }

  lemma WrapAdd(t: u32, k: nat)
    ensures (Add32(t, 1) + k) % Two32 == (t + k + 1) % Two32
  {
  }
}
