/** The sensor ring buffer `circ_bbuf_t`: a fixed array of `maxlen` words
    with a write index `head` and a read index `tail`. One slot is always
    left free, so the ring is full when advancing `head` would land on
    `tail`, and it holds at most `maxlen - 1` words. The words between
    `tail` (inclusive) and `head` (exclusive), read around the end of the
    array, are the queue the ring represents (`Contents`). */
module CircBuf {
  import opened Words

  /** `SENSORBUFSIZE`. */
  const SensorBufSize: int := 1024

  datatype CircBuf = CircBuf(data: seq<u32>, head: int, tail: int, maxlen: int)

  /** Push and pop's status results: 0 on success, -1 when full or empty. */
  const Ok: int := 0
  const Fail: int := -1

  datatype Pushed = Pushed(buf: CircBuf, status: int)
  datatype Popped = Popped(buf: CircBuf, out: u32, status: int)

  /** The shape every ring the firmware builds keeps: both indices inside
      the array, whose length is `maxlen`. */
  ghost predicate Valid(c: CircBuf)
  {
    && 1 <= c.maxlen
    && |c.data| == c.maxlen
    && 0 <= c.head < c.maxlen
    && 0 <= c.tail < c.maxlen
  }

  /** The index after `i`, wrapping to 0 at `maxlen` (main.c:189-191 and
      main.c:226-228). */
  function Advance(c: CircBuf, i: int): int
  {
    if i + 1 >= c.maxlen then 0 else i + 1
  }

  /** Number of words queued: the distance from `tail` forward to `head`. */
  function Count(c: CircBuf): (n: nat)
    requires Valid(c)
    ensures n < c.maxlen
  {
    if c.head >= c.tail then c.head - c.tail else c.head + c.maxlen - c.tail
  }

  /** The array position of the `i`-th queued word. */
  function Slot(c: CircBuf, i: nat): (p: nat)
    requires Valid(c) && i < c.maxlen
    ensures p < c.maxlen
  {
    if c.tail + i < c.maxlen then c.tail + i else c.tail + i - c.maxlen
  }

  /** The queue the ring represents, oldest word first. */
  function Contents(c: CircBuf): (q: seq<u32>)
    requires Valid(c)
    ensures |q| == Count(c)
    ensures forall i :: 0 <= i < |q| ==> q[i] == c.data[Slot(c, i)]
  {
    seq(Count(c), i requires 0 <= i < Count(c) => c.data[Slot(c, i)])
  }

  /** `Init_circ_bbuf`: point the ring at the `SENSORBUFSIZE`-word array
      `store` and make it empty. The array's words are left as they are. */
  function Init(store: seq<u32>): (c: CircBuf)
    requires |store| == SensorBufSize
    ensures Valid(c)
    ensures Contents(c) == []
    ensures c.data == store && c.maxlen == SensorBufSize
  {
    CircBuf(store, 0, 0, SensorBufSize)
  }

  /** `circ_bbuf_push`. Fails (-1), changing nothing, exactly when the ring
      already holds `maxlen - 1` words; otherwise appends `x` to the queue. */
  function Push(c: CircBuf, x: u32): (r: Pushed)
    requires Valid(c)
    ensures Valid(r.buf)
    ensures r.status == Fail || r.status == Ok
    ensures r.status == Fail <==> Advance(c, c.head) == c.tail
    ensures r.status == Fail <==> |Contents(c)| == c.maxlen - 1
    ensures r.status == Fail ==> r.buf == c
    ensures r.status == Ok ==> Contents(r.buf) == Contents(c) + [x]
    ensures r.buf.maxlen == c.maxlen && r.buf.tail == c.tail
  {
    var next := Advance(c, c.head);
    if next == c.tail then
      Pushed(c, Fail)
    else
      var c' := c.(data := c.data[c.head := x], head := next);
      PushContents(c, x, c');
      Pushed(c', Ok)
  }

  /** `circ_bbuf_pop`, with `out` the value `*data` held before the call.
      Fails (-1), changing neither the ring nor `out`, exactly when the
      queue is empty; otherwise returns its oldest word and drops it. */
  function Pop(c: CircBuf, out: u32): (r: Popped)
    requires Valid(c)
    ensures Valid(r.buf)
    ensures r.status == Fail || r.status == Ok
    ensures r.status == Fail <==> c.head == c.tail
    ensures r.status == Fail <==> Contents(c) == []
    ensures r.status == Fail ==> r.buf == c && r.out == out
    ensures r.status == Ok ==> r.out == Contents(c)[0] && Contents(r.buf) == Contents(c)[1..]
    ensures r.buf.maxlen == c.maxlen && r.buf.data == c.data && r.buf.head == c.head
  {
    if c.head == c.tail then
      Popped(c, out, Fail)
    else
      var c' := c.(tail := Advance(c, c.tail));
      PopContents(c, c');
      Popped(c', c.data[c.tail], Ok)
  }

  lemma PushContents(c: CircBuf, x: u32, c': CircBuf)
    requires Valid(c) && Advance(c, c.head) != c.tail
    requires c' == c.(data := c.data[c.head := x], head := Advance(c, c.head))
    ensures Valid(c')
    ensures Count(c') == Count(c) + 1
    ensures Contents(c') == Contents(c) + [x]
  {
    assert Count(c') == Count(c) + 1;
    forall i | 0 <= i < Count(c)
      ensures Slot(c', i) == Slot(c, i) && Slot(c, i) != c.head
    {
    }
    assert Slot(c', Count(c)) == c.head;
  }

  lemma PopContents(c: CircBuf, c': CircBuf)
    requires Valid(c) && c.head != c.tail
    requires c' == c.(tail := Advance(c, c.tail))
    ensures Valid(c')
    ensures Count(c') + 1 == Count(c)
    ensures Contents(c') == Contents(c)[1..]
  {
    forall i | 0 <= i < Count(c')
      ensures Slot(c', i) == Slot(c, i + 1)
    {
    }
  }

  /* ---------------------------------------------------------------------
     The ring against a reference bounded FIFO queue. A run is a sequence of
     push and pop calls; what a caller observes of each call is its status
     and the value then held in the pop's `*data` variable.
     --------------------------------------------------------------------- */

  datatype Op = PushOp(x: u32) | PopOp

  datatype Obs = Obs(status: int, out: u32)

  datatype RingRun = RingRun(buf: CircBuf, out: u32, obs: seq<Obs>)

  datatype QueueRun = QueueRun(q: seq<u32>, out: u32, obs: seq<Obs>)

  /** A bounded FIFO queue of capacity `cap`: a push onto a full queue and a
      pop from an empty one are refused and change nothing. */
  function QueueStep(q: seq<u32>, cap: nat, out: u32, op: Op): QueueRun
  {
    match op
    case PushOp(x) =>
      if |q| >= cap then QueueRun(q, out, [Obs(Fail, out)]) else QueueRun(q + [x], out, [Obs(Ok, out)])
    case PopOp =>
      if q == [] then QueueRun(q, out, [Obs(Fail, out)]) else QueueRun(q[1..], q[0], [Obs(Ok, q[0])])
  }

  function RunQueue(q: seq<u32>, cap: nat, out: u32, ops: seq<Op>): QueueRun
    decreases |ops|
  {
    if ops == [] then QueueRun(q, out, [])
    else
      var s := QueueStep(q, cap, out, ops[0]);
      var rest := RunQueue(s.q, cap, s.out, ops[1..]);
      QueueRun(rest.q, rest.out, s.obs + rest.obs)
  }

  function RingStep(c: CircBuf, out: u32, op: Op): (r: RingRun)
    requires Valid(c)
    ensures Valid(r.buf) && r.buf.maxlen == c.maxlen
  {
    match op
    case PushOp(x) =>
      var p := Push(c, x);
      RingRun(p.buf, out, [Obs(p.status, out)])
    case PopOp =>
      var p := Pop(c, out);
      RingRun(p.buf, p.out, [Obs(p.status, p.out)])
  }

  function RunRing(c: CircBuf, out: u32, ops: seq<Op>): (r: RingRun)
    requires Valid(c)
    ensures Valid(r.buf) && r.buf.maxlen == c.maxlen
    decreases |ops|
  {
    if ops == [] then RingRun(c, out, [])
    else
      var s := RingStep(c, out, ops[0]);
      var rest := RunRing(s.buf, s.out, ops[1..]);
      RingRun(rest.buf, rest.out, s.obs + rest.obs)
  }

  /** One push or pop on the ring is one step of the bounded queue of
      capacity `maxlen - 1` holding the ring's contents. */
  lemma RingStepIsQueueStep(c: CircBuf, out: u32, op: Op)
    requires Valid(c)
    ensures var r := RingStep(c, out, op);
            var s := QueueStep(Contents(c), c.maxlen - 1, out, op);
            Contents(r.buf) == s.q && r.out == s.out && r.obs == s.obs
  {
  }

  /** Any run of pushes and pops on a ring is observed exactly as the same
      run on the bounded queue of capacity `maxlen - 1` holding the ring's
      contents, and ends with the ring holding that queue's contents. */
  lemma {:induction false} RingIsBoundedQueue(c: CircBuf, out: u32, ops: seq<Op>)
    requires Valid(c)
    ensures var r := RunRing(c, out, ops);
            var s := RunQueue(Contents(c), c.maxlen - 1, out, ops);
            Contents(r.buf) == s.q && r.out == s.out && r.obs == s.obs
    decreases |ops|
  {
    if ops != [] {
      RingStepIsQueueStep(c, out, ops[0]);
      var s := RingStep(c, out, ops[0]);
      RingIsBoundedQueue(s.buf, s.out, ops[1..]);
    }
  }

  /** From `Init_circ_bbuf`, the sensor ring behaves as a FIFO queue of at
      most 1023 words, with both indices kept inside the array. */
  lemma FromInitIsQueue(store: seq<u32>, out: u32, ops: seq<Op>)
    requires |store| == SensorBufSize
    ensures var r := RunRing(Init(store), out, ops);
            var s := RunQueue([], SensorBufSize - 1, out, ops);
            && Contents(r.buf) == s.q && r.out == s.out && r.obs == s.obs
            && |Contents(r.buf)| <= SensorBufSize - 1
            && 0 <= r.buf.head < SensorBufSize && 0 <= r.buf.tail < SensorBufSize
  {
    RingIsBoundedQueue(Init(store), out, ops);
  }
}
