/**
 The multi-producer single-consumer mbuf ring as a concurrent step system.

 Every atomic access of `enqueue_sp`, `enqueue_mp` and `dequeue` is one step: the two
 loads, the compare-and-exchange, each slot store, each poll of the producer tail, the
 commit, and the consumer's loads and stores. Any number of producers interleave with
 the one consumer under sequentially consistent memory.

 The same step function runs on unbounded counters and on 64-bit wrapping ones. Safety
 is proved on the former; the latter is shown to simulate it step for step.
 */
module MpscProtocol {
  import opened Words
  import opened Mbuf

  datatype Arith = Unbounded | Wrapping

  datatype Config = Config(slots: nat, arith: Arith)

  /** Where a producer is inside `enqueue`; `ticket` is bookkeeping for the proofs. */
  datatype Producer =
    | Idle
    | Called(batch: seq<MBuf>)
    | LoadedHead(batch: seq<MBuf>, head: nat)
    | LoadedTail(batch: seq<MBuf>, head: nat, tail: nat)
    | Storing(batch: seq<MBuf>, head: nat, insert: nat, k: nat, slot: nat, ticket: nat)
    | Committing(batch: seq<MBuf>, head: nat, insert: nat, ticket: nat)

  datatype Consumer =
    | CIdle
    | CCalled(room: nat)
    | CLoadedHead(room: nat, head: nat)
    | CReserving(head: nat, n: nat)
    | CReading(head: nat, n: nat, k: nat, slot: nat, out: seq<MBuf>)

  /** One successful reservation: who made it, at which position, for which mbufs. */
  datatype Ticket = Ticket(pid: nat, start: nat, slice: seq<MBuf>)

  /**
   The four counters and the slots are the queue itself. The last five components record
   the history: reservations in the order of their compare-and-exchange, how many of them
   have committed, all reserved mbufs in that order, what every producer's finished calls
   inserted, and everything handed to the consumer.
   */
  datatype State = State(
    prodHead: nat, prodTail: nat, consHead: nat, consTail: nat,
    queue: seq<MBuf>,
    producers: seq<Producer>, consumer: Consumer,
    tickets: seq<Ticket>, committed: nat, log: seq<MBuf>,
    returned: seq<seq<seq<MBuf>>>, delivered: seq<MBuf>)

  datatype Action =
    | Enqueue(pid: nat, batch: seq<MBuf>)
    | Produce(pid: nat)
    | Dequeue(room: nat)
    | Consume

  // ---------------------------------------------------------------- counter arithmetic

  function Inc(m: Arith, x: nat, y: nat): nat {
    match m
    case Unbounded => x + y
    case Wrapping => WrapAdd(x, y)
  }

  /** `mask + tail - head`; never negative on the reachable states. */
  function Free(c: Config, tail: nat, head: nat): nat
    requires c.slots > 0
  {
    match c.arith
    case Unbounded => if c.slots - 1 + tail >= head then c.slots - 1 + tail - head else 0
    case Wrapping => WrapSub(WrapAdd(c.slots - 1, tail), head)
  }

  function Available(m: Arith, tail: nat, head: nat): nat {
    match m
    case Unbounded => if tail >= head then tail - head else 0
    case Wrapping => WrapSub(tail, head)
  }

  function StartSlot(c: Config, x: nat): nat
    requires c.slots > 0
  {
    match c.arith
    case Unbounded => Slot(x, c.slots)
    case Wrapping => And(x, c.slots - 1)
  }

  /** The copy loops walk to the last slot and then continue from slot 0. */
  function NextSlot(slot: nat, slots: nat): nat {
    if slot + 1 == slots then 0 else slot + 1
  }

  // ---------------------------------------------------------------- producer steps

  ghost predicate Shape(c: Config, s: State) {
    && c.slots > 0
    && |s.queue| == c.slots
    && |s.returned| == |s.producers|
  }

  function SetProducer(s: State, pid: nat, p: Producer): State
    requires pid < |s.producers|
  {
    s.(producers := s.producers[pid := p])
  }

  function Inserted(c: Config, p: Producer): nat
    requires c.slots > 0 && p.LoadedTail?
  {
    Min(Free(c, p.tail, p.head), |p.batch|)
  }

  /** Loads consumer.tail; an insertion of nothing returns at once. */
  function LoadTail(c: Config, s: State, pid: nat): State
    requires c.slots > 0 && pid < |s.producers| && s.producers[pid].LoadedHead?
  {
    var p := s.producers[pid];
    var q := LoadedTail(p.batch, p.head, s.consTail);
    SetProducer(s, pid, if Inserted(c, q) == 0 then Idle else q)
  }

  /** The reservation: a plain store with one producer, a compare-and-exchange otherwise. */
  function Reserve(c: Config, s: State, pid: nat): State
    requires c.slots > 0 && pid < |s.producers| && s.producers[pid].LoadedTail?
  {
    var p := s.producers[pid];
    if |s.producers| == 1 || s.prodHead == p.head then
      var insert := Inserted(c, p);
      var slice := p.batch[..insert];
      SetProducer(s, pid, Storing(p.batch, p.head, insert, 0, StartSlot(c, p.head), |s.tickets|))
      .(prodHead := Inc(c.arith, p.head, insert),
        tickets := s.tickets + [Ticket(pid, |s.log|, slice)],
        log := s.log + slice)
    else
      SetProducer(s, pid, Called(p.batch))
  }

  /** One slot store, or one look at producer.tail when all stores are done. */
  function StoreOrWait(c: Config, s: State, pid: nat): State
    requires c.slots > 0 && pid < |s.producers| && s.producers[pid].Storing?
  {
    var p := s.producers[pid];
    if p.k < p.insert then
      if p.slot < |s.queue| && p.k < |p.batch| then
        SetProducer(s, pid, p.(k := p.k + 1, slot := NextSlot(p.slot, c.slots)))
        .(queue := s.queue[p.slot := p.batch[p.k]])
      else s
    else if |s.producers| == 1 || s.prodTail == p.head then
      SetProducer(s, pid, Committing(p.batch, p.head, p.insert, p.ticket))
    else s
  }

  /** Publishes the reservation and returns to the caller. */
  function Commit(c: Config, s: State, pid: nat): State
    requires pid < |s.producers| == |s.returned| && s.producers[pid].Committing?
  {
    var p := s.producers[pid];
    if p.insert <= |p.batch| then
      SetProducer(s, pid, Idle)
      .(prodTail := Inc(c.arith, p.head, p.insert),
        committed := s.committed + 1,
        returned := s.returned[pid := s.returned[pid] + [p.batch[..p.insert]]])
    else s
  }

  function ProducerStep(c: Config, s: State, pid: nat): State
    requires c.slots > 0 && |s.returned| == |s.producers|
  {
    if pid >= |s.producers| then s else
    match s.producers[pid]
    case Idle => s
    case Called(batch) => SetProducer(s, pid, LoadedHead(batch, s.prodHead))
    case LoadedHead(_, _) => LoadTail(c, s, pid)
    case LoadedTail(_, _, _) => Reserve(c, s, pid)
    case Storing(_, _, _, _, _, _) => StoreOrWait(c, s, pid)
    case Committing(_, _, _, _) => Commit(c, s, pid)
  }

  // ---------------------------------------------------------------- consumer steps

  /** Loads producer.tail; an empty queue or an empty buffer returns at once. */
  function ConsumerLoadTail(c: Config, s: State): State
    requires s.consumer.CLoadedHead?
  {
    var n := Min(s.consumer.room, Available(c.arith, s.prodTail, s.consumer.head));
    s.(consumer := if n == 0 then CIdle else CReserving(s.consumer.head, n))
  }

  function ConsumerReserve(c: Config, s: State): State
    requires c.slots > 0 && s.consumer.CReserving?
  {
    var h, n := s.consumer.head, s.consumer.n;
    s.(consHead := Inc(c.arith, h, n), consumer := CReading(h, n, 0, StartSlot(c, h), []))
  }

  function ReadOrRelease(c: Config, s: State): State
    requires s.consumer.CReading?
  {
    var r := s.consumer;
    if r.k < r.n then
      if r.slot < |s.queue| then
        s.(consumer := r.(k := r.k + 1, slot := NextSlot(r.slot, c.slots), out := r.out + [s.queue[r.slot]]))
      else s
    else
      s.(consTail := Inc(c.arith, r.head, r.n), consumer := CIdle, delivered := s.delivered + r.out)
  }

  function ConsumerStep(c: Config, s: State): State
    requires c.slots > 0
  {
    match s.consumer
    case CIdle => s
    case CCalled(room) => s.(consumer := CLoadedHead(room, s.consHead))
    case CLoadedHead(_, _) => ConsumerLoadTail(c, s)
    case CReserving(_, _) => ConsumerReserve(c, s)
    case CReading(_, _, _, _, _) => ReadOrRelease(c, s)
  }

  function Step(c: Config, s: State, a: Action): State
    requires c.slots > 0 && |s.returned| == |s.producers|
  {
    match a
    case Enqueue(pid, batch) =>
      if pid < |s.producers| && s.producers[pid].Idle? then SetProducer(s, pid, Called(batch)) else s
    case Produce(pid) => ProducerStep(c, s, pid)
    case Dequeue(room) => if s.consumer.CIdle? then s.(consumer := CCalled(room)) else s
    case Consume => ConsumerStep(c, s)
  }

  function Init(c: Config, producers: nat): State {
    State(0, 0, 0, 0, seq(c.slots, _ => 0), seq(producers, _ => Idle), CIdle, [], 0, [],
          seq(producers, _ => []), [])
  }

  /** The state after any finite schedule of steps. */
  function Run(c: Config, s: State, schedule: seq<Action>): (r: State)
    requires c.slots > 0 && |s.returned| == |s.producers|
    ensures |r.returned| == |r.producers| == |s.producers|
    decreases |schedule|
  {
    if schedule == [] then s else Run(c, Step(c, s, schedule[0]), schedule[1..])
  }
}
