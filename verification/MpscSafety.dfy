/**
 What every interleaving of the mbuf ring keeps: reservations tile the space between the
 producer counters, the ring never holds more than slots - 1 positions, every slot between
 the tails holds the mbuf it was reserved for, and the consumer reads them in order.
 */
module MpscSafety {
  import opened Words
  import opened Mbuf
  import opened MpscProtocol

  // ---------------------------------------------------------------- the invariant

  predicate Reserved(p: Producer) {
    p.Storing? || p.Committing?
  }

  /** Stores already performed under a reservation. */
  function Stored(p: Producer): nat
    requires Reserved(p)
  {
    if p.Storing? then p.k else p.insert
  }

  function End(t: Ticket): nat {
    t.start + |t.slice|
  }

  /** Position at which reservation `i` starts, or where the next one will. */
  function StartOf(s: State, i: nat): nat
    requires i <= |s.tickets|
  {
    if i < |s.tickets| then s.tickets[i].start else |s.log|
  }

  ghost predicate CountersOk(c: Config, s: State) {
    && s.consTail <= s.consHead <= s.prodTail <= s.prodHead
    && s.prodHead == |s.log|
    && s.prodHead - s.consTail <= c.slots - 1
    && |s.producers| > 0
  }

  /** Reservations are non-empty, lie end to end from position 0, and spell out the log. */
  ghost predicate TicketsOk(s: State) {
    && s.committed <= |s.tickets|
    && s.prodTail == StartOf(s, s.committed)
    && StartOf(s, 0) == 0
    && (forall i :: 0 <= i < |s.tickets| ==> TicketOk(s, i))
    && (forall i, j :: 0 <= i < j < |s.tickets| ==> End(s.tickets[i]) <= s.tickets[j].start)
  }

  ghost predicate TicketOk(s: State, i: nat)
    requires i < |s.tickets|
  {
    var t := s.tickets[i];
    && t.pid < |s.producers|
    && t.slice != []
    && End(t) == StartOf(s, i + 1)
    && End(t) <= |s.log|
    && s.log[t.start..End(t)] == t.slice
  }

  /** Every reservation not yet committed belongs to a producer still holding it. */
  ghost predicate PendingOk(s: State) {
    forall i :: s.committed <= i < |s.tickets| ==>
      var pid := s.tickets[i].pid;
      pid < |s.producers| && Reserved(s.producers[pid]) && s.producers[pid].ticket == i
  }

  ghost predicate HoldsTicket(c: Config, s: State, pid: nat, p: Producer)
    requires c.slots > 0 && Reserved(p) && |s.queue| == c.slots
  {
    && s.committed <= p.ticket < |s.tickets|
    && s.tickets[p.ticket].pid == pid
    && s.tickets[p.ticket].start == p.head
    && p.insert <= |p.batch|
    && s.tickets[p.ticket].slice == p.batch[..p.insert]
    && Stored(p) <= p.insert
    && (forall x :: p.head <= x < p.head + Stored(p) ==> s.queue[Slot(x, c.slots)] == p.batch[x - p.head])
  }

  /** What a producer's private copies are worth, however stale they are. */
  ghost predicate ProducerOk(c: Config, s: State, pid: nat)
    requires c.slots > 0 && pid < |s.producers| && |s.queue| == c.slots
  {
    var p := s.producers[pid];
    match p
    case Idle => true
    case Called(_) => true
    case LoadedHead(_, h) =>
      h <= s.prodHead && h <= c.slots - 1 + s.consTail && (|s.producers| == 1 ==> h == s.prodHead)
    case LoadedTail(_, h, t) =>
      && h <= s.prodHead && h <= c.slots - 1 + t && t <= s.consTail
      && Inserted(c, p) > 0
      && (|s.producers| == 1 ==> h == s.prodHead)
    case Storing(_, h, _, k, slot, _) =>
      HoldsTicket(c, s, pid, p) && slot == Slot(h + k, c.slots)
    case Committing(_, h, _, _) => HoldsTicket(c, s, pid, p) && h == s.prodTail
  }

  ghost predicate ProducersOk(c: Config, s: State)
    requires c.slots > 0 && |s.queue| == c.slots
  {
    forall pid :: 0 <= pid < |s.producers| ==> ProducerOk(c, s, pid)
  }

  /** Every committed and unread position sits in its slot. */
  ghost predicate QueueOk(c: Config, s: State)
    requires c.slots > 0 && |s.queue| == c.slots
  {
    s.prodTail <= |s.log| &&
    forall x :: s.consTail <= x < s.prodTail ==> s.queue[Slot(x, c.slots)] == s.log[x]
  }

  ghost predicate ConsumerOk(c: Config, s: State)
    requires c.slots > 0
  {
    && s.consTail <= |s.log|
    && s.delivered == s.log[..s.consTail]
    && match s.consumer
       case CIdle => s.consHead == s.consTail
       case CCalled(_) => s.consHead == s.consTail
       case CLoadedHead(_, h) => h == s.consHead == s.consTail
       case CReserving(h, n) => h == s.consHead == s.consTail && 0 < n && h + n <= s.prodTail
       case CReading(h, n, k, slot, out) =>
         && h == s.consTail && h + n == s.consHead <= |s.log| && k <= n
         && slot == Slot(h + k, c.slots) && out == s.log[h..h + k]
  }

  /** The slices of the reservations made by one producer, in order. */
  function SlicesOf(tickets: seq<Ticket>, pid: nat): seq<seq<MBuf>> {
    if tickets == [] then []
    else
      var last := tickets[|tickets| - 1];
      SlicesOf(tickets[..|tickets| - 1], pid) + (if last.pid == pid then [last.slice] else [])
  }

  function Outstanding(p: Producer): seq<seq<MBuf>> {
    if Reserved(p) && p.insert <= |p.batch| then [p.batch[..p.insert]] else []
  }

  ghost predicate ReturnedOk(s: State) {
    && |s.returned| == |s.producers|
    && forall pid :: 0 <= pid < |s.producers| ==>
         SlicesOf(s.tickets, pid) == s.returned[pid] + Outstanding(s.producers[pid])
  }

  ghost predicate Inv(c: Config, s: State) {
    && c.arith.Unbounded?
    && Shape(c, s)
    && CountersOk(c, s)
    && TicketsOk(s)
    && PendingOk(s)
    && ProducersOk(c, s)
    && QueueOk(c, s)
    && ConsumerOk(c, s)
    && ReturnedOk(s)
  }

  // ---------------------------------------------------------------- slots

  lemma SlotSuccessor(x: nat, slots: nat)
    requires slots > 0
    ensures Slot(x + 1, slots) == NextSlot(Slot(x, slots), slots)
  {
    var q, r := x / slots, x % slots;
    if r + 1 == slots {
      assert x + 1 == (q + 1) * slots + 0;
      ModUnique(x + 1, slots, q + 1, 0);
    } else {
      ModUnique(x + 1, slots, q, r + 1);
    }
  }

  // ---------------------------------------------------------------- steps keep the invariant

  /** Reservations are untouched. */
  ghost predicate SameTickets(s: State, s': State) {
    && s'.tickets == s.tickets && s'.log == s.log && s'.committed == s.committed && s'.prodTail == s.prodTail
    && |s'.producers| == |s.producers|
  }

  lemma TicketsFrame(s: State, s': State)
    requires TicketsOk(s) && SameTickets(s, s')
    ensures TicketsOk(s')
  {
    forall i | 0 <= i < |s'.tickets| ensures TicketOk(s', i) { assert TicketOk(s, i); }
  }

  lemma PendingFrame(s: State, s': State)
    requires PendingOk(s) && SameTickets(s, s')
    requires forall q :: 0 <= q < |s.producers| && Reserved(s.producers[q]) ==>
      Reserved(s'.producers[q]) && s'.producers[q].ticket == s.producers[q].ticket
    ensures PendingOk(s')
  {
  }

  lemma ReturnedFrame(s: State, s': State)
    requires ReturnedOk(s) && SameTickets(s, s') && s'.returned == s.returned
    requires forall q :: 0 <= q < |s.producers| ==> Outstanding(s'.producers[q]) == Outstanding(s.producers[q])
    ensures ReturnedOk(s')
  {
  }

  /** Changing one producer that holds no reservation, before and after. */
  lemma LocalStep(c: Config, s: State, pid: nat, p: Producer)
    requires Inv(c, s) && pid < |s.producers|
    requires !Reserved(s.producers[pid]) && !Reserved(p)
    requires ProducerOk(c, SetProducer(s, pid, p), pid)
    ensures Inv(c, SetProducer(s, pid, p))
  {
    var s' := SetProducer(s, pid, p);
    forall q | 0 <= q < |s'.producers| ensures ProducerOk(c, s', q) {
      assert ProducerOk(c, s, q);
    }
    TicketsFrame(s, s');
    PendingFrame(s, s');
    ReturnedFrame(s, s');
  }

  lemma LoadTailKeeps(c: Config, s: State, pid: nat)
    requires Inv(c, s) && pid < |s.producers| && s.producers[pid].LoadedHead?
    ensures Inv(c, LoadTail(c, s, pid))
  {
    assert ProducerOk(c, s, pid);
    var q := LoadedTail(s.producers[pid].batch, s.producers[pid].head, s.consTail);
    LocalStep(c, s, pid, if Inserted(c, q) == 0 then Idle else q);
  }

  /** With one producer, a loaded head is never stale; so a store is as good as an exchange. */
  lemma ReserveFailKeeps(c: Config, s: State, pid: nat)
    requires Inv(c, s) && pid < |s.producers| && s.producers[pid].LoadedTail?
    requires s.prodHead != s.producers[pid].head
    ensures |s.producers| != 1 && Inv(c, Reserve(c, s, pid))
  {
    assert ProducerOk(c, s, pid);
    LocalStep(c, s, pid, Called(s.producers[pid].batch));
  }

  lemma ReserveKeeps(c: Config, s: State, pid: nat)
    requires Inv(c, s) && pid < |s.producers| && s.producers[pid].LoadedTail?
    requires s.prodHead == s.producers[pid].head
    ensures Inv(c, Reserve(c, s, pid))
  {
    assert ProducerOk(c, s, pid);
    ReserveKeepsTickets(c, s, pid);
    ReserveKeepsProducers(c, s, pid);
    ReserveKeepsReturned(c, s, pid);
    ReserveKeepsConsumer(c, s, pid);
  }

  lemma ReserveKeepsReturned(c: Config, s: State, pid: nat)
    requires Shape(c, s) && ReturnedOk(s) && pid < |s.producers| && s.producers[pid].LoadedTail?
    requires s.prodHead == s.producers[pid].head
    ensures ReturnedOk(Reserve(c, s, pid))
  {
  }

  lemma ReserveKeepsConsumer(c: Config, s: State, pid: nat)
    requires Shape(c, s) && ConsumerOk(c, s) && pid < |s.producers| && s.producers[pid].LoadedTail?
    requires s.prodHead == s.producers[pid].head
    ensures ConsumerOk(c, Reserve(c, s, pid))
  {
    var s' := Reserve(c, s, pid);
    assert s'.log[..s.consTail] == s.log[..s.consTail];
    if s.consumer.CReading? {
      var h, k := s.consumer.head, s.consumer.k;
      assert s'.log[h..h + k] == s.log[h..h + k];
    }
  }

  lemma ReserveKeepsTickets(c: Config, s: State, pid: nat)
    requires Inv(c, s) && pid < |s.producers| && s.producers[pid].LoadedTail?
    requires s.prodHead == s.producers[pid].head
    ensures TicketsOk(Reserve(c, s, pid)) && PendingOk(Reserve(c, s, pid))
  {
    var s' := Reserve(c, s, pid);
    assert ProducerOk(c, s, pid);
    forall i | 0 <= i < |s'.tickets| ensures TicketOk(s', i) {
      ReserveKeepsTicket(c, s, pid, i);
    }
    ReserveKeepsOrder(c, s, pid);
    ReserveKeepsPending(c, s, pid);
  }

  lemma ReserveKeepsOrder(c: Config, s: State, pid: nat)
    requires Shape(c, s) && TicketsOk(s) && pid < |s.producers| && s.producers[pid].LoadedTail?
    requires s.prodHead == s.producers[pid].head
    ensures var s' := Reserve(c, s, pid);
      forall i, j :: 0 <= i < j < |s'.tickets| ==> End(s'.tickets[i]) <= s'.tickets[j].start
  {
    var s' := Reserve(c, s, pid);
    forall i, j | 0 <= i < j < |s'.tickets| ensures End(s'.tickets[i]) <= s'.tickets[j].start {
      assert TicketOk(s, i);
    }
  }

  lemma ReserveKeepsPending(c: Config, s: State, pid: nat)
    requires Shape(c, s) && PendingOk(s) && pid < |s.producers| && s.producers[pid].LoadedTail?
    requires s.prodHead == s.producers[pid].head && s.committed <= |s.tickets|
    ensures PendingOk(Reserve(c, s, pid))
  {
  }

  lemma ReserveKeepsTicket(c: Config, s: State, pid: nat, i: nat)
    requires c.arith.Unbounded? && Shape(c, s) && CountersOk(c, s) && TicketsOk(s)
    requires pid < |s.producers| && s.producers[pid].LoadedTail? && ProducerOk(c, s, pid)
    requires s.prodHead == s.producers[pid].head && i <= |s.tickets|
    ensures TicketOk(Reserve(c, s, pid), i)
  {
    var s' := Reserve(c, s, pid);
    if i < |s.tickets| {
      assert TicketOk(s, i);
      var t := s.tickets[i];
      assert s'.log[t.start..End(t)] == s.log[t.start..End(t)];
    } else {
      assert s'.log[|s.log|..] == s'.tickets[i].slice;
    }
  }

  lemma ReserveKeepsProducers(c: Config, s: State, pid: nat)
    requires Inv(c, s) && pid < |s.producers| && s.producers[pid].LoadedTail?
    requires s.prodHead == s.producers[pid].head
    ensures ProducersOk(c, Reserve(c, s, pid))
  {
    var s' := Reserve(c, s, pid);
    forall q | 0 <= q < |s'.producers| ensures ProducerOk(c, s', q) {
      if q == pid { ReserveKeepsSelf(c, s, pid); } else { ReserveKeepsOther(c, s, pid, q); }
    }
  }

  lemma ReserveKeepsSelf(c: Config, s: State, pid: nat)
    requires Inv(c, s) && pid < |s.producers| && s.producers[pid].LoadedTail?
    requires s.prodHead == s.producers[pid].head
    ensures ProducerOk(c, Reserve(c, s, pid), pid)
  {
    assert ProducerOk(c, s, pid);
  }

  lemma ReserveKeepsOther(c: Config, s: State, pid: nat, q: nat)
    requires Inv(c, s) && pid < |s.producers| && s.producers[pid].LoadedTail?
    requires s.prodHead == s.producers[pid].head && q < |s.producers| && q != pid
    ensures ProducerOk(c, Reserve(c, s, pid), q)
  {
    assert ProducerOk(c, s, q);
  }

  /** All positions from consumer.tail to producer.head use different slots. */
  lemma WindowSlots(c: Config, s: State, x0: nat)
    requires c.slots > 0 && CountersOk(c, s) && s.consTail <= x0 < s.prodHead
    ensures forall x: nat :: s.consTail <= x < s.prodHead && x != x0 ==> Slot(x, c.slots) != Slot(x0, c.slots)
  {
    forall x: nat | s.consTail <= x < s.prodHead && x != x0 ensures Slot(x, c.slots) != Slot(x0, c.slots) {
      if x < x0 { SlotsDiffer(x, x0, c.slots); } else { SlotsDiffer(x0, x, c.slots); }
    }
  }

  /** Every reservation lies between producer.tail and producer.head. */
  lemma ReservationBounds(c: Config, s: State, pid: nat)
    requires Inv(c, s) && pid < |s.producers| && Reserved(s.producers[pid])
    ensures var p := s.producers[pid]; s.prodTail <= p.head < p.head + p.insert <= s.prodHead
  {
    var p := s.producers[pid];
    assert ProducerOk(c, s, pid);
    assert HoldsTicket(c, s, pid, p);
    assert TicketOk(s, p.ticket);
    if s.committed < p.ticket { assert TicketOk(s, s.committed); }
  }

  /** Two producers never hold overlapping reservations. */
  lemma ReservationsDisjoint(c: Config, s: State, a: nat, b: nat)
    requires Inv(c, s) && a < |s.producers| && b < |s.producers| && a != b
    requires Reserved(s.producers[a]) && Reserved(s.producers[b])
    ensures var p, q := s.producers[a], s.producers[b];
      p.head + p.insert <= q.head || q.head + q.insert <= p.head
  {
    var p, q := s.producers[a], s.producers[b];
    assert ProducerOk(c, s, a) && ProducerOk(c, s, b);
    assert HoldsTicket(c, s, a, p) && HoldsTicket(c, s, b, q);
    assert |s.tickets[p.ticket].slice| == p.insert && |s.tickets[q.ticket].slice| == q.insert;
    if p.ticket < q.ticket {
      assert End(s.tickets[p.ticket]) <= s.tickets[q.ticket].start;
    } else {
      assert End(s.tickets[q.ticket]) <= s.tickets[p.ticket].start;
    }
  }

  /** A change to one reservation holder that keeps its reservation. */
  lemma HolderStep(c: Config, s: State, s': State, pid: nat)
    requires Inv(c, s) && pid < |s.producers| && Reserved(s.producers[pid])
    requires |s'.producers| == |s.producers| && Reserved(s'.producers[pid])
    requires s' == s.(queue := s'.queue, producers := s.producers[pid := s'.producers[pid]])
    requires s'.producers[pid].ticket == s.producers[pid].ticket
    requires Outstanding(s'.producers[pid]) == Outstanding(s.producers[pid])
    requires |s'.queue| == |s.queue| && QueueOk(c, s') && ProducersOk(c, s')
    ensures Inv(c, s')
  {
    TicketsFrame(s, s');
    PendingFrame(s, s');
    ReturnedFrame(s, s');
  }

  /** A store in progress, with what it relies on. */
  ghost predicate StoreReady(c: Config, s: State, pid: nat) {
    && c.arith.Unbounded? && Shape(c, s) && CountersOk(c, s) && pid < |s.producers|
    && var p := s.producers[pid];
      && p.Storing? && p.k < p.insert && HoldsTicket(c, s, pid, p) && p.slot == Slot(p.head + p.k, c.slots)
      && s.prodTail <= p.head && p.head + p.insert <= s.prodHead
  }

  lemma StoreIsReady(c: Config, s: State, pid: nat)
    requires Inv(c, s) && pid < |s.producers| && s.producers[pid].Storing?
    requires s.producers[pid].k < s.producers[pid].insert
    ensures StoreReady(c, s, pid)
  {
    assert ProducerOk(c, s, pid);
    ReservationBounds(c, s, pid);
  }

  /** What the store writes, and that no other position in use shares its slot. */
  lemma StoreWrites(c: Config, s: State, pid: nat)
    requires StoreReady(c, s, pid)
    ensures var p, s' := s.producers[pid], StoreOrWait(c, s, pid);
      && s' == s.(queue := s.queue[p.slot := p.batch[p.k]],
                  producers := s.producers[pid := p.(k := p.k + 1, slot := Slot(p.head + (p.k + 1), c.slots))])
      && forall x: nat :: s.consTail <= x < s.prodHead && x != p.head + p.k ==>
           s'.queue[Slot(x, c.slots)] == s.queue[Slot(x, c.slots)]
  {
    var p := s.producers[pid];
    var x0 := p.head + p.k;
    WindowSlots(c, s, x0);
    SlotSuccessor(x0, c.slots);
    assert x0 + 1 == p.head + (p.k + 1);
  }

  lemma StoreKeeps(c: Config, s: State, pid: nat)
    requires Inv(c, s) && pid < |s.producers| && s.producers[pid].Storing?
    requires s.producers[pid].k < s.producers[pid].insert
    ensures Inv(c, StoreOrWait(c, s, pid))
  {
    var s' := StoreOrWait(c, s, pid);
    StoreIsReady(c, s, pid);
    StoreWrites(c, s, pid);
    forall q | 0 <= q < |s'.producers| ensures ProducerOk(c, s', q) {
      if q == pid { StoreKeepsSelf(c, s, pid); } else { StoreKeepsOther(c, s, pid, q); }
    }
    HolderStep(c, s, s', pid);
  }

  lemma StoreKeepsSelf(c: Config, s: State, pid: nat)
    requires StoreReady(c, s, pid)
    ensures ProducerOk(c, StoreOrWait(c, s, pid), pid)
  {
    var s' := StoreOrWait(c, s, pid);
    StoreWrites(c, s, pid);
    assert HoldsTicket(c, s', pid, s'.producers[pid]);
  }

  /** A producer left alone stays in order while its stored slots are left alone. */
  lemma BystanderOk(c: Config, s: State, s': State, q: nat)
    requires Shape(c, s) && Shape(c, s') && q < |s.producers| == |s'.producers|
    requires ProducerOk(c, s, q) && s'.producers[q] == s.producers[q]
    requires s' == s.(queue := s'.queue, producers := s'.producers)
    requires Reserved(s.producers[q]) ==>
      var p := s.producers[q];
      forall x: nat :: p.head <= x < p.head + Stored(p) ==> s'.queue[Slot(x, c.slots)] == s.queue[Slot(x, c.slots)]
    ensures ProducerOk(c, s', q)
  {
  }

  lemma StoreKeepsOther(c: Config, s: State, pid: nat, q: nat)
    requires Inv(c, s) && StoreReady(c, s, pid) && q < |s.producers| && pid != q
    ensures ProducerOk(c, StoreOrWait(c, s, pid), q)
  {
    assert ProducerOk(c, s, q);
    if Reserved(s.producers[q]) {
      ReservationsDisjoint(c, s, pid, q);
      ReservationBounds(c, s, q);
    }
    StoreAway(c, s, pid, q);
  }

  lemma StoreAway(c: Config, s: State, pid: nat, q: nat)
    requires StoreReady(c, s, pid) && q < |s.producers| && pid != q && ProducerOk(c, s, q)
    requires var p, r := s.producers[pid], s.producers[q];
      Reserved(r) ==>
        && s.prodTail <= r.head && r.head + r.insert <= s.prodHead
        && (p.head + p.insert <= r.head || r.head + r.insert <= p.head)
    ensures ProducerOk(c, StoreOrWait(c, s, pid), q)
  {
    var p, r := s.producers[pid], s.producers[q];
    var s' := StoreOrWait(c, s, pid);
    StoreWrites(c, s, pid);
    if Reserved(r) {
      assert HoldsTicket(c, s, q, r);
      forall x: nat | r.head <= x < r.head + Stored(r)
        ensures s'.queue[Slot(x, c.slots)] == s.queue[Slot(x, c.slots)]
      {
        assert x != p.head + p.k;
      }
    }
    BystanderOk(c, s, s', q);
  }

  lemma WaitKeepsSelf(c: Config, s: State, pid: nat)
    requires Shape(c, s) && pid < |s.producers| && s.producers[pid].Storing? && ProducerOk(c, s, pid)
    requires s.producers[pid].k >= s.producers[pid].insert && s.producers[pid].head == s.prodTail
    ensures ProducerOk(c, StoreOrWait(c, s, pid), pid)
  {
  }

  lemma WaitKeeps(c: Config, s: State, pid: nat)
    requires Inv(c, s) && pid < |s.producers| && s.producers[pid].Storing?
    requires s.producers[pid].k >= s.producers[pid].insert
    ensures Inv(c, StoreOrWait(c, s, pid))
  {
    var p := s.producers[pid];
    var s' := StoreOrWait(c, s, pid);
    SingleProducerNeverWaits(c, s, pid);
    if s' != s {
      forall q | 0 <= q < |s'.producers| ensures ProducerOk(c, s', q) {
        assert ProducerOk(c, s, q);
        if q == pid { WaitKeepsSelf(c, s, pid); } else { BystanderOk(c, s, s', q); }
      }
      HolderStep(c, s, s', pid);
    }
  }

  /** Alone on the queue, a producer's reservation is always the one at producer.tail. */
  lemma SingleProducerNeverWaits(c: Config, s: State, pid: nat)
    requires Inv(c, s) && pid < |s.producers| && Reserved(s.producers[pid])
    ensures |s.producers| == 1 ==> s.producers[pid].head == s.prodTail
  {
    var p := s.producers[pid];
    assert ProducerOk(c, s, pid);
    assert HoldsTicket(c, s, pid, p);
    if |s.producers| == 1 {
      assert TicketOk(s, s.committed);
      assert s.producers[s.tickets[s.committed].pid].ticket == s.committed;
    }
  }

  lemma CommitKeeps(c: Config, s: State, pid: nat)
    requires Inv(c, s) && pid < |s.producers| && s.producers[pid].Committing?
    ensures Inv(c, Commit(c, s, pid))
    ensures Commit(c, s, pid).prodTail == s.prodTail + s.producers[pid].insert
  {
    CommitKeepsCounters(c, s, pid);
    CommitKeepsTickets(c, s, pid);
    CommitKeepsProducers(c, s, pid);
    CommitKeepsQueue(c, s, pid);
    CommitKeepsReturned(c, s, pid);
  }

  lemma CommitKeepsCounters(c: Config, s: State, pid: nat)
    requires Inv(c, s) && pid < |s.producers| && s.producers[pid].Committing?
    ensures var s' := Commit(c, s, pid);
      && Shape(c, s') && CountersOk(c, s') && ConsumerOk(c, s')
      && s'.prodTail == s.prodTail + s.producers[pid].insert
  {
    assert ProducerOk(c, s, pid);
    ReservationBounds(c, s, pid);
  }

  lemma CommitKeepsProducers(c: Config, s: State, pid: nat)
    requires Inv(c, s) && pid < |s.producers| && s.producers[pid].Committing?
    ensures ProducersOk(c, Commit(c, s, pid))
  {
    forall q | 0 <= q < |s.producers| ensures ProducerOk(c, Commit(c, s, pid), q) {
      CommitKeepsOther(c, s, pid, q);
    }
  }

  lemma CommitKeepsTickets(c: Config, s: State, pid: nat)
    requires Inv(c, s) && pid < |s.producers| && s.producers[pid].Committing?
    ensures TicketsOk(Commit(c, s, pid)) && PendingOk(Commit(c, s, pid))
  {
    var p := s.producers[pid];
    var s' := Commit(c, s, pid);
    CommitIsNext(c, s, pid);
    assert ProducerOk(c, s, pid);
    assert HoldsTicket(c, s, pid, p);
    assert TicketOk(s, p.ticket);
    forall i | 0 <= i < |s'.tickets| ensures TicketOk(s', i) { assert TicketOk(s, i); }
  }

  lemma CommitKeepsQueue(c: Config, s: State, pid: nat)
    requires Inv(c, s) && pid < |s.producers| && s.producers[pid].Committing?
    ensures QueueOk(c, Commit(c, s, pid))
  {
    var p := s.producers[pid];
    ReservationBounds(c, s, pid);
    assert ProducerOk(c, s, pid);
    assert HoldsTicket(c, s, pid, p);
    assert TicketOk(s, p.ticket);
    HeldIsLogged(c, s, pid);
  }

  /** The slots of a finished reservation hold what the log says. */
  lemma HeldIsLogged(c: Config, s: State, pid: nat)
    requires Shape(c, s) && pid < |s.producers| && s.producers[pid].Committing?
    requires var p := s.producers[pid]; HoldsTicket(c, s, pid, p) && TicketOk(s, p.ticket)
    ensures var p := s.producers[pid];
      forall x :: p.head <= x < p.head + p.insert ==> x < |s.log| && s.queue[Slot(x, c.slots)] == s.log[x]
  {
  }

  lemma CommitKeepsReturned(c: Config, s: State, pid: nat)
    requires Inv(c, s) && pid < |s.producers| && s.producers[pid].Committing?
    ensures ReturnedOk(Commit(c, s, pid))
  {
  }

  /** The producer that may commit holds the oldest outstanding reservation. */
  lemma CommitIsNext(c: Config, s: State, pid: nat)
    requires Inv(c, s) && pid < |s.producers| && Reserved(s.producers[pid])
    ensures s.producers[pid].head == s.prodTail <==> s.producers[pid].ticket == s.committed
  {
    var p := s.producers[pid];
    assert ProducerOk(c, s, pid);
    assert HoldsTicket(c, s, pid, p);
    assert TicketOk(s, s.committed);
  }

  lemma CommitKeepsOther(c: Config, s: State, pid: nat, q: nat)
    requires Inv(c, s) && pid < |s.producers| && q < |s.producers| && s.producers[pid].Committing?
    ensures ProducerOk(c, Commit(c, s, pid), q)
  {
    var s' := Commit(c, s, pid);
    assert ProducerOk(c, s, pid) && ProducerOk(c, s, q);
    assert HoldsTicket(c, s, pid, s.producers[pid]);
    CommitIsNext(c, s, pid);
    if q != pid && Reserved(s.producers[q]) {
      assert HoldsTicket(c, s, q, s.producers[q]);
      CommitIsNext(c, s, q);
      assert HoldsTicket(c, s', q, s'.producers[q]);
    }
  }

  lemma ProducerStepKeeps(c: Config, s: State, pid: nat)
    requires Inv(c, s)
    ensures Inv(c, ProducerStep(c, s, pid))
  {
    if pid < |s.producers| {
      assert ProducerOk(c, s, pid);
      match s.producers[pid] {
        case Idle =>
        case Called(batch) => LocalStep(c, s, pid, LoadedHead(batch, s.prodHead));
        case LoadedHead(_, _) => LoadTailKeeps(c, s, pid);
        case LoadedTail(_, h, _) =>
          if s.prodHead == h { ReserveKeeps(c, s, pid); } else { ReserveFailKeeps(c, s, pid); }
        case Storing(_, _, insert, k, _, _) =>
          if k < insert { StoreKeeps(c, s, pid); } else { WaitKeeps(c, s, pid); }
        case Committing(_, _, _, _) => CommitKeeps(c, s, pid);
      }
    }
  }

  /** Consumer steps touch nothing but the consumer's counters and history. */
  lemma ConsumerFrame(c: Config, s: State, s': State)
    requires Inv(c, s)
    requires s' == s.(consHead := s'.consHead, consTail := s'.consTail,
                      consumer := s'.consumer, delivered := s'.delivered)
    requires s.consTail <= s'.consTail <= s'.consHead <= s.prodTail
    requires ConsumerOk(c, s')
    ensures Inv(c, s')
  {
    forall q | 0 <= q < |s'.producers| ensures ProducerOk(c, s', q) {
      assert ProducerOk(c, s, q);
      if Reserved(s.producers[q]) {
        assert HoldsTicket(c, s, q, s.producers[q]);
        assert HoldsTicket(c, s', q, s'.producers[q]);
      }
    }
    TicketsFrame(s, s');
  }

  /** What the consumer's steps rely on. */
  ghost predicate ConsumerReady(c: Config, s: State) {
    c.arith.Unbounded? && Shape(c, s) && CountersOk(c, s) && QueueOk(c, s) && ConsumerOk(c, s)
  }

  lemma ReadKeeps(c: Config, s: State)
    requires ConsumerReady(c, s) && s.consumer.CReading? && s.consumer.k < s.consumer.n
    ensures ConsumerOk(c, ReadOrRelease(c, s))
  {
    var h, x := s.consumer.head, s.consumer.head + s.consumer.k;
    assert s.queue[Slot(x, c.slots)] == s.log[x];
    SlotSuccessor(x, c.slots);
    assert s.log[h..x] + [s.log[x]] == s.log[h..x + 1];
  }

  lemma ReleaseKeeps(c: Config, s: State)
    requires ConsumerReady(c, s) && s.consumer.CReading? && s.consumer.k >= s.consumer.n
    ensures ConsumerOk(c, ReadOrRelease(c, s))
  {
  }

  lemma ConsumerStepOk(c: Config, s: State)
    requires ConsumerReady(c, s)
    ensures var s' := ConsumerStep(c, s);
      && ConsumerOk(c, s') && s.consTail <= s'.consTail <= s'.consHead <= s.prodTail
      && s' == s.(consHead := s'.consHead, consTail := s'.consTail, consumer := s'.consumer, delivered := s'.delivered)
  {
    if s.consumer.CReading? {
      if s.consumer.k < s.consumer.n { ReadKeeps(c, s); } else { ReleaseKeeps(c, s); }
    }
  }

  lemma ConsumerStepKeeps(c: Config, s: State)
    requires Inv(c, s)
    ensures Inv(c, ConsumerStep(c, s))
  {
    ConsumerStepOk(c, s);
    ConsumerFrame(c, s, ConsumerStep(c, s));
  }

  lemma StepKeeps(c: Config, s: State, a: Action)
    requires Inv(c, s)
    ensures Inv(c, Step(c, s, a))
  {
    match a {
      case Enqueue(pid, batch) =>
        if pid < |s.producers| && s.producers[pid].Idle? {
          LocalStep(c, s, pid, Called(batch));
        }
      case Produce(pid) => ProducerStepKeeps(c, s, pid);
      case Dequeue(room) => ConsumerFrame(c, s, Step(c, s, a));
      case Consume => ConsumerStepKeeps(c, s);
    }
  }

  lemma InitOk(c: Config, n: nat)
    requires c.slots > 0 && c.arith.Unbounded? && n > 0
    ensures Inv(c, Init(c, n))
  {
  }

  lemma {:induction false} RunKeeps(c: Config, s: State, schedule: seq<Action>)
    requires Inv(c, s)
    ensures Inv(c, Run(c, s, schedule))
    decreases |schedule|
  {
    if schedule != [] {
      StepKeeps(c, s, schedule[0]);
      RunKeeps(c, Step(c, s, schedule[0]), schedule[1..]);
    }
  }
}
