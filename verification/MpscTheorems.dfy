/**
 The guarantees of the mbuf ring, stated of every reachable state: no store hits a live
 slot, the consumer sees accepted mbufs first-in first-out, outstanding commits can always
 be drained. `MpscWrapping` carries these over to 64-bit counters.
 */
module MpscTheorems {
  import opened Words
  import opened Mbuf
  import opened MpscProtocol
  import opened MpscSafety

  ghost predicate Holds(p: Producer, x: nat) {
    Reserved(p) && p.head <= x < p.head + p.insert
  }

  /** Position `x` is under some producer's reservation. */
  ghost predicate Covered(s: State, x: nat) {
    exists pid :: 0 <= pid < |s.producers| && Holds(s.producers[pid], x)
  }

  /** No position is under two reservations. */
  ghost predicate NoOverlap(s: State) {
    forall a, b, x: nat | 0 <= a < |s.producers| && 0 <= b < |s.producers|
                          && Holds(s.producers[a], x) && Holds(s.producers[b], x) :: a == b
  }

  // ---------------------------------------------------------------- reservations tile the ring

  /** Reservation holding position `x`, searched from reservation `i` on. */
  lemma {:induction false} TicketAt(s: State, x: nat, i: nat) returns (j: nat)
    requires TicketsOk(s) && i <= |s.tickets| && StartOf(s, i) <= x < |s.log|
    ensures i <= j < |s.tickets| && s.tickets[j].start <= x < End(s.tickets[j])
    decreases |s.tickets| - i
  {
    assert TicketOk(s, i);
    if x < End(s.tickets[i]) {
      j := i;
    } else {
      j := TicketAt(s, x, i + 1);
    }
  }

  /**
   In every interleaving, outstanding reservations are disjoint and cover exactly the
   positions from producer.tail to producer.head, at most slots - 1 positions are ever
   live, and the slot of the next store is neither unread nor reserved by anyone else.
   Callers whose loaded counters are stale are included: they are just more states.
   */
  lemma ReservationsTile(c: Config, n: nat, schedule: seq<Action>)
    requires c.slots > 0 && c.arith.Unbounded? && n > 0
    ensures var s := Run(c, Init(c, n), schedule);
      && s.prodHead - s.consTail <= c.slots - 1
      && (forall x: nat :: Covered(s, x) <==> s.prodTail <= x < s.prodHead)
      && NoOverlap(s)
    ensures var s := Run(c, Init(c, n), schedule);
      forall pid | 0 <= pid < |s.producers| && s.producers[pid].Storing?
                   && s.producers[pid].k < s.producers[pid].insert :: StoreIsPrivate(c, s, pid)
  {
    InitOk(c, n);
    var s := Run(c, Init(c, n), schedule);
    RunKeeps(c, Init(c, n), schedule);
    Tiling(c, s);
    forall pid | 0 <= pid < |s.producers| && s.producers[pid].Storing?
        && s.producers[pid].k < s.producers[pid].insert
      ensures StoreIsPrivate(c, s, pid)
    {
      PrivateStore(c, s, pid);
    }
  }

  /** The slot about to be written holds no unread position and no other reservation. */
  ghost predicate StoreIsPrivate(c: Config, s: State, pid: nat)
    requires c.slots > 0 && pid < |s.producers| && s.producers[pid].Storing?
  {
    var slot := s.producers[pid].slot;
    && slot < |s.queue|
    && (forall x: nat :: s.consTail <= x < s.prodTail ==> Slot(x, c.slots) != slot)
    && (forall q, x: nat :: 0 <= q < |s.producers| && q != pid && Holds(s.producers[q], x) ==>
          Slot(x, c.slots) != slot)
  }

  lemma PrivateStore(c: Config, s: State, pid: nat)
    requires Inv(c, s) && pid < |s.producers| && s.producers[pid].Storing?
    requires s.producers[pid].k < s.producers[pid].insert
    ensures StoreIsPrivate(c, s, pid)
  {
    var p := s.producers[pid];
    assert ProducerOk(c, s, pid);
    ReservationBounds(c, s, pid);
    WindowSlots(c, s, p.head + p.k);
    forall q, x: nat | 0 <= q < |s.producers| && q != pid && Holds(s.producers[q], x)
      ensures Slot(x, c.slots) != p.slot
    {
      ReservationBounds(c, s, q);
      ReservationsDisjoint(c, s, pid, q);
    }
  }

  lemma Tiling(c: Config, s: State)
    requires Inv(c, s)
    ensures forall x: nat :: Covered(s, x) <==> s.prodTail <= x < s.prodHead
    ensures NoOverlap(s)
  {
    forall x: nat
      ensures Covered(s, x) <==> s.prodTail <= x < s.prodHead
    {
      if s.prodTail <= x < s.prodHead {
        var j := TicketAt(s, x, s.committed);
        HolderOf(c, s, j);
        assert Holds(s.producers[s.tickets[j].pid], x);
      }
      if pid :| 0 <= pid < |s.producers| && Holds(s.producers[pid], x) {
        ReservationBounds(c, s, pid);
      }
    }
    forall a, b, x: nat | 0 <= a < |s.producers| && 0 <= b < |s.producers|
        && Holds(s.producers[a], x) && Holds(s.producers[b], x)
      ensures a == b
    {
      if a != b { ReservationsDisjoint(c, s, a, b); }
    }
  }

  /** The holder of an uncommitted reservation, and the range it holds. */
  lemma HolderOf(c: Config, s: State, j: nat)
    requires Inv(c, s) && s.committed <= j < |s.tickets|
    ensures s.tickets[j].pid < |s.producers|
    ensures var p := s.producers[s.tickets[j].pid];
      Reserved(p) && p.head == s.tickets[j].start && p.head + p.insert == End(s.tickets[j])
  {
    assert TicketOk(s, j);
    var pid := s.tickets[j].pid;
    assert ProducerOk(c, s, pid);
    assert HoldsTicket(c, s, pid, s.producers[pid]);
  }

  // ---------------------------------------------------------------- first in, first out

  function Flatten(tickets: seq<Ticket>): seq<MBuf> {
    if tickets == [] then []
    else Flatten(tickets[..|tickets| - 1]) + tickets[|tickets| - 1].slice
  }

  lemma {:induction false} FlattenPrefix(s: State, i: nat)
    requires TicketsOk(s) && i <= |s.tickets|
    ensures StartOf(s, i) <= |s.log| && Flatten(s.tickets[..i]) == s.log[..StartOf(s, i)]
  {
    if i > 0 {
      FlattenPrefix(s, i - 1);
      assert TicketOk(s, i - 1);
      assert s.tickets[..i][..i - 1] == s.tickets[..i - 1];
      var t := s.tickets[i - 1];
      assert s.log[..t.start] + s.log[t.start..End(t)] == s.log[..End(t)];
    }
  }

  /**
   In every interleaving, what the consumer has received is a prefix of what has been
   committed; what has been committed is the concatenation of the accepted slices in the
   order of their reservations; and each producer's accepted slices appear in its own call
   order, one for every call that returned and one for a call still in progress.
   */
  lemma FirstInFirstOut(c: Config, n: nat, schedule: seq<Action>)
    requires c.slots > 0 && c.arith.Unbounded? && n > 0
    ensures var s := Run(c, Init(c, n), schedule);
      && s.committed <= |s.tickets|
      && s.delivered <= Flatten(s.tickets[..s.committed]) <= Flatten(s.tickets)
      && |s.delivered| == s.consTail && |Flatten(s.tickets[..s.committed])| == s.prodTail
      && |s.returned| == |s.producers| == n
      && forall pid :: 0 <= pid < n ==>
           SlicesOf(s.tickets, pid) == s.returned[pid] + Outstanding(s.producers[pid])
  {
    InitOk(c, n);
    var s := Run(c, Init(c, n), schedule);
    RunKeeps(c, Init(c, n), schedule);
    FlattenPrefix(s, s.committed);
    FlattenPrefix(s, |s.tickets|);
    assert s.tickets[..|s.tickets|] == s.tickets;
    assert s.log[..|s.log|] == s.log;
  }

  // ---------------------------------------------------------------- the commit chain cannot stall

  lemma {:induction false} RunAppend(c: Config, s: State, a: seq<Action>, b: seq<Action>)
    requires c.slots > 0 && |s.returned| == |s.producers|
    ensures Run(c, s, a + b) == Run(c, Run(c, s, a), b)
    decreases |a|
  {
    if a == [] {
      assert a + b == b;
    } else {
      assert (a + b)[0] == a[0] && (a + b)[1..] == a[1..] + b;
      RunAppend(c, Step(c, s, a[0]), a[1..], b);
    }
  }

  ghost predicate OnlyProducers(schedule: seq<Action>) {
    forall i :: 0 <= i < |schedule| ==> schedule[i].Produce?
  }

  /** One step of the holder of the oldest reservation: closer to its commit, or committed. */
  lemma OldestAdvances(c: Config, s: State, pid: nat)
    requires Inv(c, s) && pid < |s.producers| && s.producers[pid].Storing?
    requires s.producers[pid].head == s.prodTail
    ensures var s', p := ProducerStep(c, s, pid), s.producers[pid];
      && s'.prodHead == s.prodHead && s'.prodTail == s.prodTail
      && |s'.producers| == |s.producers| && Reserved(s'.producers[pid])
      && s'.producers[pid].head == p.head && s'.producers[pid].insert == p.insert
      && (s'.producers[pid].Storing? ==> p.insert - Stored(s'.producers[pid]) < p.insert - Stored(p))
  {
    assert ProducerOk(c, s, pid);
    assert HoldsTicket(c, s, pid, s.producers[pid]);
  }

  /** Every step is taken by a producer that holds a reservation. */
  ghost predicate Steady(c: Config, s: State, schedule: seq<Action>)
    requires c.slots > 0 && |s.returned| == |s.producers|
    decreases |schedule|
  {
    schedule != [] ==>
      && schedule[0].Produce? && schedule[0].pid < |s.producers| && Reserved(s.producers[schedule[0].pid])
      && Steady(c, Step(c, s, schedule[0]), schedule[1..])
  }

  lemma {:induction false} SteadyAppend(c: Config, s: State, a: seq<Action>, b: seq<Action>)
    requires c.slots > 0 && |s.returned| == |s.producers|
    requires Steady(c, s, a) && Steady(c, Run(c, s, a), b)
    ensures Steady(c, s, a + b)
    decreases |a|
  {
    if a == [] {
      assert a + b == b;
    } else {
      assert (a + b)[0] == a[0] && (a + b)[1..] == a[1..] + b;
      SteadyAppend(c, Step(c, s, a[0]), a[1..], b);
    }
  }

  lemma SteadyFirst(c: Config, s: State, pid: nat, rest: seq<Action>)
    requires c.slots > 0 && |s.returned| == |s.producers| && pid < |s.producers| && Reserved(s.producers[pid])
    requires Steady(c, Step(c, s, Produce(pid)), rest)
    ensures Steady(c, s, [Produce(pid)] + rest)
  {
    assert ([Produce(pid)] + rest)[1..] == rest;
  }

  lemma RunFirst(c: Config, s: State, a: Action, rest: seq<Action>)
    requires c.slots > 0 && |s.returned| == |s.producers|
    ensures Run(c, s, [a] + rest) == Run(c, Step(c, s, a), rest)
  {
  }

  lemma ProduceFirst(c: Config, s: State, s': State, pid: nat, rest: seq<Action>)
    requires c.slots > 0 && |s.returned| == |s.producers| && |s'.returned| == |s'.producers|
    requires s' == ProducerStep(c, s, pid) && pid < |s.producers| && Reserved(s.producers[pid])
    requires Steady(c, s', rest) && OnlyProducers(rest)
    ensures var schedule := [Produce(pid)] + rest;
      && Steady(c, s, schedule) && OnlyProducers(schedule)
      && Run(c, s, schedule) == Run(c, s', rest)
  {
    RunFirst(c, s, Produce(pid), rest);
    SteadyFirst(c, s, pid, rest);
  }

  lemma CommitAlone(c: Config, s: State, pid: nat)
    requires Inv(c, s) && pid < |s.producers| && s.producers[pid].Committing?
    ensures var s' := Run(c, s, [Produce(pid)]);
      Inv(c, s') && s'.prodHead == s.prodHead && s'.prodTail == s.prodTail + s.producers[pid].insert
    ensures Steady(c, s, [Produce(pid)])
  {
    var s' := Commit(c, s, pid);
    CommitKeeps(c, s, pid);
    RunFirst(c, s, Produce(pid), []);
    SteadyFirst(c, s, pid, []);
    assert [Produce(pid)] + [] == [Produce(pid)];
    assert Step(c, s, Produce(pid)) == s';
  }

  /** The holder of the oldest reservation reaches its commit by its own steps alone. */
  lemma {:induction false} DriveOldest(c: Config, s: State, pid: nat) returns (schedule: seq<Action>)
    requires Inv(c, s) && pid < |s.producers| && Reserved(s.producers[pid])
    requires s.producers[pid].head == s.prodTail
    ensures OnlyProducers(schedule) && Steady(c, s, schedule)
    ensures var s' := Run(c, s, schedule);
      Inv(c, s') && s'.prodHead == s.prodHead && s'.prodTail == s.prodTail + s.producers[pid].insert
    decreases s.producers[pid].Storing?, s.producers[pid].insert - Stored(s.producers[pid])
  {
    if s.producers[pid].Committing? {
      CommitAlone(c, s, pid);
      schedule := [Produce(pid)];
    } else {
      var s' := ProducerStep(c, s, pid);
      ProducerStepKeeps(c, s, pid);
      OldestAdvances(c, s, pid);
      var rest := DriveOldest(c, s', pid);
      schedule := [Produce(pid)] + rest;
      ProduceFirst(c, s, s', pid, rest);
    }
  }

  /**
   No deadlock: from every reachable state some schedule of producer steps alone commits
   every outstanding reservation. The waiting loops therefore never block each other.
   */
  lemma {:induction false} DrainFrom(c: Config, s: State) returns (schedule: seq<Action>)
    requires Inv(c, s)
    ensures OnlyProducers(schedule) && Steady(c, s, schedule)
    ensures var s' := Run(c, s, schedule); Inv(c, s') && s'.prodHead == s.prodHead == s'.prodTail
    decreases s.prodHead - s.prodTail
  {
    if s.prodTail == s.prodHead {
      schedule := [];
    } else {
      assert s.committed < |s.tickets|;
      HolderOf(c, s, s.committed);
      var pid := s.tickets[s.committed].pid;
      ReservationBounds(c, s, pid);
      var first := DriveOldest(c, s, pid);
      var rest := DrainFrom(c, Run(c, s, first));
      schedule := first + rest;
      RunAppend(c, s, first, rest);
      SteadyAppend(c, s, first, rest);
    }
  }

  lemma CommitsCanDrain(c: Config, n: nat, schedule: seq<Action>) returns (more: seq<Action>)
    requires c.slots > 0 && c.arith.Unbounded? && n > 0
    ensures OnlyProducers(more)
    ensures var s, s' := Run(c, Init(c, n), schedule), Run(c, Init(c, n), schedule + more);
      s'.prodHead == s.prodHead == s'.prodTail
  {
    InitOk(c, n);
    RunKeeps(c, Init(c, n), schedule);
    more := DrainFrom(c, Run(c, Init(c, n), schedule));
    RunAppend(c, Init(c, n), schedule, more);
  }

  /** While anything is outstanding, exactly one reservation starts at producer.tail. */
  lemma OldestIsUnique(c: Config, n: nat, schedule: seq<Action>) returns (pid: nat)
    requires c.slots > 0 && c.arith.Unbounded? && n > 0
    requires var s := Run(c, Init(c, n), schedule); s.prodTail < s.prodHead
    ensures var s := Run(c, Init(c, n), schedule);
      && pid < |s.producers| && Reserved(s.producers[pid]) && s.producers[pid].head == s.prodTail
      && forall q | 0 <= q < |s.producers| && Reserved(s.producers[q])
                    && s.producers[q].head == s.prodTail :: q == pid
  {
    InitOk(c, n);
    RunKeeps(c, Init(c, n), schedule);
    var s := Run(c, Init(c, n), schedule);
    assert s.committed < |s.tickets|;
    HolderOf(c, s, s.committed);
    pid := s.tickets[s.committed].pid;
    forall q | 0 <= q < |s.producers| && Reserved(s.producers[q]) && s.producers[q].head == s.prodTail
      ensures q == pid
    {
      ReservationBounds(c, s, q);
      ReservationBounds(c, s, pid);
      if q != pid { ReservationsDisjoint(c, s, q, pid); }
    }
  }
}
