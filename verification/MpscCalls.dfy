/**
 What single calls on the mbuf ring are answered, in every interleaving: a call inserts its
 whole batch or as much as the counters it loaded leave room for, and a dequeue takes as much
 as is committed and fits. Nothing of a batch is dropped or made up on the way.
 */
module MpscCalls {
  import opened Words
  import opened Mbuf
  import opened MpscProtocol
  import opened MpscSafety
  import opened MpscTheorems

  // ---------------------------------------------------------------- what a call inserts

  /** How a call was decided: the mbufs it reserved room for, and the counters it had loaded. */
  datatype Decision = Decision(batch: seq<MBuf>, slice: seq<MBuf>, head: nat, tail: nat)

  /** The slice begins the batch, and is all of it or fills the ring up to `slots - 1` positions. */
  ghost predicate Greedy(c: Config, d: Decision) {
    && d.slice <= d.batch && d.head + |d.slice| <= d.tail + c.slots - 1
    && (d.slice == d.batch || d.head + |d.slice| == d.tail + c.slots - 1)
  }

  /** What a step from `s` to `s'` decides about the call of producer `pid`, read off the two states. */
  function Decided(s: State, s': State, pid: nat): (ds: seq<Decision>)
    requires pid < |s.producers| == |s'.producers|
  {
    var p := s.producers[pid];
    if p.LoadedHead? && s'.producers[pid].Idle? then [Decision(p.batch, [], p.head, s.consTail)]
    else if p.LoadedTail? && s'.producers[pid].Storing? && s'.tickets != [] then
      [Decision(p.batch, s'.tickets[|s'.tickets| - 1].slice, p.head, p.tail)]
    else []
  }

  /** The batch of a call that step `a` starts. */
  function Issued(s: State, a: Action, pid: nat): seq<seq<MBuf>>
    requires pid < |s.producers|
  {
    if a.Enqueue? && a.pid == pid && s.producers[pid].Idle? then [a.batch] else []
  }

  /** The batch of a call under way that is not decided yet. */
  function Undecided(p: Producer): seq<seq<MBuf>> {
    if p.Called? || p.LoadedHead? || p.LoadedTail? then [p.batch] else []
  }

  function Batches(ds: seq<Decision>): seq<seq<MBuf>> {
    seq(|ds|, i requires 0 <= i < |ds| => ds[i].batch)
  }

  /** The slices of the calls that inserted something. */
  function Slices(ds: seq<Decision>): seq<seq<MBuf>> {
    if ds == [] then [] else (if ds[0].slice == [] then [] else [ds[0].slice]) + Slices(ds[1..])
  }

  /** All calls of a producer over a run, in order, and all decisions. */
  function Calls(c: Config, s: State, schedule: seq<Action>, pid: nat): seq<seq<MBuf>>
    requires c.slots > 0 && |s.returned| == |s.producers| && pid < |s.producers|
    decreases |schedule|
  {
    if schedule == [] then []
    else Issued(s, schedule[0], pid) + Calls(c, Step(c, s, schedule[0]), schedule[1..], pid)
  }

  function Decisions(c: Config, s: State, schedule: seq<Action>, pid: nat): seq<Decision>
    requires c.slots > 0 && |s.returned| == |s.producers| && pid < |s.producers|
    decreases |schedule|
  {
    if schedule == [] then []
    else Decided(s, Step(c, s, schedule[0]), pid) + Decisions(c, Step(c, s, schedule[0]), schedule[1..], pid)
  }

  lemma DecisionsCons(c: Config, s: State, m: State, schedule: seq<Action>, pid: nat)
    requires c.slots > 0 && |s.returned| == |s.producers| == |m.producers| == |m.returned| && pid < |s.producers|
    requires schedule != [] && m == Step(c, s, schedule[0])
    ensures Calls(c, s, schedule, pid) == Issued(s, schedule[0], pid) + Calls(c, m, schedule[1..], pid)
    ensures Decisions(c, s, schedule, pid) == Decided(s, m, pid) + Decisions(c, m, schedule[1..], pid)
  {
  }

  /** A successful exchange reserves the whole batch, or up to the last free position it knew of. */
  lemma ReservesGreedily(c: Config, s: State, pid: nat)
    requires Inv(c, s) && pid < |s.producers| && s.producers[pid].LoadedTail?
    requires s.prodHead == s.producers[pid].head
    ensures var p, s' := s.producers[pid], ProducerStep(c, s, pid);
      && |s'.producers| == |s.producers| && s'.producers[pid].Storing?
      && |s'.tickets| == |s.tickets| + 1 && s'.tickets[..|s.tickets|] == s.tickets
      && var t := s'.tickets[|s.tickets|];
      && t.pid == pid && t.start == s.prodHead && s'.prodHead == s.prodHead + |t.slice| && t.slice != []
      && Greedy(c, Decision(p.batch, t.slice, p.head, p.tail))
  {
    assert ProducerOk(c, s, pid);
  }

  /** A call returns without inserting exactly when its batch is empty or the ring it saw was full. */
  lemma ReturnsEmptyExactly(c: Config, s: State, pid: nat)
    requires Inv(c, s) && pid < |s.producers| && s.producers[pid].LoadedHead?
    ensures var p, p' := s.producers[pid], ProducerStep(c, s, pid).producers[pid];
      && (p'.Idle? <==> p.batch == [] || p.head == s.consTail + c.slots - 1)
      && (!p'.Idle? ==> p' == LoadedTail(p.batch, p.head, s.consTail))
  {
    assert ProducerOk(c, s, pid);
  }

  lemma OneDecision(d: Decision)
    ensures Batches([d]) == [d.batch] && Slices([d]) == if d.slice == [] then [] else [d.slice]
  {
    assert [d][1..] == [];
    assert Batches([d])[0] == d.batch;
  }

  lemma {:induction false} SlicesAppend(a: seq<Decision>, b: seq<Decision>)
    ensures Slices(a + b) == Slices(a) + Slices(b)
    decreases |a|
  {
    if a == [] {
      assert a + b == b;
    } else {
      assert (a + b)[0] == a[0] && (a + b)[1..] == a[1..] + b;
      SlicesAppend(a[1..], b);
    }
  }

  /**
   Between two states, calls started, under way and decided balance, decisions are greedy, and
   their slices are the producer's new reservations.
   */
  ghost predicate Accounted(c: Config, s: State, s': State, pid: nat, calls: seq<seq<MBuf>>, ds: seq<Decision>)
    requires pid < |s.producers| && pid < |s'.producers|
  {
    && Undecided(s.producers[pid]) + calls == Batches(ds) + Undecided(s'.producers[pid])
    && SlicesOf(s'.tickets, pid) == SlicesOf(s.tickets, pid) + Slices(ds)
    && forall i :: 0 <= i < |ds| ==> Greedy(c, ds[i])
  }

  /** The step from `s` to `s'`, in which a call for each of `calls` starts, is accounted for. */
  ghost predicate Decides(c: Config, s: State, s': State, pid: nat, calls: seq<seq<MBuf>>)
    requires pid < |s.producers|
  {
    |s'.producers| == |s.producers| && Accounted(c, s, s', pid, calls, Decided(s, s', pid))
  }

  lemma LoadAccounted(c: Config, s: State, s': State, pid: nat)
    requires Inv(c, s) && pid < |s.producers| && s.producers[pid].LoadedHead? && s' == ProducerStep(c, s, pid)
    ensures Decides(c, s, s', pid, [])
  {
    var p := s.producers[pid];
    assert ProducerOk(c, s, pid);
    ReturnsEmptyExactly(c, s, pid);
    if s'.producers[pid].Idle? {
      var d := Decision(p.batch, [], p.head, s.consTail);
      assert Greedy(c, d);
      OneDecision(d);
    }
  }

  lemma ReserveAccounted(c: Config, s: State, s': State, pid: nat)
    requires Inv(c, s) && pid < |s.producers| && s.producers[pid].LoadedTail? && s' == ProducerStep(c, s, pid)
    requires s.prodHead == s.producers[pid].head
    ensures Decides(c, s, s', pid, [])
  {
    var p := s.producers[pid];
    ReservesGreedily(c, s, pid);
    var t := s'.tickets[|s.tickets|];
    assert Decided(s, s', pid) == [Decision(p.batch, t.slice, p.head, p.tail)];
    assert s'.tickets[..|s'.tickets| - 1] == s.tickets;
    OneDecision(Decision(p.batch, t.slice, p.head, p.tail));
  }

  lemma OwnStepAccounted(c: Config, s: State, s': State, pid: nat)
    requires Inv(c, s) && pid < |s.producers| && s' == ProducerStep(c, s, pid)
    ensures Decides(c, s, s', pid, [])
  {
    match s.producers[pid] {
      case Idle =>
      case Called(_) =>
      case LoadedHead(_, _) => LoadAccounted(c, s, s', pid);
      case LoadedTail(_, h, _) =>
        if s.prodHead == h { ReserveAccounted(c, s, s', pid); } else { ReserveFailKeeps(c, s, pid); }
      case Storing(_, _, _, _, _, _) => HeldAccounted(c, s, s', pid);
      case Committing(_, _, _, _) => HeldAccounted(c, s, s', pid);
    }
  }

  lemma HeldAccounted(c: Config, s: State, s': State, pid: nat)
    requires c.slots > 0 && |s.returned| == |s.producers| && pid < |s.producers|
    requires Reserved(s.producers[pid]) && s' == ProducerStep(c, s, pid)
    ensures Decides(c, s, s', pid, [])
  {
    assert s'.tickets == s.tickets;
  }

  /** Nothing about `pid` changed, except that others may have reserved. */
  ghost predicate Aside(s: State, s': State, pid: nat)
    requires pid < |s.producers|
  {
    && |s'.producers| == |s.producers| && s'.producers[pid] == s.producers[pid]
    && (s'.tickets == s.tickets ||
        (|s'.tickets| == |s.tickets| + 1 && s'.tickets[..|s.tickets|] == s.tickets
         && s'.tickets[|s.tickets|].pid != pid))
  }

  lemma OtherStepAside(c: Config, s: State, q: nat, pid: nat)
    requires c.slots > 0 && |s.returned| == |s.producers| && pid < |s.producers| && q != pid
    ensures Aside(s, ProducerStep(c, s, q), pid)
  {
  }

  lemma AsideAccounted(c: Config, s: State, s': State, pid: nat)
    requires pid < |s.producers| && Aside(s, s', pid)
    ensures Decides(c, s, s', pid, [])
  {
  }

  lemma EnqueueAccounted(c: Config, s: State, s': State, a: Action, pid: nat)
    requires c.slots > 0 && |s.returned| == |s.producers| && pid < |s.producers|
    requires a.Enqueue? && s' == Step(c, s, a)
    ensures Decides(c, s, s', pid, Issued(s, a, pid))
  {
    if a.pid != pid || !s.producers[pid].Idle? { AsideAccounted(c, s, s', pid); }
  }

  /** One step, whoever takes it. */
  lemma StepAccounted(c: Config, s: State, s': State, a: Action, pid: nat)
    requires Inv(c, s) && pid < |s.producers| && s' == Step(c, s, a)
    ensures Decides(c, s, s', pid, Issued(s, a, pid))
  {
    match a {
      case Enqueue(_, _) => EnqueueAccounted(c, s, s', a, pid);
      case Produce(q) =>
        if q == pid { OwnStepAccounted(c, s, s', pid); }
        else {
          OtherStepAside(c, s, q, pid);
          AsideAccounted(c, s, s', pid);
        }
      case Dequeue(_) => AsideAccounted(c, s, s', pid);
      case Consume => AsideAccounted(c, s, s', pid);
    }
  }

  lemma AccountedJoin(c: Config, s: State, m: State, s': State, pid: nat, i: seq<seq<MBuf>>, d: seq<Decision>,
                      calls: seq<seq<MBuf>>, ds: seq<Decision>)
    requires pid < |s.producers| && pid < |m.producers| && pid < |s'.producers|
    requires Accounted(c, s, m, pid, i, d) && Accounted(c, m, s', pid, calls, ds)
    ensures Accounted(c, s, s', pid, i + calls, d + ds)
  {
    assert SlicesOf(s'.tickets, pid) == SlicesOf(s.tickets, pid) + Slices(d + ds) by { SlicesAppend(d, ds); }
    BatchesJoin(Undecided(s.producers[pid]), i, calls, d, Undecided(m.producers[pid]), ds,
                Undecided(s'.producers[pid]));
  }

  /**
   Over every run from every reachable state, the calls a producer made are, in order, those
   already decided and the one under way; each decision is greedy; and the slices that were
   not empty are exactly the producer's reservations.
   */
  lemma {:induction false} RunAccounted(c: Config, s: State, schedule: seq<Action>, pid: nat)
    requires Inv(c, s) && pid < |s.producers|
    ensures Accounted(c, s, Run(c, s, schedule), pid, Calls(c, s, schedule, pid), Decisions(c, s, schedule, pid))
    decreases |schedule|
  {
    if schedule != [] {
      var a, rest := schedule[0], schedule[1..];
      var m := Step(c, s, a);
      StepAccounted(c, s, m, a, pid);
      StepKeeps(c, s, a);
      RunAccounted(c, m, rest, pid);
      AccountedJoin(c, s, m, Run(c, m, rest), pid, Issued(s, a, pid), Decided(s, m, pid),
                    Calls(c, m, rest, pid), Decisions(c, m, rest, pid));
    }
  }

  lemma BatchesJoin(u: seq<seq<MBuf>>, i: seq<seq<MBuf>>, calls: seq<seq<MBuf>>, d: seq<Decision>,
                    v: seq<seq<MBuf>>, ds: seq<Decision>, w: seq<seq<MBuf>>)
    requires u + i == Batches(d) + v && v + calls == Batches(ds) + w
    ensures u + (i + calls) == Batches(d + ds) + w
  {
    assert u + (i + calls) == (u + i) + calls == Batches(d) + (v + calls);
    assert Batches(d + ds) == Batches(d) + Batches(ds);
  }

  /** The same from a new ring: no call of any producer is lost, shortened or invented. */
  lemma CallsAnswered(c: Config, n: nat, schedule: seq<Action>, pid: nat)
    requires c.slots > 0 && c.arith.Unbounded? && pid < n
    ensures var s, ds := Run(c, Init(c, n), schedule), Decisions(c, Init(c, n), schedule, pid);
      && |s.producers| == |s.returned| == n
      && Calls(c, Init(c, n), schedule, pid) == Batches(ds) + Undecided(s.producers[pid])
      && Slices(ds) == s.returned[pid] + Outstanding(s.producers[pid])
      && forall i :: 0 <= i < |ds| ==> Greedy(c, ds[i])
  {
    var s0 := Init(c, n);
    InitOk(c, n);
    RunAccounted(c, s0, schedule, pid);
    FirstInFirstOut(c, n, schedule);
    assert SlicesOf(s0.tickets, pid) == [] && Undecided(s0.producers[pid]) == [];
    var ds := Decisions(c, s0, schedule, pid);
    assert [] + Slices(ds) == Slices(ds) && [] + Calls(c, s0, schedule, pid) == Calls(c, s0, schedule, pid);
  }

  /** Free positions as the counters really stand. */
  function Spare(c: Config, s: State): int {
    c.slots - 1 - (s.prodHead - s.consTail)
  }

  lemma LoadedInserts(c: Config, s: State, pid: nat)
    requires Inv(c, s) && pid < |s.producers| && s.producers[pid].LoadedHead? && s.producers[pid].head == s.prodHead
    ensures Spare(c, s) >= 0
    ensures Inserts(c, s, Run(c, s, [Produce(pid), Produce(pid)]), pid, s.producers[pid].batch)
  {
    var p := Produce(pid);
    var s1 := ProducerStep(c, s, pid);
    var s2 := ProducerStep(c, s1, pid);
    ReturnsEmptyExactly(c, s, pid);
    ProducerStepKeeps(c, s, pid);
    RunCons(c, s, s1, p, [p], [p, p]);
    RunCons(c, s1, s2, p, [], [p]);
    assert Spare(c, s) >= 0;
    assert Inserts(c, s, s2, pid, s.producers[pid].batch) by {
      if s1.producers[pid].LoadedTail? { ReservesGreedily(c, s1, pid); }
    }
  }

  /** `s'` is `s` with as much of the batch reserved as the ring has room for. */
  ghost predicate Inserts(c: Config, s: State, s': State, pid: nat, batch: seq<MBuf>)
    requires Spare(c, s) >= 0
  {
    var k := if |batch| < Spare(c, s) then |batch| else Spare(c, s);
    && s'.prodHead == s.prodHead + k && s'.log == s.log + batch[..k]
    && s'.tickets == (if k == 0 then s.tickets else s.tickets + [Ticket(pid, s.prodHead, batch[..k])])
    && pid < |s.producers| == |s'.producers| && s'.producers[pid].Idle? == (k == 0)
    && forall q :: 0 <= q < |s.producers| && q != pid ==> s'.producers[q] == s.producers[q]
  }

  /**
   A call that nobody interferes with before its exchange inserts as much of its batch as the
   ring has room for, whatever other producers and the consumer are in the middle of.
   */
  lemma EnqueueInserts(c: Config, s: State, pid: nat, batch: seq<MBuf>)
    requires Inv(c, s) && pid < |s.producers| && s.producers[pid].Idle?
    ensures Spare(c, s) >= 0
    ensures Inserts(c, s, Run(c, s, [Enqueue(pid, batch), Produce(pid), Produce(pid), Produce(pid)]), pid, batch)
  {
    var s2 := SetProducer(s, pid, LoadedHead(batch, s.prodHead));
    EnqueueLoads(c, s, s2, pid, batch);
    LoadedInserts(c, s2, pid);
  }

  lemma EnqueueLoads(c: Config, s: State, s2: State, pid: nat, batch: seq<MBuf>)
    requires Inv(c, s) && pid < |s.producers| && s.producers[pid].Idle?
    requires s2 == SetProducer(s, pid, LoadedHead(batch, s.prodHead))
    ensures Inv(c, s2)
    ensures Run(c, s, [Enqueue(pid, batch), Produce(pid), Produce(pid), Produce(pid)])
            == Run(c, s2, [Produce(pid), Produce(pid)])
  {
    var a, p := Enqueue(pid, batch), Produce(pid);
    var s1 := SetProducer(s, pid, Called(batch));
    LocalStep(c, s, pid, LoadedHead(batch, s.prodHead));
    RunCons(c, s, s1, a, [p, p, p], [a, p, p, p]);
    RunCons(c, s1, s2, p, [p, p], [p, p, p]);
  }

  lemma RunCons(c: Config, s: State, s1: State, a: Action, rest: seq<Action>, schedule: seq<Action>)
    requires c.slots > 0 && |s.returned| == |s.producers| && |s1.returned| == |s1.producers|
    requires Step(c, s, a) == s1 && schedule == [a] + rest
    ensures Run(c, s, schedule) == Run(c, s1, rest)
  {
    assert schedule[1..] == rest;
  }

  // ---------------------------------------------------------------- what a dequeue takes

  /** How a dequeue was decided: room given, number taken, and the two counters it had loaded. */
  datatype Take = Take(room: nat, n: nat, head: nat, tail: nat)

  /** As many as fit into the room given, or all that are committed. */
  ghost predicate TakesMost(t: Take) {
    t.n <= t.room && t.head + t.n <= t.tail && (t.n == t.room || t.head + t.n == t.tail)
  }

  /** What a step from `s` to `s'` decides about the consumer's call. */
  function Took(s: State, s': State): seq<Take> {
    if s.consumer.CLoadedHead? && s'.consumer.CIdle? then [Take(s.consumer.room, 0, s.consumer.head, s.prodTail)]
    else if s.consumer.CLoadedHead? && s'.consumer.CReserving? then
      [Take(s.consumer.room, s'.consumer.n, s.consumer.head, s.prodTail)]
    else []
  }

  /** Rooms given to the calls that step `a` starts, and to a call under way and not decided yet. */
  function Asked(s: State, a: Action): seq<nat> {
    if a.Dequeue? && s.consumer.CIdle? then [a.room] else []
  }

  function Asking(r: Consumer): seq<nat> {
    if r.CCalled? || r.CLoadedHead? then [r.room] else []
  }

  /** Mbufs decided on but not handed out yet. */
  function Taking(r: Consumer): nat {
    if r.CReserving? || r.CReading? then r.n else 0
  }

  function Rooms(ts: seq<Take>): seq<nat> {
    seq(|ts|, i requires 0 <= i < |ts| => ts[i].room)
  }

  function Total(ts: seq<Take>): nat {
    if ts == [] then 0 else ts[0].n + Total(ts[1..])
  }

  function Requests(c: Config, s: State, schedule: seq<Action>): seq<nat>
    requires c.slots > 0 && |s.returned| == |s.producers|
    decreases |schedule|
  {
    if schedule == [] then [] else Asked(s, schedule[0]) + Requests(c, Step(c, s, schedule[0]), schedule[1..])
  }

  function Takes(c: Config, s: State, schedule: seq<Action>): seq<Take>
    requires c.slots > 0 && |s.returned| == |s.producers|
    decreases |schedule|
  {
    if schedule == [] then []
    else Took(s, Step(c, s, schedule[0])) + Takes(c, Step(c, s, schedule[0]), schedule[1..])
  }

  lemma TakesCons(c: Config, s: State, m: State, schedule: seq<Action>)
    requires c.slots > 0 && |s.returned| == |s.producers| && |m.returned| == |m.producers|
    requires schedule != [] && m == Step(c, s, schedule[0])
    ensures Requests(c, s, schedule) == Asked(s, schedule[0]) + Requests(c, m, schedule[1..])
    ensures Takes(c, s, schedule) == Took(s, m) + Takes(c, m, schedule[1..])
  {
  }

  /** Between two states, requests balance, every decision takes the most, and the mbufs are handed out. */
  ghost predicate Drawn(s: State, s': State, rooms: seq<nat>, ts: seq<Take>) {
    && Asking(s.consumer) + rooms == Rooms(ts) + Asking(s'.consumer)
    && |s.delivered| + Taking(s.consumer) + Total(ts) == |s'.delivered| + Taking(s'.consumer)
    && forall i :: 0 <= i < |ts| ==> TakesMost(ts[i])
  }

  lemma OneTake(t: Take)
    ensures Rooms([t]) == [t.room] && Total([t]) == t.n
  {
    assert [t][1..] == [];
    assert Rooms([t])[0] == t.room;
  }

  lemma {:induction false} TotalAppend(a: seq<Take>, b: seq<Take>)
    ensures Total(a + b) == Total(a) + Total(b)
    decreases |a|
  {
    if a == [] {
      assert a + b == b;
    } else {
      assert (a + b)[0] == a[0] && (a + b)[1..] == a[1..] + b;
      TotalAppend(a[1..], b);
    }
  }

  lemma ConsumerDraws(c: Config, s: State, s': State)
    requires ConsumerReady(c, s) && s' == ConsumerStep(c, s)
    ensures Drawn(s, s', [], Took(s, s'))
  {
    if s.consumer.CLoadedHead? {
      OneTake(Took(s, s')[0]);
    }
  }

  lemma ProducerLeavesConsumer(c: Config, s: State, pid: nat)
    requires c.slots > 0 && |s.returned| == |s.producers|
    ensures var s' := ProducerStep(c, s, pid); s'.consumer == s.consumer && s'.delivered == s.delivered
  {
  }

  lemma QuietDraws(s: State, s': State)
    requires s'.consumer == s.consumer && s'.delivered == s.delivered
    ensures Drawn(s, s', [], Took(s, s'))
  {
  }

  lemma StepDraws(c: Config, s: State, s': State, a: Action)
    requires Inv(c, s) && s' == Step(c, s, a)
    ensures Drawn(s, s', Asked(s, a), Took(s, s'))
  {
    match a {
      case Enqueue(_, _) => QuietDraws(s, s');
      case Produce(pid) =>
        ProducerLeavesConsumer(c, s, pid);
        QuietDraws(s, s');
      case Dequeue(_) => if !s.consumer.CIdle? { QuietDraws(s, s'); }
      case Consume => ConsumerDraws(c, s, s');
    }
  }

  lemma RoomsJoin(u: seq<nat>, rooms: seq<nat>, more: seq<nat>, t: seq<Take>, v: seq<nat>, ts: seq<Take>, w: seq<nat>)
    requires u + rooms == Rooms(t) + v && v + more == Rooms(ts) + w
    ensures u + (rooms + more) == Rooms(t + ts) + w
  {
    assert u + (rooms + more) == (u + rooms) + more == Rooms(t) + (v + more);
    assert Rooms(t + ts) == Rooms(t) + Rooms(ts);
  }

  lemma DrawnJoin(s: State, m: State, s': State, rooms: seq<nat>, t: seq<Take>, more: seq<nat>, ts: seq<Take>)
    requires Drawn(s, m, rooms, t) && Drawn(m, s', more, ts)
    ensures Drawn(s, s', rooms + more, t + ts)
  {
    TotalAppend(t, ts);
    RoomsJoin(Asking(s.consumer), rooms, more, t, Asking(m.consumer), ts, Asking(s'.consumer));
  }

  /**
   Over every run, the consumer's calls are, in order, those decided and the one under way;
   each takes the most it can; and exactly that many mbufs have been or are being handed out.
   */
  lemma {:induction false} RunDraws(c: Config, s: State, schedule: seq<Action>)
    requires Inv(c, s)
    ensures Drawn(s, Run(c, s, schedule), Requests(c, s, schedule), Takes(c, s, schedule))
    decreases |schedule|
  {
    if schedule != [] {
      var a, rest := schedule[0], schedule[1..];
      var m := Step(c, s, a);
      StepDraws(c, s, m, a);
      StepKeeps(c, s, a);
      RunDraws(c, m, rest);
      DrawnJoin(s, m, Run(c, m, rest), Asked(s, a), Took(s, m), Requests(c, m, rest), Takes(c, m, rest));
    }
  }

  lemma DequeuesAnswered(c: Config, n: nat, schedule: seq<Action>)
    requires c.slots > 0 && c.arith.Unbounded? && n > 0
    ensures var s, ts := Run(c, Init(c, n), schedule), Takes(c, Init(c, n), schedule);
      && Requests(c, Init(c, n), schedule) == Rooms(ts) + Asking(s.consumer)
      && Total(ts) == |s.delivered| + Taking(s.consumer)
      && forall i :: 0 <= i < |ts| ==> TakesMost(ts[i])
  {
    var s0 := Init(c, n);
    InitOk(c, n);
    RunDraws(c, s0, schedule);
    assert [] + Requests(c, s0, schedule) == Requests(c, s0, schedule);
  }

  function Consumes(k: nat): seq<Action> {
    seq(k, _ => Consume)
  }

  /** The consumer alone finishes reading what it has decided on. */
  lemma {:induction false} ReadsToEnd(c: Config, s: State, k: nat)
    requires Inv(c, s) && s.consumer.CReading? && k == s.consumer.n - s.consumer.k + 1
    ensures var s' := Run(c, s, Consumes(k));
      && Inv(c, s') && s'.consumer.CIdle? && s'.consTail == s.consTail + s.consumer.n
      && s'.producers == s.producers && s'.log == s.log && s'.prodTail == s.prodTail
    decreases k
  {
    var s1 := ConsumerStep(c, s);
    ConsumerStepKeeps(c, s);
    RunCons(c, s, s1, Consume, Consumes(k - 1), Consumes(k));
    if k > 1 {
      ReadsToEnd(c, s1, k - 1);
    } else {
      assert Consumes(0) == [];
    }
  }

  /** `s'` is `s` after the oldest committed mbufs were handed out, as many as there are and fit. */
  ghost predicate Delivers(c: Config, s: State, s': State, room: nat) {
    && s.consTail <= s.prodTail <= |s.log|
    && var n := if room < s.prodTail - s.consTail then room else s.prodTail - s.consTail;
    && Inv(c, s') && s'.consumer.CIdle? && s'.producers == s.producers
    && s'.delivered == s.delivered + s.log[s.consTail..s.consTail + n]
  }

  lemma ReservingDelivers(c: Config, s: State, k: nat)
    requires Inv(c, s) && s.consumer.CReserving? && k == s.consumer.n + 2
    ensures var s', n := Run(c, s, Consumes(k)), s.consumer.n;
      && Inv(c, s') && s'.consumer.CIdle? && s'.producers == s.producers
      && s.consTail + n <= |s.log| && s'.delivered == s.delivered + s.log[s.consTail..s.consTail + n]
  {
    var s1, j := ConsumerStep(c, s), k - 1;
    ConsumerStepKeeps(c, s);
    RunCons(c, s, s1, Consume, Consumes(j), Consumes(k));
    ReadsToEnd(c, s1, j);
    DeliveredSince(c, s, Run(c, s1, Consumes(j)), s.consumer.n);
  }

  lemma LoadedDelivers(c: Config, s: State, room: nat) returns (k: nat)
    requires Inv(c, s) && s.consumer == CLoadedHead(room, s.consHead)
    ensures Delivers(c, s, Run(c, s, Consumes(k)), room)
  {
    var s1 := ConsumerStep(c, s);
    ConsumerStepKeeps(c, s);
    assert TakesMost(Took(s, s1)[0]) by { ConsumerDraws(c, s, s1); }
    if s1.consumer.CIdle? {
      k := 1;
      RunCons(c, s, s1, Consume, [], Consumes(1));
    } else {
      var j := s1.consumer.n + 2;
      k := j + 1;
      RunCons(c, s, s1, Consume, Consumes(j), Consumes(k));
      ReservingDelivers(c, s1, j);
    }
  }

  lemma DeliveredSince(c: Config, s: State, s': State, n: nat)
    requires Inv(c, s) && Inv(c, s') && s'.log == s.log && s'.consTail == s.consTail + n
    ensures s.consTail + n <= |s.log| && s'.delivered == s.delivered + s.log[s.consTail..s.consTail + n]
  {
    var h := s.consTail;
    assert s.log[..h] + s.log[h..h + n] == s.log[..h + n];
  }

  /** A dequeue by itself delivers, whatever the producers are in the middle of. */
  lemma DequeueDelivers(c: Config, s: State, room: nat) returns (k: nat)
    requires Inv(c, s) && s.consumer.CIdle?
    ensures Delivers(c, s, Run(c, s, [Dequeue(room)] + Consumes(k)), room)
  {
    var a := Dequeue(room);
    var s1 := s.(consumer := CCalled(room));
    var s2 := s.(consumer := CLoadedHead(room, s.consHead));
    ConsumerFrame(c, s, s2);
    var j := LoadedDelivers(c, s2, room);
    k := j + 1;
    RunCons(c, s, s1, a, Consumes(k), [a] + Consumes(k));
    RunCons(c, s1, s2, Consume, Consumes(j), Consumes(k));
  }
}
