/**
 The ring as compiled: 64-bit counters that wrap, slots found by masking. As long as no
 producer sits between its load of producer.head and its compare-and-exchange while the
 counter runs through nearly a full 2^64 cycle, every run of the 64-bit queue is the
 wrapped image of a run on unbounded counters, so all guarantees carry over.
 */
module MpscWrapping {
  import opened Words
  import opened Mbuf
  import opened MpscProtocol
  import opened MpscSafety
  import opened MpscTheorems
  import opened MpscCalls

  function WrapProducer(p: Producer): Producer {
    match p
    case Idle => p
    case Called(_) => p
    case LoadedHead(b, h) => LoadedHead(b, h % WORD)
    case LoadedTail(b, h, t) => LoadedTail(b, h % WORD, t % WORD)
    case Storing(b, h, n, k, slot, t) => Storing(b, h % WORD, n, k, slot, t)
    case Committing(b, h, n, t) => Committing(b, h % WORD, n, t)
  }

  function WrapConsumer(r: Consumer): Consumer {
    match r
    case CIdle => r
    case CCalled(_) => r
    case CLoadedHead(room, h) => CLoadedHead(room, h % WORD)
    case CReserving(h, n) => CReserving(h % WORD, n)
    case CReading(h, n, k, slot, out) => CReading(h % WORD, n, k, slot, out)
  }

  /** The same state seen through 64-bit counters. */
  function WrapState(s: State): State {
    s.(prodHead := s.prodHead % WORD, prodTail := s.prodTail % WORD,
       consHead := s.consHead % WORD, consTail := s.consTail % WORD,
       producers := seq(|s.producers|, i requires 0 <= i < |s.producers| => WrapProducer(s.producers[i])),
       consumer := WrapConsumer(s.consumer))
  }

  /** No loaded head is nearly 2^64 positions old. */
  ghost predicate Recent(c: Config, s: State) {
    forall pid | 0 <= pid < |s.producers| && (s.producers[pid].LoadedHead? || s.producers[pid].LoadedTail?) ::
      s.prodHead - s.producers[pid].head < WORD - c.slots
  }

  ghost predicate RecentRun(c: Config, s: State, schedule: seq<Action>)
    requires c.slots > 0 && |s.returned| == |s.producers|
    decreases |schedule|
  {
    Recent(c, s) && (schedule != [] ==> RecentRun(c, Step(c, s, schedule[0]), schedule[1..]))
  }

  ghost predicate PowerOfTwoSlots(c: Config, e: nat) {
    c.arith.Unbounded? && c.slots == Pow2(e) && e < 64
  }

  lemma SlotsFit(c: Config, e: nat)
    requires PowerOfTwoSlots(c, e)
    ensures 0 < c.slots < WORD
  {
    Pow2Of64();
    Pow2Mono(e, 64);
  }

  /** Two counters less than 2^64 apart are equal exactly when their wrapped values are. */
  lemma WrappedEqual(x: nat, y: nat)
    requires 0 <= y - x < WORD
    ensures x % WORD == y % WORD <==> x == y
  {
  }

  lemma WrapSetProducer(s: State, pid: nat, p: Producer)
    requires pid < |s.producers|
    ensures WrapState(SetProducer(s, pid, p)) == SetProducer(WrapState(s), pid, WrapProducer(p))
  {
  }

  lemma LoadTailSimulates(c: Config, s: State, pid: nat, e: nat)
    requires Inv(c, s) && Recent(c, s) && PowerOfTwoSlots(c, e)
    requires pid < |s.producers| && s.producers[pid].LoadedHead?
    ensures LoadTail(c.(arith := Wrapping), WrapState(s), pid) == WrapState(LoadTail(c, s, pid))
  {
    var p := s.producers[pid];
    assert ProducerOk(c, s, pid);
    SlotsFit(c, e);
    WrappedFree(c.slots - 1, s.consTail, p.head);
    var q := LoadedTail(p.batch, p.head, s.consTail);
    WrapSetProducer(s, pid, if Inserted(c, q) == 0 then Idle else q);
  }

  /** Everything a reservation computes is the same on wrapped counters. */
  ghost predicate ReservesAlike(c: Config, p: Producer, prodHead: nat)
    requires c.slots > 0 && p.LoadedTail?
  {
    var w := c.(arith := Wrapping);
    && Inserted(w, WrapProducer(p)) == Inserted(c, p)
    && (prodHead % WORD == p.head % WORD <==> prodHead == p.head)
    && StartSlot(w, p.head % WORD) == StartSlot(c, p.head)
    && Inc(Wrapping, p.head % WORD, Inserted(c, p)) == Inc(Unbounded, p.head, Inserted(c, p)) % WORD
  }

  lemma ReservationNumbers(c: Config, p: Producer, prodHead: nat, e: nat)
    requires PowerOfTwoSlots(c, e) && p.LoadedTail? && p.head <= prodHead && prodHead - p.head < WORD
    requires 0 <= c.slots - 1 + p.tail - p.head < WORD
    ensures ReservesAlike(c, p, prodHead)
  {
    var w := c.(arith := Wrapping);
    SlotsFit(c, e);
    assert Inserted(w, WrapProducer(p)) == Inserted(c, p) by { WrappedFree(c.slots - 1, p.tail, p.head); }
    assert prodHead % WORD == p.head % WORD <==> prodHead == p.head by { WrappedEqual(p.head, prodHead); }
    assert StartSlot(w, p.head % WORD) == StartSlot(c, p.head) by { WrappedSlot(p.head, e); }
    assert Inc(Wrapping, p.head % WORD, Inserted(c, p)) == Inc(Unbounded, p.head, Inserted(c, p)) % WORD by {
      WrappedSum(p.head, Inserted(c, p));
    }
  }

  lemma ReservationArithmetic(c: Config, s: State, pid: nat, e: nat)
    requires Inv(c, s) && Recent(c, s) && PowerOfTwoSlots(c, e)
    requires pid < |s.producers| && s.producers[pid].LoadedTail?
    ensures ReservesAlike(c, s.producers[pid], s.prodHead)
  {
    assert ProducerOk(c, s, pid);
    SlotsFit(c, e);
    ReservationNumbers(c, s.producers[pid], s.prodHead, e);
  }

  lemma ReserveSimulates(c: Config, s: State, pid: nat, e: nat)
    requires Inv(c, s) && Recent(c, s) && PowerOfTwoSlots(c, e)
    requires pid < |s.producers| && s.producers[pid].LoadedTail?
    ensures Reserve(c.(arith := Wrapping), WrapState(s), pid) == WrapState(Reserve(c, s, pid))
  {
    var p := s.producers[pid];
    ReservationArithmetic(c, s, pid, e);
    if |s.producers| == 1 || s.prodHead == p.head {
      WrapSetProducer(s, pid, Storing(p.batch, p.head, Inserted(c, p), 0, StartSlot(c, p.head), |s.tickets|));
    } else {
      WrapSetProducer(s, pid, Called(p.batch));
    }
  }

  lemma StoreSimulates(c: Config, s: State, pid: nat, e: nat)
    requires Inv(c, s) && PowerOfTwoSlots(c, e)
    requires pid < |s.producers| && s.producers[pid].Storing?
    ensures StoreOrWait(c.(arith := Wrapping), WrapState(s), pid) == WrapState(StoreOrWait(c, s, pid))
  {
    SlotsFit(c, e);
    ReservationBounds(c, s, pid);
    StoreSimulatesFrom(c, s, pid);
  }

  lemma StoreSimulatesFrom(c: Config, s: State, pid: nat)
    requires c.slots > 0 && pid < |s.producers| && s.producers[pid].Storing?
    requires 0 <= s.producers[pid].head - s.prodTail < WORD
    ensures StoreOrWait(c.(arith := Wrapping), WrapState(s), pid) == WrapState(StoreOrWait(c, s, pid))
  {
    var p := s.producers[pid];
    WrappedEqual(s.prodTail, p.head);
    if p.k < p.insert {
      WrapSetProducer(s, pid, p.(k := p.k + 1, slot := NextSlot(p.slot, c.slots)));
    } else {
      WrapSetProducer(s, pid, Committing(p.batch, p.head, p.insert, p.ticket));
    }
  }

  lemma CommitSimulates(c: Config, s: State, pid: nat)
    requires Inv(c, s) && pid < |s.producers| && s.producers[pid].Committing?
    ensures Commit(c.(arith := Wrapping), WrapState(s), pid) == WrapState(Commit(c, s, pid))
  {
    var p := s.producers[pid];
    WrappedSum(p.head, p.insert);
    WrapSetProducer(s, pid, Idle);
  }

  lemma ConsumerSimulates(c: Config, s: State, e: nat)
    requires ConsumerReady(c, s) && PowerOfTwoSlots(c, e)
    ensures ConsumerStep(c.(arith := Wrapping), WrapState(s)) == WrapState(ConsumerStep(c, s))
  {
    SlotsFit(c, e);
    match s.consumer {
      case CIdle =>
      case CCalled(_) =>
      case CLoadedHead(_, h) => WrappedDifference(s.prodTail, h);
      case CReserving(h, n) => ConsumerReserveSimulates(c, s, e, h, n);
      case CReading(h, n, _, _, _) => WrappedSum(h, n);
    }
  }

  lemma ConsumerReserveSimulates(c: Config, s: State, e: nat, h: nat, n: nat)
    requires c.slots > 0 && PowerOfTwoSlots(c, e) && s.consumer == CReserving(h, n)
    ensures ConsumerReserve(c.(arith := Wrapping), WrapState(s)) == WrapState(ConsumerReserve(c, s))
  {
    SlotsFit(c, e);
    WrappedSum(h, n);
    WrappedSlot(h, e);
  }

  lemma ProducerSimulates(c: Config, s: State, pid: nat, e: nat)
    requires Inv(c, s) && Recent(c, s) && PowerOfTwoSlots(c, e)
    ensures ProducerStep(c.(arith := Wrapping), WrapState(s), pid) == WrapState(ProducerStep(c, s, pid))
  {
    if pid < |s.producers| {
      match s.producers[pid] {
        case Idle =>
        case Called(batch) => WrapSetProducer(s, pid, LoadedHead(batch, s.prodHead));
        case LoadedHead(_, _) => LoadTailSimulates(c, s, pid, e);
        case LoadedTail(_, _, _) => ReserveSimulates(c, s, pid, e);
        case Storing(_, _, _, _, _, _) => StoreSimulates(c, s, pid, e);
        case Committing(_, _, _, _) => CommitSimulates(c, s, pid);
      }
    }
  }

  lemma StepSimulates(c: Config, s: State, a: Action, e: nat)
    requires Inv(c, s) && Recent(c, s) && PowerOfTwoSlots(c, e)
    ensures Step(c.(arith := Wrapping), WrapState(s), a) == WrapState(Step(c, s, a))
  {
    match a {
      case Enqueue(pid, batch) =>
        if pid < |s.producers| { WrapSetProducer(s, pid, Called(batch)); }
      case Dequeue(_) =>
      case Consume => ConsumerSimulates(c, s, e);
      case Produce(pid) => ProducerSimulates(c, s, pid, e);
    }
  }

  /** Running the 64-bit queue is wrapping the run of the unbounded one. */
  lemma {:induction false} RunSimulates(c: Config, s: State, schedule: seq<Action>, e: nat)
    requires Inv(c, s) && PowerOfTwoSlots(c, e) && RecentRun(c, s, schedule)
    ensures Run(c.(arith := Wrapping), WrapState(s), schedule) == WrapState(Run(c, s, schedule))
    decreases |schedule|
  {
    if schedule != [] {
      StepSimulates(c, s, schedule[0], e);
      StepKeeps(c, s, schedule[0]);
      RunSimulates(c, Step(c, s, schedule[0]), schedule[1..], e);
    }
  }

  /** The 64-bit queue delivers a prefix of the committed mbufs, in reservation order. */
  lemma WrappedFirstInFirstOut(c: Config, n: nat, schedule: seq<Action>, e: nat)
    requires PowerOfTwoSlots(c, e) && n > 0 && RecentRun(c, Init(c, n), schedule)
    ensures var s := Run(c.(arith := Wrapping), Init(c, n), schedule);
      && s.committed <= |s.tickets|
      && s.delivered <= Flatten(s.tickets[..s.committed]) <= Flatten(s.tickets)
      && |s.delivered| % WORD == s.consTail
      && |Flatten(s.tickets[..s.committed])| % WORD == s.prodTail
      && |s.returned| == |s.producers| == n
      && forall pid :: 0 <= pid < n ==>
           SlicesOf(s.tickets, pid) == s.returned[pid] + Outstanding(s.producers[pid])
  {
    InitOk(c, n);
    InitWraps(c, n);
    RunSimulates(c, Init(c, n), schedule, e);
    FirstInFirstOut(c, n, schedule);
    var u := Run(c, Init(c, n), schedule);
    var s := WrapState(u);
    assert s.tickets == u.tickets && s.committed == u.committed;
    assert s.delivered == u.delivered && s.returned == u.returned;
    forall pid | 0 <= pid < n ensures Outstanding(s.producers[pid]) == Outstanding(u.producers[pid]) {
      OutstandingWraps(u, pid);
    }
  }

  /**
   The 64-bit ring's reservations tile: its state is the wrapping of one in which they cover
   exactly the reserved range without overlap, the computed occupancy is at most slots - 1, and
   no store hits an unread slot or another producer's.
   */
  lemma WrappedReservationsTile(c: Config, n: nat, schedule: seq<Action>, e: nat)
    requires PowerOfTwoSlots(c, e) && n > 0 && RecentRun(c, Init(c, n), schedule)
    ensures var s, u := Run(c.(arith := Wrapping), Init(c, n), schedule), Run(c, Init(c, n), schedule);
      && s == WrapState(u) && |s.producers| == |u.producers| == n
      && WrapSub(s.prodHead, s.consTail) == u.prodHead - u.consTail <= c.slots - 1
      && (forall x: nat :: Covered(u, x) <==> u.prodTail <= x < u.prodHead) && NoOverlap(u)
    ensures var s, u := Run(c.(arith := Wrapping), Init(c, n), schedule), Run(c, Init(c, n), schedule);
      forall pid | 0 <= pid < |s.producers| && s.producers[pid].Storing?
                   && s.producers[pid].k < s.producers[pid].insert ::
        && u.producers[pid].Storing? && s.producers[pid].slot == u.producers[pid].slot
        && StoreIsPrivate(c, u, pid)
  {
    var s, u := Run(c.(arith := Wrapping), Init(c, n), schedule), Run(c, Init(c, n), schedule);
    assert s == WrapState(u) by {
      InitOk(c, n);
      InitWraps(c, n);
      RunSimulates(c, Init(c, n), schedule, e);
    }
    assert u.consTail <= u.prodHead by {
      InitOk(c, n);
      RunKeeps(c, Init(c, n), schedule);
    }
    ReservationsTile(c, n, schedule);
    SlotsFit(c, e);
    WrappedDifference(u.prodHead, u.consTail);
  }

  /** Steps of reservation holders leave loaded heads as recent as they were. */
  lemma {:induction false} SteadyIsRecent(c: Config, s: State, schedule: seq<Action>)
    requires Inv(c, s) && Recent(c, s) && Steady(c, s, schedule)
    ensures RecentRun(c, s, schedule)
    decreases |schedule|
  {
    if schedule != [] {
      var pid := schedule[0].pid;
      StepKeeps(c, s, schedule[0]);
      HolderKeepsRecent(c, s, pid);
      SteadyIsRecent(c, Step(c, s, schedule[0]), schedule[1..]);
    }
  }

  lemma HolderKeepsRecent(c: Config, s: State, pid: nat)
    requires Inv(c, s) && Recent(c, s) && pid < |s.producers| && Reserved(s.producers[pid])
    ensures Recent(c, Step(c, s, Produce(pid)))
  {
  }

  lemma {:induction false} RecentAppend(c: Config, s: State, a: seq<Action>, b: seq<Action>)
    requires c.slots > 0 && |s.returned| == |s.producers|
    ensures RecentRun(c, s, a) ==> Recent(c, Run(c, s, a))
    ensures RecentRun(c, s, a) && RecentRun(c, Run(c, s, a), b) ==> RecentRun(c, s, a + b)
    decreases |a|
  {
    if a == [] {
      assert a + b == b;
    } else {
      assert (a + b)[0] == a[0] && (a + b)[1..] == a[1..] + b;
      RecentAppend(c, Step(c, s, a[0]), a[1..], b);
    }
  }

  /** The 64-bit ring's commits can always be drained by steps of the producers alone. */
  lemma WrappedCommitsCanDrain(c: Config, n: nat, schedule: seq<Action>, e: nat) returns (more: seq<Action>)
    requires PowerOfTwoSlots(c, e) && n > 0 && RecentRun(c, Init(c, n), schedule)
    ensures OnlyProducers(more)
    ensures var w := c.(arith := Wrapping);
      var s, s' := Run(w, Init(c, n), schedule), Run(w, Init(c, n), schedule + more);
      s'.prodHead == s.prodHead == s'.prodTail
  {
    InitOk(c, n);
    InitWraps(c, n);
    RunKeeps(c, Init(c, n), schedule);
    var u := Run(c, Init(c, n), schedule);
    more := DrainFrom(c, u);
    RecentAppend(c, Init(c, n), schedule, more);
    SteadyIsRecent(c, u, more);
    RunAppend(c, Init(c, n), schedule, more);
    RunSimulates(c, Init(c, n), schedule, e);
    RunSimulates(c, Init(c, n), schedule + more, e);
  }

  // ---------------------------------------------------------------- calls on wrapping counters

  function WrapDecision(d: Decision): Decision {
    d.(head := d.head % WORD, tail := d.tail % WORD)
  }

  function WrapDecisions(ds: seq<Decision>): seq<Decision> {
    seq(|ds|, i requires 0 <= i < |ds| => WrapDecision(ds[i]))
  }

  /** The first step of a run, on both kinds of counters. */
  lemma FirstSimulates(c: Config, s: State, schedule: seq<Action>, e: nat) returns (m: State)
    requires Inv(c, s) && PowerOfTwoSlots(c, e) && RecentRun(c, s, schedule) && schedule != []
    ensures m == Step(c, s, schedule[0]) && Inv(c, m) && RecentRun(c, m, schedule[1..])
    ensures WrapState(m) == Step(c.(arith := Wrapping), WrapState(s), schedule[0])
    ensures |m.producers| == |s.producers|
  {
    m := Step(c, s, schedule[0]);
    StepSimulates(c, s, schedule[0], e);
    StepKeeps(c, s, schedule[0]);
    assert Run(c, s, [schedule[0]]) == m;
  }

  lemma DecidedWraps(s: State, s': State, pid: nat)
    requires pid < |s.producers| == |s'.producers|
    ensures Decided(WrapState(s), WrapState(s'), pid) == WrapDecisions(Decided(s, s', pid))
    ensures Undecided(WrapState(s).producers[pid]) == Undecided(s.producers[pid])
    ensures forall a :: Issued(WrapState(s), a, pid) == Issued(s, a, pid)
  {
  }

  lemma FirstDecision(c: Config, s: State, schedule: seq<Action>, pid: nat, e: nat)
    returns (m: State, calls: seq<seq<MBuf>>, d: seq<Decision>)
    requires Inv(c, s) && PowerOfTwoSlots(c, e) && RecentRun(c, s, schedule) && schedule != [] && pid < |s.producers|
    ensures Inv(c, m) && RecentRun(c, m, schedule[1..]) && |m.producers| == |s.producers|
    ensures Calls(c, s, schedule, pid) == calls + Calls(c, m, schedule[1..], pid)
    ensures Decisions(c, s, schedule, pid) == d + Decisions(c, m, schedule[1..], pid)
    ensures var w, ws, wm := c.(arith := Wrapping), WrapState(s), WrapState(m);
      && Calls(w, ws, schedule, pid) == calls + Calls(w, wm, schedule[1..], pid)
      && Decisions(w, ws, schedule, pid) == WrapDecisions(d) + Decisions(w, wm, schedule[1..], pid)
  {
    m := FirstSimulates(c, s, schedule, e);
    calls, d := Issued(s, schedule[0], pid), Decided(s, m, pid);
    DecidedWraps(s, m, pid);
    DecisionsCons(c, s, m, schedule, pid);
    DecisionsCons(c.(arith := Wrapping), WrapState(s), WrapState(m), schedule, pid);
  }

  lemma WrapDecisionsAppend(a: seq<Decision>, b: seq<Decision>)
    ensures WrapDecisions(a + b) == WrapDecisions(a) + WrapDecisions(b)
  {
  }

  lemma {:induction false} DecisionsWrap(c: Config, s: State, schedule: seq<Action>, pid: nat, e: nat)
    requires Inv(c, s) && PowerOfTwoSlots(c, e) && RecentRun(c, s, schedule) && pid < |s.producers|
    ensures Calls(c.(arith := Wrapping), WrapState(s), schedule, pid) == Calls(c, s, schedule, pid)
    ensures Decisions(c.(arith := Wrapping), WrapState(s), schedule, pid)
            == WrapDecisions(Decisions(c, s, schedule, pid))
    decreases |schedule|
  {
    if schedule != [] {
      var m, _, d := FirstDecision(c, s, schedule, pid, e);
      DecisionsWrap(c, m, schedule[1..], pid, e);
      WrapDecisionsAppend(d, Decisions(c, m, schedule[1..], pid));
    }
  }

  /** On 64-bit counters too, a slice begins its batch, and is all of it or fills the ring as loaded. */
  ghost predicate WrappedGreedy(c: Config, d: Decision)
    requires c.slots > 0
  {
    d.slice <= d.batch && (d.slice == d.batch || WrapAdd(d.head, |d.slice|) == WrapAdd(d.tail, c.slots - 1))
  }

  lemma {:induction false} SlicesWrap(ds: seq<Decision>)
    ensures Slices(WrapDecisions(ds)) == Slices(ds) && Batches(WrapDecisions(ds)) == Batches(ds)
    decreases |ds|
  {
    if ds != [] {
      assert WrapDecisions(ds)[1..] == WrapDecisions(ds[1..]);
      SlicesWrap(ds[1..]);
    }
  }

  lemma GreedyWraps(c: Config, d: Decision)
    requires c.slots > 0 && Greedy(c, d)
    ensures WrappedGreedy(c, WrapDecision(d))
  {
    WrappedSum(d.head, |d.slice|);
    WrappedSum(d.tail, c.slots - 1);
  }

  /** Every call on the 64-bit ring is decided in order and greedily, and accepted slices are returned. */
  lemma WrappedCallsAnswered(c: Config, n: nat, schedule: seq<Action>, pid: nat, e: nat)
    requires PowerOfTwoSlots(c, e) && RecentRun(c, Init(c, n), schedule) && pid < n
    ensures var w := c.(arith := Wrapping);
      var s, ds := Run(w, Init(c, n), schedule), Decisions(w, Init(c, n), schedule, pid);
      && |s.producers| == |s.returned| == n
      && Calls(w, Init(c, n), schedule, pid) == Batches(ds) + Undecided(s.producers[pid])
      && Slices(ds) == s.returned[pid] + Outstanding(s.producers[pid])
      && forall i :: 0 <= i < |ds| ==> WrappedGreedy(c, ds[i])
  {
    var s0 := Init(c, n);
    InitOk(c, n);
    InitWraps(c, n);
    RunSimulates(c, s0, schedule, e);
    DecisionsWrap(c, s0, schedule, pid, e);
    CallsAnswered(c, n, schedule, pid);
    var u, ds := Run(c, s0, schedule), Decisions(c, s0, schedule, pid);
    SlicesWrap(ds);
    DecidedWraps(u, u, pid);
    OutstandingWraps(u, pid);
    forall i | 0 <= i < |ds| ensures WrappedGreedy(c, WrapDecisions(ds)[i]) { GreedyWraps(c, ds[i]); }
  }

  function WrapTakes(ts: seq<Take>): seq<Take> {
    seq(|ts|, i requires 0 <= i < |ts| => ts[i].(head := ts[i].head % WORD, tail := ts[i].tail % WORD))
  }

  lemma FirstTake(c: Config, s: State, schedule: seq<Action>, e: nat)
    returns (m: State, rooms: seq<nat>, t: seq<Take>)
    requires Inv(c, s) && PowerOfTwoSlots(c, e) && RecentRun(c, s, schedule) && schedule != []
    ensures Inv(c, m) && RecentRun(c, m, schedule[1..])
    ensures Requests(c, s, schedule) == rooms + Requests(c, m, schedule[1..])
    ensures Takes(c, s, schedule) == t + Takes(c, m, schedule[1..])
    ensures var w, ws, wm := c.(arith := Wrapping), WrapState(s), WrapState(m);
      && Requests(w, ws, schedule) == rooms + Requests(w, wm, schedule[1..])
      && Takes(w, ws, schedule) == WrapTakes(t) + Takes(w, wm, schedule[1..])
  {
    m := FirstSimulates(c, s, schedule, e);
    rooms, t := Asked(s, schedule[0]), Took(s, m);
    TookWraps(s, m);
    TakesCons(c, s, m, schedule);
    TakesCons(c.(arith := Wrapping), WrapState(s), WrapState(m), schedule);
  }

  lemma WrapTakesAppend(a: seq<Take>, b: seq<Take>)
    ensures WrapTakes(a + b) == WrapTakes(a) + WrapTakes(b)
  {
  }

  lemma {:induction false} TakesWrap(c: Config, s: State, schedule: seq<Action>, e: nat)
    requires Inv(c, s) && PowerOfTwoSlots(c, e) && RecentRun(c, s, schedule)
    ensures Requests(c.(arith := Wrapping), WrapState(s), schedule) == Requests(c, s, schedule)
    ensures Takes(c.(arith := Wrapping), WrapState(s), schedule) == WrapTakes(Takes(c, s, schedule))
    decreases |schedule|
  {
    if schedule != [] {
      var m, _, t := FirstTake(c, s, schedule, e);
      TakesWrap(c, m, schedule[1..], e);
      WrapTakesAppend(t, Takes(c, m, schedule[1..]));
    }
  }

  lemma TookWraps(s: State, s': State)
    ensures Took(WrapState(s), WrapState(s')) == WrapTakes(Took(s, s'))
    ensures forall a :: Asked(WrapState(s), a) == Asked(s, a)
  {
  }

  lemma {:induction false} TotalWraps(ts: seq<Take>)
    ensures Total(WrapTakes(ts)) == Total(ts) && Rooms(WrapTakes(ts)) == Rooms(ts)
    decreases |ts|
  {
    if ts != [] {
      assert WrapTakes(ts)[1..] == WrapTakes(ts[1..]);
      TotalWraps(ts[1..]);
    }
  }

  ghost predicate WrappedMost(t: Take) {
    t.n <= t.room && (t.n == t.room || WrapAdd(t.head, t.n) == t.tail)
  }

  lemma MostWraps(t: Take)
    requires TakesMost(t)
    ensures WrappedMost(t.(head := t.head % WORD, tail := t.tail % WORD))
  {
    WrappedSum(t.head, t.n);
  }

  /** Every dequeue on the 64-bit ring takes as much as it has room for, or all it saw committed. */
  lemma WrappedDequeuesAnswered(c: Config, n: nat, schedule: seq<Action>, e: nat)
    requires PowerOfTwoSlots(c, e) && n > 0 && RecentRun(c, Init(c, n), schedule)
    ensures var w := c.(arith := Wrapping);
      var s, ts := Run(w, Init(c, n), schedule), Takes(w, Init(c, n), schedule);
      && Requests(w, Init(c, n), schedule) == Rooms(ts) + Asking(s.consumer)
      && Total(ts) == |s.delivered| + Taking(s.consumer)
      && forall i :: 0 <= i < |ts| ==> WrappedMost(ts[i])
  {
    var s0 := Init(c, n);
    InitOk(c, n);
    InitWraps(c, n);
    RunSimulates(c, s0, schedule, e);
    TakesWrap(c, s0, schedule, e);
    DequeuesAnswered(c, n, schedule);
    var ts := Takes(c, s0, schedule);
    TotalWraps(ts);
    forall i | 0 <= i < |ts| ensures WrappedMost(WrapTakes(ts)[i]) { MostWraps(ts[i]); }
  }

  lemma OutstandingWraps(u: State, pid: nat)
    requires pid < |u.producers|
    ensures |WrapState(u).producers| == |u.producers|
    ensures Outstanding(WrapState(u).producers[pid]) == Outstanding(u.producers[pid])
  {
  }

  lemma InitWraps(c: Config, n: nat)
    ensures WrapState(Init(c, n)) == Init(c, n)
  {
  }
}
