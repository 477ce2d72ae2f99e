/**
 What a reader of the reassembly buffer gets: over every safe trace of segments and reads the
 bytes received, each once and in order.
 */
module ReassemblyTheorems {
  import opened Words
  import opened RingBuffer
  import opened SegmentList
  import opened Reassembly

  datatype Event = Arrive(start: nat, data: seq<Byte>) | Fetch(n: nat)

  function StepEvent(b: Buf, mask: nat, e: Event): Buf {
    match e
    case Arrive(start, data) => var r := Add(b, mask, start, data); if r.Returns? then r.buf else b
    case Fetch(n) => ReadOut(b, n)
  }

  function RunTrace(b: Buf, mask: nat, events: seq<Event>): Buf
    decreases |events|
  {
    if events == [] then b else RunTrace(StepEvent(b, mask, events[0]), mask, events[1..])
  }

  /** The first bytes of the log; positions never written read as 0. */
  function Front(l: Log, n: nat): (r: seq<Byte>)
    ensures |r| == Min(n, Held(l))
  {
    seq(Min(n, Held(l)), i requires 0 <= i => if l.first + i in l.bytes then l.bytes[l.first + i] else 0)
  }

  /** What an event hands to the reader. */
  function Output(b: Buf, e: Event): seq<Byte> {
    if e.Fetch? then Front(b.log, e.n) else []
  }

  /** All bytes handed out along a trace. */
  function Delivered(b: Buf, mask: nat, events: seq<Event>): seq<Byte>
    decreases |events|
  {
    if events == [] then []
    else Output(b, events[0]) + Delivered(StepEvent(b, mask, events[0]), mask, events[1..])
  }

  predicate Safe(b: Buf, mask: nat, e: Event) {
    match e
    case Arrive(start, data) => AddSafe(b, mask, start, |data|)
    case Fetch(_) => ReadSafe(b)
  }

  predicate SafeTrace(b: Buf, mask: nat, events: seq<Event>)
    decreases |events|
  {
    events != [] ==>
      Safe(b, mask, events[0]) && SafeTrace(StepEvent(b, mask, events[0]), mask, events[1..])
  }

  /** The rest of a trace is its first event and the rest after that. */
  lemma TraceUnfolds(b: Buf, mask: nat, events: seq<Event>, i: nat, out: seq<Byte>)
    requires i < |events|
    ensures var m := StepEvent(b, mask, events[i]);
      && RunTrace(b, mask, events[i..]) == RunTrace(m, mask, events[i + 1..])
      && out + Delivered(b, mask, events[i..]) == (out + Output(b, events[i])) + Delivered(m, mask, events[i + 1..])
      && (SafeTrace(b, mask, events[i..]) <==> Safe(b, mask, events[i]) && SafeTrace(m, mask, events[i + 1..]))
  {
    var here, rest, m := events[i..], events[i + 1..], StepEvent(b, mask, events[i]);
    assert here[0] == events[i] && here[1..] == rest;
    assert Delivered(b, mask, here) == Output(b, events[i]) + Delivered(m, mask, rest);
    JoinThree(out, Output(b, events[i]), Delivered(m, mask, rest));
  }

  lemma JoinThree(a: seq<Byte>, b: seq<Byte>, c: seq<Byte>)
    ensures a + (b + c) == (a + b) + c
  {
  }

  ghost predicate Sound(b: Buf, mask: nat) {
    WellFormed(b, mask) && !b.phase.Closed? && !b.list.Several?
  }

  lemma StepKeeps(b: Buf, mask: nat, e: Event)
    requires Sound(b, mask) && Safe(b, mask, e)
    ensures Sound(StepEvent(b, mask, e), mask)
  {
    match e {
      case Arrive(start, data) =>
        AddKeeps(b, mask, start, data);
        AddExactly(b, mask, start, data);
      case Fetch(n) => ReadKeeps(b, mask, n);
    }
  }

  lemma {:induction false} TraceKeeps(b: Buf, mask: nat, events: seq<Event>)
    requires Sound(b, mask) && SafeTrace(b, mask, events)
    ensures Sound(RunTrace(b, mask, events), mask)
    decreases |events|
  {
    if events != [] {
      StepKeeps(b, mask, events[0]);
      TraceKeeps(StepEvent(b, mask, events[0]), mask, events[1..]);
    }
  }

  // ---------------------------------------------------------------- what is delivered

  /** The bytes of the log between two positions. */
  ghost function Slice(l: Log, from: nat, to: nat): (r: seq<Byte>)
    requires from <= to && forall p :: from <= p < to ==> p in l.bytes
    ensures |r| == to - from
  {
    seq(to - from, i requires 0 <= i < to - from => l.bytes[from + i])
  }

  /** Both ends move forward and bytes below the write position stay as they are. */
  ghost predicate Later(l: Log, l': Log) {
    && l.first <= l'.first && l.limit <= l'.limit
    && forall p :: p < l.limit && p in l.bytes ==> p in l'.bytes && l'.bytes[p] == l.bytes[p]
  }

  lemma LaterTransitive(a: Log, b: Log, c: Log)
    requires Later(a, b) && Later(b, c)
    ensures Later(a, c)
  {
  }

  /** The part of a segment that the buffer stores, and where. */
  function Taken(b: Buf, mask: nat, start: nat, data: seq<Byte>): (r: (nat, seq<Byte>)) {
    if start > b.tailSeq then (b.log.limit + (start - b.tailSeq), data[..AheadWritten(b, mask, start, |data|)])
    else
      var rest := if |data| > b.tailSeq - start then data[b.tailSeq - start..] else [];
      (b.log.limit, rest[..Min(|rest|, Room(b.log, mask))])
  }

  /** `l'` is `l` with `data` stored at or past the write position, and more of it readable. */
  ghost predicate Lays(l: Log, l': Log, at: nat, data: seq<Byte>) {
    l'.first == l.first && l.limit <= l'.limit && l.limit <= at && l'.bytes == Laid(l.bytes, at, data)
  }

  lemma LaysLater(l: Log, l': Log, at: nat, data: seq<Byte>)
    requires Lays(l, l', at, data)
    ensures Later(l, l')
  {
  }

  lemma LaysNothing(l: Log, at: nat)
    requires l.limit <= at
    ensures Lays(l, l, at, [])
  {
    assert Laid(l.bytes, at, []) == l.bytes;
  }

  lemma TailLays(l: Log, mask: nat, data: seq<Byte>, w: nat, more: nat)
    requires w == Min(|data|, Room(l, mask))
    ensures Lays(l, Extend(WriteTail(l, mask, data), more), l.limit, data[..w])
  {
  }

  lemma AtTailLays(b: Buf, mask: nat, data: seq<Byte>, w: nat)
    requires w == Min(|data|, Room(b.log, mask))
    ensures Lays(b.log, AtTail(b, mask, data).buf.log, b.log.limit, data[..w])
  {
    TailLays(b.log, mask, data, w, 0);
    assert Extend(WriteTail(b.log, mask, data), 0) == WriteTail(b.log, mask, data);
  }

  lemma FillLays(b: Buf, mask: nat, data: seq<Byte>, w: nat)
    requires Fill(b, mask, data).Returns? && w == Min(|data|, Room(b.log, mask))
    ensures Lays(b.log, Fill(b, mask, data).buf.log, b.log.limit, data[..w])
  {
    var more := Surplus(b, w);
    TailLays(b.log, mask, data, w, more);
    assert Fill(b, mask, data).buf.log == Extend(WriteTail(b.log, mask, data), more);
  }

  lemma AheadLays(b: Buf, mask: nat, start: nat, data: seq<Byte>, offset: nat, at: nat, w: nat)
    requires 0 < offset == start - b.tailSeq && at == b.log.limit + offset && w == AheadWritten(b, mask, start, |data|)
    requires Ahead(b, mask, start, data).Returns?
    ensures Lays(b.log, Ahead(b, mask, start, data).buf.log, at, data[..w])
  {
    assert Ahead(b, mask, start, data).buf.log == WriteAhead(b.log, mask, offset, data);
    if offset <= Room(b.log, mask) {
      WriteAheadIs(b.log, mask, offset, data, w, at);
    } else {
      LaysNothing(b.log, at);
    }
  }

  lemma InsertLays(b: Buf, mask: nat, start: nat, data: seq<Byte>)
    requires Insert(b, mask, start, data).Returns?
    ensures var taken := Taken(b, mask, start, data);
      Lays(b.log, Insert(b, mask, start, data).buf.log, taken.0, taken.1)
  {
    if start > b.tailSeq {
      var offset := start - b.tailSeq;
      var at, w := b.log.limit + offset, AheadWritten(b, mask, start, |data|);
      AheadLays(b, mask, start, data, offset, at, w);
      assert Taken(b, mask, start, data) == (at, data[..w]);
    } else if ReachesTail(b, start, |data|) {
      FillTaken(b, mask, start, data);
    } else {
      assert Taken(b, mask, start, data) == (b.log.limit, []);
      LaysNothing(b.log, b.log.limit);
    }
  }

  lemma RestTaken(b: Buf, mask: nat, start: nat, data: seq<Byte>, w: nat)
    requires ReachesTail(b, start, |data|) && w == Min(|Rest(b, start, data)|, Room(b.log, mask))
    ensures Taken(b, mask, start, data) == (b.log.limit, Rest(b, start, data)[..w])
  {
    assert data[0..] == data;
  }

  lemma FillTaken(b: Buf, mask: nat, start: nat, data: seq<Byte>)
    requires ReachesTail(b, start, |data|) && Insert(b, mask, start, data).Returns?
    ensures var taken := Taken(b, mask, start, data);
      Lays(b.log, Insert(b, mask, start, data).buf.log, taken.0, taken.1)
  {
    var rest := Rest(b, start, data);
    var w := Min(|rest|, Room(b.log, mask));
    InsertIsFill(b, mask, start, data);
    FillLays(b, mask, rest, w);
    RestTaken(b, mask, start, data, w);
  }

  /** The log after a segment is the old one with what was taken laid over it. */
  lemma AddLays(b: Buf, mask: nat, start: nat, data: seq<Byte>)
    requires Add(b, mask, start, data).Returns?
    ensures var taken := Taken(b, mask, start, data);
      Lays(b.log, Add(b, mask, start, data).buf.log, taken.0, taken.1)
  {
    if b.phase.Unordered? {
      InsertLays(b, mask, start, data);
    } else if start == b.tailSeq || start < b.tailSeq < start + |data| {
      var rest := data[b.tailSeq - start..];
      AtTailLays(b, mask, rest, Min(|rest|, Room(b.log, mask)));
      assert start == b.tailSeq ==> rest == data;
    } else if start + |data| < b.tailSeq {
      LaysNothing(b.log, b.log.limit);
    } else {
      InsertLays(Noted(b), mask, start, data);
      assert Taken(Noted(b), mask, start, data) == Taken(b, mask, start, data);
    }
  }

  lemma StepLater(b: Buf, mask: nat, e: Event)
    requires Sound(b, mask) && Safe(b, mask, e)
    ensures Later(b.log, StepEvent(b, mask, e).log)
    ensures StepEvent(b, mask, e).log.first == b.log.first + |Output(b, e)|
  {
    if e.Arrive? && Add(b, mask, e.start, e.data).Returns? {
      var taken := Taken(b, mask, e.start, e.data);
      AddLays(b, mask, e.start, e.data);
      LaysLater(b.log, StepEvent(b, mask, e).log, taken.0, taken.1);
    }
  }

  lemma {:induction false} TraceLater(b: Buf, mask: nat, events: seq<Event>)
    requires Sound(b, mask) && SafeTrace(b, mask, events)
    ensures Later(b.log, RunTrace(b, mask, events).log)
    decreases |events|
  {
    if events != [] {
      var m := StepEvent(b, mask, events[0]);
      StepKeeps(b, mask, events[0]);
      StepLater(b, mask, events[0]);
      TraceLater(m, mask, events[1..]);
      LaterTransitive(b.log, m.log, RunTrace(m, mask, events[1..]).log);
    }
  }

  lemma SlicesJoin(l: Log, a: nat, m: nat, z: nat)
    requires a <= m <= z && forall p :: a <= p < z ==> p in l.bytes
    ensures Slice(l, a, m) + Slice(l, m, z) == Slice(l, a, z)
  {
  }

  lemma OutputIsSlice(b: Buf, e: Event, l: Log)
    requires Complete(b.log) && Later(b.log, l)
    ensures var z := b.log.first + |Output(b, e)|;
      && (forall p :: b.log.first <= p < z ==> p in l.bytes)
      && Output(b, e) == Slice(l, b.log.first, z)
  {
  }

  /**
   Over every safe trace, whatever the segments hold: the bytes handed out are exactly the
   log's from where reading began to where it stands. Nothing is skipped, repeated, or
   changed after it was stored.
   */
  lemma {:induction false} DeliversTheLog(b: Buf, mask: nat, events: seq<Event>)
    requires Sound(b, mask) && SafeTrace(b, mask, events)
    ensures var l := RunTrace(b, mask, events).log;
      && b.log.first <= l.first && (forall p :: b.log.first <= p < l.first ==> p in l.bytes)
      && Delivered(b, mask, events) == Slice(l, b.log.first, l.first)
    decreases |events|
  {
    var l := RunTrace(b, mask, events).log;
    if events != [] {
      var m := StepEvent(b, mask, events[0]);
      StepKeeps(b, mask, events[0]);
      StepLater(b, mask, events[0]);
      TraceLater(b, mask, events);
      DeliversTheLog(m, mask, events[1..]);
      OutputIsSlice(b, events[0], l);
      SlicesJoin(l, b.log.first, m.log.first, l.first);
    }
  }

  // ---------------------------------------------------------------- the sender's stream

  /** `data` is what the sender's stream holds from position `at` on. */
  ghost predicate Piece(src: nat -> Byte, at: nat, data: seq<Byte>) {
    forall i :: 0 <= i < |data| ==> data[i] == src(at + i)
  }

  /** Every byte stored is the sender's. */
  ghost predicate Honest(b: Buf, mask: nat, src: nat -> Byte, events: seq<Event>)
    decreases |events|
  {
    events != [] ==>
      && (events[0].Arrive? ==>
            var taken := Taken(b, mask, events[0].start, events[0].data); Piece(src, taken.0, taken.1))
      && Honest(StepEvent(b, mask, events[0]), mask, src, events[1..])
  }

  /** Every byte in the log is the sender's. */
  ghost predicate Agrees(l: Log, src: nat -> Byte) {
    forall p :: p in l.bytes ==> l.bytes[p] == src(p)
  }

  lemma LaidAgrees(bytes: map<nat, Byte>, at: nat, data: seq<Byte>, src: nat -> Byte)
    requires (forall p :: p in bytes ==> bytes[p] == src(p)) && Piece(src, at, data)
    ensures forall p :: p in Laid(bytes, at, data) ==> Laid(bytes, at, data)[p] == src(p)
  {
    forall p | p in Laid(bytes, at, data) ensures Laid(bytes, at, data)[p] == src(p) {
      if at <= p < at + |data| { assert data[p - at] == src(at + (p - at)); }
    }
  }

  /** `n` bytes of the sender's stream. */
  ghost function SenderBytes(src: nat -> Byte, from: nat, n: nat): (r: seq<Byte>)
    ensures |r| == n
  {
    seq(n, i requires 0 <= i => src(from + i))
  }

  lemma {:induction false} HonestAgrees(b: Buf, mask: nat, events: seq<Event>, src: nat -> Byte)
    requires Sound(b, mask) && SafeTrace(b, mask, events) && Agrees(b.log, src) && Honest(b, mask, src, events)
    ensures Agrees(RunTrace(b, mask, events).log, src)
    decreases |events|
  {
    if events != [] {
      var e := events[0];
      StepKeeps(b, mask, e);
      if e.Arrive? && Add(b, mask, e.start, e.data).Returns? {
        var taken := Taken(b, mask, e.start, e.data);
        AddLays(b, mask, e.start, e.data);
        LaidAgrees(b.log.bytes, taken.0, taken.1, src);
      }
      HonestAgrees(StepEvent(b, mask, e), mask, events[1..], src);
    }
  }

  /** If the stored bytes are one sender's, the reader gets that sender's stream. */
  lemma DeliversTheStream(b: Buf, mask: nat, events: seq<Event>, src: nat -> Byte)
    requires Sound(b, mask) && SafeTrace(b, mask, events) && Agrees(b.log, src) && Honest(b, mask, src, events)
    ensures var b' := RunTrace(b, mask, events);
      && b.log.first <= b'.log.first
      && Delivered(b, mask, events) == SenderBytes(src, b.log.first, b'.log.first - b.log.first)
  {
    DeliversTheLog(b, mask, events);
    HonestAgrees(b, mask, events, src);
  }

  // ---------------------------------------------------------------- in-order traffic

  /** A segment at the tail, straddling it, or ending strictly before it. */
  predicate InOrder(b: Buf, start: nat, n: nat) {
    start == b.tailSeq || (start < b.tailSeq && start + n < U32 && start + n != b.tailSeq)
  }

  predicate InOrderTrace(b: Buf, mask: nat, events: seq<Event>)
    decreases |events|
  {
    events != [] ==>
      && (events[0].Arrive? ==> InOrder(b, events[0].start, |events[0].data|))
      && InOrderTrace(StepEvent(b, mask, events[0]), mask, events[1..])
  }

  /** The bytes accepted along a trace, in the order they were accepted. */
  function Accepted(b: Buf, mask: nat, events: seq<Event>): seq<Byte>
    decreases |events|
  {
    if events == [] then []
    else
      (if events[0].Arrive? then Taken(b, mask, events[0].start, events[0].data).1 else [])
      + Accepted(StepEvent(b, mask, events[0]), mask, events[1..])
  }

  /** Data at the tail become readable behind what is. */
  lemma TailReadable(l: Log, mask: nat, data: seq<Byte>, w: nat)
    requires Within(l, mask) && Complete(l) && w == Min(|data|, Room(l, mask))
    ensures Complete(WriteTail(l, mask, data)) && Readable(WriteTail(l, mask, data)) == Readable(l) + data[..w]
  {
    assert WriteTail(l, mask, data).bytes == Laid(l.bytes, l.limit, data[..w]);
  }

  /** What an in-order segment adds, and the transition it causes. */
  lemma InOrderAdds(b: Buf, mask: nat, start: nat, data: seq<Byte>) returns (rest: seq<Byte>)
    requires b.phase.Connected? && InOrder(b, start, |data|) && !b.list.Several?
    ensures AddSafe(b, mask, start, |data|)
    ensures Taken(b, mask, start, data).1 == rest[..Min(|rest|, Room(b.log, mask))]
    ensures Add(b, mask, start, data) == AtTail(b, mask, rest)
            || (rest == [] && Add(b, mask, start, data) == Returns(b, 0, true))
  {
    if start == b.tailSeq {
      rest := data;
      assert data[0..] == data;
    } else {
      var known := b.tailSeq - start;
      rest := if |data| > known then data[known..] else [];
    }
  }

  lemma InOrderArrives(b: Buf, mask: nat, start: nat, data: seq<Byte>)
    requires WellFormed(b, mask) && b.phase.Connected? && InOrder(b, start, |data|)
    ensures AddSafe(b, mask, start, |data|) && Add(b, mask, start, data).Returns?
    ensures var m := Add(b, mask, start, data).buf;
      && WellFormed(m, mask) && m.phase.Connected?
      && Readable(m.log) == Readable(b.log) + Taken(b, mask, start, data).1
  {
    var rest := InOrderAdds(b, mask, start, data);
    var w := Min(|rest|, Room(b.log, mask));
    AtTailKeeps(b, mask, rest);
    TailReadable(b.log, mask, rest, w);
    assert AtTail(b, mask, rest).buf.log == WriteTail(b.log, mask, rest);
    assert rest == [] ==> Readable(b.log) + rest[..w] == Readable(b.log);
  }

  lemma InOrderStep(b: Buf, mask: nat, e: Event)
    requires WellFormed(b, mask) && b.phase.Connected? && (e.Arrive? ==> InOrder(b, e.start, |e.data|))
    ensures var m := StepEvent(b, mask, e);
      && Safe(b, mask, e) && WellFormed(m, mask) && m.phase.Connected?
      && Output(b, e) + Readable(m.log)
         == Readable(b.log) + if e.Arrive? then Taken(b, mask, e.start, e.data).1 else []
  {
    match e {
      case Arrive(start, data) => InOrderArrives(b, mask, start, data);
      case Fetch(n) => ReadKeeps(b, mask, n);
    }
  }

  /**
   In-order traffic never leaves Connected and is always safe; what was read followed by what
   is readable is what was readable followed by what was accepted, whatever the bytes; and the
   sequence numbers differ by the bytes available, modulo 2^32: segments at the tail may cross
   the wrap.
   */
  lemma {:induction false} InOrderDelivers(b: Buf, mask: nat, events: seq<Event>)
    requires WellFormed(b, mask) && b.phase.Connected? && InOrderTrace(b, mask, events)
    ensures SafeTrace(b, mask, events)
    ensures var b' := RunTrace(b, mask, events);
      && WellFormed(b', mask) && b'.phase.Connected?
      && (b'.tailSeq - b'.headSeq) % U32 == Held(b'.log)
      && Delivered(b, mask, events) + Readable(b'.log) == Readable(b.log) + Accepted(b, mask, events)
    decreases |events|
  {
    if events != [] {
      var m := StepEvent(b, mask, events[0]);
      InOrderStep(b, mask, events[0]);
      InOrderDelivers(m, mask, events[1..]);
      var b' := RunTrace(m, mask, events[1..]);
      var taken := if events[0].Arrive? then Taken(b, mask, events[0].start, events[0].data).1 else [];
      Rejoin(Output(b, events[0]), Delivered(m, mask, events[1..]), Readable(b'.log),
             Readable(m.log), Accepted(m, mask, events[1..]), Readable(b.log), taken);
    }
  }

  lemma Rejoin(out: seq<Byte>, later: seq<Byte>, left: seq<Byte>, mid: seq<Byte>, more: seq<Byte>,
               before: seq<Byte>, taken: seq<Byte>)
    requires later + left == mid + more && out + mid == before + taken
    ensures (out + later) + left == before + (taken + more)
  {
    assert (out + later) + left == out + (later + left);
    assert out + (mid + more) == (out + mid) + more;
    assert (before + taken) + more == before + (taken + more);
  }
}
