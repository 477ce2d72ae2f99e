/**
 What the reassembly buffer does, on values: the byte log of its ring, its segment list, the
 sequence numbers of the log's two ends, and the transitions that segments and reads cause.
 `ReorderedBuffer` carries them out. They are total: where the code loops forever or trips an
 assertion the result says so.
 */
module Reassembly {
  import opened Words
  import opened RingBuffer
  import opened SegmentList

  datatype Phase = Closed | Connected | Unordered

  datatype Buf = Buf(phase: Phase, log: Log, list: View, headSeq: nat, tailSeq: nat)

  /** An insertion returns a count and says whether all was taken, never ends, or fails the is-head assertion. */
  datatype Result = Returns(buf: Buf, written: nat, full: bool) | Endless | NotHead

  // ---------------------------------------------------------------- well-formed buffers

  ghost predicate InWindow(l: Log, mask: nat) {
    forall p :: p in l.bytes ==> p < l.first + mask
  }

  /** The first segment starts at the read position, or past the write position. */
  ghost predicate ListOk(b: Buf) {
    b.list.NoSegment? ||
    (&& b.list.len < U16 && b.list.start + b.list.len < U32
     && (b.list.start > b.tailSeq || (b.list.OneSegment? && b.list.start == b.headSeq)))
  }

  ghost predicate WellFormed(b: Buf, mask: nat) {
    && mask < U16
    && Within(b.log, mask) && Complete(b.log) && InWindow(b.log, mask)
    && b.headSeq < U32 && b.tailSeq < U32
    && (!b.phase.Closed? ==> (b.tailSeq - b.headSeq) % U32 == Held(b.log))
    && match b.phase
       case Closed => b.log == Log(0, 0, map[]) && b.list == NoSegment
       case Connected => b.list == NoSegment
       case Unordered => b.headSeq + Held(b.log) == b.tailSeq && ListOk(b)
  }

  // ---------------------------------------------------------------- transitions

  /** Data at the write position of an in-order buffer. */
  function AtTail(b: Buf, mask: nat, data: seq<Byte>): Result {
    var w := Min(|data|, Room(b.log, mask));
    Returns(b.(log := WriteTail(b.log, mask, data), tailSeq := (b.tailSeq + w) % U32), w, w == |data|)
  }

  /** How far the first segment then reaches past the data just written. */
  function Surplus(b: Buf, w: nat): nat {
    var v := Listed(b.list, b.tailSeq, w);
    if v.NoSegment? || v.start + v.len <= b.tailSeq + w then 0 else v.start + v.len - (b.tailSeq + w)
  }

  /** Data at the write position in out-of-order mode; everything the first segment claims becomes readable. */
  function Fill(b: Buf, mask: nat, data: seq<Byte>): Result {
    var w := Min(|data|, Room(b.log, mask));
    match Place(b.list, b.tailSeq, w)
    case Spins => Endless
    case BehindHead => NotHead
    case AtHead =>
      var v, more := Listed(b.list, b.tailSeq, w), Surplus(b, w);
      var b' := b.(log := Extend(WriteTail(b.log, mask, data), more), tailSeq := b.tailSeq + w + more);
      Returns(if v.Several? then b'.(list := v) else b'.(phase := Connected, list := NoSegment), Max(w, more), true)
  }

  function AheadWritten(b: Buf, mask: nat, start: nat, n: nat): nat
    requires b.tailSeq < start
  {
    var offset := start - b.tailSeq;
    if Room(b.log, mask) < offset then 0 else Min(n, Room(b.log, mask) - offset)
  }

  /** Data past a gap. */
  function Ahead(b: Buf, mask: nat, start: nat, data: seq<Byte>): Result
    requires b.tailSeq < start
  {
    var w := AheadWritten(b, mask, start, |data|);
    if Place(b.list, start, w).Spins? then Endless
    else
      Returns(b.(log := WriteAhead(b.log, mask, start - b.tailSeq, data), list := Listed(b.list, start, w)),
              w, w == |data|)
  }

  /** A segment in out-of-order mode. */
  function Insert(b: Buf, mask: nat, start: nat, data: seq<Byte>): Result {
    if start == b.tailSeq then Fill(b, mask, data)
    else if start > b.tailSeq then Ahead(b, mask, start, data)
    else if |data| > b.tailSeq - start then Fill(b, mask, data[b.tailSeq - start..])
    else Returns(b, 0, true)
  }

  /** Out-of-order mode begins with the in-order data noted in the list. */
  function Noted(b: Buf): Buf {
    b.(phase := Unordered, list := if Held(b.log) == 0 then NoSegment else OneSegment(b.headSeq, Held(b.log)))
  }

  /** `add_data` on an open buffer. */
  function Add(b: Buf, mask: nat, start: nat, data: seq<Byte>): Result {
    if b.phase.Unordered? then Insert(b, mask, start, data)
    else if start == b.tailSeq then AtTail(b, mask, data)
    else if start < b.tailSeq < start + |data| then AtTail(b, mask, data[b.tailSeq - start..])
    else if start + |data| < b.tailSeq then Returns(b, 0, true)
    else Insert(Noted(b), mask, start, data)
  }

  function Open(b: Buf, mask: nat, start: nat, data: seq<Byte>): Result {
    AtTail(b.(phase := Connected, headSeq := start, tailSeq := start), mask, data)
  }

  function ReadOut(b: Buf, n: nat): Buf {
    var r := Min(n, Held(b.log));
    b.(log := Consume(b.log, n), headSeq := (b.headSeq + r) % U32,
       list := if b.phase.Unordered? then Consumed(b.list, b.headSeq, r) else b.list)
  }

  // ---------------------------------------------------------------- when transitions go well

  /** Sequence numbers do not wrap where the code compares them as plain numbers. */
  predicate NumbersFit(b: Buf, start: nat, n: nat) {
    if b.phase.Connected? && start == b.tailSeq then true
    else if b.phase.Connected? && start < b.tailSeq && start + n != b.tailSeq then start + n < U32
    else start + n < U32 && b.headSeq <= b.tailSeq
  }

  /** Length of what a segment contributes at the write position, if it reaches it. */
  function Reach(b: Buf, start: nat, n: nat): nat {
    if start <= b.tailSeq && n > b.tailSeq - start then n - (b.tailSeq - start) else 0
  }

  predicate ReachesTail(b: Buf, start: nat, n: nat) {
    start == b.tailSeq || (start < b.tailSeq && n > b.tailSeq - start)
  }

  /** Of several segments only the first is known; it decides what ends in front of it. */
  predicate FirstDecides(b: Buf, mask: nat, start: nat, n: nat) {
    b.list.Several? ==>
      && start <= b.tailSeq < b.list.start
      && Min(Reach(b, start, n), Room(b.log, mask)) < b.list.start - b.tailSeq
  }

  predicate InScope(b: Buf, mask: nat, start: nat, n: nat) {
    !b.phase.Closed? && NumbersFit(b, start, n) && FirstDecides(b, mask, start, n)
  }

  /** Where the received bytes that end at `hi` begin, looking down to `lo`: the end of the last hole. */
  function HoleEnd(l: Log, lo: nat, hi: nat): (e: nat)
    ensures e <= hi && (lo <= hi ==> lo <= e)
    ensures forall p :: e <= p < hi ==> p in l.bytes
    ensures lo < e ==> e - 1 !in l.bytes
    decreases hi
  {
    if hi <= lo || hi - 1 !in l.bytes then hi else HoleEnd(l, lo, hi - 1)
  }

  /**
   When data of length `n` at the write position is handled correctly. A first segment that
   starts at the read position claims everything up to its end: the data must reach the end
   of the last hole below it. One that starts past the write position: the data must end
   exactly where it starts, and nothing it claims may be missing.
   */
  predicate FillGood(b: Buf, mask: nat, n: nat) {
    var w := Min(n, Room(b.log, mask));
    match b.list
    case NoSegment => true
    case OneSegment(s, len) =>
      if s > b.tailSeq then
        var at := b.log.limit + (s - b.tailSeq);
        w == s - b.tailSeq && HoleEnd(b.log, at, at + len) == at
      else HoleEnd(b.log, b.log.limit, b.log.first + len) <= b.log.limit + w
    case Several(_, _) => false
  }

  /**
   When data past a gap is handled correctly: always, unless the first segment starts past
   the write position. Then the data must not start in front of it, except to end where it starts.
   */
  predicate AheadGood(b: Buf, mask: nat, start: nat, n: nat)
    requires b.tailSeq < start
  {
    var w := AheadWritten(b, mask, start, n);
    b.list.OneSegment? && b.list.start > b.tailSeq ==>
      b.list.start <= start || (start + w == b.list.start && w + b.list.len < U16)
  }

  predicate AddSafe(b: Buf, mask: nat, start: nat, n: nat) {
    && InScope(b, mask, start, n) && !b.list.Several?
    && (b.phase.Unordered? && ReachesTail(b, start, n) ==> FillGood(b, mask, Reach(b, start, n)))
    && (b.phase.Unordered? && start > b.tailSeq ==> AheadGood(b, mask, start, n))
  }

  /** The call returned, every readable byte was received, and the list has at most one segment. */
  ghost predicate WentWell(r: Result) {
    r.Returns? && Complete(r.buf.log) && !r.buf.list.Several?
  }

  /** Reading fails in out-of-order mode when the segment list has run empty. */
  predicate ReadSafe(b: Buf) {
    !(b.phase.Unordered? && b.list.NoSegment?)
  }

  // ---------------------------------------------------------------- transitions keep the buffer well-formed

  lemma SeqAdvance(headSeq: nat, tailSeq: nat, held: nat, n: nat)
    requires (tailSeq - headSeq) % U32 == held
    requires held + n < U32
    ensures ((tailSeq + n) % U32 - headSeq) % U32 == held + n
  {
  }

  lemma SeqConsume(headSeq: nat, tailSeq: nat, held: nat, n: nat)
    requires (tailSeq - headSeq) % U32 == held && n <= held < U32
    ensures (tailSeq - (headSeq + n) % U32) % U32 == held - n
  {
  }

  /** Without a wrap between them, the sequence numbers differ by the bytes held. */
  lemma NoWrapHeld(b: Buf, mask: nat)
    requires WellFormed(b, mask) && !b.phase.Closed? && b.headSeq <= b.tailSeq
    ensures b.headSeq + Held(b.log) == b.tailSeq
  {
  }

  lemma AtTailKeeps(b: Buf, mask: nat, data: seq<Byte>)
    requires WellFormed(b, mask) && b.phase.Connected?
    ensures WellFormed(AtTail(b, mask, data).buf, mask)
  {
    SeqAdvance(b.headSeq, b.tailSeq, Held(b.log), Min(|data|, Room(b.log, mask)));
  }

  lemma NotedKeeps(b: Buf, mask: nat)
    requires WellFormed(b, mask) && b.phase.Connected? && b.headSeq <= b.tailSeq
    ensures WellFormed(Noted(b), mask)
  {
    NoWrapHeld(b, mask);
  }

  /** The list insertion that goes with data at the write position is as far as the list is known. */
  lemma FillKnown(b: Buf, mask: nat, n: nat)
    requires WellFormed(b, mask) && b.phase.Unordered? && b.tailSeq + n < U32 && FirstDecides(b, mask, b.tailSeq, n)
    ensures Known(b.list, b.tailSeq, Min(n, Room(b.log, mask)))
  {
  }

  /** The first segment then ends `Surplus` past the data. */
  lemma FillEnds(b: Buf, mask: nat, w: nat)
    requires WellFormed(b, mask) && b.phase.Unordered? && b.tailSeq + w < U32 && w <= Room(b.log, mask)
    requires Place(b.list, b.tailSeq, w).AtHead?
    ensures var v := Listed(b.list, b.tailSeq, w);
      !v.NoSegment? && v.start + v.len == b.tailSeq + w + Surplus(b, w) < U32
  {
    match b.list {
      case NoSegment =>
      case OneSegment(s, len) =>
        if s == b.headSeq { assert Max(s + len, b.tailSeq + w) - s < U16; }
      case Several(_, _) =>
    }
  }

  lemma AheadKnown(b: Buf, mask: nat, start: nat, n: nat)
    requires WellFormed(b, mask) && b.phase.Unordered? && b.tailSeq < start && start + n < U32 && !b.list.Several?
    ensures Known(b.list, start, AheadWritten(b, mask, start, n))
  {
  }

  lemma WrittenAt(l: Log, mask: nat, data: seq<Byte>, p: nat)
    ensures var w := Min(|data|, Room(l, mask));
      p in WriteTail(l, mask, data).bytes <==> p in l.bytes || l.limit <= p < l.limit + w
  {
  }

  /** The log after `w` bytes of data and a seek past `more` bytes received earlier. */
  lemma FilledLog(l: Log, mask: nat, data: seq<Byte>, w: nat, more: nat)
    requires Within(l, mask) && Complete(l) && InWindow(l, mask) && w == Min(|data|, Room(l, mask))
    ensures var l' := Extend(WriteTail(l, mask, data), more);
      && l'.first == l.first && l'.limit == l.limit + w + more && InWindow(l', mask)
      && (Complete(l') <==> forall p :: l.limit + w <= p < l.limit + w + more ==> p in l.bytes)
  {
    var l' := Extend(WriteTail(l, mask, data), more);
    forall p: nat ensures p in l'.bytes <==> p in l.bytes || l.limit <= p < l.limit + w {
      WrittenAt(l, mask, data, p);
    }
    if Complete(l') {
      forall p | l.limit + w <= p < l.limit + w + more ensures p in l.bytes { assert p in l'.bytes; }
    }
  }

  /** Such a log with nothing missing makes a well-formed buffer. */
  lemma FilledKeeps(b: Buf, mask: nat, data: seq<Byte>, w: nat, more: nat)
    requires WellFormed(b, mask) && b.phase.Unordered? && w == Min(|data|, Room(b.log, mask))
    requires forall p :: b.log.limit + w <= p < b.log.limit + w + more ==> p in b.log.bytes
    requires b.tailSeq + w + more < U32
    ensures var l := Extend(WriteTail(b.log, mask, data), more);
      WellFormed(Buf(Connected, l, NoSegment, b.headSeq, b.tailSeq + w + more), mask)
  {
    FilledLog(b.log, mask, data, w, more);
    if more > 0 { assert b.log.limit + w + more - 1 in b.log.bytes; }
  }

  /** The result of a fill that lands in the first segment. */
  lemma FillReturns(b: Buf, mask: nat, data: seq<Byte>, w: nat, more: nat)
    requires w == Min(|data|, Room(b.log, mask)) && more == Surplus(b, w)
    requires Place(b.list, b.tailSeq, w).AtHead? && !Listed(b.list, b.tailSeq, w).Several?
    ensures Fill(b, mask, data) == Returns(
      Buf(Connected, Extend(WriteTail(b.log, mask, data), more), NoSegment, b.headSeq, b.tailSeq + w + more),
      Max(w, more), true)
  {
  }

  /** What a first segment at the read position claims beyond the data. */
  lemma FrontSurplus(b: Buf, mask: nat, w: nat)
    requires WellFormed(b, mask) && b.phase.Unordered? && b.list.OneSegment? && b.list.start == b.headSeq
    requires w <= Room(b.log, mask)
    ensures Place(b.list, b.tailSeq, w).AtHead? && !Listed(b.list, b.tailSeq, w).Several?
    ensures var end := b.log.first + b.list.len;
      Surplus(b, w) == if end <= b.log.limit + w then 0 else end - (b.log.limit + w)
  {
  }

  lemma FrontFillExactly(b: Buf, mask: nat, data: seq<Byte>)
    requires WellFormed(b, mask) && b.phase.Unordered? && b.list.OneSegment? && b.list.start == b.headSeq
    requires b.tailSeq + |data| < U32
    ensures FillGood(b, mask, |data|) <==> WentWell(Fill(b, mask, data))
    ensures FillGood(b, mask, |data|) ==>
      WellFormed(Fill(b, mask, data).buf, mask) && Fill(b, mask, data).buf.phase.Connected?
  {
    var w := Min(|data|, Room(b.log, mask));
    var more := Surplus(b, w);
    FrontSurplus(b, mask, w);
    FillReturns(b, mask, data, w, more);
    FilledLog(b.log, mask, data, w, more);
    var end := b.log.first + b.list.len;
    var hole := HoleEnd(b.log, b.log.limit, end);
    if hole <= b.log.limit + w {
      FilledKeeps(b, mask, data, w, more);
    } else {
      assert hole - 1 !in b.log.bytes;
    }
  }

  lemma IslandFillExactly(b: Buf, mask: nat, data: seq<Byte>)
    requires WellFormed(b, mask) && b.phase.Unordered? && b.list.OneSegment? && b.list.start > b.tailSeq
    requires b.tailSeq + |data| < U32
    ensures FillGood(b, mask, |data|) <==> WentWell(Fill(b, mask, data))
    ensures FillGood(b, mask, |data|) ==>
      WellFormed(Fill(b, mask, data).buf, mask) && Fill(b, mask, data).buf.phase.Connected?
  {
    var w, gap, len := Min(|data|, Room(b.log, mask)), b.list.start - b.tailSeq, b.list.len;
    if w < gap {
      assert Fill(b, mask, data) == Endless;
    } else if w > gap {
      assert Fill(b, mask, data) == NotHead;
    } else if w + len < U16 {
      JoinExactly(b, mask, data, w);
    } else {
      OverclaimHole(b, mask, w);
    }
  }

  /** The data end where the first segment starts, and the two are joined. */
  lemma JoinExactly(b: Buf, mask: nat, data: seq<Byte>, w: nat)
    requires WellFormed(b, mask) && b.phase.Unordered? && b.list.OneSegment? && b.list.start == b.tailSeq + w
    requires 0 < w == Min(|data|, Room(b.log, mask)) && w + b.list.len < U16
    ensures FillGood(b, mask, |data|) <==> WentWell(Fill(b, mask, data))
    ensures FillGood(b, mask, |data|) ==>
      WellFormed(Fill(b, mask, data).buf, mask) && Fill(b, mask, data).buf.phase.Connected?
  {
    var at, len := b.log.limit + w, b.list.len;
    FillReturns(b, mask, data, w, len);
    FilledLog(b.log, mask, data, w, len);
    var hole := HoleEnd(b.log, at, at + len);
    if hole == at {
      FilledKeeps(b, mask, data, w, len);
    } else {
      assert hole - 1 !in b.log.bytes;
    }
  }

  /** A first segment too long to be joined claims more than the window holds. */
  lemma OverclaimHole(b: Buf, mask: nat, gap: nat)
    requires WellFormed(b, mask) && b.phase.Unordered? && b.list.OneSegment? && b.list.start == b.tailSeq + gap
    requires 0 < gap <= Room(b.log, mask) && gap + b.list.len >= U16
    ensures var at := b.log.limit + gap; HoleEnd(b.log, at, at + b.list.len) > at
  {
    var at, len := b.log.limit + gap, b.list.len;
    assert len > 0 && at + len - 1 !in b.log.bytes;
  }

  /**
   A fill goes well exactly when it is good. Otherwise it never returns, trips the assertion,
   or makes a byte readable that was never received.
   */
  lemma FillExactly(b: Buf, mask: nat, data: seq<Byte>)
    requires WellFormed(b, mask) && b.phase.Unordered? && !b.list.Several? && b.tailSeq + |data| < U32
    ensures FillGood(b, mask, |data|) <==> WentWell(Fill(b, mask, data))
    ensures FillGood(b, mask, |data|) ==>
      WellFormed(Fill(b, mask, data).buf, mask) && Fill(b, mask, data).buf.phase.Connected?
  {
    match b.list {
      case NoSegment =>
        var w := Min(|data|, Room(b.log, mask));
        FillReturns(b, mask, data, w, 0);
        FilledLog(b.log, mask, data, w, 0);
        FilledKeeps(b, mask, data, w, 0);
      case OneSegment(s, _) =>
        if s > b.tailSeq { IslandFillExactly(b, mask, data); } else { FrontFillExactly(b, mask, data); }
    }
  }

  /** Storing ahead changes neither the readable window nor what lies outside the ring's. */
  lemma AheadLog(l: Log, mask: nat, offset: nat, data: seq<Byte>)
    requires Within(l, mask) && Complete(l) && InWindow(l, mask)
    ensures var l' := WriteAhead(l, mask, offset, data);
      l'.first == l.first && l'.limit == l.limit && Complete(l') && InWindow(l', mask)
  {
  }

  lemma AheadList(b: Buf, mask: nat, start: nat, n: nat, w: nat)
    requires mask < U16 && Within(b.log, mask) && b.headSeq + Held(b.log) == b.tailSeq && ListOk(b)
    requires !b.list.Several? && b.tailSeq < start && start + n < U32
    requires w == AheadWritten(b, mask, start, n) && AheadGood(b, mask, start, n)
    ensures ListOk(b.(list := Listed(b.list, start, w))) && !Place(b.list, start, w).Spins?
  {
  }

  lemma SameWindow(b: Buf, mask: nat, log: Log, list: View)
    requires WellFormed(b, mask) && b.phase.Unordered? && ListOk(b.(list := list))
    requires log.first == b.log.first && log.limit == b.log.limit && Complete(log) && InWindow(log, mask)
    ensures WellFormed(b.(log := log, list := list), mask)
  {
  }

  lemma AheadReturns(b: Buf, mask: nat, start: nat, data: seq<Byte>, offset: nat, w: nat)
    requires b.tailSeq < start && offset == start - b.tailSeq && w == AheadWritten(b, mask, start, |data|)
    requires !Place(b.list, start, w).Spins?
    ensures Ahead(b, mask, start, data) == Returns(
      b.(log := WriteAhead(b.log, mask, offset, data), list := Listed(b.list, start, w)), w, w == |data|)
  {
  }

  lemma AheadKeeps(b: Buf, mask: nat, start: nat, data: seq<Byte>)
    requires WellFormed(b, mask) && b.phase.Unordered? && !b.list.Several? && b.tailSeq < start && start + |data| < U32
    requires AheadGood(b, mask, start, |data|)
    ensures Ahead(b, mask, start, data).Returns? && WellFormed(Ahead(b, mask, start, data).buf, mask)
  {
    var offset, w := start - b.tailSeq, AheadWritten(b, mask, start, |data|);
    var log, list := WriteAhead(b.log, mask, offset, data), Listed(b.list, start, w);
    AheadLog(b.log, mask, offset, data);
    AheadList(b, mask, start, |data|, w);
    SameWindow(b, mask, log, list);
    AheadReturns(b, mask, start, data, offset, w);
  }

  /** Data past a gap go well exactly when they are good; then the buffer stays well-formed. */
  lemma AheadExactly(b: Buf, mask: nat, start: nat, data: seq<Byte>)
    requires WellFormed(b, mask) && b.phase.Unordered? && !b.list.Several? && b.tailSeq < start && start + |data| < U32
    ensures AheadGood(b, mask, start, |data|) <==> WentWell(Ahead(b, mask, start, data))
    ensures AheadGood(b, mask, start, |data|) ==> WellFormed(Ahead(b, mask, start, data).buf, mask)
    ensures Ahead(b, mask, start, data).Endless? <==>
      && b.list.OneSegment? && b.list.start > b.tailSeq
      && start + AheadWritten(b, mask, start, |data|) < b.list.start
  {
    if AheadGood(b, mask, start, |data|) { AheadKeeps(b, mask, start, data); }
  }

  lemma ReadKeeps(b: Buf, mask: nat, n: nat)
    requires WellFormed(b, mask) && !b.phase.Closed?
    ensures WellFormed(ReadOut(b, n), mask)
  {
    SeqConsume(b.headSeq, b.tailSeq, Held(b.log), Min(n, Held(b.log)));
  }

  /** In out-of-order mode only fills and data past a gap can be unsafe. */
  lemma SafeInsert(b: Buf, mask: nat, start: nat, n: nat)
    requires b.phase.Unordered? && !b.list.Several? && start + n < U32 && b.headSeq <= b.tailSeq
    ensures AddSafe(b, mask, start, n) <==>
      if start > b.tailSeq then AheadGood(b, mask, start, n)
      else ReachesTail(b, start, n) ==> FillGood(b, mask, Reach(b, start, n))
  {
  }

  /** What a segment adds at the write position, if it reaches it. */
  function Rest(b: Buf, start: nat, data: seq<Byte>): (rest: seq<Byte>)
    requires ReachesTail(b, start, |data|)
    ensures |rest| == Reach(b, start, |data|)
  {
    if start == b.tailSeq then data else data[b.tailSeq - start..]
  }

  lemma InsertIsFill(b: Buf, mask: nat, start: nat, data: seq<Byte>)
    requires ReachesTail(b, start, |data|)
    ensures Insert(b, mask, start, data) == Fill(b, mask, Rest(b, start, data))
  {
  }

  lemma InsertExactly(b: Buf, mask: nat, start: nat, data: seq<Byte>)
    requires WellFormed(b, mask) && b.phase.Unordered? && !b.list.Several? && start + |data| < U32
    ensures AddSafe(b, mask, start, |data|) <==> WentWell(Insert(b, mask, start, data))
  {
    SafeInsert(b, mask, start, |data|);
    if start > b.tailSeq {
      AheadExactly(b, mask, start, data);
    } else if ReachesTail(b, start, |data|) {
      InsertIsFill(b, mask, start, data);
      FillExactly(b, mask, Rest(b, start, data));
    }
  }

  lemma InsertKeeps(b: Buf, mask: nat, start: nat, data: seq<Byte>)
    requires WellFormed(b, mask) && b.phase.Unordered? && AddSafe(b, mask, start, |data|)
    ensures Insert(b, mask, start, data).Returns? && WellFormed(Insert(b, mask, start, data).buf, mask)
  {
    if start > b.tailSeq {
      AheadExactly(b, mask, start, data);
    } else if ReachesTail(b, start, |data|) {
      InsertIsFill(b, mask, start, data);
      FillExactly(b, mask, Rest(b, start, data));
    }
  }

  /** Every insertion in scope goes well exactly when it is safe. */
  lemma AddExactly(b: Buf, mask: nat, start: nat, data: seq<Byte>)
    requires WellFormed(b, mask) && InScope(b, mask, start, |data|) && !b.list.Several?
    ensures AddSafe(b, mask, start, |data|) <==> WentWell(Add(b, mask, start, data))
  {
    if b.phase.Unordered? {
      InsertExactly(b, mask, start, data);
    } else if start == b.tailSeq {
      AtTailKeeps(b, mask, data);
    } else if start < b.tailSeq < start + |data| {
      AtTailKeeps(b, mask, data[b.tailSeq - start..]);
    } else if start + |data| >= b.tailSeq {
      NotedKeeps(b, mask);
      NoWrapHeld(b, mask);
      InsertExactly(Noted(b), mask, start, data);
    }
  }

  lemma InOrderKeeps(b: Buf, mask: nat, start: nat, data: seq<Byte>)
    requires WellFormed(b, mask) && b.phase.Connected? && (ReachesTail(b, start, |data|) || start + |data| < b.tailSeq)
    ensures Add(b, mask, start, data).Returns? && WellFormed(Add(b, mask, start, data).buf, mask)
  {
    if ReachesTail(b, start, |data|) {
      var rest := Rest(b, start, data);
      AtTailKeeps(b, mask, rest);
      assert Add(b, mask, start, data) == AtTail(b, mask, rest);
    } else {
      assert Add(b, mask, start, data) == Returns(b, 0, true);
    }
  }

  /** A safe insertion keeps the buffer well-formed. */
  lemma AddKeeps(b: Buf, mask: nat, start: nat, data: seq<Byte>)
    requires WellFormed(b, mask) && AddSafe(b, mask, start, |data|)
    ensures Add(b, mask, start, data).Returns? && WellFormed(Add(b, mask, start, data).buf, mask)
  {
    if b.phase.Unordered? {
      InsertKeeps(b, mask, start, data);
      assert Add(b, mask, start, data) == Insert(b, mask, start, data);
    } else if ReachesTail(b, start, |data|) || start + |data| < b.tailSeq {
      InOrderKeeps(b, mask, start, data);
    } else {
      NotedKeeps(b, mask);
      NoWrapHeld(b, mask);
      InsertKeeps(Noted(b), mask, start, data);
      assert Add(b, mask, start, data) == Insert(Noted(b), mask, start, data);
    }
  }
}
