/**
 One gap in the byte stream: how it opens, grows and closes, and exactly when that works.
 */
module ReassemblyGaps {
  import opened Words
  import opened RingBuffer
  import opened SegmentList
  import opened Reassembly
  import opened ReassemblyTheorems

  /**
   Nothing waits but the bytes from `at` to `top`, right behind one gap, and the list says
   so: its only segment is those bytes, or everything up to `top` from the read position on.
   */
  ghost predicate GapAt(b: Buf, mask: nat, at: nat, top: nat) {
    && WellFormed(b, mask) && b.phase.Unordered?
    && b.log.limit < at <= top <= b.log.first + mask
    && (forall p :: at <= p < top ==> p in b.log.bytes)
    && (b.list == OneSegment(b.tailSeq + (at - b.log.limit), top - at)
        || b.list == OneSegment(b.headSeq, top - b.log.first))
  }

  function Reads(sizes: seq<nat>): seq<Event> {
    seq(|sizes|, i requires 0 <= i < |sizes| => Fetch(sizes[i]))
  }

  /** A read while a gap is open. */
  lemma ReadOverGap(b: Buf, mask: nat, at: nat, top: nat, n: nat)
    requires GapAt(b, mask, at, top)
    ensures ReadSafe(b)
    ensures var m := ReadOut(b, n);
      && GapAt(m, mask, at, top) && m.tailSeq == b.tailSeq
      && m.log == b.log.(first := m.log.first) && b.log.first <= m.log.first <= b.log.limit
      && Front(b.log, n) == Slice(b.log, b.log.first, m.log.first)
  {
    ReadKeeps(b, mask, n);
  }

  lemma SliceIgnoresFirst(l: Log, l': Log, a: nat, z: nat)
    requires l'.bytes == l.bytes && a <= z && forall p :: a <= p < z ==> p in l.bytes
    ensures Slice(l', a, z) == Slice(l, a, z)
  {
  }

  /** Any number of reads while a gap is open: the gap stays, the bytes come from the front. */
  lemma {:induction false} ReadsOverGap(b: Buf, mask: nat, at: nat, top: nat, sizes: seq<nat>)
    requires GapAt(b, mask, at, top)
    ensures SafeTrace(b, mask, Reads(sizes))
    ensures var b' := RunTrace(b, mask, Reads(sizes));
      && GapAt(b', mask, at, top) && b'.tailSeq == b.tailSeq
      && b'.log == b.log.(first := b'.log.first) && b.log.first <= b'.log.first <= b.log.limit
      && Delivered(b, mask, Reads(sizes)) == Slice(b.log, b.log.first, b'.log.first)
    decreases |sizes|
  {
    var events := Reads(sizes);
    if sizes != [] {
      assert events[0] == Fetch(sizes[0]) && events[1..] == Reads(sizes[1..]);
      var m := ReadOut(b, sizes[0]);
      ReadOverGap(b, mask, at, top, sizes[0]);
      ReadsOverGap(m, mask, at, top, sizes[1..]);
      var b' := RunTrace(m, mask, Reads(sizes[1..]));
      SliceIgnoresFirst(b.log, m.log, m.log.first, b'.log.first);
      SlicesJoin(b.log, b.log.first, m.log.first, b'.log.first);
    }
  }

  /** A chunk that fits past the gap of an in-order buffer. */
  ghost predicate ChunkFits(b: Buf, mask: nat, start: nat, n: nat) {
    && WellFormed(b, mask) && b.phase.Connected? && b.headSeq <= b.tailSeq < start
    && start + n < U32 && start - b.tailSeq + n <= Room(b.log, mask)
  }

  /** The chunk opens the gap. */
  lemma GapOpens(b: Buf, mask: nat, start: nat, chunk: seq<Byte>, at: nat)
    requires ChunkFits(b, mask, start, |chunk|) && at == b.log.limit + (start - b.tailSeq)
    ensures AddSafe(b, mask, start, |chunk|)
    ensures var b1 := Add(b, mask, start, chunk).buf;
      && GapAt(b1, mask, at, at + |chunk|) && b1.tailSeq == b.tailSeq
      && b1.log == b.log.(bytes := Laid(b.log.bytes, at, chunk))
  {
    var offset, n := start - b.tailSeq, |chunk|;
    NoWrapHeld(b, mask);
    AddKeeps(b, mask, start, chunk);
    WriteAheadIs(b.log, mask, offset, chunk, n, at);
    assert chunk[..n] == chunk;
    assert Add(b, mask, start, chunk) == Ahead(Noted(b), mask, start, chunk);
  }

  /** Where everything from `from` to `hi` was received, the last hole ends at or below `from`. */
  lemma HoleEndStored(l: Log, lo: nat, hi: nat, from: nat)
    requires lo <= from <= hi && forall p :: from <= p < hi ==> p in l.bytes
    ensures HoleEnd(l, lo, hi) <= from
  {
  }

  /** Data as long as the gap are a good fill. */
  lemma GapIsFillable(b: Buf, mask: nat, at: nat, top: nat)
    requires GapAt(b, mask, at, top)
    ensures FillGood(b, mask, at - b.log.limit)
  {
    HoleEndStored(b.log, at, top, at);
    HoleEndStored(b.log, b.log.limit, top, at);
  }

  lemma GapSurplus(b: Buf, mask: nat, at: nat, top: nat)
    requires GapAt(b, mask, at, top)
    ensures var n := at - b.log.limit;
      && Place(b.list, b.tailSeq, n).AtHead? && !Listed(b.list, b.tailSeq, n).Several?
      && Surplus(b, n) == top - at
  {
  }

  /** Data that fill the gap exactly close it. */
  lemma GapCloses(b: Buf, mask: nat, at: nat, top: nat, filler: seq<Byte>)
    requires GapAt(b, mask, at, top) && |filler| == at - b.log.limit && b.tailSeq + |filler| < U32
    ensures AddSafe(b, mask, b.tailSeq, |filler|)
    ensures var b' := Add(b, mask, b.tailSeq, filler).buf; WellFormed(b', mask) && b'.phase.Connected?
  {
    GapIsFillable(b, mask, at, top);
    SafeInsert(b, mask, b.tailSeq, |filler|);
    AddKeeps(b, mask, b.tailSeq, filler);
    GapSurplus(b, mask, at, top);
  }

  /** The log then ends where the waiting bytes did. */
  lemma GapClosesLog(b: Buf, mask: nat, at: nat, top: nat, filler: seq<Byte>)
    requires GapAt(b, mask, at, top) && |filler| == at - b.log.limit
    ensures Add(b, mask, b.tailSeq, filler).Returns?
    ensures Add(b, mask, b.tailSeq, filler).buf.log
            == Log(b.log.first, top, Laid(b.log.bytes, b.log.limit, filler))
  {
    var more := top - at;
    GapSurplus(b, mask, at, top);
    FillReturns(b, mask, filler, |filler|, more);
    ExactWrite(b.log, mask, filler);
  }

  lemma ExactWrite(l: Log, mask: nat, data: seq<Byte>)
    requires |data| <= Room(l, mask)
    ensures WriteTail(l, mask, data) == Log(l.first, l.limit + |data|, Laid(l.bytes, l.limit, data))
  {
    assert data[..|data|] == data;
  }

  /**
   One chunk beyond a gap, any reads, then data that fill the gap exactly: the buffer is back
   in order, and what was read plus what is readable is the old data, the filler and the
   chunk, in that order.
   */
  lemma GapFilledExactly(b: Buf, mask: nat, start: nat, chunk: seq<Byte>, sizes: seq<nat>, filler: seq<Byte>)
    returns (b1: Buf, b2: Buf, b3: Buf)
    requires ChunkFits(b, mask, start, |chunk|) && |filler| == start - b.tailSeq
    ensures AddSafe(b, mask, start, |chunk|)
    ensures var r := Add(b, mask, start, chunk); r.Returns? && b1 == r.buf
    ensures SafeTrace(b1, mask, Reads(sizes)) && b2 == RunTrace(b1, mask, Reads(sizes))
    ensures AddSafe(b2, mask, b2.tailSeq, |filler|)
    ensures var r := Add(b2, mask, b2.tailSeq, filler); r.Returns? && b3 == r.buf
    ensures WellFormed(b3, mask) && b3.phase.Connected?
    ensures Complete(b.log) && Complete(b3.log)
    ensures Delivered(b1, mask, Reads(sizes)) + Readable(b3.log) == Readable(b.log) + filler + chunk
  {
    var at := b.log.limit + |filler|;
    var top := at + |chunk|;
    b1, b2 := OpenAndRead(b, mask, start, chunk, sizes, at, top);
    GapCloses(b2, mask, at, top, filler);
    GapClosesLog(b2, mask, at, top, filler);
    b3 := Add(b2, mask, b2.tailSeq, filler).buf;
    LogsJoin(b.log, b1.log, b3.log, filler, chunk, at);
  }

  lemma OpenAndRead(b: Buf, mask: nat, start: nat, chunk: seq<Byte>, sizes: seq<nat>, at: nat, top: nat)
    returns (b1: Buf, b2: Buf)
    requires ChunkFits(b, mask, start, |chunk|) && at == b.log.limit + (start - b.tailSeq) && top == at + |chunk|
    ensures AddSafe(b, mask, start, |chunk|)
    ensures var r := Add(b, mask, start, chunk); r.Returns? && b1 == r.buf
    ensures b1.log == b.log.(bytes := Laid(b.log.bytes, at, chunk))
    ensures SafeTrace(b1, mask, Reads(sizes)) && b2 == RunTrace(b1, mask, Reads(sizes))
    ensures GapAt(b2, mask, at, top) && b2.tailSeq == b.tailSeq
    ensures b2.log == b1.log.(first := b2.log.first) && b.log.first <= b2.log.first <= b.log.limit
    ensures forall p :: b1.log.first <= p < b2.log.first ==> p in b1.log.bytes
    ensures Delivered(b1, mask, Reads(sizes)) == Slice(b1.log, b1.log.first, b2.log.first)
  {
    GapOpens(b, mask, start, chunk, at);
    b1 := Add(b, mask, start, chunk).buf;
    ReadsOverGap(b1, mask, at, top, sizes);
    b2 := RunTrace(b1, mask, Reads(sizes));
  }

  /** The same about the logs alone: front part read early, the rest readable at the end. */
  lemma LogsJoin(l: Log, l1: Log, l3: Log, filler: seq<Byte>, chunk: seq<Byte>, at: nat)
    requires Complete(l) && l.first <= l3.first <= l.limit && at == l.limit + |filler|
    requires l1.first == l.first && l1.limit == l.limit
    requires l1.bytes == Laid(l.bytes, at, chunk)
    requires l3.limit == at + |chunk| && l3.bytes == Laid(l1.bytes, l1.limit, filler)
    ensures (forall p :: l1.first <= p < l3.first ==> p in l1.bytes) && Complete(l3)
    ensures Slice(l1, l1.first, l3.first) + Readable(l3) == Readable(l) + filler + chunk
  {
    forall p: nat | l.first <= p < l3.limit ensures p in l3.bytes { GapByte(l, filler, chunk, p); }
    SliceBeforeLimit(l1, l3, filler, l.first, l3.first);
    SlicesJoin(l3, l.first, l3.first, l3.limit);
    assert Readable(l3) == Slice(l3, l3.first, l3.limit);
    WholeLog(l, l3, filler, chunk);
  }

  /** Writing at the write position does not touch what is before it. */
  lemma SliceBeforeLimit(l1: Log, l3: Log, filler: seq<Byte>, a: nat, z: nat)
    requires l3.bytes == Laid(l1.bytes, l1.limit, filler) && a <= z <= l1.limit
    requires forall p :: a <= p < z ==> p in l1.bytes
    ensures Slice(l1, a, z) == Slice(l3, a, z)
  {
  }

  lemma WholeLog(l: Log, l3: Log, filler: seq<Byte>, chunk: seq<Byte>)
    requires Complete(l) && l.first <= l.limit && l3.limit == l.limit + |filler| + |chunk|
    requires l3.bytes == Laid(Laid(l.bytes, l.limit + |filler|, chunk), l.limit, filler)
    requires forall p :: l.first <= p < l3.limit ==> p in l3.bytes
    ensures Slice(l3, l.first, l3.limit) == Readable(l) + filler + chunk
  {
  }

  /** The byte at a position after the chunk and then the filler were written. */
  lemma GapByte(l: Log, filler: seq<Byte>, chunk: seq<Byte>, p: nat)
    ensures var n := |filler|;
      var bytes := Laid(Laid(l.bytes, l.limit + n, chunk), l.limit, filler);
      && (l.limit <= p < l.limit + n ==> p in bytes && bytes[p] == filler[p - l.limit])
      && (l.limit + n <= p < l.limit + n + |chunk| ==> p in bytes && bytes[p] == chunk[p - l.limit - n])
      && (p < l.limit && p in l.bytes ==> p in bytes && bytes[p] == l.bytes[p])
  {
  }

  // ---------------------------------------------------------------- more data behind the gap

  /** A segment that touches or overlaps the waiting bytes, and fits. */
  ghost predicate Touches(b: Buf, mask: nat, at: nat, top: nat, start: nat, n: nat) {
    && b.tailSeq < start && start + n < U32
    && var pos := b.log.limit + (start - b.tailSeq);
    pos <= top && at <= pos + n <= b.log.first + mask
  }

  function Low(b: Buf, at: nat, start: nat): nat {
    if b.tailSeq <= start && b.log.limit + (start - b.tailSeq) < at then b.log.limit + (start - b.tailSeq) else at
  }

  /** The log after such a segment. */
  ghost function Touched(b: Buf, start: nat, data: seq<Byte>, pos: nat): Buf {
    b.(log := b.log.(bytes := Laid(b.log.bytes, pos, data)), list := Listed(b.list, start, |data|))
  }

  lemma TouchIs(b: Buf, mask: nat, at: nat, top: nat, start: nat, data: seq<Byte>, pos: nat)
    requires GapAt(b, mask, at, top) && Touches(b, mask, at, top, start, |data|)
    requires pos == b.log.limit + (start - b.tailSeq)
    ensures AheadWritten(b, mask, start, |data|) == |data|
    ensures Ahead(b, mask, start, data)
            == if Place(b.list, start, |data|).Spins? then Endless
               else Returns(Touched(b, start, data, pos), |data|, true)
  {
    var n, offset := |data|, start - b.tailSeq;
    if !Place(b.list, start, n).Spins? { AheadReturns(b, mask, start, data, offset, n); }
    WriteAheadIs(b.log, mask, offset, data, n, pos);
    assert data[..n] == data;
  }

  /** Between the lower start and the higher end everything is stored. */
  lemma TouchStores(b: Buf, mask: nat, at: nat, top: nat, start: nat, data: seq<Byte>, pos: nat)
    requires GapAt(b, mask, at, top) && Touches(b, mask, at, top, start, |data|)
    requires pos == b.log.limit + (start - b.tailSeq)
    ensures forall p :: Low(b, at, start) <= p < Max(top, pos + |data|) ==> p in Laid(b.log.bytes, pos, data)
  {
  }

  /** A list that begins at the read position takes up any segment that touches. */
  lemma TouchFront(b: Buf, mask: nat, at: nat, top: nat, start: nat, data: seq<Byte>, pos: nat)
    requires GapAt(b, mask, at, top) && Touches(b, mask, at, top, start, |data|)
    requires pos == b.log.limit + (start - b.tailSeq) && b.list.start == b.headSeq
    ensures AheadGood(b, mask, start, |data|)
    ensures Ahead(b, mask, start, data) == Returns(Touched(b, start, data, pos), |data|, true)
    ensures GapAt(Touched(b, start, data, pos), mask, Low(b, at, start), Max(top, pos + |data|))
  {
    var b' := Touched(b, start, data, pos);
    TouchIs(b, mask, at, top, start, data, pos);
    TouchStores(b, mask, at, top, start, data, pos);
    AheadExactly(b, mask, start, data);
    assert WellFormed(b', mask);
    var high := Max(top, pos + |data|);
    assert b'.list == OneSegment(b.headSeq, high - b.log.first);
  }

  /** Where such a segment goes in a list that begins with the waiting bytes. */
  lemma IslandList(b: Buf, mask: nat, at: nat, top: nat, start: nat, n: nat, pos: nat)
    requires GapAt(b, mask, at, top) && Touches(b, mask, at, top, start, n)
    requires pos == b.log.limit + (start - b.tailSeq) && b.list.start > b.tailSeq && (at <= pos || pos + n == at)
    ensures !Place(b.list, start, n).Spins?
    ensures var low, high := Low(b, at, start), Max(top, pos + n);
      Listed(b.list, start, n) == OneSegment(b.tailSeq + (low - b.log.limit), high - low)
  {
  }

  /** A list that begins with the waiting bytes takes up one that starts behind or ends in front of them. */
  lemma TouchIsland(b: Buf, mask: nat, at: nat, top: nat, start: nat, data: seq<Byte>, pos: nat)
    requires GapAt(b, mask, at, top) && Touches(b, mask, at, top, start, |data|)
    requires pos == b.log.limit + (start - b.tailSeq) && b.list.start > b.tailSeq
    requires at <= pos || pos + |data| == at
    ensures AheadGood(b, mask, start, |data|)
    ensures Ahead(b, mask, start, data) == Returns(Touched(b, start, data, pos), |data|, true)
    ensures GapAt(Touched(b, start, data, pos), mask, Low(b, at, start), Max(top, pos + |data|))
  {
    TouchIs(b, mask, at, top, start, data, pos);
    TouchStores(b, mask, at, top, start, data, pos);
    IslandList(b, mask, at, top, start, |data|, pos);
    AheadExactly(b, mask, start, data);
    assert WellFormed(Touched(b, start, data, pos), mask);
  }

  /** One that reaches into them from below is put behind them, and every fill up to there then never ends. */
  lemma TouchBelow(b: Buf, mask: nat, at: nat, top: nat, start: nat, data: seq<Byte>, pos: nat)
    requires GapAt(b, mask, at, top) && Touches(b, mask, at, top, start, |data|)
    requires pos == b.log.limit + (start - b.tailSeq) && b.list.start > b.tailSeq
    requires pos < at < pos + |data|
    ensures !AheadGood(b, mask, start, |data|)
    ensures var r := Ahead(b, mask, start, data);
      && r.Returns? && r.buf.list == Several(b.list.start, b.list.len)
      && forall filler: seq<Byte> :: |filler| < at - b.log.limit ==> Add(r.buf, mask, b.tailSeq, filler) == Endless
  {
    TouchIs(b, mask, at, top, start, data, pos);
    AheadExactly(b, mask, start, data);
  }

  /** The gap such a segment leaves when it is good closes by data that fill it. */
  lemma TouchCloses(b: Buf, mask: nat, low: nat, high: nat, filler: seq<Byte>)
    requires GapAt(b, mask, low, high) && |filler| == low - b.log.limit && b.tailSeq + |filler| < U32
    ensures WentWell(Add(b, mask, b.tailSeq, filler))
  {
    GapCloses(b, mask, low, high, filler);
    AddExactly(b, mask, b.tailSeq, filler);
  }

  /**
   A segment that touches the waiting bytes leaves one gap. Any data that fill it exactly then
   go well if and only if the segment was good, and otherwise never return. The segment is good
   exactly when the list begins at the read position, or the segment starts at or behind the
   waiting bytes or ends where they start.
   */
  lemma TouchExactly(b: Buf, mask: nat, at: nat, top: nat, start: nat, data: seq<Byte>, filler: seq<Byte>)
    requires GapAt(b, mask, at, top) && Touches(b, mask, at, top, start, |data|)
    requires |filler| == Low(b, at, start) - b.log.limit
    ensures var r := Add(b, mask, start, data);
      && r.Returns?
      && (AheadGood(b, mask, start, |data|) <==> WentWell(Add(r.buf, mask, b.tailSeq, filler)))
      && (!AheadGood(b, mask, start, |data|) <==> Add(r.buf, mask, b.tailSeq, filler) == Endless)
    ensures AheadGood(b, mask, start, |data|) <==>
      b.list.start == b.headSeq || start >= b.list.start || start + |data| == b.list.start
  {
    var pos := b.log.limit + (start - b.tailSeq);
    var low, high := Low(b, at, start), Max(top, pos + |data|);
    var b' := Touched(b, start, data, pos);
    if b.list.start == b.headSeq {
      TouchFront(b, mask, at, top, start, data, pos);
      TouchCloses(b', mask, low, high, filler);
    } else if at <= pos || pos + |data| == at {
      TouchIsland(b, mask, at, top, start, data, pos);
      TouchCloses(b', mask, low, high, filler);
    } else {
      TouchBelow(b, mask, at, top, start, data, pos);
    }
  }
}
