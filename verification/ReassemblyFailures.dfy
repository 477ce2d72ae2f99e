/**
 Where the reassembly buffer falls short: the exact conditions, and for each way of failing a
 short trace from a new buffer that reaches it.
 */
module ReassemblyFailures {
  import opened Words
  import opened RingBuffer
  import opened SegmentList
  import opened Reassembly
  import opened ReassemblyAnswers
  import opened ReassemblyTheorems
  import opened ReassemblyGaps

  /** A buffer of `mask + 1` cells opened at a sequence number. */
  function Opened(mask: nat, start: nat, data: seq<Byte>): Buf {
    Open(Buf(Closed, Log(0, 0, map[]), NoSegment, 0, 0), mask, start, data).buf
  }

  lemma OpenedEmpty(mask: nat, start: nat)
    ensures Opened(mask, start, []) == Buf(Connected, Log(0, 0, map[]), NoSegment, start, start % U32)
  {
    assert Opened(mask, start, []).log.bytes == map[];
  }

  // ---------------------------------------------------------------- segments past the window

  /** The list after a segment that starts past the window of an in-order buffer. */
  lemma MissedList(b: Buf, mask: nat, start: nat, data: seq<Byte>)
    requires WellFormed(b, mask) && b.phase.Connected? && b.headSeq <= b.tailSeq < start
    requires start + |data| < U32 && start - b.tailSeq > Room(b.log, mask)
    ensures AddSafe(b, mask, start, |data|)
    ensures Add(b, mask, start, data).buf == b.(phase := Unordered,
      list := if Held(b.log) == 0 then OneSegment(start, 0)
              else OneSegment(b.headSeq, (Held(b.log) + (start - b.tailSeq)) % U16))
  {
    NoWrapHeld(b, mask);
  }

  /**
   A segment past the window is not stored, yet the list notes it. No data at the write
   position are then handled correctly, unless data were waiting and the noted length,
   cut to 16 bits, happens to end inside the window.
   */
  lemma MissedWindow(b: Buf, mask: nat, start: nat, data: seq<Byte>)
    requires WellFormed(b, mask) && b.phase.Connected? && b.headSeq <= b.tailSeq < start
    requires start + |data| < U32 && start - b.tailSeq > Room(b.log, mask)
    ensures var b' := Add(b, mask, start, data).buf;
      && b'.log == b.log
      && ((exists n: nat :: FillGood(b', mask, n)) <==>
          Held(b.log) > 0 && (Held(b.log) + (start - b.tailSeq)) % U16 <= mask)
  {
    MissedList(b, mask, start, data);
    var b', l := Add(b, mask, start, data).buf, b.log;
    if Held(l) > 0 {
      var len := (Held(l) + (start - b.tailSeq)) % U16;
      if len <= mask {
        assert HoleEnd(l, l.limit, l.first + len) <= l.limit + Room(l, mask);
        assert FillGood(b', mask, Room(l, mask));
      } else {
        assert l.first + len - 1 !in l.bytes;
        assert HoleEnd(l, l.limit, l.first + len) == l.first + len;
      }
    }
  }

  /** Opened at 100 with 64 cells: after a byte at 200, the byte at 100 never returns. */
  lemma MissedThenEndless(x: Byte, y: Byte)
    ensures var b := Add(Opened(63, 100, []), 63, 200, [x]).buf;
      b.list == OneSegment(200, 0) && Add(b, 63, 100, [y]) == Endless
  {
    OpenedEmpty(63, 100);
    MissedList(Opened(63, 100, []), 63, 200, [x]);
  }

  /** The list claims up to 200, the byte reaches 102: the fill moves the tail by the difference. */
  lemma ClaimedFill(b: Buf, bytes: map<nat, Byte>, y: Byte)
    requires b == Buf(Unordered, Log(0, 1, bytes), OneSegment(100, 100), 100, 101)
    ensures var r := Add(b, 63, 101, [y]);
      r.Returns? && r.buf.log == Log(0, 100, Laid(bytes, 1, [y]))
  {
    assert Surplus(b, 1) == 98;
    FillReturns(b, 63, [y], 1, 98);
    ExactWrite(b.log, 63, [y]);
  }

  /** The same with one byte waiting: the next byte moves the ring's tail past its capacity. */
  lemma MissedThenPastCapacity(w: Byte, x: Byte, y: Byte)
    ensures var b := Add(Opened(63, 100, [w]), 63, 200, [x]).buf;
      && b.list == OneSegment(100, 100)
      && var r := Add(b, 63, 101, [y]);
      r.Returns? && Held(r.buf.log) == 100 && !Within(r.buf.log, 63) && !Complete(r.buf.log)
  {
    var bytes := Laid(map[], 0, [w]);
    ExactWrite(Log(0, 0, map[]), 63, [w]);
    var b0 := Buf(Connected, Log(0, 1, bytes), NoSegment, 100, 101);
    assert Opened(63, 100, [w]) == b0;
    MissedList(b0, 63, 200, [x]);
    var b := b0.(phase := Unordered, list := OneSegment(100, 100));
    ClaimedFill(b, bytes, y);
    assert 50 !in Laid(bytes, 1, [y]);
  }

  // ---------------------------------------------------------------- data in front of waiting data

  /** Ten bytes wait at 110 of a buffer opened at 100. */
  ghost predicate Waiting(b: Buf) {
    && GapAt(b, 63, 10, 20) && b.list == OneSegment(110, 10)
    && b.tailSeq == 100 && b.log.first == b.log.limit == 0
  }

  lemma WaitingReached(chunk: seq<Byte>)
    requires |chunk| == 10
    ensures Add(Opened(63, 100, []), 63, 110, chunk).Returns?
    ensures Waiting(Add(Opened(63, 100, []), 63, 110, chunk).buf)
  {
    var b0 := Buf(Connected, Log(0, 0, map[]), NoSegment, 100, 100);
    OpenedEmpty(63, 100);
    GapOpens(b0, 63, 110, chunk, 10);
    assert Add(b0, 63, 110, chunk).buf.list == OneSegment(110, 10);
  }

  /** A buffer opened at 100 that has received ten bytes at 110. */
  function WithWaiting(chunk: seq<Byte>): Buf
    requires |chunk| == 10
  {
    WaitingReached(chunk);
    Add(Opened(63, 100, []), 63, 110, chunk).buf
  }

  /** Data that end in front of the first segment and do not touch it: the call itself never returns. */
  lemma ShortOfFirst(b: Buf, mask: nat, start: nat, data: seq<Byte>)
    requires WellFormed(b, mask) && b.phase.Unordered? && b.list.OneSegment?
    requires b.tailSeq < start && start + |data| < b.list.start < U32
    ensures Add(b, mask, start, data) == Endless
  {
    AheadExactly(b, mask, start, data);
    assert AheadWritten(b, mask, start, |data|) <= |data|;
    assert Add(b, mask, start, data) == Ahead(b, mask, start, data);
  }

  /** Two bytes in front of the ten, for one. */
  lemma InFrontEndless(chunk: seq<Byte>, two: seq<Byte>)
    requires |chunk| == 10 && |two| == 2
    ensures Add(WithWaiting(chunk), 63, 103, two) == Endless
  {
    WaitingReached(chunk);
    ShortOfFirst(WithWaiting(chunk), 63, 103, two);
  }

  /** Five bytes that end where they start join them, and five more close the gap. */
  lemma JoinedBelow(chunk: seq<Byte>, five: seq<Byte>, filler: seq<Byte>)
    requires |chunk| == 10 && |five| == 5 && |filler| == 5
    ensures var r := Add(WithWaiting(chunk), 63, 105, five);
      && r.Returns? && r.buf.list == OneSegment(105, 15) && AddSafe(r.buf, 63, 100, 5)
      && var closed := Add(r.buf, 63, 100, filler);
      closed.Returns? && closed.buf.phase.Connected?
  {
    var b := WithWaiting(chunk);
    WaitingReached(chunk);
    TouchIsland(b, 63, 10, 20, 105, five, 5);
    var r := Ahead(b, 63, 105, five);
    assert Add(b, 63, 105, five) == r && r.buf.list == OneSegment(105, 15);
    GapCloses(r.buf, 63, 5, 20, filler);
  }

  /** Ten bytes that reach into them are put behind them, and the fill that closes the gap never returns. */
  lemma OverlapThenEndless(chunk: seq<Byte>, ten: seq<Byte>, filler: seq<Byte>)
    requires |chunk| == 10 && |ten| == 10 && |filler| == 5
    ensures var r := Add(WithWaiting(chunk), 63, 105, ten);
      r.Returns? && r.buf.list == Several(110, 10) && Add(r.buf, 63, 100, filler) == Endless
  {
    var b := WithWaiting(chunk);
    WaitingReached(chunk);
    TouchBelow(b, 63, 10, 20, 105, ten, 5);
    assert Add(b, 63, 105, ten) == Ahead(b, 63, 105, ten);
  }

  // ---------------------------------------------------------------- fills of the wrong length

  /** A byte waits at 102 of a buffer opened at 100. */
  lemma WaitingByte(x: Byte)
    ensures AddSafe(Opened(63, 100, []), 63, 102, 1)
    ensures var b := Add(Opened(63, 100, []), 63, 102, [x]).buf;
      && b.phase.Unordered? && b.list == OneSegment(102, 1) && b.tailSeq == 100
      && b.log.limit == 0 && Room(b.log, 63) == 63
  {
    OpenedEmpty(63, 100);
    GapOpens(Opened(63, 100, []), 63, 102, [x], 2);
  }

  /** One byte at 100 then never returns. */
  lemma ShortFillEndless(x: Byte, y: Byte)
    ensures AddSafe(Opened(63, 100, []), 63, 102, 1)
    ensures var b := Add(Opened(63, 100, []), 63, 102, [x]).buf;
      !FillGood(b, 63, 1) && Add(b, 63, 100, [y]) == Endless
  {
    WaitingByte(x);
  }

  /** Three bytes at 100 fail the assertion that their segment is the head. */
  lemma LongFillNotHead(x: Byte, three: seq<Byte>)
    requires |three| == 3
    ensures AddSafe(Opened(63, 100, []), 63, 102, 1)
    ensures var b := Add(Opened(63, 100, []), 63, 102, [x]).buf;
      !FillGood(b, 63, 3) && Add(b, 63, 100, three) == NotHead
  {
    WaitingByte(x);
  }

  /** A byte waits in order at 100 and one at 103; position 2 is missing. */
  lemma WaitingBehindOne(w: Byte, x: Byte)
    ensures AddSafe(Opened(63, 100, [w]), 63, 103, 1)
    ensures var b := Add(Opened(63, 100, [w]), 63, 103, [x]).buf;
      && b.phase.Unordered? && b.list == OneSegment(100, 4) && b.headSeq == 100 && b.tailSeq == 101
      && b.log.first == 0 && b.log.limit == 1 && 2 !in b.log.bytes && 3 in b.log.bytes
  {
    var b0 := Opened(63, 100, [w]);
    ExactWrite(Log(0, 0, map[]), 63, [w]);
    assert b0 == Buf(Connected, Log(0, 1, Laid(map[], 0, [w])), NoSegment, 100, 101);
    GapOpens(b0, 63, 103, [x], 3);
  }

  /** One byte at 101 then makes position 2 readable, which was never received. */
  lemma ShortFillExposes(w: Byte, x: Byte, y: Byte)
    ensures AddSafe(Opened(63, 100, [w]), 63, 103, 1)
    ensures var b := Add(Opened(63, 100, [w]), 63, 103, [x]).buf;
      && !FillGood(b, 63, 1)
      && var r := Add(b, 63, 101, [y]);
      r.Returns? && r.buf.log.first <= 2 < r.buf.log.limit && 2 !in r.buf.log.bytes
  {
    WaitingBehindOne(w, x);
    var b := Add(Opened(63, 100, [w]), 63, 103, [x]).buf;
    ExactWrite(b.log, 63, [y]);
    assert HoleEnd(b.log, 1, 4) == 3;
  }

  // ---------------------------------------------------------------- answers that mislead

  /** The same buffer has room for 62 bytes. A hundred at 101 are answered `Inserted`, and 38 are gone. */
  lemma FillDropsSilently(w: Byte, x: Byte, data: seq<Byte>)
    requires |data| == 100
    ensures var b := Add(Opened(63, 100, [w]), 63, 103, [x]).buf;
      && FillGood(b, 63, 100)
      && var r := Add(b, 63, 101, data);
      r.Returns? && Reply(r) == Inserted(62, 63) && InWindow(r.buf.log, 63)
  {
    WaitingBehindOne(w, x);
    var b := Add(Opened(63, 100, [w]), 63, 103, [x]).buf;
    assert WellFormed(b, 63) by { OneByteKeeps(w, x); }
    assert FillGood(b, 63, 100);
    SafeInsert(b, 63, 101, 100);
    AddKeeps(b, 63, 101, data);
    FillGrows(b, 63, data, 62);
  }

  lemma OneByteKeeps(w: Byte, x: Byte)
    ensures WellFormed(Add(Opened(63, 100, [w]), 63, 103, [x]).buf, 63)
  {
    WaitingBehindOne(w, x);
    var b0 := Opened(63, 100, [w]);
    ExactWrite(Log(0, 0, map[]), 63, [w]);
    assert b0 == Buf(Connected, Log(0, 1, Laid(map[], 0, [w])), NoSegment, 100, 101);
    AddKeeps(b0, 63, 103, [x]);
  }

  /** Two bytes at 101 make three readable, and the answer says two. */
  lemma FillMiscounts(w: Byte, x: Byte, two: seq<Byte>)
    requires |two| == 2
    ensures var b := Add(Opened(63, 100, [w]), 63, 103, [x]).buf;
      && FillGood(b, 63, 2) && Held(b.log) == 1
      && var r := Add(b, 63, 101, two);
      r.Returns? && Reply(r) == Inserted(2, 4)
  {
    WaitingBehindOne(w, x);
    var b := Add(Opened(63, 100, [w]), 63, 103, [x]).buf;
    assert HoleEnd(b.log, 1, 4) == 3;
    FillGrows(b, 63, two, 2);
  }

  // ---------------------------------------------------------------- repeated data

  function Sum(sizes: seq<nat>): nat {
    if sizes == [] then 0 else sizes[0] + Sum(sizes[1..])
  }

  /** Every read comes while bytes are left from the ones before. */
  ghost predicate LeavesSome(sizes: seq<nat>, held: nat) {
    forall k :: 0 <= k < |sizes| ==> Sum(sizes[..k]) < held
  }

  lemma LeavesSomeStep(sizes: seq<nat>, held: nat)
    requires sizes != []
    ensures LeavesSome(sizes, held) <==>
      held > 0 && LeavesSome(sizes[1..], if sizes[0] < held then held - sizes[0] else 0)
  {
    var rest, left := sizes[1..], if sizes[0] < held then held - sizes[0] else 0;
    assert sizes[..0] == [];
    forall k | 0 < k < |sizes| ensures Sum(sizes[..k]) == sizes[0] + Sum(rest[..k - 1]) {
      assert sizes[..k][1..] == rest[..k - 1];
    }
    if LeavesSome(sizes, held) {
      forall k | 0 <= k < |rest| ensures Sum(rest[..k]) < left {
        assert Sum(sizes[..k + 1]) < held;
      }
    }
    if held > 0 && LeavesSome(rest, left) {
      forall k | 0 <= k < |sizes| ensures Sum(sizes[..k]) < held {
        if k > 0 { assert Sum(rest[..k - 1]) < left; }
      }
    }
  }

  /** Out-of-order mode with the in-order data noted and nothing else. */
  ghost predicate Settled(b: Buf) {
    b.phase.Unordered? && b == Noted(b)
  }

  lemma {:induction false} SettledReads(b: Buf, mask: nat, sizes: seq<nat>)
    requires WellFormed(b, mask) && Settled(b)
    ensures SafeTrace(b, mask, Reads(sizes)) <==> LeavesSome(sizes, Held(b.log))
    decreases |sizes|
  {
    if sizes != [] {
      var m, events := ReadOut(b, sizes[0]), Reads(sizes);
      assert events[0] == Fetch(sizes[0]) && events[1..] == Reads(sizes[1..]);
      LeavesSomeStep(sizes, Held(b.log));
      ReadKeeps(b, mask, sizes[0]);
      if Held(b.log) > 0 {
        assert Settled(m);
        SettledReads(m, mask, sizes[1..]);
      }
    }
  }

  /**
   Data repeated up to the write position put an in-order buffer into out-of-order mode. Reads
   then fail as soon as everything has been read: they are all safe if and only if each one
   still finds bytes.
   */
  lemma DuplicateBlocksReads(b: Buf, mask: nat, start: nat, data: seq<Byte>, sizes: seq<nat>)
    requires WellFormed(b, mask) && b.phase.Connected? && start < b.tailSeq && start + |data| == b.tailSeq
    requires b.headSeq <= b.tailSeq
    ensures AddSafe(b, mask, start, |data|)
    ensures SafeTrace(Add(b, mask, start, data).buf, mask, Reads(sizes)) <==> LeavesSome(sizes, Held(b.log))
  {
    NotedKeeps(b, mask);
    SettledReads(Noted(b), mask, sizes);
  }

  /** Opened at 100 with one byte: repeat it, read it, read again. */
  lemma DuplicateBlocksReadsExample(x: Byte)
    ensures var b := Opened(63, 100, [x]);
      && AddSafe(b, 63, 100, 1)
      && var b1 := Add(b, 63, 100, [x]).buf;
      ReadSafe(b1) && !ReadSafe(ReadOut(b1, 1))
  {
    ExactWrite(Log(0, 0, map[]), 63, [x]);
    assert Opened(63, 100, [x]) == Buf(Connected, Log(0, 1, Laid(map[], 0, [x])), NoSegment, 100, 101);
  }
}
