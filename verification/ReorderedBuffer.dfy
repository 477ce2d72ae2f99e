/**
 The reassembly buffer as an object: a byte ring, a segment list, and a three-state machine
 over 32-bit sequence numbers. Every operation carries out the transition of `Reassembly`,
 including the ones that go wrong.
 */
module ReorderedBuffer {
  import opened Words
  import opened RingBuffer
  import opened SegmentList
  import opened Reassembly
  import opened ReassemblyAnswers
  import opened ReassemblyTheorems

  datatype State = SClosed | SConnected | SConnectedOutOfOrder

  datatype ReadResult = Bytes(data: seq<Byte>) | ListEmpty

  function PhaseOf(s: State): (p: Phase) {
    match s
    case SClosed => Closed
    case SConnected => Connected
    case SConnectedOutOfOrder => Unordered
  }

  /** Data past a gap, given what was written and the log it left. */
  function AheadResult(b: Buf, start: nat, n: nat, w: nat, log: Log): (r: Result) {
    if Place(b.list, start, w).Spins? then Endless
    else Returns(b.(log := log, list := Listed(b.list, start, w)), w, w == n)
  }

  lemma AheadIs(b: Buf, mask: nat, start: nat, offset: nat, data: seq<Byte>, w: nat, log: Log)
    requires 0 < offset == start - b.tailSeq && w == AheadWritten(b, mask, start, |data|)
    requires log == WriteAhead(b.log, mask, offset, data)
    ensures Ahead(b, mask, start, data) == AheadResult(b, start, |data|, w, log)
  {
  }

  /** Leaving out what is known already changes nothing. */
  lemma TrimmedInsert(b: Buf, mask: nat, start: nat, data: seq<Byte>, known: nat)
    requires known == b.tailSeq - start && 0 < known < |data|
    ensures Insert(b, mask, start, data) == Insert(b, mask, b.tailSeq, data[known..])
    ensures InScope(b, mask, start, |data|) && b.phase.Unordered? ==> InScope(b, mask, b.tailSeq, |data| - known)
  {
  }

  lemma SmallMod(x: int)
    requires 0 <= x < U32
    ensures x % U32 == x
  {
  }

  lemma SmallPower(size: nat, rounded: nat)
    requires 1 <= size <= U16 && IsLeastPow2(rounded, size)
    ensures 0 < rounded <= U16
  {
    assert Pow2(16) == 65536 by { assert Pow2(8) == 256; Pow2Add(8, 8); }
  }

  // ---------------------------------------------------------------- the buffer

  class Buffer {
    const ring: Ring
    const segments: List
    const bufferSize: nat
    var state: State
    var headSeq: nat
    var tailSeq: nat

    ghost function Value(): Buf
      reads this, ring, segments
      requires segments.Valid()
    {
      Buf(PhaseOf(state), ring.log, segments.Contents(), headSeq, tailSeq)
    }

    ghost predicate Valid()
      reads this, ring, ring.vec, segments
    {
      ring.Valid() && segments.Valid() && WellFormed(Value(), ring.mask)
    }

    /** The buffer is in the state a transition ends in, if it ends. */
    ghost predicate Reached(r: Result)
      reads this, ring, ring.vec, segments
    {
      r.Returns? ==>
        && segments.Valid() && ring.Tied() && Value() == r.buf
        && (ring.Valid() <==> Within(ring.log, ring.mask))
    }

    constructor (ring: Ring, segments: List)
      requires ring.Valid() && ring.log == Log(0, 0, map[]) && ring.mask < U16
      requires segments.Valid() && segments.Contents() == NoSegment
      ensures Valid() && this.ring == ring && this.segments == segments && state == SClosed
      ensures bufferSize == ring.size
    {
      this.ring, this.segments, this.bufferSize := ring, segments, ring.size;
      state, headSeq, tailSeq := SClosed, 0, 0;
    }

    /** A buffer for `size` bytes: the ring gets the least power of two that holds them. */
    static method New(size: nat, segmentSize: nat) returns (b: Buffer)
      requires 1 <= size <= U16
      ensures fresh(b) && fresh(b.ring) && fresh(b.ring.vec) && fresh(b.segments)
      ensures b.Valid() && b.state == SClosed && IsLeastPow2(b.bufferSize, size)
    {
      var rounded := RoundToPowerOf2(size);
      SmallPower(size, rounded);
      var r := Ring.New(rounded);
      var list := new List(segmentSize);
      b := new Buffer(r.ring, list);
    }

    /** Forgets everything. */
    method Reset()
      requires Valid() && !segments.tangled
      modifies this, ring, segments
      ensures Valid() && state == SClosed
    {
      state := SClosed;
      segments.Clear();
      ring.Clear();
    }

    method FastPathInsert(data: seq<Byte>) returns (out: InsertionResult)
      requires Valid() && state == SConnected
      modifies this`tailSeq, ring, ring.vec
      ensures Valid() && out == Reply(AtTail(old(Value()), ring.mask, data))
      ensures Value() == AtTail(old(Value()), ring.mask, data).buf
      ensures AnswersInOrder(old(Value()), Value(), ring.mask, data, out)
    {
      InOrderAnswered(Value(), ring.mask, data);
      AtTailKeeps(Value(), ring.mask, data);
      var written := ring.WriteAtTail(data);
      tailSeq := (tailSeq + written) % U32;
      var available := ring.Available();
      if written == |data| {
        out := Inserted(written, available);
      } else {
        out := OutOfMemory(written, available);
      }
    }

    /** Opens the buffer at a sequence number. */
    method Seq(start: nat, data: seq<Byte>) returns (out: InsertionResult)
      requires Valid() && state == SClosed && start < U32
      modifies this, ring, ring.vec
      ensures Valid() && out == Reply(Open(old(Value()), ring.mask, start, data))
      ensures Value() == Open(old(Value()), ring.mask, start, data).buf
      ensures state == SConnected && headSeq == start && Value().list == NoSegment
      ensures AnswersInOrder(Buf(Connected, Log(0, 0, map[]), NoSegment, start, start), Value(), ring.mask, data, out)
    {
      ghost var b := Value();
      state := SConnected;
      headSeq := start;
      tailSeq := start;
      assert Value() == b.(phase := Connected, headSeq := start, tailSeq := start);
      out := FastPathInsert(data);
    }

    /** Notes the in-order data in the segment list. */
    method AddHeadToSegList()
      requires ring.Valid() && segments.Valid() && segments.Contents() == NoSegment
      requires ring.mask < U16 && headSeq + Held(ring.log) < U32
      modifies segments
      ensures segments.Valid()
      ensures segments.Contents() == if Held(ring.log) == 0 then NoSegment else OneSegment(headSeq, Held(ring.log))
    {
      var toInsert := ring.Available();
      var start := headSeq;
      while toInsert > 0
        invariant 0 <= toInsert && segments.Valid()
        invariant toInsert > 0 ==> toInsert == Held(ring.log) && start == headSeq && segments.Contents() == NoSegment
        invariant toInsert == 0 && Held(ring.log) > 0 ==> segments.Contents() == OneSegment(headSeq, Held(ring.log))
        invariant Held(ring.log) == 0 ==> segments.Contents() == NoSegment
      {
        var insert := Min(U16 - 1, toInsert);
        var _, _ := segments.InsertSegment(start, insert);
        start := (start + insert) % U32;
        toInsert := toInsert - insert;
      }
    }

    /** Data at the write position in out-of-order mode. */
    method FillAtTail(data: seq<Byte>) returns (out: InsertionResult)
      requires Valid() && state == SConnectedOutOfOrder && tailSeq + |data| < U32
      requires FirstDecides(Value(), ring.mask, tailSeq, |data|)
      modifies this, ring, ring.vec, segments
      ensures var r := Fill(old(Value()), ring.mask, data); out == Reply(r) && Reached(r)
      ensures Answered(out) ==> segments.Valid() && AnswersFill(old(Value()), Value(), ring.mask, data, out)
    {
      if Fill(Value(), ring.mask, data).Returns? { FillAnswered(Value(), ring.mask, data); }
      out := WriteAndNote(data);
    }

    /** Writes the data, notes their segment, and closes the gap if that is the first one. */
    method WriteAndNote(data: seq<Byte>) returns (out: InsertionResult)
      requires Valid() && state == SConnectedOutOfOrder && tailSeq + |data| < U32
      requires FirstDecides(Value(), ring.mask, tailSeq, |data|)
      modifies this, ring, ring.vec, segments
      ensures var r := Fill(old(Value()), ring.mask, data); out == Reply(r) && Reached(r)
    {
      ghost var b := Value();
      FillKnown(b, ring.mask, |data|);
      var start := tailSeq;
      var written := ring.WriteAtTail(data);
      tailSeq := (tailSeq + written) % U32;
      SmallMod(b.tailSeq + written);
      var segment, spins := segments.InsertSegment(start, written);
      if spins {
        return NeverReturns;
      }
      var isHead := segments.IsHead(segment);
      if !isHead {
        return AssertionFails;
      }
      FillEnds(b, ring.mask, written);
      out := CloseGap(written, data, b);
    }

    /** Ring, list and tail after the data and their segment are in, before the tails are moved. */
    ghost predicate Filling(b: Buf, data: seq<Byte>, written: nat)
      reads this, ring, ring.vec, segments
    {
      && ring.Valid() && segments.Valid() && segments.head != -1 && ring.mask < U16
      && written == Min(|data|, Room(b.log, ring.mask)) && ring.log == WriteTail(b.log, ring.mask, data)
      && state == SConnectedOutOfOrder && b.phase == Unordered
      && headSeq == b.headSeq && tailSeq == b.tailSeq + written
      && Place(b.list, b.tailSeq, written).AtHead?
      && segments.Contents() == Listed(b.list, b.tailSeq, written)
      && (segments.Contents().Several? ==> segments.storage[segments.head].next != -1)
      && segments.Contents().start + segments.Contents().len == tailSeq + Surplus(b, written) < U32
    }

    /** The first segment is at the front: everything up to its end becomes readable. */
    method CloseGap(written: nat, data: seq<Byte>, ghost b: Buf) returns (out: InsertionResult)
      requires Filling(b, data, written)
      modifies this, ring`tail, ring`log, segments
      ensures var r := Fill(b, ring.mask, data); out == Reply(r) && Reached(r)
    {
      var incr := ReachEnd(written, data, b);
      var grown := Max(written, incr);
      BackInOrder();
      out := Inserted(grown, ring.Available());
    }

    /** Moves both tails to the end of the first segment. */
    method ReachEnd(written: nat, data: seq<Byte>, ghost b: Buf) returns (incr: nat)
      requires Filling(b, data, written)
      modifies this`tailSeq, ring`tail, ring`log
      ensures incr == Surplus(b, written) && tailSeq == b.tailSeq + written + incr
      ensures ring.Tied() && ring.log == Extend(WriteTail(b.log, ring.mask, data), incr)
      ensures ring.Valid() <==> Within(ring.log, ring.mask)
    {
      var segEnd := FirstEnd();
      assert segEnd == tailSeq + Surplus(b, written) by { SmallMod(tailSeq + Surplus(b, written)); }
      incr := (segEnd - tailSeq) % U32;
      assert incr == Surplus(b, written) by { SmallMod(Surplus(b, written)); }
      tailSeq := segEnd;
      ring.SeekTail(incr);
    }

    function FirstEnd(): nat
      reads this, segments
      requires segments.Valid() && segments.head != -1
    {
      var seg := segments.storage[segments.head];
      (seg.seq_ + seg.length) % U32
    }

    /** With one segment left the buffer returns to the fast path. */
    method BackInOrder()
      requires segments.Valid() && segments.head != -1
      requires segments.tangled ==> segments.storage[segments.head].next != -1
      modifies this`state, segments
      ensures segments.Valid()
      ensures old(segments.Contents()).Several? ==>
        segments.Contents() == old(segments.Contents()) && state == old(state)
      ensures !old(segments.Contents()).Several? ==> segments.Contents() == NoSegment && state == SConnected
    {
      var one := segments.AtMostOne();
      if one {
        segments.Clear();
        state := SConnected;
      }
    }

    /** Data past the gap. */
    method InsertAhead(start: nat, data: seq<Byte>) returns (out: InsertionResult)
      requires Valid() && state == SConnectedOutOfOrder && start > tailSeq && start + |data| < U32
      requires !segments.tangled
      modifies ring, ring.vec, segments
      ensures var r := Ahead(old(Value()), ring.mask, start, data); out == Reply(r) && Reached(r)
      ensures Answered(out) ==> segments.Valid() && AnswersAhead(old(Value()), Value(), ring.mask, start, data, out)
    {
      ghost var b := Value();
      if Ahead(b, ring.mask, start, data).Returns? { AheadAnswered(b, ring.mask, start, data); }
      AheadKnown(b, ring.mask, start, |data|);
      var offset := start - tailSeq;
      var written := ring.WriteAtOffsetFromTail(offset, data);
      AheadIs(b, ring.mask, start, offset, data, written, ring.log);
      out := NoteAhead(start, data, written, b, ring.log);
    }

    /** The segment is noted, and the caller told. */
    method NoteAhead(start: nat, data: seq<Byte>, written: nat, ghost b: Buf, ghost log: Log)
      returns (out: InsertionResult)
      requires ring.Valid() && segments.Valid() && Value() == b.(log := log)
      requires Known(b.list, start, written) && !b.list.Several?
      modifies segments
      ensures var r := AheadResult(b, start, |data|, written, log); out == Reply(r) && Reached(r)
    {
      var _, spins := segments.InsertSegment(start, written);
      if spins {
        return NeverReturns;
      }
      var available := ring.Available();
      if written == |data| {
        out := Inserted(written, available);
      } else {
        out := OutOfMemory(written, available);
      }
    }

    method OutOfOrderInsert(start: nat, data: seq<Byte>) returns (out: InsertionResult)
      requires Valid() && state == SConnectedOutOfOrder && InScope(Value(), ring.mask, start, |data|)
      modifies this, ring, ring.vec, segments
      ensures var r := Insert(old(Value()), ring.mask, start, data); out == Reply(r) && Reached(r)
      decreases |data|
    {
      ghost var b := Value();
      if tailSeq == start {
        out := FillAtTail(data);
      } else if tailSeq >= start {
        var offset := tailSeq - start;
        if |data| > offset {
          TrimmedInsert(b, ring.mask, start, data, offset);
          out := OutOfOrderInsert(tailSeq, data[offset..]);
        } else {
          var available := ring.Available();
          out := Inserted(0, available);
        }
      } else {
        out := InsertAhead(start, data);
      }
    }

    method SlowPathInsert(start: nat, data: seq<Byte>) returns (out: InsertionResult)
      requires Valid() && state == SConnected && start != tailSeq && InScope(Value(), ring.mask, start, |data|)
      modifies this, ring, ring.vec, segments
      ensures var r := Add(old(Value()), ring.mask, start, data); out == Reply(r) && Reached(r)
    {
      ghost var b := Value();
      SmallMod(start + |data|);
      var end := (start + |data|) % U32;
      if tailSeq > start && end > tailSeq {
        out := InsertOverlap(start, data);
      } else if end < tailSeq {
        assert Add(b, ring.mask, start, data) == Returns(b, 0, true);
        var available := ring.Available();
        out := Inserted(0, available);
      } else {
        assert Add(b, ring.mask, start, data) == Insert(Noted(b), ring.mask, start, data);
        out := EnterOutOfOrder(start, data);
      }
    }

    /** Part of the data was received before. */
    method InsertOverlap(start: nat, data: seq<Byte>) returns (out: InsertionResult)
      requires Valid() && state == SConnected && start < tailSeq < start + |data|
      modifies this`tailSeq, ring, ring.vec
      ensures var r := Add(old(Value()), ring.mask, start, data); out == Reply(r) && Reached(r)
    {
      var begin := tailSeq - start;
      assert Add(Value(), ring.mask, start, data) == AtTail(Value(), ring.mask, data[begin..]);
      out := FastPathInsert(data[begin..]);
    }

    /** Out-of-order mode begins: note the in-order data, then insert. */
    method EnterOutOfOrder(start: nat, data: seq<Byte>) returns (out: InsertionResult)
      requires Valid() && state == SConnected && headSeq <= tailSeq && start + |data| < U32
      modifies this, ring, ring.vec, segments
      ensures var r := Insert(Noted(old(Value())), ring.mask, start, data); out == Reply(r) && Reached(r)
    {
      ghost var b := Value();
      NotedKeeps(b, ring.mask);
      NoWrapHeld(b, ring.mask);
      state := SConnectedOutOfOrder;
      AddHeadToSegList();
      assert Value() == Noted(b);
      out := OutOfOrderInsert(start, data);
    }

    /** A segment on an open buffer. */
    method AddData(start: nat, data: seq<Byte>) returns (out: InsertionResult)
      requires Valid() && InScope(Value(), ring.mask, start, |data|)
      modifies this, ring, ring.vec, segments
      ensures var r := Add(old(Value()), ring.mask, start, data); out == Reply(r) && Reached(r)
      ensures AddSafe(old(Value()), ring.mask, start, |data|) ==> Valid() && Answered(out)
      ensures Answered(out) ==> segments.Valid() && Answers(old(Value()), Value(), ring.mask, start, data, out)
    {
      if Add(Value(), ring.mask, start, data).Returns? { AddAnswered(Value(), ring.mask, start, data); }
      if AddSafe(Value(), ring.mask, start, |data|) { AddKeeps(Value(), ring.mask, start, data); }
      if state.SConnected? {
        if start == tailSeq {
          out := FastPathInsert(data);
        } else {
          out := SlowPathInsert(start, data);
        }
      } else {
        out := OutOfOrderInsert(start, data);
      }
    }

    /** In-order bytes; on an empty segment list the out-of-order path indexes past the end. */
    method ReadData(n: nat) returns (out: ReadResult)
      requires Valid()
      modifies this`headSeq, ring`head, ring`log, segments
      ensures out.ListEmpty? <==> !ReadSafe(old(Value()))
      ensures out.Bytes? ==> Valid()
      ensures out.Bytes? && old(state).SClosed? ==> out.data == [] && Value() == old(Value())
      ensures out.Bytes? && !old(state).SClosed? ==>
        && Value() == ReadOut(old(Value()), n)
        && out.data == Readable(old(ring.log))[..Min(n, Held(old(ring.log)))]
    {
      ghost var b := Value();
      match state {
        case SConnected =>
          ReadKeeps(b, ring.mask, n);
          var data := ReadDataCommon(n);
          out := Bytes(data);
        case SConnectedOutOfOrder =>
          if segments.head == -1 {
            return ListEmpty;
          }
          ReadKeeps(b, ring.mask, n);
          var start := headSeq;
          var data := ReadDataCommon(n);
          var _ := segments.ConsumeHeadData(start, |data|);
          assert Value() == ReadOut(b, n);
          out := Bytes(data);
        case SClosed =>
          out := Bytes([]);
      }
    }

    method ReadDataCommon(n: nat) returns (data: seq<Byte>)
      requires ring.Valid() && Complete(ring.log)
      modifies this`headSeq, ring`head, ring`log
      ensures ring.Valid() && ring.log == Consume(old(ring.log), n)
      ensures headSeq == (old(headSeq) + Min(n, Held(old(ring.log)))) % U32
      ensures data == Readable(old(ring.log))[..Min(n, Held(old(ring.log)))]
    {
      data := ring.ReadFromHead(n);
      headSeq := (headSeq + |data|) % U32;
    }

    /** Any safe sequence of segments and reads, and all the bytes it hands out. */
    method Process(events: seq<Event>) returns (out: seq<Byte>)
      requires Valid() && Sound(Value(), ring.mask) && SafeTrace(Value(), ring.mask, events)
      modifies this, ring, ring.vec, segments
      ensures Valid() && Value() == RunTrace(old(Value()), ring.mask, events)
      ensures out == Delivered(old(Value()), ring.mask, events)
    {
      ghost var b, mask := Value(), ring.mask;
      out := [];
      for i := 0 to |events|
        invariant Valid() && Sound(Value(), mask) && SafeTrace(Value(), mask, events[i..])
        invariant RunTrace(Value(), mask, events[i..]) == RunTrace(b, mask, events)
        invariant out + Delivered(Value(), mask, events[i..]) == Delivered(b, mask, events)
      {
        TraceUnfolds(Value(), mask, events, i, out);
        StepKeeps(Value(), mask, events[i]);
        var bytes := ProcessOne(events[i]);
        out := out + bytes;
      }
    }

    method ProcessOne(e: Event) returns (bytes: seq<Byte>)
      requires Valid() && Sound(Value(), ring.mask) && Safe(Value(), ring.mask, e)
      modifies this, ring, ring.vec, segments
      ensures Valid() && Value() == StepEvent(old(Value()), ring.mask, e) && bytes == Output(old(Value()), e)
    {
      bytes := [];
      match e {
        case Arrive(start, data) =>
          AddKeeps(Value(), ring.mask, start, data);
          var _ := AddData(start, data);
        case Fetch(n) =>
          var r := ReadData(n);
          bytes := r.data;
      }
    }
  }
}
