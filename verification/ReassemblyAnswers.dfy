/**
 What the caller of the reassembly buffer is told, said of the buffer before and after the
 call: how many bytes became readable or were stored, whether any were left out, and how many
 can be read now.
 */
module ReassemblyAnswers {
  import opened Words
  import opened RingBuffer
  import opened SegmentList
  import opened Reassembly

  /** Results of an insertion; the last two are a failed assertion and an endless loop. */
  datatype InsertionResult =
    | Inserted(written: nat, available: nat)
    | OutOfMemory(written: nat, available: nat)
    | AssertionFails
    | NeverReturns

  /** What the caller is told about a transition. */
  function Reply(r: Result): (out: InsertionResult) {
    match r
    case Returns(b, w, full) => if full then Inserted(w, Held(b.log)) else OutOfMemory(w, Held(b.log))
    case NotHead => AssertionFails
    case Endless => NeverReturns
  }

  predicate Answered(out: InsertionResult) {
    out.Inserted? || out.OutOfMemory?
  }

  /**
   In order, `written` of the bytes from the write position on became readable behind the old
   ones. The answer is `Inserted` exactly when that is all of them, and otherwise the ring is full.
   */
  ghost predicate AnswersInOrder(b: Buf, b': Buf, mask: nat, rest: seq<Byte>, out: InsertionResult) {
    && Answered(out) && out.available == Held(b'.log) && out.written == Held(b'.log) - Held(b.log) <= |rest|
    && Complete(b.log) && Complete(b'.log) && Readable(b'.log) == Readable(b.log) + rest[..out.written]
    && (out.Inserted? <==> out.written == |rest|)
    && (out.OutOfMemory? ==> Held(b'.log) == mask)
    && b'.headSeq == b.headSeq && b'.tailSeq == (b.tailSeq + out.written) % U32
  }

  /**
   Past a gap nothing becomes readable. The bytes stored, each at its place, are those that
   lie in the ring's window; `written` counts them, and the answer is `Inserted` exactly when
   they are all.
   */
  ghost predicate AnswersAhead(b: Buf, b': Buf, mask: nat, start: nat, data: seq<Byte>, out: InsertionResult)
    requires b.tailSeq < start
  {
    var at := b.log.limit + (start - b.tailSeq);
    && Answered(out) && out.available == Held(b'.log) == Held(b.log) && out.written <= |data|
    && InWindowPart(b.log, mask, at, |data|, out.written)
    && b'.log.bytes == Laid(b.log.bytes, at, data[..out.written])
    && (out.Inserted? <==> data == [] || at + |data| <= b.log.first + mask)
    && b'.headSeq == b.headSeq && b'.tailSeq == b.tailSeq
  }

  /**
   Data at the write position in out-of-order mode are always answered `Inserted`. `stored` of
   them were stored, as many as there is room for; `grown` bytes became readable; the count
   returned is the larger of `stored` and what became readable beyond it.
   */
  ghost predicate AnswersFill(b: Buf, b': Buf, mask: nat, rest: seq<Byte>, out: InsertionResult) {
    && out.Inserted? && out.available == Held(b'.log) && b'.log.first == b.log.first
    && var grown := b'.log.limit - b.log.limit;
    && var stored := if |rest| < Room(b.log, mask) then |rest| else Room(b.log, mask);
    && b'.log.bytes == Laid(b.log.bytes, b.log.limit, rest[..stored]) && stored <= grown
    && out.written == (if grown - stored < stored then stored else grown - stored)
    && b'.headSeq == b.headSeq && b'.tailSeq == b.tailSeq + grown
  }

  /** The answer to `add_data` by where the segment lies. */
  ghost predicate Answers(b: Buf, b': Buf, mask: nat, start: nat, data: seq<Byte>, out: InsertionResult) {
    if start > b.tailSeq then AnswersAhead(b, b', mask, start, data, out)
    else if ReachesTail(b, start, |data|) then
      var rest := data[b.tailSeq - start..];
      if b.phase.Unordered? then AnswersFill(b, b', mask, rest, out) else AnswersInOrder(b, b', mask, rest, out)
    else out == Inserted(0, Held(b.log)) && b'.log == b.log && b'.headSeq == b.headSeq && b'.tailSeq == b.tailSeq
  }

  lemma InOrderAnswered(b: Buf, mask: nat, data: seq<Byte>)
    requires WellFormed(b, mask)
    ensures var r := AtTail(b, mask, data); AnswersInOrder(b, r.buf, mask, data, Reply(r))
  {
    var w, l := Min(|data|, Room(b.log, mask)), b.log;
    var l' := WriteTail(l, mask, data);
    WriteTailIs(l, mask, data, w);
    assert Complete(l') && Readable(l') == Readable(l) + data[..w] by { ReadableGrows(l, l', data[..w]); }
  }

  lemma ReadableGrows(l: Log, l': Log, more: seq<Byte>)
    requires Complete(l) && l.first <= l.limit && l' == Log(l.first, l.limit + |more|, Laid(l.bytes, l.limit, more))
    ensures Complete(l') && Readable(l') == Readable(l) + more
  {
  }

  lemma AheadAnswered(b: Buf, mask: nat, start: nat, data: seq<Byte>)
    requires Within(b.log, mask) && b.tailSeq < start && Ahead(b, mask, start, data).Returns?
    ensures var r := Ahead(b, mask, start, data); AnswersAhead(b, r.buf, mask, start, data, Reply(r))
  {
    var offset, w := start - b.tailSeq, AheadWritten(b, mask, start, |data|);
    AheadReturned(b, mask, start, data, offset, w);
    AheadReply(b, mask, start, data, offset, w, Ahead(b, mask, start, data));
  }

  lemma AheadReturned(b: Buf, mask: nat, start: nat, data: seq<Byte>, offset: nat, w: nat)
    requires b.tailSeq < start && offset == start - b.tailSeq && w == AheadWritten(b, mask, start, |data|)
    requires Ahead(b, mask, start, data).Returns?
    ensures AheadState(b, mask, offset, data, w, Ahead(b, mask, start, data))
  {
    if !Place(b.list, start, w).Spins? { AheadReturns(b, mask, start, data, offset, w); }
  }

  ghost predicate AheadState(b: Buf, mask: nat, offset: nat, data: seq<Byte>, w: nat, r: Result) {
    && r.Returns? && r.written == w && r.full == (w == |data|)
    && r.buf.log == WriteAhead(b.log, mask, offset, data)
    && r.buf.headSeq == b.headSeq && r.buf.tailSeq == b.tailSeq
  }

  lemma AheadReply(b: Buf, mask: nat, start: nat, data: seq<Byte>, offset: nat, w: nat, r: Result)
    requires Within(b.log, mask) && b.tailSeq < start && offset == start - b.tailSeq
    requires w == AheadWritten(b, mask, start, |data|) && AheadState(b, mask, offset, data, w, r)
    ensures AnswersAhead(b, r.buf, mask, start, data, Reply(r))
  {
    var at := b.log.limit + offset;
    AheadStores(b.log, mask, offset, data, w, at);
    StoredReply(b, mask, start, data, w, at, r);
  }

  lemma StoredReply(b: Buf, mask: nat, start: nat, data: seq<Byte>, w: nat, at: nat, r: Result)
    requires b.tailSeq < start && at == b.log.limit + (start - b.tailSeq) && w <= |data|
    requires r.Returns? && r.written == w && r.full == (w == |data|)
    requires r.buf.log == b.log.(bytes := Laid(b.log.bytes, at, data[..w]))
    requires r.buf.headSeq == b.headSeq && r.buf.tailSeq == b.tailSeq
    requires w == |data| <==> data == [] || at + |data| <= b.log.first + mask
    requires InWindowPart(b.log, mask, at, |data|, w)
    ensures AnswersAhead(b, r.buf, mask, start, data, Reply(r))
  {
  }

  lemma FillAnswered(b: Buf, mask: nat, rest: seq<Byte>)
    requires WellFormed(b, mask) && Fill(b, mask, rest).Returns?
    ensures var r := Fill(b, mask, rest); AnswersFill(b, r.buf, mask, rest, Reply(r))
  {
    var w := Min(|rest|, Room(b.log, mask));
    WriteTailIs(b.log, mask, rest, w);
  }

  lemma InsertAnswered(b: Buf, mask: nat, start: nat, data: seq<Byte>)
    requires WellFormed(b, mask) && b.phase.Unordered? && Insert(b, mask, start, data).Returns?
    ensures var r := Insert(b, mask, start, data); Answers(b, r.buf, mask, start, data, Reply(r))
  {
    if start > b.tailSeq {
      AheadAnswered(b, mask, start, data);
    } else if ReachesTail(b, start, |data|) {
      InsertIsFill(b, mask, start, data);
      assert data[0..] == data;
      FillAnswered(b, mask, Rest(b, start, data));
    }
  }

  /** Whatever returns is answered truthfully in this sense, safe or not. */
  lemma AddAnswered(b: Buf, mask: nat, start: nat, data: seq<Byte>)
    requires WellFormed(b, mask) && InScope(b, mask, start, |data|) && Add(b, mask, start, data).Returns?
    ensures var r := Add(b, mask, start, data); Answers(b, r.buf, mask, start, data, Reply(r))
  {
    if b.phase.Unordered? {
      InsertAnswered(b, mask, start, data);
    } else if ReachesTail(b, start, |data|) {
      var rest := data[b.tailSeq - start..];
      assert Add(b, mask, start, data) == AtTail(b, mask, rest) by { assert data[0..] == data; }
      InOrderAnswered(b, mask, rest);
    } else if start + |data| >= b.tailSeq {
      EnteringAnswered(b, mask, start, data);
    }
  }

  lemma EnteringAnswered(b: Buf, mask: nat, start: nat, data: seq<Byte>)
    requires WellFormed(b, mask) && b.phase.Connected? && b.headSeq <= b.tailSeq
    requires !ReachesTail(b, start, |data|) && Insert(Noted(b), mask, start, data).Returns?
    ensures var r := Insert(Noted(b), mask, start, data); Answers(b, r.buf, mask, start, data, Reply(r))
  {
    if start > b.tailSeq {
      var n, offset, w := Noted(b), start - b.tailSeq, AheadWritten(b, mask, start, |data|);
      AheadReturned(n, mask, start, data, offset, w);
      AheadReply(b, mask, start, data, offset, w, Ahead(n, mask, start, data));
    }
  }

  // ---------------------------------------------------------------- where the answer misleads

  ghost predicate Holds(l: Log, p: nat, x: Byte) {
    p in l.bytes && l.bytes[p] == x
  }

  /** The answer `Inserted` to a fill is right about the bytes exactly when there was room for all of them. */
  lemma FillAnswerExactly(b: Buf, mask: nat, rest: seq<Byte>)
    requires WellFormed(b, mask) && Fill(b, mask, rest).Returns?
    ensures var r := Fill(b, mask, rest);
      && Reply(r).Inserted?
      && ((forall i :: 0 <= i < |rest| ==> Holds(r.buf.log, b.log.limit + i, rest[i])) <==> |rest| <= Room(b.log, mask))
  {
    var r, w := Fill(b, mask, rest), Min(|rest|, Room(b.log, mask));
    FillAnswered(b, mask, rest);
    assert r.buf.log.bytes == Laid(b.log.bytes, b.log.limit, rest[..w]);
    if |rest| > w {
      assert b.log.limit + w == b.log.first + mask;
      assert !Holds(r.buf.log, b.log.limit + w, rest[w]);
    }
  }

  /** Its count is the number of bytes that became readable exactly when the data or the bytes beyond them add none. */
  lemma FillCountExactly(b: Buf, mask: nat, rest: seq<Byte>)
    requires WellFormed(b, mask) && b.phase.Unordered? && b.list.OneSegment? && b.tailSeq + |rest| < U32
    requires Fill(b, mask, rest).Returns?
    ensures var r, w := Fill(b, mask, rest), Min(|rest|, Room(b.log, mask));
      Reply(r).written == Held(r.buf.log) - Held(b.log) <==>
        w == 0 || w == U16 - 1 || b.list.start + b.list.len <= b.tailSeq + w
  {
    var w := Min(|rest|, Room(b.log, mask));
    FillAnswered(b, mask, rest);
    SurplusExactly(b, mask, w);
    FillGrows(b, mask, rest, w);
  }

  lemma FillGrows(b: Buf, mask: nat, rest: seq<Byte>, w: nat)
    requires Within(b.log, mask) && w == Min(|rest|, Room(b.log, mask)) && Fill(b, mask, rest).Returns?
    ensures var r := Fill(b, mask, rest);
      Held(r.buf.log) == Held(b.log) + w + Surplus(b, w) && r.written == Max(w, Surplus(b, w))
  {
  }

  lemma SurplusExactly(b: Buf, mask: nat, w: nat)
    requires WellFormed(b, mask) && b.phase.Unordered? && b.list.OneSegment? && w <= Room(b.log, mask)
    requires Place(b.list, b.tailSeq, w).AtHead? && b.tailSeq + w < U32
    ensures Surplus(b, w) == 0 <==> w == U16 - 1 || b.list.start + b.list.len <= b.tailSeq + w
  {
    if b.list.start == b.headSeq { FrontSurplus(b, mask, w); }
  }
}
