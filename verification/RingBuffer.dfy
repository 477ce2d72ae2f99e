/**
 The byte ring under TCP reassembly: bytes may be written at the tail or ahead of it, and
 are read from the head. Head and tail are 64-bit counters that wrap; the ring refines a
 window over an unbounded byte log.
 */
module RingBuffer {
  import opened Words
  import opened Circular

  // ---------------------------------------------------------------- the unbounded log

  /**
   What the ring stands for: the unbounded read and write positions, and the last byte
   written at every position so far.
   */
  datatype Log = Log(first: nat, limit: nat, bytes: map<nat, Byte>)

  /** `bytes` with `data` written from position `at` on. */
  function Laid(bytes: map<nat, Byte>, at: nat, data: seq<Byte>): map<nat, Byte> {
    bytes + map p: nat | at <= p < at + |data| :: Cell(data, at, p)
  }

  function Cell(data: seq<Byte>, at: nat, p: nat): Byte
    requires at <= p < at + |data|
  {
    data[p - at]
  }

  function Held(l: Log): nat {
    if l.first <= l.limit then l.limit - l.first else 0
  }

  /** Bytes that can still be written; one cell always stays unused. */
  function Room(l: Log, mask: nat): nat {
    if Held(l) <= mask then mask - Held(l) else 0
  }

  function WriteTail(l: Log, mask: nat, data: seq<Byte>): Log {
    var n := Min(|data|, Room(l, mask));
    Log(l.first, l.limit + n, Laid(l.bytes, l.limit, data[..n]))
  }

  function WriteAhead(l: Log, mask: nat, offset: nat, data: seq<Byte>): Log {
    if Room(l, mask) < offset then l
    else l.(bytes := Laid(l.bytes, l.limit + offset, data[..Min(|data|, Room(l, mask) - offset)]))
  }

  function Consume(l: Log, n: nat): Log {
    l.(first := l.first + Min(n, Held(l)))
  }

  /** The write position moves on without anything being written. */
  function Extend(l: Log, n: nat): Log {
    l.(limit := l.limit + n)
  }

  /** Every readable position has been written. */
  ghost predicate Complete(l: Log) {
    forall p :: l.first <= p < l.limit ==> p in l.bytes
  }

  /** The readable bytes, oldest first. */
  ghost function Readable(l: Log): (r: seq<Byte>)
    requires Complete(l)
    ensures |r| == Held(l)
  {
    seq(Held(l), i requires 0 <= i < Held(l) => l.bytes[l.first + i])
  }

  datatype Op =
    | WriteAtTail(data: seq<Byte>)
    | WriteAtOffset(offset: nat, data: seq<Byte>)
    | Read(n: nat, increment: nat)
    | SeekHead(n: nat)
    | SeekTail(n: nat)

  function Apply(l: Log, mask: nat, op: Op): Log {
    match op
    case WriteAtTail(data) => WriteTail(l, mask, data)
    case WriteAtOffset(offset, data) => WriteAhead(l, mask, offset, data)
    case Read(n, increment) => Consume(l, Min(n, increment))
    case SeekHead(n) => Consume(l, n)
    case SeekTail(n) => Extend(l, n)
  }

  function Run(l: Log, mask: nat, ops: seq<Op>): Log
    decreases |ops|
  {
    if ops == [] then l else Run(Apply(l, mask, ops[0]), mask, ops[1..])
  }

  /** Seeks stay within what is held, and within the room there is. */
  predicate Legal(l: Log, mask: nat, op: Op) {
    match op
    case SeekHead(n) => n <= Held(l)
    case SeekTail(n) => n <= Room(l, mask)
    case WriteAtOffset(offset, _) => offset < WORD
    case _ => true
  }

  predicate LegalRun(l: Log, mask: nat, ops: seq<Op>)
    decreases |ops|
  {
    ops != [] ==> Legal(l, mask, ops[0]) && LegalRun(Apply(l, mask, ops[0]), mask, ops[1..])
  }

  /** `data` is what an operation reads: at every written position the last byte written there. */
  ghost predicate ReadsFrom(l: Log, op: Op, data: seq<Byte>) {
    if op.Read? then
      && |data| == Min(op.n, Held(l))
      && forall i :: 0 <= i < |data| && l.first + i in l.bytes ==> data[i] == l.bytes[l.first + i]
    else data == []
  }

  ghost predicate RunReads(l: Log, mask: nat, ops: seq<Op>, outs: seq<seq<Byte>>)
    decreases |ops|
  {
    && |outs| == |ops|
    && (ops != [] ==> ReadsFrom(l, ops[0], outs[0]) && RunReads(Apply(l, mask, ops[0]), mask, ops[1..], outs[1..]))
  }

  ghost predicate Within(l: Log, mask: nat) {
    l.first <= l.limit <= l.first + mask
  }

  /** Of `n` positions from `at` on, exactly the first `w` lie in the ring's window. */
  predicate InWindowPart(l: Log, mask: nat, at: nat, n: nat, w: nat) {
    (w == 0 || at + w <= l.first + mask) && (w == n || at + w >= l.first + mask)
  }

  /**
   What an operation does to positions and bytes. A write stores the `w` bytes that lie in the
   window, at the tail also moving it by as many; a read moves on by the least of its length,
   its increment and what is held; seeks move as told.
   */
  ghost predicate Does(l: Log, l': Log, mask: nat, op: Op, w: nat) {
    match op
    case WriteAtTail(data) =>
      && w <= |data| && InWindowPart(l, mask, l.limit, |data|, w)
      && l' == Log(l.first, l.limit + w, Laid(l.bytes, l.limit, data[..w]))
    case WriteAtOffset(offset, data) =>
      && w <= |data| && InWindowPart(l, mask, l.limit + offset, |data|, w)
      && l' == l.(bytes := Laid(l.bytes, l.limit + offset, data[..w]))
    case Read(n, increment) =>
      && l' == l.(first := l.first + w) && w <= n && w <= increment && w <= l.limit - l.first
      && (w == n || w == increment || w == l.limit - l.first)
    case SeekHead(n) => l' == l.(first := l.first + n)
    case SeekTail(n) => l' == l.(limit := l.limit + n)
  }

  lemma OpMeaning(l: Log, mask: nat, op: Op) returns (w: nat)
    requires Within(l, mask) && Legal(l, mask, op)
    ensures Does(l, Apply(l, mask, op), mask, op, w)
  {
    w := 0;
    match op {
      case WriteAtTail(data) =>
        w := Min(|data|, Room(l, mask));
        TailMeaning(l, mask, data, w);
      case WriteAtOffset(offset, data) =>
        w := if Room(l, mask) < offset then 0 else Min(|data|, Room(l, mask) - offset);
        OffsetMeaning(l, mask, offset, data, w);
      case Read(n, increment) => w := Min(Min(n, increment), Held(l));
      case _ =>
    }
  }

  lemma TailMeaning(l: Log, mask: nat, data: seq<Byte>, w: nat)
    requires Within(l, mask) && w == Min(|data|, Room(l, mask))
    ensures Does(l, WriteTail(l, mask, data), mask, WriteAtTail(data), w)
  {
  }

  lemma OffsetMeaning(l: Log, mask: nat, offset: nat, data: seq<Byte>, w: nat)
    requires Within(l, mask) && w == if Room(l, mask) < offset then 0 else Min(|data|, Room(l, mask) - offset)
    ensures Does(l, WriteAhead(l, mask, offset, data), mask, WriteAtOffset(offset, data), w)
  {
    var at := l.limit + offset;
    AheadStores(l, mask, offset, data, w, at);
    OffsetDoes(l, WriteAhead(l, mask, offset, data), mask, offset, data, w, at);
  }

  lemma OffsetDoes(l: Log, l': Log, mask: nat, offset: nat, data: seq<Byte>, w: nat, at: nat)
    requires at == l.limit + offset && w <= |data| && l' == l.(bytes := Laid(l.bytes, at, data[..w]))
    requires InWindowPart(l, mask, at, |data|, w)
    ensures Does(l, l', mask, WriteAtOffset(offset, data), w)
  {
  }

  lemma AheadStores(l: Log, mask: nat, offset: nat, data: seq<Byte>, w: nat, at: nat)
    requires Within(l, mask) && w == if Room(l, mask) < offset then 0 else Min(|data|, Room(l, mask) - offset)
    requires at == l.limit + offset
    ensures WriteAhead(l, mask, offset, data) == l.(bytes := Laid(l.bytes, at, data[..w]))
    ensures w == |data| <==> data == [] || at + |data| <= l.first + mask
    ensures InWindowPart(l, mask, at, |data|, w)
  {
    if Room(l, mask) < offset {
      assert Laid(l.bytes, at, data[..0]) == l.bytes;
    } else {
      WriteAheadIs(l, mask, offset, data, w, at);
    }
  }

  lemma {:induction false} RunMore(l: Log, mask: nat, ops: seq<Op>, op: Op)
    ensures Run(l, mask, ops + [op]) == Apply(Run(l, mask, ops), mask, op)
    ensures LegalRun(l, mask, ops + [op]) <==> LegalRun(l, mask, ops) && Legal(Run(l, mask, ops), mask, op)
    decreases |ops|
  {
    if ops == [] {
      assert (ops + [op])[1..] == [];
    } else {
      assert (ops + [op])[1..] == ops[1..] + [op];
      RunMore(Apply(l, mask, ops[0]), mask, ops[1..], op);
    }
  }

  lemma {:induction false} RunReadsMore(l: Log, mask: nat, ops: seq<Op>, outs: seq<seq<Byte>>, op: Op, out: seq<Byte>)
    requires RunReads(l, mask, ops, outs) && ReadsFrom(Run(l, mask, ops), op, out)
    ensures RunReads(l, mask, ops + [op], outs + [out])
    decreases |ops|
  {
    if ops == [] {
      assert (ops + [op])[1..] == [] && (outs + [out])[1..] == [];
    } else {
      assert (ops + [op])[1..] == ops[1..] + [op] && (outs + [out])[1..] == outs[1..] + [out];
      RunReadsMore(Apply(l, mask, ops[0]), mask, ops[1..], outs[1..], op, out);
    }
  }

  /**
   Over any legal run at most size - 1 bytes are held, both positions only move forward, and
   a byte once below the write position is never overwritten.
   */
  lemma {:induction false} CommittedIsStable(l: Log, mask: nat, ops: seq<Op>)
    requires Within(l, mask) && LegalRun(l, mask, ops)
    ensures var l' := Run(l, mask, ops);
      && Within(l', mask) && l.first <= l'.first && l.limit <= l'.limit
      && forall p :: p in l.bytes && p < l.limit ==> p in l'.bytes && l'.bytes[p] == l.bytes[p]
    decreases |ops|
  {
    if ops != [] {
      CommittedIsStable(Apply(l, mask, ops[0]), mask, ops[1..]);
    }
  }

  /** The counters as the ring has them, and its cells. */
  datatype Raw = Raw(cells: seq<Byte>, head: nat, tail: nat)

  /** Free space as the ring computes it. */
  function RawRoom(r: Raw): (n: nat)
    requires r.cells != []
  {
    WrapSub(WrapAdd(|r.cells| - 1, r.head), r.tail)
  }

  /** What the copy asserts: the data fit the cells, and the tail's cell is one of them. */
  predicate RawFits(r: Raw, data: seq<Byte>) {
    r.cells != [] && Min(|data|, RawRoom(r)) <= |r.cells| && And(r.tail, |r.cells| - 1) < |r.cells|
  }

  function RawWrite(r: Raw, data: seq<Byte>): (r': Raw)
    requires RawFits(r, data)
  {
    var n := Min(|data|, RawRoom(r));
    Raw(Overlay(r.cells, And(r.tail, |r.cells| - 1), data[..n]), r.head, WrapAdd(r.tail, n))
  }

  function RawSeekTail(r: Raw, n: nat): (r': Raw) {
    r.(tail := WrapAdd(r.tail, n))
  }

  /**
   A seek of the tail keeps the window exactly when it stays within the room. Past that the
   free-space formula wraps around, and no later write is held back.
   */
  lemma SeekTailExactly(l: Log, mask: nat, n: nat)
    requires Within(l, mask) && mask + n < WORD
    ensures Within(Extend(l, n), mask) <==> n <= Room(l, mask)
    ensures WrapSub(WrapAdd(mask, l.first % WORD), (l.limit + n) % WORD)
            == if n <= Room(l, mask) then Room(l, mask) - n else WORD - (n - Room(l, mask))
  {
    var e := l.limit + n;
    if n <= Room(l, mask) {
      WrappedFree(mask, l.first, e);
    } else {
      WrappedFree(mask + WORD, l.first, e);
      WrappedSum(l.first, mask);
      WrappedSum(l.first, mask + WORD);
      assert (l.first + mask + WORD) % WORD == (l.first + mask) % WORD by {
        ModUnique(l.first + mask + WORD, WORD, (l.first + mask) / WORD + 1, (l.first + mask) % WORD);
      }
    }
  }

  /** Four cells, three bytes written, the tail moved by one: the next byte replaces the oldest unread one. */
  lemma SeekPastRoomOverwrites(a: Byte, b: Byte, c: Byte, x: Byte)
    ensures And(0, 3) == And(4, 3) == 0 && RawRoom(Raw([0, 0, 0, 0], 0, 0)) == 3
    ensures var r1 := RawWrite(Raw([0, 0, 0, 0], 0, 0), [a, b, c]);
      && r1 == Raw([a, b, c, 0], 0, 3)
      && var r2 := RawSeekTail(r1, 1);
      && r2.tail == 4 && RawRoom(r2) == WORD - 1
      && RawWrite(r2, [x]) == Raw([x, b, c, 0], 0, 5)
  {
    var r1 := RawWrite(Raw([0, 0, 0, 0], 0, 0), [a, b, c]);
    assert [a, b, c][..3] == [a, b, c];
    assert r1.cells == [a, b, c, 0];
    assert [x][..1] == [x];
    assert RawWrite(RawSeekTail(r1, 1), [x]).cells == [x, b, c, 0];
  }

  // ---------------------------------------------------------------- slots of the window

  /** The cells hold every written position of the current window. */
  ghost predicate Stores(cells: seq<Byte>, l: Log)
    requires |cells| > 0
  {
    forall p :: p in l.bytes && l.first <= p ==>
      p < l.first + |cells| - 1 && cells[Slot(p, |cells|)] == l.bytes[p]
  }

  /** The cell at distance d from the slot of `at` is the slot of position at + d. */
  lemma SlotAtDistance(at: nat, i: nat, size: nat)
    requires size > 0 && i < size
    ensures Slot(at + Distance(i, Slot(at, size), size), size) == i
  {
    SlotOffset(at, Distance(i, Slot(at, size), size), size);
  }

  lemma DistanceOfSlot(at: nat, k: nat, size: nat)
    requires size > 0 && k < size
    ensures Distance(Slot(at + k, size), Slot(at, size), size) == k
  {
    SlotOffset(at, k, size);
  }

  /** Writing ahead of the read position leaves every other position of the window alone. */
  lemma LayKeeps(cells: seq<Byte>, l: Log, at: nat, data: seq<Byte>)
    requires |cells| > 0 && Stores(cells, l)
    requires l.first <= at && at + |data| <= l.first + |cells| - 1
    ensures Stores(Overlay(cells, Slot(at, |cells|), data), l.(bytes := Laid(l.bytes, at, data)))
  {
    var size := |cells|;
    var cells', bytes' := Overlay(cells, Slot(at, size), data), Laid(l.bytes, at, data);
    forall p | p in bytes' && l.first <= p
      ensures p < l.first + size - 1 && cells'[Slot(p, size)] == bytes'[p]
    {
      if at <= p < at + |data| {
        LaidInside(cells, l.bytes, at, data, p);
      } else {
        LayMisses(at, |data|, p, l.first, size);
        assert p in l.bytes && bytes'[p] == l.bytes[p];
      }
    }
  }

  lemma LaidInside(cells: seq<Byte>, bytes: map<nat, Byte>, at: nat, data: seq<Byte>, p: nat)
    requires 0 < |data| < |cells| && at <= p < at + |data|
    ensures p in Laid(bytes, at, data)
    ensures Overlay(cells, Slot(at, |cells|), data)[Slot(p, |cells|)] == Laid(bytes, at, data)[p]
  {
    DistanceOfSlot(at, p - at, |cells|);
    assert Laid(bytes, at, data)[p] == Cell(data, at, p);
  }

  lemma LayMisses(at: nat, n: nat, p: nat, first: nat, size: nat)
    requires size > 0 && first <= at && at + n <= first + size - 1
    requires first <= p < first + size - 1 && !(at <= p < at + n)
    ensures Distance(Slot(p, size), Slot(at, size), size) >= n
  {
    var d := Distance(Slot(p, size), Slot(at, size), size);
    SlotAtDistance(at, Slot(p, size), size);
    if d < n {
      if p < at + d { SlotsDiffer(p, at + d, size); } else { SlotsDiffer(at + d, p, size); }
    }
  }

  /** Reading from the slot of the read position yields the written bytes in order. */
  lemma WindowReads(cells: seq<Byte>, l: Log, n: nat)
    requires |cells| > 0 && Stores(cells, l) && n < |cells|
    ensures forall i :: 0 <= i < n && l.first + i in l.bytes ==>
              Window(cells, Slot(l.first, |cells|), n)[i] == l.bytes[l.first + i]
  {
    forall i | 0 <= i < n && l.first + i in l.bytes
      ensures Window(cells, Slot(l.first, |cells|), n)[i] == l.bytes[l.first + i]
    {
      SlotOffset(l.first, i, |cells|);
    }
  }

  lemma WriteAheadIs(l: Log, mask: nat, offset: nat, data: seq<Byte>, n: nat, at: nat)
    requires offset <= Room(l, mask) && n == Min(|data|, Room(l, mask) - offset) && at == l.limit + offset
    ensures WriteAhead(l, mask, offset, data) == l.(bytes := Laid(l.bytes, at, data[..n]))
  {
  }

  lemma WriteTailIs(l: Log, mask: nat, data: seq<Byte>, n: nat)
    requires n == Min(|data|, Room(l, mask))
    ensures var l' := WriteTail(l, mask, data);
      l'.first == l.first && l'.limit == l.limit + n && l'.bytes == Laid(l.bytes, l.limit, data[..n])
  {
  }

  lemma LimitIsFree(cells: seq<Byte>, l: Log, l': Log)
    requires |cells| > 0 && Stores(cells, l) && l' == l.(limit := l'.limit)
    ensures Stores(cells, l')
  {
  }

  lemma ConsumeKeeps(cells: seq<Byte>, l: Log, n: nat)
    requires |cells| > 0 && Stores(cells, l)
    ensures Stores(cells, Consume(l, n))
  {
  }

  // ---------------------------------------------------------------- the ring

  datatype RingResult = Ok(ring: Ring) | InvalidRingSize(bytes: nat)

  class Ring {
    var head: nat
    var tail: nat
    const size: nat
    const mask: nat
    const vec: array<Byte>

    ghost var log: Log
    ghost const exponent: nat

    /** The counters are those of the log and the cells hold its window. */
    ghost predicate Tied()
      reads this, vec
    {
      && size == Pow2(exponent) == vec.Length && exponent < 64 && size < WORD
      && mask == size - 1
      && log.first <= log.limit < log.first + WORD
      && head == log.first % WORD && tail == log.limit % WORD
      && Stores(vec[..], log)
    }

    ghost predicate Valid()
      reads this, vec
    {
      Tied() && Within(log, mask)
    }

    ghost function View(): Raw
      reads this, vec
    {
      Raw(vec[..], head, tail)
    }

    constructor (bytes: nat, ghost e: nat)
      requires bytes == Pow2(e) && e < 64
      ensures Valid() && fresh(vec) && size == bytes && log == Log(0, 0, map[])
    {
      head, tail, size, mask := 0, 0, bytes, bytes - 1;
      vec := new Byte[bytes](_ => 0);
      log, exponent := Log(0, 0, map[]), e;
      Pow2Of64();
      Pow2Mono(e, 64);
    }

    /** Accepts exactly the powers of two. */
    static method New(bytes: nat) returns (r: RingResult)
      requires 0 < bytes < WORD
      ensures r.Ok? <==> IsPow2(bytes)
      ensures r.Ok? ==> fresh(r.ring) && fresh(r.ring.vec) && r.ring.Valid()
                        && r.ring.size == bytes && r.ring.log == Log(0, 0, map[])
      ensures r.InvalidRingSize? ==> r.bytes == bytes
    {
      PowerTest(bytes);
      if And(bytes, bytes - 1) != 0 {
        return InvalidRingSize(bytes);
      }
      ghost var e: nat :| bytes == Pow2(e);
      assert e < 64 by {
        Pow2Of64();
        if e >= 64 { Pow2Mono(64, e); }
      }
      var ring := new Ring(bytes, e);
      r := Ok(ring);
    }

    /** Copies into the cells from `offset`, continuing at cell 0 past the end. */
    method WrappedWrite(offset: nat, data: seq<Byte>) returns (bytes: nat)
      requires size == vec.Length && offset < size && |data| <= size
      modifies vec
      ensures vec[..] == Overlay(old(vec[..]), offset, data)
      ensures bytes == |data|
    {
      bytes := Min(|data|, size - offset);
      CopyIn(offset, data[..bytes]);
      if offset + |data| > size {
        CopyIn(0, data[bytes..]);
        bytes := |data|;
      }
    }

    method CopyIn(at: nat, data: seq<Byte>)
      requires at + |data| <= vec.Length
      modifies vec
      ensures forall i :: 0 <= i < vec.Length ==> vec[i] == if at <= i < at + |data| then data[i - at] else old(vec[i])
    {
      for k := 0 to |data|
        invariant forall i :: 0 <= i < vec.Length ==> vec[i] == if at <= i < at + k then data[i - at] else old(vec[i])
      {
        vec[at + k] := data[k];
      }
    }

    /** Copies out of the cells from `offset`, continuing at cell 0 past the end. */
    method WrappedRead(offset: nat, n: nat) returns (data: seq<Byte>)
      requires size == vec.Length && offset < size && n <= size
      ensures data == Window(vec[..], offset, n)
    {
      var bytes := Min(n, size - offset);
      data := vec[offset..offset + bytes];
      if offset + n > size {
        var remaining := n - bytes;
        data := data + vec[..remaining];
      }
    }

    /** Room from `offset` past the tail on, and the cell of that position. */
    method FreeAhead(offset: nat) returns (free: nat, index: nat)
      requires Valid() && offset <= Room(log, mask)
      ensures free == Room(log, mask) - offset && index == Slot(log.limit + offset, size)
    {
      var offsetTail := WrapAdd(tail, offset);
      assert offsetTail == (log.limit + offset) % WORD by { WrappedSum(log.limit, offset); }
      free := WrapSub(WrapAdd(mask, head), offsetTail);
      assert free == Room(log, mask) - offset by { WrappedFree(mask, log.first, log.limit + offset); }
      index := And(offsetTail, mask);
      assert index == Slot(log.limit + offset, size) by { WrappedSlot(log.limit + offset, exponent); }
    }

    /** Data available to be read. */
    function Available(): (n: nat)
      reads this, vec
      requires Tied()
      ensures n == Held(log)
    {
      WrappedDifference(log.limit, log.first);
      WrapSub(tail, head)
    }

    function ReadOffset(): (i: nat)
      reads this, vec
      requires Valid()
      ensures i == Slot(log.first, size)
    {
      WrappedSlot(log.first, exponent);
      And(head, mask)
    }

    /** Puts `data` into the cells from `index` on, the cell of position `at`. */
    method Lay(index: nat, data: seq<Byte>, ghost at: nat)
      requires size == vec.Length > 0 && index == Slot(at, size) && Stores(vec[..], log)
      requires log.first <= at && at + |data| <= log.first + size - 1
      modifies vec
      ensures Stores(vec[..], log.(bytes := Laid(log.bytes, at, data)))
    {
      ghost var cells := vec[..];
      var _ := WrappedWrite(index, data);
      LayKeeps(cells, log, at, data);
    }

    method WriteAtTail(data: seq<Byte>) returns (written: nat)
      requires Valid()
      modifies this`tail, this`log, vec
      ensures Valid() && written == Min(|data|, Room(old(log), mask))
      ensures log == WriteTail(old(log), mask, data)
      ensures RawFits(old(View()), data) && View() == RawWrite(old(View()), data)
    {
      ghost var r := View();
      assert RawRoom(r) == Room(log, mask) && And(tail, mask) == Slot(log.limit, size) by { RoomIsRaw(); }
      var available, offset := FreeAhead(0);
      written := Min(|data|, available);
      ghost var w := RawWrite(r, data);
      WriteAndAdvance(offset, data, written);
      assert View() == w;
    }

    /** The computed free space and the tail's cell are those of the log. */
    lemma RoomIsRaw()
      requires Valid()
      ensures RawRoom(View()) == Room(log, mask) && And(tail, mask) == Slot(log.limit, size)
    {
      WrappedFree(mask, log.first, log.limit);
      WrappedSlot(log.limit, exponent);
    }

    method WriteAndAdvance(offset: nat, data: seq<Byte>, written: nat)
      requires Valid() && offset == Slot(log.limit, size) && written == Min(|data|, Room(log, mask))
      modifies this`tail, this`log, vec
      ensures Valid() && log == WriteTail(old(log), mask, data)
      ensures vec[..] == Overlay(old(vec[..]), offset, data[..written]) && tail == WrapAdd(old(tail), written)
    {
      ghost var l, limit, l' := log, log.limit + written, WriteTail(log, mask, data);
      tail := WrapAdd(tail, written);
      assert tail == limit % WORD by { WrappedSum(l.limit, written); }
      LayAtTail(offset, data[..written]);
      assert l' == Log(l.first, limit, Laid(l.bytes, l.limit, data[..written])) by {
        WriteTailIs(l, mask, data, written);
      }
      log := l';
    }

    /** Puts `data` into the cells from the tail's on. */
    method LayAtTail(offset: nat, data: seq<Byte>)
      requires size == vec.Length > 0 && offset == Slot(log.limit, size) && Stores(vec[..], log)
      requires log.first <= log.limit && log.limit + |data| <= log.first + size - 1
      modifies vec
      ensures Stores(vec[..], Log(log.first, log.limit + |data|, Laid(log.bytes, log.limit, data)))
      ensures vec[..] == Overlay(old(vec[..]), offset, data)
    {
      ghost var cells, laid := vec[..], log.(bytes := Laid(log.bytes, log.limit, data));
      var _ := WrappedWrite(offset, data);
      LayKeeps(cells, log, log.limit, data);
      LimitIsFree(vec[..], laid, laid.(limit := log.limit + |data|));
    }

    method WriteAtOffsetFromTail(offset: nat, data: seq<Byte>) returns (written: nat)
      requires Valid() && offset < WORD
      modifies this`log, vec
      ensures Valid() && log == WriteAhead(old(log), mask, offset, data)
      ensures written == if Room(old(log), mask) < offset then 0 else Min(|data|, Room(old(log), mask) - offset)
    {
      var available, _ := FreeAhead(0);
      if available < offset {
        return 0;
      }
      var availableAtOffset, index := FreeAhead(offset);
      written := Min(|data|, availableAtOffset);
      WriteBeyond(index, offset, data, written);
    }

    method WriteBeyond(index: nat, offset: nat, data: seq<Byte>, written: nat)
      requires Valid() && offset <= Room(log, mask) && written == Min(|data|, Room(log, mask) - offset)
      requires index == Slot(log.limit + offset, size)
      modifies this`log, vec
      ensures Valid() && log == WriteAhead(old(log), mask, offset, data)
    {
      ghost var at, l := log.limit + offset, log;
      WriteAheadIs(l, mask, offset, data, written, at);
      Lay(index, data[..written], at);
      ghost var cells := vec[..];
      log := l.(bytes := Laid(l.bytes, at, data[..written]));
      assert vec[..] == cells;
    }

    /** Reads up to `n` bytes and moves on by at most `increment`. */
    method ReadFromHeadWithIncrement(n: nat, increment: nat) returns (data: seq<Byte>)
      requires Valid()
      modifies this`head, this`log
      ensures Valid() && log == Consume(old(log), Min(n, increment))
      ensures |data| == Min(n, Held(old(log)))
      ensures forall i :: 0 <= i < |data| && old(log).first + i in old(log).bytes ==>
                data[i] == old(log).bytes[old(log).first + i]
    {
      ghost var cells, l := vec[..], log;
      var offset := ReadOffset();
      var toRead := Min(Available(), n);
      WindowReads(cells, l, toRead);
      Advance(Min(increment, toRead));
      data := WrappedRead(offset, toRead);
    }

    /** Moves the read position over bytes that are held. */
    method Advance(n: nat)
      requires Valid() && n <= Held(log)
      modifies this`head, this`log
      ensures Valid() && log == Consume(old(log), n)
    {
      head := WrapAdd(head, n);
      WrappedSum(log.first, n);
      ConsumeKeeps(vec[..], log, n);
      log := Consume(log, n);
    }

    method ReadFromHead(n: nat) returns (data: seq<Byte>)
      requires Valid()
      modifies this`head, this`log
      ensures Valid() && log == Consume(old(log), n) && |data| == Min(n, Held(old(log)))
      ensures forall i :: 0 <= i < |data| && old(log).first + i in old(log).bytes ==>
                data[i] == old(log).bytes[old(log).first + i]
      ensures Complete(old(log)) ==> data == Readable(old(log))[..|data|]
    {
      data := ReadFromHeadWithIncrement(n, n);
    }

    method SeekHead(seek: nat)
      requires Valid() && seek <= Held(log)
      modifies this`head, this`log
      ensures Valid() && log == Consume(old(log), seek)
    {
      var available := Available();
      assert available >= seek; // the source's assertion
      Advance(seek);
    }

    /**
     Moves the tail without writing; bytes written ahead become readable. Nothing is checked:
     the ring stays valid exactly when there was room.
     */
    method SeekTail(incrementBy: nat)
      requires Valid() && incrementBy < WORD
      modifies this`tail, this`log
      ensures log == Extend(old(log), incrementBy) && View() == RawSeekTail(old(View()), incrementBy)
      ensures Valid() <==> incrementBy <= Room(old(log), mask)
      ensures Held(log) < WORD ==> Tied()
    {
      tail := WrapAdd(tail, incrementBy);
      WrappedSum(log.limit, incrementBy);
      LimitIsFree(vec[..], log, Extend(log, incrementBy));
      log := Extend(log, incrementBy);
    }

    method Clear()
      requires Valid()
      modifies this`head, this`tail, this`log
      ensures Valid() && log == Log(0, 0, map[])
    {
      head, tail := 0, 0;
      log := Log(0, 0, map[]);
    }

    /** Any legal sequence of operations, and what it reads. */
    method Perform(ops: seq<Op>) returns (outs: seq<seq<Byte>>)
      requires Valid() && LegalRun(log, mask, ops)
      modifies this`head, this`tail, this`log, vec
      ensures Valid() && log == Run(old(log), mask, ops) && RunReads(old(log), mask, ops, outs)
    {
      ghost var l0 := log;
      outs := [];
      for i := 0 to |ops|
        invariant Valid() && log == Run(l0, mask, ops[..i]) && RunReads(l0, mask, ops[..i], outs)
        invariant LegalRun(log, mask, ops[i..])
      {
        assert ops[i..][0] == ops[i] && ops[i..][1..] == ops[i + 1..];
        assert ops[..i] + [ops[i]] == ops[..i + 1];
        RunMore(l0, mask, ops[..i], ops[i]);
        ghost var l := log;
        var out := PerformOne(ops[i]);
        RunReadsMore(l0, mask, ops[..i], outs, ops[i], out);
        outs := outs + [out];
      }
      assert ops[..|ops|] == ops;
    }

    method PerformOne(op: Op) returns (out: seq<Byte>)
      requires Valid() && Legal(log, mask, op)
      modifies this`head, this`tail, this`log, vec
      ensures Valid() && log == Apply(old(log), mask, op) && ReadsFrom(old(log), op, out)
    {
      out := [];
      match op {
        case WriteAtTail(data) => var _ := WriteAtTail(data);
        case WriteAtOffset(offset, data) => var _ := WriteAtOffsetFromTail(offset, data);
        case Read(n, increment) => out := ReadFromHeadWithIncrement(n, increment);
        case SeekHead(n) => SeekHead(n);
        case SeekTail(n) => SeekTail(n);
      }
    }
  }
}
