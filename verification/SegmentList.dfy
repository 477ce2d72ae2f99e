/**
 The list of received segments behind a reassembly buffer: nodes in a growing vector,
 linked by index, with a stack of free nodes.

 A list of at most one segment is modelled exactly, 16-bit lengths included, as long as no
 end passes 2^32. Once it has more segments only the first one is followed. A merge that
 spins forever on a gap is part of the result, and so is a segment put behind the head.
 */
module SegmentList {
  import opened Words

  const U32: nat := 0x1_0000_0000
  const U16: nat := 0x1_0000

  datatype Segment = Segment(prev: int, seq_: nat, length: nat, next: int)

  /** A list as a value; of several segments only the first is known. */
  datatype View = NoSegment | OneSegment(start: nat, len: nat) | Several(start: nat, len: nat)

  /** Where an inserted segment ended up. */
  datatype Placement = AtHead | BehindHead | Spins

  function Max(x: nat, y: nat): nat {
    if x <= y then y else x
  }

  /** How `insert_segment` places a segment. */
  function Place(v: View, start: nat, len: nat): Placement {
    match v
    case NoSegment => AtHead
    case OneSegment(s, l) =>
      if s + l == start then AtHead
      else if s >= start + len then (if s == start + len then AtHead else Spins)
      else if s <= start then AtHead
      else BehindHead
    case Several(s, _) => if start + len < s then Spins else BehindHead
  }

  /** The list after an insertion that returns. Overlaps are cut to 16 bits, merges at 65535 bytes. */
  function Listed(v: View, start: nat, len: nat): View {
    match v
    case NoSegment => OneSegment(start, len)
    case OneSegment(s, l) =>
      if s + l == start then OneSegment(s, l + len)
      else if s >= start + len then
        if len + l < U16 then OneSegment(start, len + l) else Several(start, U16 - 1)
      else if s <= start then OneSegment(s, (Max(s + l, start + len) - s) % U16)
      else Several(s, l)
    case Several(_, _) => v
  }

  /** No end wraps, an extended segment stays within 16 bits, and of several segments the first one decides. */
  ghost predicate Known(v: View, start: nat, len: nat) {
    && start + len < U32 && len < U16
    && (!v.NoSegment? ==> v.start + v.len < U32 && v.len < U16)
    && (v.OneSegment? && v.start + v.len == start ==> v.len + len < U16)
    && (v.Several? ==> start + len < v.start && v.start + v.len != start)
  }

  function Consumed(v: View, start: nat, n: nat): View {
    if v.NoSegment? || v.start != start then v
    else if v.OneSegment? then
      var c := Min(n, v.len);
      if c == v.len then NoSegment else OneSegment(start + c, v.len - c)
    else v
  }

  /** What a merge does to the nodes: nothing without a successor, otherwise joins or cuts at 65535 bytes. */
  ghost predicate Merged(before: seq<Segment>, after: seq<Segment>, idx: int, spins: bool)
    requires 0 <= idx < |before| == |after| && (before[idx].next != -1 ==> 0 <= before[idx].next < |before|)
  {
    var seg := before[idx];
    if seg.next == -1 then !spins && after == before
    else
      var next := before[seg.next];
      if seg.seq_ + seg.length < next.seq_ then spins
      else
        && !spins
        && after[idx] ==
           if seg.length + next.length < U16 then seg.(length := seg.length + next.length, next := -1)
           else seg.(length := U16 - 1)
  }

  ghost predicate NoDuplicates(s: seq<int>) {
    forall i, j :: 0 <= i < j < |s| ==> s[i] != s[j]
  }

  class List {
    var storage: seq<Segment>
    var available: seq<int>
    var head: int
    var tail: int

    /**
     A segment has been put behind the recorded tail. The links need not show it: a join in
     front of the first segment frees its old node but leaves `tail` naming it, so the next node
     taken is that one, is linked behind itself, and is lost. `Contents` says `Several` there too.
     */
    ghost var tangled: bool

    /** Free nodes are distinct nodes of the storage. */
    ghost predicate Pool()
      reads this
    {
      && NoDuplicates(available)
      && forall i :: i in available ==> 0 <= i < |storage|
    }

    ghost predicate Node(i: int)
      reads this
    {
      0 <= i < |storage| && i !in available
    }

    /** The free stack is sound, and the first node is live and has no other in front of it. */
    ghost predicate Valid()
      reads this
    {
      && Pool()
      && (head == -1 ==> !tangled)
      && (head != -1 ==>
            && Node(head) && storage[head].prev == -1 && 0 <= tail < |storage|
            && (!tangled ==> storage[head].next == -1))
    }

    ghost function Contents(): View
      reads this
      requires Valid()
    {
      if head == -1 then NoSegment
      else if tangled then Several(storage[head].seq_, storage[head].length)
      else OneSegment(storage[head].seq_, storage[head].length)
    }

    constructor (length: nat)
      ensures Valid() && Contents() == NoSegment
    {
      storage := seq(length, i => Segment(-1, 0, 0, -1));
      available := seq(length, i => i);
      head, tail, tangled := -1, -1, false;
    }

    method RemoveNode(node: int)
      requires Pool() && Node(node)
      modifies this`storage, this`available
      ensures Pool() && available == old(available) + [node]
      ensures storage == old(storage)[node := old(storage)[node].(length := 0)]
    {
      storage := storage[node := storage[node].(length := 0)];
      available := available + [node];
    }

    /** Pops a free node, or grows the storage by one. */
    method FindAvailableNode() returns (idx: int)
      requires Pool()
      modifies this`storage, this`available
      ensures Pool() && Node(idx) && old(storage) <= storage
      ensures idx in old(available) || idx == |old(storage)|
      ensures forall i :: i in available ==> i in old(available)
    {
      if available != [] {
        idx := available[|available| - 1];
        assert available[|available| - 1] in available;
        available := available[..|available| - 1];
        assert forall i :: i in available ==> i in old(available);
      } else {
        idx := |storage|;
        storage := storage + [Segment(-1, 0, 0, -1)];
      }
    }

    /** New node in front of `next`, or alone when `next` is -1. */
    method InsertBeforeNode(next: int, start: nat, len: nat) returns (idx: int)
      requires Pool() && (next == -1 || (Node(next) && storage[next].prev == -1))
      modifies this`storage, this`available, this`head
      ensures Pool() && Node(idx) && idx != next && |old(storage)| <= |storage|
      ensures storage[idx] == Segment(-1, start, len, next)
      ensures next != -1 ==> head == idx && Node(next) && storage[next] == old(storage)[next].(prev := idx)
      ensures next == -1 ==> head == old(head)
    {
      idx := FindAvailableNode();
      storage := storage[idx := storage[idx].(seq_ := start, length := len, next := next)];
      if next != -1 {
        var prev := storage[next].prev;
        storage := storage[idx := storage[idx].(prev := prev)];
        storage := storage[next := storage[next].(prev := idx)];
        head := idx; // no predecessor, so this is the head
      } else {
        storage := storage[idx := storage[idx].(prev := -1)];
      }
    }

    method InsertAtTail(start: nat, len: nat) returns (idx: int)
      requires Pool() && 0 <= tail < |storage|
      modifies this`storage, this`available, this`tail
      ensures Pool() && (idx in old(available) || idx == |old(storage)|)
      ensures tail == idx && |storage| >= |old(storage)| && 0 <= idx < |storage|
      ensures idx != old(tail) ==>
        && storage[idx] == Segment(old(tail), start, len, -1)
        && storage[old(tail)] == old(storage)[old(tail)].(next := idx)
      ensures forall i :: i in available ==> i in old(available)
      ensures forall i | 0 <= i < |old(storage)| && i != idx ::
                storage[i] == old(storage)[i].(next := storage[i].next)
    {
      idx := FindAvailableNode();
      storage := storage[idx := storage[idx].(seq_ := start, length := len, next := -1, prev := tail)];
      storage := storage[tail := storage[tail].(next := idx)];
      tail := idx;
    }

    /**
     Merges the segment behind `idx` into it as far as 16 bits go. When that segment starts
     after a gap the loop makes no progress and never ends; the model reports it and stops.
     */
    method MergeAtIdx(idx: int) returns (spins: bool)
      requires Pool() && Node(idx) && storage[idx].length < U16
      requires var next := storage[idx].next; next != -1 ==>
        && Node(next) && next != idx && storage[next].length < U16
        && var end := storage[idx].seq_ + storage[idx].length;
        && (end < storage[next].seq_ || (end == storage[next].seq_ && storage[next].next == -1))
      modifies this`storage, this`available
      ensures Pool() && Node(idx) && |storage| == |old(storage)|
      ensures Merged(old(storage), storage, idx, spins)
      ensures old(storage[idx].next) == -1 ==> available == old(available)
    {
      spins := false;
      var next := storage[idx].next;
      while next != -1
        invariant Pool() && Node(idx) && |storage| == |old(storage)|
        invariant next != -1 ==>
          next == old(storage[idx].next) && storage == old(storage) && available == old(available)
        invariant next == -1 ==> Merged(old(storage), storage, idx, false)
        invariant old(storage[idx].next) == -1 ==> available == old(available)
        decreases next != -1
      {
        var end := storage[idx].seq_ + storage[idx].length;
        if end >= storage[next].seq_ {
          var mergeLen := storage[next].length - (end - storage[next].seq_);
          var newLen := mergeLen + storage[idx].length;
          if newLen < U16 {
            storage := storage[idx := storage[idx].(length := newLen)];
            var toFree := next;
            next := storage[toFree].next;
            storage := storage[idx := storage[idx].(next := next)];
            RemoveNode(toFree);
          } else {
            var maxLen := U16 - 1 - storage[idx].length;
            storage := storage[idx := storage[idx].(length := storage[idx].length + maxLen)];
            storage := storage[next := storage[next].(length := storage[next].length - maxLen,
                                                      seq_ := storage[next].seq_ + maxLen)];
            return;
          }
        } else {
          spins := true;
          return;
        }
      }
    }

    /** Inserts a segment; the answer says where it went. */
    method InsertSegment(start: nat, len: nat) returns (idx: int, spins: bool)
      requires Valid() && Known(Contents(), start, len)
      modifies this
      ensures var p := Place(old(Contents()), start, len);
        && (p.AtHead? <==> !spins && idx == head)
        && (p.Spins? <==> spins)
        && (!p.Spins? ==> Valid() && head != -1 && Contents() == Listed(old(Contents()), start, len))
        && (p.AtHead? && Contents().Several? ==> storage[head].next != -1)
    {
      spins := false;
      idx := head;
      if idx == -1 {
        idx := InsertBeforeNode(-1, start, len);
        head := idx;
        tail := idx;
        return;
      }
      idx := FindPlace(start, len);
      if idx == -1 {
        idx := InsertAtTail(start, len);
        tangled := true;
      } else {
        spins := MergeAtIdx(idx);
        tangled := storage[idx].next != -1;
      }
    }

    /**
     The walk along the list: extends or overlaps the segment the new one belongs to, puts a
     new node in front of it, or finds nothing.
     */
    method FindPlace(start: nat, len: nat) returns (idx: int)
      requires Valid() && Known(Contents(), start, len) && head != -1
      modifies this`storage, this`available, this`head
      ensures Pool() && 0 <= tail < |storage| && (forall i :: i in old(available) ==> 0 <= i < |storage|)
      ensures idx == -1 ==>
        && Place(old(Contents()), start, len).BehindHead? && old(Contents()).OneSegment?
        && storage == old(storage) && available == old(available) && head == old(head)
      ensures idx != -1 ==>
        && !Place(old(Contents()), start, len).BehindHead?
        && idx == head && Node(idx) && storage[idx].prev == -1 && storage[idx].length < U16
        && Placed(old(Contents()), start, len, idx)
    {
      idx := head;
      var end := start + len;
      while idx != -1
        invariant idx == head || idx == -1
        invariant storage == old(storage) && available == old(available) && head == old(head)
        invariant idx == -1 ==> Place(old(Contents()), start, len).BehindHead? && old(Contents()).OneSegment?
        decreases idx != -1
      {
        var segSeq := storage[idx].seq_;
        var segLen := storage[idx].length;
        var segEnd := segSeq + segLen;
        if segEnd == start {
          storage := storage[idx := storage[idx].(length := segLen + len)];
          break;
        } else if segSeq >= end {
          idx := InsertBeforeNode(idx, start, len);
          break;
        } else if segSeq <= start {
          var newEnd := Max(segEnd, end);
          storage := storage[idx := storage[idx].(length := (newEnd - segSeq) % U16)];
          break;
        } else {
          idx := storage[idx].next;
        }
      }
    }

    /** The node at `idx` before its successors are merged. */
    ghost predicate Placed(v: View, start: nat, len: nat, idx: int)
      reads this
      requires Node(idx) && !v.NoSegment?
    {
      var node := storage[idx];
      if v.start + v.len != start && v.start >= start + len then
        && node.seq_ == start && node.length == len && node.next != -1 && node.next != idx && Node(node.next)
        && storage[node.next].seq_ == v.start && storage[node.next].length == v.len
        && (v.OneSegment? ==> storage[node.next].next == -1)
      else
        v.OneSegment? && node.next == -1 && Listed(v, start, len) == OneSegment(node.seq_, node.length)
    }

    method IsHead(seg: int) returns (b: bool)
      ensures b == (head == seg)
    {
      b := head == seg;
    }

    /** Takes `consumed` bytes off the front segment if it starts at `start`. */
    method ConsumeHeadData(start: nat, consumed: nat) returns (all: bool)
      requires Valid() && head != -1 && (Contents().Several? ==> Contents().start != start)
      requires storage[head].length < U16
      modifies this
      ensures Valid() && Contents() == Consumed(old(Contents()), start, consumed)
      ensures all == (old(Contents()).start == start && consumed <= old(Contents()).len)
    {
      var idx := head;
      if storage[idx].seq_ != start {
        return false;
      }
      var consume := Min(consumed, storage[idx].length);
      storage := storage[idx := storage[idx].(seq_ := storage[idx].seq_ + consume,
                                              length := storage[idx].length - consume)];
      if storage[idx].length == 0 {
        RemoveHead();
      } else {
        var _ := MergeAtIdx(idx);
      }
      all := consume == consumed;
    }

    method RemoveHead()
      requires Valid() && head != -1 && !tangled
      modifies this`storage, this`available, this`head
      ensures Valid() && Contents() == NoSegment
    {
      var h := head;
      head := storage[h].next;
      RemoveNode(h);
    }

    method Clear()
      requires Valid() && !tangled
      modifies this
      ensures Valid() && Contents() == NoSegment
    {
      var idx := head;
      while idx != -1
        invariant Pool() && !tangled && (idx != -1 ==> Node(idx) && storage[idx].next == -1)
        decreases idx != -1
      {
        var next := storage[idx].next;
        RemoveNode(idx);
        idx := next;
      }
      head := -1;
      tail := -1;
    }

    /** Whether at most one segment is left. */
    method AtMostOne() returns (one: bool)
      requires Valid()
      ensures one <==> head == -1 || storage[head].next == -1
    {
      one := head == -1 || storage[head].next == -1;
    }
  }
}
