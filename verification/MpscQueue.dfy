/**
 The mbuf ring as an object: 64-bit counters, a slot array, and the two copy loops that
 split at the end of the array. Calls here run one after another; interleaved calls are
 the subject of `MpscProtocol`, whose single-slot steps these loops perform in order.
 */
module MpscQueue {
  import opened Words
  import opened Mbuf
  import opened Circular

  class Ring {
    const slots: nat
    const mask: nat
    const queue: array<MBuf>
    var prodHead: nat
    var prodTail: nat
    var consHead: nat
    var consTail: nat
    var producers: nat

    /** The mbufs in the ring, oldest first, and the unbounded position of the oldest. */
    ghost var contents: seq<MBuf>
    ghost var base: nat
    ghost const exponent: nat

    ghost predicate Valid()
      reads this, queue
    {
      && slots == Pow2(exponent) == queue.Length && exponent < 64 && slots < WORD
      && mask == slots - 1
      && prodHead == prodTail == (base + |contents|) % WORD
      && consHead == consTail == base % WORD
      && |contents| <= slots - 1
      && contents == Window(queue[..], Slot(base, slots), |contents|)
    }

    /** Rounds the requested size up to a power of two unless it already is one. */
    constructor (size: nat)
      requires 1 <= size <= HALF_WORD
      ensures Valid() && fresh(queue) && contents == [] && producers == 0
      ensures IsLeastPow2(slots, size)
    {
      var n := size;
      if And(size, size - 1) != 0 {
        n := RoundToPowerOf2(size);
      }
      PowerTest(size);
      SelfLeast(size);
      ghost var e: nat :| n == Pow2(e);
      FitsWord(n, e, size);
      slots, mask, exponent := n, n - 1, e;
      queue := new MBuf[n](_ => 0);
      prodHead, prodTail, consHead, consTail, producers := 0, 0, 0, 0, 0;
      contents, base := [], 0;
    }

    method ReferenceProducers()
      requires Valid()
      modifies this`producers
      ensures Valid() && producers == old(producers) + 1
    {
      producers := producers + 1;
    }

    method EnqueueMbufs(start: nat, enqueue: nat, mbufs: seq<MBuf>)
      requires slots == queue.Length > 0 && mask == slots - 1 && exponent <= 64 && slots == Pow2(exponent)
      requires enqueue <= |mbufs| && enqueue <= slots
      modifies queue
      ensures queue[..] == Overlay(old(queue[..]), Slot(start, slots), mbufs[..enqueue])
    {
      AndMask(start, exponent);
      var queueIdx := And(start, mask);
      var mbufIdx := 0;
      ghost var q0, was := queueIdx, queue[..];
      if queueIdx + enqueue >= slots {
        while queueIdx < slots
          invariant q0 <= queueIdx <= slots && mbufIdx == queueIdx - q0 <= enqueue
          invariant forall i :: 0 <= i < slots ==> queue[i] == if q0 <= i < queueIdx then mbufs[i - q0] else was[i]
        {
          queue[queueIdx] := mbufs[mbufIdx];
          mbufIdx := mbufIdx + 1;
          queueIdx := queueIdx + 1;
        }
        queueIdx := 0;
      }
      ghost var wrapped := mbufIdx;
      while mbufIdx < enqueue
        invariant wrapped <= mbufIdx <= enqueue
        invariant queueIdx == if wrapped > 0 then mbufIdx - wrapped else q0 + mbufIdx
        invariant wrapped > 0 ==> wrapped == slots - q0
        invariant forall i :: 0 <= i < slots ==>
          queue[i] == if Distance(i, q0, slots) < mbufIdx then mbufs[Distance(i, q0, slots)] else was[i]
      {
        queue[queueIdx] := mbufs[mbufIdx];
        mbufIdx := mbufIdx + 1;
        queueIdx := queueIdx + 1;
      }
    }

    method DequeueMbufs(start: nat, dequeue: nat) returns (mbufs: seq<MBuf>)
      requires slots == queue.Length > 0 && mask == slots - 1 && exponent <= 64 && slots == Pow2(exponent)
      requires dequeue <= slots
      ensures mbufs == Window(queue[..], Slot(start, slots), dequeue)
    {
      AndMask(start, exponent);
      var queueIdx := And(start, mask);
      ghost var q0 := queueIdx;
      mbufs := [];
      if queueIdx + dequeue >= slots {
        while queueIdx < slots
          invariant q0 <= queueIdx <= slots
          invariant mbufs == queue[q0..queueIdx]
        {
          mbufs := mbufs + [queue[queueIdx]];
          queueIdx := queueIdx + 1;
        }
        queueIdx := 0;
      }
      ghost var wrapped := |mbufs|;
      while |mbufs| < dequeue
        invariant wrapped <= |mbufs| <= dequeue
        invariant queueIdx == if wrapped > 0 then |mbufs| - wrapped else q0 + |mbufs|
        invariant wrapped > 0 ==> wrapped == slots - q0
        invariant forall k | 0 <= k < |mbufs| ::
          mbufs[k] == if q0 + k < slots then queue[q0 + k] else queue[q0 + k - slots]
      {
        mbufs := mbufs + [queue[queueIdx]];
        queueIdx := queueIdx + 1;
      }
    }

    /** Takes as many mbufs as fit, in order, at the back. */
    method EnqueueSp(mbufs: seq<MBuf>) returns (insert: nat)
      requires Valid()
      modifies this`prodHead, this`prodTail, this`contents, queue
      ensures Valid()
      ensures insert == Min(slots - 1 - |old(contents)|, |mbufs|)
      ensures contents == old(contents) + mbufs[..insert]
    {
      var producerHead := prodHead;
      var consumerTail := consTail;
      var free := WrapSub(WrapAdd(mask, consumerTail), producerHead);
      assert free == mask - |contents| by { WrappedFree(mask, base, base + |contents|); }
      insert := Min(free, |mbufs|);
      if insert > 0 {
        var producerNext := WrapAdd(producerHead, insert);
        assert producerNext == (base + |contents| + insert) % WORD by { WrappedSum(base + |contents|, insert); }
        prodHead := producerNext;
        ghost var before := queue[..];
        assert Slot(producerHead, slots) == After(Slot(base, slots), |contents|, slots) by {
          WrappedSlot(base + |contents|, exponent);
          AndMask(producerHead, exponent);
          SlotOffset(base, |contents|, slots);
        }
        EnqueueMbufs(producerHead, insert, mbufs[..insert]);
        assert mbufs[..insert][..insert] == mbufs[..insert];
        assert Window(queue[..], Slot(base, slots), |contents + mbufs[..insert]|) == contents + mbufs[..insert] by {
          OverlayExtends(before, Slot(base, slots), contents, mbufs[..insert]);
        }
        contents := contents + mbufs[..insert];
        prodTail := producerNext;
      }
    }

    /** Hands out the oldest mbufs, at most `room` of them. */
    method Dequeue(room: nat) returns (mbufs: seq<MBuf>)
      requires Valid()
      modifies this`consHead, this`consTail, this`contents, this`base
      ensures Valid()
      ensures |mbufs| == Min(room, |old(contents)|)
      ensures mbufs + contents == old(contents)
    {
      var consumerHead := consHead;
      var producerTail := prodTail;
      var available := WrapSub(producerTail, consumerHead);
      assert available == |contents| by { WrappedDifference(base + |contents|, base); }
      var dequeue := Min(room, available);
      mbufs := [];
      if dequeue > 0 {
        var consumerNext := WrapAdd(consumerHead, dequeue);
        assert consumerNext == (base + dequeue) % WORD by { WrappedSum(base, dequeue); }
        consHead := consumerNext;
        assert Slot(consumerHead, slots) == Slot(base, slots) by {
          WrappedSlot(base, exponent);
          AndMask(consumerHead, exponent);
        }
        mbufs := DequeueMbufs(consumerHead, dequeue);
        assert Slot(base + dequeue, slots) == After(Slot(base, slots), dequeue, slots) by {
          SlotOffset(base, dequeue, slots);
        }
        WindowSplits(queue[..], Slot(base, slots), dequeue, contents);
        contents := contents[dequeue..];
        base := base + dequeue;
        consTail := consumerNext;
      }
    }
  }

  lemma SelfLeast(x: nat)
    ensures IsPow2(x) ==> IsLeastPow2(x, x)
  {
  }

  lemma FitsWord(n: nat, e: nat, size: nat)
    requires n == Pow2(e) && IsLeastPow2(n, size) && size <= HALF_WORD
    ensures e < 64 && n < WORD
  {
    Pow2Of64();
    assert n <= Pow2(63);
    if e >= 64 { Pow2Mono(64, e); }
  }
}
