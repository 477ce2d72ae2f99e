/**
 A batch of packet buffers: a vector of fixed capacity that is refilled from a port,
 compacted in place by filters, drained by a send, and emptied at the end of a cycle.
 Every mbuf taken from a port must be released exactly once, by a send or by a free.
 */
module PacketBatch {
  import opened Mbuf
  import opened Options

  // ---------------------------------------------------------------- choosing packets

  /** The packets among the first `n` that the verdicts keep, in order. */
  function Kept(s: seq<MBuf>, keep: seq<bool>, n: nat): (r: seq<MBuf>)
    requires n <= |s| && n <= |keep|
    ensures |r| <= n
  {
    if n == 0 then []
    else if keep[n - 1] then Kept(s, keep, n - 1) + [s[n - 1]]
    else Kept(s, keep, n - 1)
  }

  /** The packets among the first `n` that the verdicts reject, in order. */
  function Rejected(s: seq<MBuf>, keep: seq<bool>, n: nat): (r: seq<MBuf>)
    requires n <= |s| && n <= |keep|
    ensures |r| <= n
  {
    if n == 0 then []
    else if keep[n - 1] then Rejected(s, keep, n - 1)
    else Rejected(s, keep, n - 1) + [s[n - 1]]
  }

  /** Every packet is kept or rejected, once. */
  lemma {:induction false} Partition(s: seq<MBuf>, keep: seq<bool>, n: nat)
    requires n <= |s| && n <= |keep|
    ensures multiset(Kept(s, keep, n)) + multiset(Rejected(s, keep, n)) == multiset(s[..n])
  {
    if n == 0 {
      assert s[..0] == [];
    } else {
      Partition(s, keep, n - 1);
      assert s[..n] == s[..n - 1] + [s[n - 1]];
    }
  }

  lemma {:induction false} AllKept(s: seq<MBuf>, keep: seq<bool>, n: nat)
    requires n <= |s| && n <= |keep| && forall i :: 0 <= i < n ==> keep[i]
    ensures Kept(s, keep, n) == s[..n] && Rejected(s, keep, n) == []
  {
    if n > 0 {
      AllKept(s, keep, n - 1);
      assert s[..n] == s[..n - 1] + [s[n - 1]];
    }
  }

  /** The positions among the first `n` that the verdicts keep. */
  function Places(keep: seq<bool>, n: nat): (js: seq<nat>)
    requires n <= |keep|
    ensures |js| <= n && forall k :: 0 <= k < |js| ==> js[k] < n
  {
    if n == 0 then []
    else if keep[n - 1] then Places(keep, n - 1) + [n - 1]
    else Places(keep, n - 1)
  }

  lemma {:induction false} PlacesRight(keep: seq<bool>, n: nat)
    requires n <= |keep|
    ensures Increasing(Places(keep, n))
    ensures forall i :: 0 <= i < n ==> (i in Places(keep, n) <==> keep[i])
  {
    if n > 0 {
      PlacesRight(keep, n - 1);
      var js := Places(keep, n - 1);
      assert n - 1 !in js;
      assert keep[n - 1] ==> n - 1 in js + [n - 1];
    }
  }

  lemma {:induction false} KeptAtPlaces(s: seq<MBuf>, keep: seq<bool>, n: nat)
    requires n <= |s| && n <= |keep|
    ensures |Kept(s, keep, n)| == |Places(keep, n)|
    ensures forall k :: 0 <= k < |Places(keep, n)| ==> Kept(s, keep, n)[k] == s[Places(keep, n)[k]]
  {
    if n > 0 {
      KeptAtPlaces(s, keep, n - 1);
    }
  }

  /** What is kept is what stood at the kept positions, in the order it stood there. */
  lemma KeptInOrder(s: seq<MBuf>, keep: seq<bool>, n: nat)
    requires n <= |s| && n <= |keep|
    ensures Increasing(Places(keep, n)) && forall i :: 0 <= i < n ==> (i in Places(keep, n) <==> keep[i])
    ensures |Kept(s, keep, n)| == |Places(keep, n)|
    ensures forall k :: 0 <= k < |Places(keep, n)| ==> Kept(s, keep, n)[k] == s[Places(keep, n)[k]]
  {
    PlacesRight(keep, n);
    KeptAtPlaces(s, keep, n);
  }

  // ---------------------------------------------------------------- removal lists

  ghost predicate Increasing(idxes: seq<nat>) {
    forall i, j :: 0 <= i < j < |idxes| ==> idxes[i] < idxes[j]
  }

  /** The verdicts a removal list stands for. */
  function KeepOthers(idxes: seq<nat>, n: nat): (keep: seq<bool>)
    ensures |keep| == n && forall i :: 0 <= i < n ==> keep[i] == (i !in idxes)
  {
    seq(n, i requires 0 <= i < n => i !in idxes)
  }

  /** Of an increasing list, exactly the first `r` entries are below `i`. */
  ghost predicate SplitAt(idxes: seq<nat>, r: nat, i: nat) {
    && r <= |idxes|
    && (forall k :: 0 <= k < r ==> idxes[k] < i)
    && (forall k :: r <= k < |idxes| ==> idxes[k] >= i)
  }

  lemma SplitStep(idxes: seq<nat>, r: nat, i: nat)
    requires Increasing(idxes) && SplitAt(idxes, r, i)
    ensures i in idxes <==> r < |idxes| && idxes[r] == i
    ensures SplitAt(idxes, if i in idxes then r + 1 else r, i + 1)
  {
  }

  // ---------------------------------------------------------------- accounting

  /** What pool and ports have seen: taken = sent + freed + held. */
  ghost predicate Balanced(taken: multiset<MBuf>, sent: seq<MBuf>, freed: multiset<MBuf>, held: seq<MBuf>) {
    taken == multiset(sent) + freed + multiset(held)
  }

  lemma BalanceTake(taken: multiset<MBuf>, sent: seq<MBuf>, freed: multiset<MBuf>, held: seq<MBuf>, incoming: seq<MBuf>)
    requires Balanced(taken, sent, freed, held)
    ensures Balanced(taken + multiset(incoming), sent, freed + multiset(held), incoming)
  {
  }

  lemma BalanceFree(taken: multiset<MBuf>, sent: seq<MBuf>, freed: multiset<MBuf>, held: seq<MBuf>)
    requires Balanced(taken, sent, freed, held)
    ensures Balanced(taken, sent, freed + multiset(held), [])
  {
  }

  lemma BalanceFilter(taken: multiset<MBuf>, sent: seq<MBuf>, freed: multiset<MBuf>, held: seq<MBuf>, keep: seq<bool>)
    requires Balanced(taken, sent, freed, held) && |keep| == |held|
    ensures Balanced(taken, sent, freed + multiset(Rejected(held, keep, |held|)), Kept(held, keep, |held|))
  {
    Partition(held, keep, |held|);
    assert held[..|held|] == held;
  }

  lemma BalanceSend(taken: multiset<MBuf>, sent: seq<MBuf>, freed: multiset<MBuf>, held: seq<MBuf>, n: nat)
    requires Balanced(taken, sent, freed, held) && n <= |held|
    ensures Balanced(taken, sent + held[..n], freed, held[n..])
  {
    assert held == held[..n] + held[n..];
  }

  // ---------------------------------------------------------------- in-place vector work

  /** Overwrites the front of the vector. */
  method FillFront(cells: array<MBuf>, incoming: seq<MBuf>)
    requires |incoming| <= cells.Length
    modifies cells
    ensures cells[..|incoming|] == incoming
  {
    for i := 0 to |incoming|
      invariant forall k :: 0 <= k < i ==> cells[k] == incoming[k]
    {
      cells[i] := incoming[i];
    }
  }

  /** Moves elements `from`..`n` to the front. */
  method ShiftDown(cells: array<MBuf>, from: nat, n: nat)
    requires from <= n <= cells.Length
    modifies cells
    ensures cells[..n - from] == old(cells[from..n])
  {
    for idx := from to n
      invariant forall k :: 0 <= k < idx - from ==> cells[k] == old(cells[k + from])
      invariant forall k :: idx <= k < n ==> cells[k] == old(cells[k])
    {
      cells[idx - from] := cells[idx];
    }
  }

  /** State of a compaction after `i` of the packets `was`. */
  ghost predicate Compacted(cells: array<MBuf>, was: seq<MBuf>, keep: seq<bool>, i: nat,
                            idxNew: nat, scratch: seq<MBuf>)
    reads cells
  {
    && |was| == |keep| <= cells.Length && i <= |was|
    && idxNew == |Kept(was, keep, i)|
    && cells[..idxNew] == Kept(was, keep, i)
    && scratch == Rejected(was, keep, i)
    && forall k :: i <= k < |was| ==> cells[k] == was[k]
  }

  method KeepOne(cells: array<MBuf>, i: nat, idxNew: nat,
                 ghost scratch: seq<MBuf>, ghost was: seq<MBuf>, ghost keep: seq<bool>)
    requires Compacted(cells, was, keep, i, idxNew, scratch) && i < |was| && keep[i]
    modifies cells
    ensures Compacted(cells, was, keep, i + 1, idxNew + 1, scratch)
  {
    ghost var front := cells[..idxNew];
    cells[idxNew] := cells[i];
    assert cells[..idxNew + 1] == front + [was[i]];
  }

  lemma DropOne(cells: array<MBuf>, i: nat, idxNew: nat, scratch: seq<MBuf>, was: seq<MBuf>, keep: seq<bool>)
    requires Compacted(cells, was, keep, i, idxNew, scratch) && i < |was| && !keep[i]
    ensures Compacted(cells, was, keep, i + 1, idxNew, scratch + [cells[i]])
  {
  }

  /** The first copy loop: as long as there are indices to find, survivors move down and the others are collected. */
  method RemoveListed(cells: array<MBuf>, end: nat, idxes: seq<nat>)
    returns (idxOrig: nat, idxNew: nat, removeIdx: nat, scratch: seq<MBuf>)
    requires end <= cells.Length && Increasing(idxes)
    modifies cells
    ensures idxOrig <= end && SplitAt(idxes, removeIdx, idxOrig) && removeIdx == |scratch|
    ensures idxOrig == end || removeIdx == |idxes|
    ensures Compacted(cells, old(cells[..end]), KeepOthers(idxes, end), idxOrig, idxNew, scratch)
  {
    ghost var was, keep := cells[..end], KeepOthers(idxes, end);
    idxOrig, idxNew, removeIdx, scratch := 0, 0, 0, [];
    while idxOrig < end && removeIdx < |idxes|
      invariant 0 <= idxOrig <= end && SplitAt(idxes, removeIdx, idxOrig) && removeIdx == |scratch|
      invariant Compacted(cells, was, keep, idxOrig, idxNew, scratch)
    {
      SplitStep(idxes, removeIdx, idxOrig);
      assert idxOrig <= idxes[removeIdx]; // the ordering assertion
      if idxOrig == idxes[removeIdx] {
        DropOne(cells, idxOrig, idxNew, scratch, was, keep);
        scratch := scratch + [cells[idxOrig]];
        removeIdx := removeIdx + 1;
      } else {
        KeepOne(cells, idxOrig, idxNew, scratch, was, keep);
        idxNew := idxNew + 1;
      }
      idxOrig := idxOrig + 1;
    }
  }

  /** The second: whatever is left moves down. */
  method CopyRest(cells: array<MBuf>, from: nat, end: nat, to: nat,
                  ghost was: seq<MBuf>, ghost keep: seq<bool>, ghost scratch: seq<MBuf>)
    returns (idxNew: nat)
    requires from <= end == |was| && Compacted(cells, was, keep, from, to, scratch)
    requires forall k :: from <= k < end ==> keep[k]
    modifies cells
    ensures Compacted(cells, was, keep, end, idxNew, scratch)
  {
    var idxOrig := from;
    idxNew := to;
    while idxOrig < end
      invariant from <= idxOrig <= end && Compacted(cells, was, keep, idxOrig, idxNew, scratch)
    {
      KeepOne(cells, idxOrig, idxNew, scratch, was, keep);
      idxOrig := idxOrig + 1;
      idxNew := idxNew + 1;
    }
  }

  /**
   Both copy loops. Answers how many survived, how many list entries were met, and the
   collected packets.
   */
  method Compact(cells: array<MBuf>, end: nat, idxes: seq<nat>)
    returns (idxNew: nat, removeIdx: nat, scratch: seq<MBuf>)
    requires end <= cells.Length && Increasing(idxes)
    modifies cells
    ensures removeIdx <= |idxes| && removeIdx == |scratch|
    ensures removeIdx == |idxes| <==> forall k :: 0 <= k < |idxes| ==> idxes[k] < end
    ensures Compacted(cells, old(cells[..end]), KeepOthers(idxes, end), end, idxNew, scratch)
  {
    ghost var was, keep := cells[..end], KeepOthers(idxes, end);
    var idxOrig;
    idxOrig, idxNew, removeIdx, scratch := RemoveListed(cells, end, idxes);
    if removeIdx < |idxes| { assert idxes[removeIdx] >= end; }
    idxNew := CopyRest(cells, idxOrig, end, idxNew, was, keep, scratch);
  }

  // ---------------------------------------------------------------- the batch

  class Batch {
    const cells: array<MBuf>
    var len: nat
    var scratch: seq<MBuf>

    ghost var taken: multiset<MBuf>
    ghost var freed: multiset<MBuf>
    ghost var sent: seq<MBuf>

    ghost function Contents(): (s: seq<MBuf>)
      reads this, cells
      requires len <= cells.Length
      ensures |s| == len
    {
      cells[..len]
    }

    /** Nothing lost, nothing released twice. */
    ghost predicate Valid()
      reads this, cells
    {
      len <= cells.Length && scratch == [] && Balanced(taken, sent, freed, Contents())
    }

    constructor (cnt: nat)
      ensures Valid() && fresh(cells) && cells.Length == cnt && Contents() == []
      ensures taken == multiset{} && freed == multiset{} && sent == []
    {
      cells := new MBuf[cnt](_ => 0);
      len, scratch := 0, [];
      taken, freed, sent := multiset{}, multiset{}, [];
    }

    /** Frees all mbufs held. */
    method FreePacketBatch()
      requires Valid()
      modifies this`len, this`freed
      ensures Valid() && Contents() == []
      ensures freed == old(freed) + multiset(old(Contents()))
    {
      if len > 0 {
        BalanceFree(taken, sent, freed, Contents());
        freed := freed + multiset(Contents());
        len := 0;
        assert Contents() == [];
      }
    }

    /** Frees what is left, then takes what the port delivers. */
    method Recv(incoming: seq<MBuf>) returns (n: nat)
      requires Valid() && |incoming| <= cells.Length
      modifies this`len, this`freed, this`taken, cells
      ensures Valid() && n == |incoming| && Contents() == incoming
      ensures taken == old(taken) + multiset(incoming)
      ensures freed == old(freed) + multiset(old(Contents()))
    {
      FreePacketBatch();
      BalanceTake(taken, sent, freed, [], incoming);
      FillFront(cells, incoming);
      n := |incoming|;
      len := n;
      taken := taken + multiset(incoming);
      assert Contents() == incoming;
    }

    /**
     Removes the packets at the listed indices, keeping the rest in order, and frees them.
     Answers None, freeing nothing, when some index lies beyond the batch.
     */
    method DropPacketsStable(idxes: seq<nat>) returns (r: Option<nat>)
      requires Valid() && Increasing(idxes)
      modifies this`len, this`scratch, this`freed, cells
      ensures r.Some? <==> forall k :: 0 <= k < |idxes| ==> idxes[k] < old(len)
      ensures r.Some? ==>
        && Valid() && r.value == |idxes|
        && Contents() == Kept(old(Contents()), KeepOthers(idxes, old(len)), old(len))
        && freed == old(freed) + multiset(Rejected(old(Contents()), KeepOthers(idxes, old(len)), old(len)))
      ensures r.None? ==> freed == old(freed) && len == old(len)
    {
      ghost var was, keep := Contents(), KeepOthers(idxes, len);
      if idxes == [] {
        AllKept(was, keep, len);
        assert was[..len] == was;
        return Some(0);
      }
      BalanceFilter(taken, sent, freed, was, keep);
      var idxNew, removeIdx, removed := Compact(cells, len, idxes);
      scratch := removed;
      if removeIdx < |idxes| {
        r := None;
      } else {
        len := idxNew;
        assert Contents() == Kept(was, keep, |was|);
        var n := |scratch|; // at least one, since the list was not empty
        freed := freed + multiset(scratch);
        scratch := [];
        r := Some(n);
      }
    }

    /** Forgets the first `consumed` packets, which the port now owns. */
    method ConsumeBatchPartial(consumed: nat)
      requires Valid() && consumed <= len
      modifies this`len, this`sent, cells
      ensures Valid() && Contents() == old(Contents())[consumed..]
      ensures sent == old(sent) + old(Contents())[..consumed]
    {
      ghost var was := Contents();
      BalanceSend(taken, sent, freed, was, consumed);
      ShiftDown(cells, consumed, len);
      len := len - consumed;
      sent := sent + was[..consumed];
      assert Contents() == was[consumed..];
    }

    /** Offers the batch to a port that accepts `accepted` packets. */
    method SendQ(accepted: nat) returns (total: nat)
      requires Valid() && accepted <= len
      modifies this`len, this`sent, cells
      ensures Valid() && total == accepted
      ensures sent == old(sent) + old(Contents())[..accepted] && Contents() == old(Contents())[accepted..]
    {
      total := 0;
      if len > 0 {
        ConsumeBatchPartial(accepted);
        total := accepted;
      }
    }

    /** The filter's pass over the batch: indices of rejected packets, in order. */
    method CollectRejected(verdicts: seq<bool>) returns (remove: seq<nat>)
      requires len <= cells.Length && |verdicts| == len
      ensures Increasing(remove) && (forall k :: 0 <= k < |remove| ==> remove[k] < len)
      ensures KeepOthers(remove, len) == verdicts
    {
      remove := [];
      var idx := 0;
      while idx < len
        invariant 0 <= idx <= len && Increasing(remove)
        invariant forall k :: 0 <= k < |remove| ==> remove[k] < idx
        invariant forall i :: 0 <= i < idx ==> (verdicts[i] <==> i !in remove)
      {
        if !verdicts[idx] {
          remove := remove + [idx];
        }
        idx := idx + 1;
      }
    }

    /**
     Drops every packet the filter rejects; `verdicts[i]` is the filter's answer for the
     packet at index `i`, whatever state it was computed from.
     */
    method Filter(verdicts: seq<bool>)
      requires Valid() && |verdicts| == len
      modifies this`len, this`scratch, this`freed, cells
      ensures Valid()
      ensures Contents() == Kept(old(Contents()), verdicts, old(len))
      ensures freed == old(freed) + multiset(Rejected(old(Contents()), verdicts, old(len)))
    {
      var remove := CollectRejected(verdicts);
      if remove != [] {
        var r := DropPacketsStable(remove);
        assert r.Some?; // the filter's `expect` cannot fire
      } else {
        AllKept(Contents(), verdicts, len);
        assert Contents()[..len] == Contents();
      }
    }
  }
}
