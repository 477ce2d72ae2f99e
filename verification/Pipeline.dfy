/**
 Whole scheduling cycles over a packet batch: receive, filter any number of times, send,
 release the rest. The port and the filters are inputs, one set per cycle.
 */
module Pipeline {
  import opened Words
  import opened Mbuf
  import opened PacketBatch

  /** A filter's answer for the packet at an index of the batch it is looking at. */
  type Filter = (seq<MBuf>, nat) -> bool

  /** What one cycle meets: the packets a port delivers, the filters, and how many packets the port takes. */
  datatype Input = Input(incoming: seq<MBuf>, filters: seq<Filter>, offered: nat)

  function Verdicts(filter: Filter, s: seq<MBuf>): (keep: seq<bool>)
    ensures |keep| == |s|
  {
    seq(|s|, i requires 0 <= i < |s| => filter(s, i))
  }

  /** What passes every filter, each looking at what its predecessor left. */
  function Survivors(s: seq<MBuf>, filters: seq<Filter>): (r: seq<MBuf>)
    ensures |r| <= |s|
    decreases |filters|
  {
    if filters == [] then s
    else Survivors(Kept(s, Verdicts(filters[0], s), |s|), filters[1..])
  }

  /** What one cycle puts on the wire. */
  function Wire(input: Input): (r: seq<MBuf>) {
    var s := Survivors(input.incoming, input.filters);
    s[..Min(input.offered, |s|)]
  }

  function WireAll(inputs: seq<Input>): (r: seq<MBuf>) {
    if inputs == [] then [] else WireAll(inputs[..|inputs| - 1]) + Wire(inputs[|inputs| - 1])
  }

  function TakenAll(inputs: seq<Input>): (r: seq<MBuf>) {
    if inputs == [] then [] else TakenAll(inputs[..|inputs| - 1]) + inputs[|inputs| - 1].incoming
  }

  lemma OneMore(inputs: seq<Input>, i: nat)
    requires i < |inputs|
    ensures TakenAll(inputs[..i + 1]) == TakenAll(inputs[..i]) + inputs[i].incoming
    ensures WireAll(inputs[..i + 1]) == WireAll(inputs[..i]) + Wire(inputs[i])
  {
    assert inputs[..i + 1][..i] == inputs[..i];
  }

  /** Adding a cycle to the totals of a run. */
  lemma Totals(taken: multiset<MBuf>, sent: seq<MBuf>, inputs: seq<Input>, i: nat)
    requires i < |inputs|
    ensures taken + multiset(TakenAll(inputs[..i])) + multiset(inputs[i].incoming)
            == taken + multiset(TakenAll(inputs[..i + 1]))
    ensures sent + WireAll(inputs[..i]) + Wire(inputs[i]) == sent + WireAll(inputs[..i + 1])
  {
    OneMore(inputs, i);
    assert multiset(TakenAll(inputs[..i]) + inputs[i].incoming)
           == multiset(TakenAll(inputs[..i])) + multiset(inputs[i].incoming);
    assert sent + WireAll(inputs[..i]) + Wire(inputs[i]) == sent + (WireAll(inputs[..i]) + Wire(inputs[i]));
  }

  /** Packets keep their relative order through a subsequence. */
  ghost predicate Subsequence(r: seq<MBuf>, s: seq<MBuf>) {
    exists js: seq<nat> :: Picks(js, r, s)
  }

  ghost predicate Picks(js: seq<nat>, r: seq<MBuf>, s: seq<MBuf>) {
    && |js| == |r| && Increasing(js)
    && (forall k :: 0 <= k < |js| ==> js[k] < |s|)
    && (forall k :: 0 <= k < |js| ==> r[k] == s[js[k]])
  }

  lemma SubsequenceTransitive(a: seq<MBuf>, b: seq<MBuf>, c: seq<MBuf>)
    requires Subsequence(a, b) && Subsequence(b, c)
    ensures Subsequence(a, c)
  {
    var js :| Picks(js, a, b);
    var ks :| Picks(ks, b, c);
    var both := seq(|js|, i requires 0 <= i < |js| => ks[js[i]]);
    assert Picks(both, a, c);
  }

  lemma KeptIsSubsequence(s: seq<MBuf>, keep: seq<bool>)
    requires |keep| == |s|
    ensures Subsequence(Kept(s, keep, |s|), s)
  {
    KeptInOrder(s, keep, |s|);
    assert Picks(Places(keep, |s|), Kept(s, keep, |s|), s);
  }

  lemma PrefixIsSubsequence(s: seq<MBuf>, n: nat)
    requires n <= |s|
    ensures Subsequence(s[..n], s)
  {
    assert Picks(seq(n, i requires 0 <= i < n => i), s[..n], s);
  }

  /** Filters only remove: what survives them all is in arrival order. */
  lemma {:induction false} SurvivorsInOrder(s: seq<MBuf>, filters: seq<Filter>)
    ensures Subsequence(Survivors(s, filters), s)
    decreases |filters|
  {
    if filters == [] {
      PrefixIsSubsequence(s, |s|);
      assert s[..|s|] == s;
    } else {
      var next := Kept(s, Verdicts(filters[0], s), |s|);
      KeptIsSubsequence(s, Verdicts(filters[0], s));
      SurvivorsInOrder(next, filters[1..]);
      SubsequenceTransitive(Survivors(next, filters[1..]), next, s);
    }
  }

  /** One filter leaves exactly the packets at the positions it accepts, in order. */
  lemma OneFilterExactly(s: seq<MBuf>, filter: Filter) returns (js: seq<nat>)
    ensures Picks(js, Survivors(s, [filter]), s)
    ensures forall i :: 0 <= i < |s| ==> (i in js <==> filter(s, i))
  {
    var keep := Verdicts(filter, s);
    js := Places(keep, |s|);
    KeptInOrder(s, keep, |s|);
    assert [filter][1..] == [];
  }

  /** Each filter looks at what the ones in front of it left. */
  lemma {:induction false} SurvivorsChain(s: seq<MBuf>, first: seq<Filter>, rest: seq<Filter>)
    ensures Survivors(s, first + rest) == Survivors(Survivors(s, first), rest)
    decreases |first|
  {
    if first == [] {
      assert first + rest == rest;
    } else {
      assert (first + rest)[0] == first[0] && (first + rest)[1..] == first[1..] + rest;
      SurvivorsChain(Kept(s, Verdicts(first[0], s), |s|), first[1..], rest);
    }
  }

  /** A filter that looks at the packet only. */
  ghost predicate LooksAtPacket(filter: Filter, p: MBuf -> bool) {
    forall s: seq<MBuf>, i: nat :: i < |s| ==> filter(s, i) == p(s[i])
  }

  predicate AllAccept(ps: seq<MBuf -> bool>, m: MBuf) {
    forall k :: 0 <= k < |ps| ==> ps[k](m)
  }

  lemma {:induction false} KeptCount(s: seq<MBuf>, keep: seq<bool>, p: MBuf -> bool, n: nat, m: MBuf)
    requires n <= |s| == |keep| && forall i :: 0 <= i < |s| ==> keep[i] == p(s[i])
    ensures multiset(Kept(s, keep, n))[m] == if p(m) then multiset(s[..n])[m] else 0
  {
    if n > 0 {
      var last := n - 1;
      KeptCount(s, keep, p, last, m);
      assert s[..n] == s[..last] + [s[last]];
      CountMore(s[..last], s[last], m);
      CountMore(Kept(s, keep, last), s[last], m);
    }
  }

  lemma CountMore(s: seq<MBuf>, x: MBuf, m: MBuf)
    ensures multiset(s + [x])[m] == multiset(s)[m] + if x == m then 1 else 0
  {
  }

  /** With such filters a packet survives, as often as it arrived, exactly when every filter accepts it. */
  lemma {:induction false} SurvivorsExactly(s: seq<MBuf>, filters: seq<Filter>, ps: seq<MBuf -> bool>, m: MBuf)
    requires |ps| == |filters| && forall k :: 0 <= k < |filters| ==> LooksAtPacket(filters[k], ps[k])
    ensures multiset(Survivors(s, filters))[m] == if AllAccept(ps, m) then multiset(s)[m] else 0
    decreases |filters|
  {
    if filters != [] {
      var keep := Verdicts(filters[0], s);
      var next := Kept(s, keep, |s|);
      assert LooksAtPacket(filters[0], ps[0]);
      KeptCount(s, keep, ps[0], |s|, m);
      assert s[..|s|] == s;
      SurvivorsExactly(next, filters[1..], ps[1..], m);
      FirstAccepts(ps, m);
    }
  }

  lemma FirstAccepts(ps: seq<MBuf -> bool>, m: MBuf)
    requires ps != []
    ensures AllAccept(ps, m) <==> ps[0](m) && AllAccept(ps[1..], m)
  {
    if ps[0](m) && AllAccept(ps[1..], m) {
      forall k | 0 <= k < |ps| ensures ps[k](m) {
        assert k > 0 ==> ps[k] == ps[1..][k - 1];
      }
    }
  }

  /** The port gets the oldest survivors: all of them, or as many as it takes. */
  lemma WireExactly(input: Input)
    ensures var w, s := Wire(input), Survivors(input.incoming, input.filters);
      w <= s && |w| <= input.offered && (w == s || |w| == input.offered)
  {
  }

  /** What a cycle sends is in arrival order, and nothing is sent twice. */
  lemma WireInOrder(input: Input)
    ensures Subsequence(Wire(input), input.incoming)
  {
    var s := Survivors(input.incoming, input.filters);
    SurvivorsInOrder(input.incoming, input.filters);
    PrefixIsSubsequence(s, Min(input.offered, |s|));
    SubsequenceTransitive(Wire(input), s, input.incoming);
  }

  lemma SubsequencesJoin(a: seq<MBuf>, b: seq<MBuf>, c: seq<MBuf>, d: seq<MBuf>)
    requires Subsequence(a, b) && Subsequence(c, d)
    ensures Subsequence(a + c, b + d)
  {
    var js :| Picks(js, a, b);
    var ks :| Picks(ks, c, d);
    var all := js + seq(|ks|, i requires 0 <= i < |ks| => |b| + ks[i]);
    assert Picks(all, a + c, b + d);
  }

  /** Across any run of cycles packets leave in the order they arrived. */
  lemma {:induction false} RunInOrder(inputs: seq<Input>)
    ensures Subsequence(WireAll(inputs), TakenAll(inputs))
    decreases |inputs|
  {
    if inputs == [] {
      assert Picks([], WireAll(inputs), TakenAll(inputs));
    } else {
      var rest, last := inputs[..|inputs| - 1], inputs[|inputs| - 1];
      RunInOrder(rest);
      WireInOrder(last);
      SubsequencesJoin(WireAll(rest), TakenAll(rest), Wire(last), last.incoming);
    }
  }

  class Chain {
    const batch: Batch
    var received: nat
    var sent: nat

    /** Between cycles the batch is empty and the counters count what came and went. */
    ghost predicate Idle()
      reads this, batch, batch.cells
    {
      batch.Valid() && batch.Contents() == [] && received == |batch.taken| && sent == |batch.sent|
    }

    constructor (cnt: nat)
      ensures Idle() && fresh(batch) && fresh(batch.cells) && batch.cells.Length == cnt
      ensures batch.taken == multiset{} && batch.sent == [] && batch.freed == multiset{}
    {
      batch := new Batch(cnt);
      received, sent := 0, 0;
    }

    /** The receiving end of the chain. */
    method Receive(incoming: seq<MBuf>)
      requires Idle() && |incoming| <= batch.cells.Length
      modifies this`received, batch, batch.cells
      ensures batch.Valid() && batch.Contents() == incoming
      ensures batch.taken == old(batch.taken) + multiset(incoming) && batch.sent == old(batch.sent)
      ensures received == |batch.taken|
    {
      var n := batch.Recv(incoming);
      received := received + n;
    }

    /** All filters of the chain, innermost first. */
    method ApplyFilters(filters: seq<Filter>)
      requires batch.Valid()
      modifies batch, batch.cells
      ensures batch.Valid() && batch.Contents() == Survivors(old(batch.Contents()), filters)
      ensures batch.taken == old(batch.taken) && batch.sent == old(batch.sent)
    {
      ghost var was := batch.Contents();
      var i := 0;
      while i < |filters|
        invariant 0 <= i <= |filters| && batch.Valid()
        invariant Survivors(batch.Contents(), filters[i..]) == Survivors(was, filters)
        invariant batch.taken == old(batch.taken) && batch.sent == old(batch.sent)
      {
        assert filters[i..][1..] == filters[i + 1..];
        var held := batch.cells[..batch.len];
        batch.Filter(Verdicts(filters[i], held));
        i := i + 1;
      }
    }

    /** One cycle of the chain as the sending end runs it. */
    method Cycle(input: Input)
      requires Idle() && |input.incoming| <= batch.cells.Length
      modifies this, batch, batch.cells
      ensures Idle()
      ensures batch.taken == old(batch.taken) + multiset(input.incoming)
      ensures batch.sent == old(batch.sent) + Wire(input)
    {
      Receive(input.incoming);
      ApplyFilters(input.filters);
      var n := batch.SendQ(Min(input.offered, batch.len));
      sent := sent + n;
      batch.FreePacketBatch();
    }

    /** Any run of cycles: every packet taken was sent or freed, once, and the batch is empty again. */
    method Run(inputs: seq<Input>)
      requires Idle() && forall k :: 0 <= k < |inputs| ==> |inputs[k].incoming| <= batch.cells.Length
      modifies this, batch, batch.cells
      ensures Idle()
      ensures batch.taken == old(batch.taken) + multiset(TakenAll(inputs))
      ensures batch.sent == old(batch.sent) + WireAll(inputs)
      ensures batch.taken == multiset(batch.sent) + batch.freed
      ensures received == |batch.taken| && sent == |batch.sent|
    {
      ghost var taken0, sent0 := batch.taken, batch.sent;
      var i := 0;
      while i < |inputs|
        invariant 0 <= i <= |inputs| && Idle()
        invariant batch.taken == taken0 + multiset(TakenAll(inputs[..i]))
        invariant batch.sent == sent0 + WireAll(inputs[..i])
      {
        Totals(taken0, sent0, inputs, i);
        Cycle(inputs[i]);
        i := i + 1;
      }
      assert inputs[..|inputs|] == inputs;
      assert multiset(batch.Contents()) == multiset{};
    }
  }
}
