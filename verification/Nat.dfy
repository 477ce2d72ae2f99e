/**
 The address translator: a map from flows to flows, filled two entries at a time, a side
 table of used ports, and a port counter.
 */
module Nat {
  import opened Words
  import opened Options
  import opened Flows

  const MIN_PORT: nat := 1024
  const MAX_PORT: nat := 65535
  /** Length of the side table, which is indexed by the port itself. */
  const SIDE_TABLE: nat := MAX_PORT - MIN_PORT

  datatype FlowUsed = FlowUsed(flow: Flow, time: nat, used: bool)

  datatype Table = Table(ports: map<Flow, Flow>, side: seq<FlowUsed>, nextPort: nat)

  /** A flow's outgoing form behind the given address and port. */
  function Outgoing(ip: U32, f: Flow, port: U16): (r: Flow) {
    f.(srcIp := ip, srcPort := port)
  }

  /** Both directions of a new translation. */
  function Insert(m: map<Flow, Flow>, f: Flow, out: Flow): (r: map<Flow, Flow>) {
    m[f := out][ReverseFlow(out) := ReverseFlow(f)]
  }

  datatype Outcome = Known(out: Flow) | Assigned(table: Table, out: Flow) | NoPortLeft | Panics

  /** What the translator does with a flow. */
  function Translate(ip: U32, t: Table, f: Flow): (r: Outcome)
    requires |t.side| == SIDE_TABLE
  {
    if f in t.ports then Known(t.ports[f])
    else if t.nextPort >= MAX_PORT then NoPortLeft
    else if t.nextPort >= |t.side| then Panics
    else
      var out := Outgoing(ip, f, t.nextPort);
      var side := t.side[t.nextPort := t.side[t.nextPort].(flow := f, used := true)];
      Assigned(Table(Insert(t.ports, f, out), side, t.nextPort + 1), out)
  }

  // ---------------------------------------------------------------- the map as an involution

  /** Translating the reverse of a translation gives the reverse of the flow. */
  ghost predicate Involution(m: map<Flow, Flow>) {
    forall f :: f in m ==> Undone(m, f)
  }

  ghost predicate Undone(m: map<Flow, Flow>, f: Flow)
    requires f in m
  {
    ReverseFlow(m[f]) in m && m[ReverseFlow(m[f])] == ReverseFlow(f)
  }

  /** `m` translates everything `earlier` does, to the same flows. */
  ghost predicate Extends(m: map<Flow, Flow>, earlier: map<Flow, Flow>) {
    forall f :: f in earlier ==> f in m && m[f] == earlier[f]
  }

  /** Two flows never share a translation. */
  lemma Injective(m: map<Flow, Flow>, a: Flow, b: Flow)
    requires Involution(m) && a in m && b in m && m[a] == m[b]
    ensures a == b
  {
  }

  lemma InsertFresh(m: map<Flow, Flow>, f: Flow, out: Flow)
    requires Involution(m) && f !in m && (ReverseFlow(out) !in m || m[ReverseFlow(out)] == out)
    ensures Involution(Insert(m, f, out))
  {
  }

  lemma InsertClash(m: map<Flow, Flow>, f: Flow, out: Flow)
    requires Involution(m) && f !in m && ReverseFlow(out) in m && m[ReverseFlow(out)] != out
    ensures !Involution(Insert(m, f, out)) && !Extends(Insert(m, f, out), m)
  {
    var n, back := Insert(m, f, out), ReverseFlow(out);
    assert Undone(m, back);
    var k := ReverseFlow(m[back]);
    assert k in m && m[k] == out && k != back && k != f;
    assert !Undone(n, k);
    assert m[back] != ReverseFlow(f);
  }

  /** A new translation keeps the involution exactly when its return flow was free, or was its own return already. */
  lemma InsertKeepsInvolutionExactly(m: map<Flow, Flow>, f: Flow, out: Flow)
    requires Involution(m) && f !in m
    ensures Involution(Insert(m, f, out)) <==> ReverseFlow(out) !in m || m[ReverseFlow(out)] == out
  {
    if ReverseFlow(out) !in m || m[ReverseFlow(out)] == out {
      InsertFresh(m, f, out);
    } else {
      InsertClash(m, f, out);
    }
  }

  /** It leaves every earlier translation alone exactly when its return flow was free. */
  lemma InsertIsStableExactly(m: map<Flow, Flow>, f: Flow, out: Flow)
    requires Involution(m) && f !in m
    ensures Extends(Insert(m, f, out), m) <==> ReverseFlow(out) !in m
  {
  }

  // ---------------------------------------------------------------- the table over a trace

  ghost predicate InRange(t: Table, port: int) {
    MIN_PORT <= port < t.nextPort
  }

  /** An entry for a flow leaving the network: same destination, its own port here, recorded in the side table. */
  ghost predicate LeavingEntry(ip: U32, t: Table, f: Flow)
    requires f in t.ports && |t.side| == SIDE_TABLE && t.nextPort <= SIDE_TABLE
  {
    var out := t.ports[f];
    && out.srcIp == ip && InRange(t, out.srcPort)
    && out.dstIp == f.dstIp && out.dstPort == f.dstPort && out.proto == f.proto
    && t.side[out.srcPort].used && t.side[out.srcPort].flow == f
  }

  /** An entry for a reply, addressed to an assigned port of the translator. */
  ghost predicate ReplyEntry(t: Table, f: Flow)
    requires f in t.ports
  {
    InRange(t, f.dstPort) && t.ports[f].proto == f.proto
  }

  ghost predicate Entry(ip: U32, t: Table, f: Flow)
    requires f in t.ports && |t.side| == SIDE_TABLE && t.nextPort <= SIDE_TABLE
  {
    if f.dstIp == ip then ReplyEntry(t, f) else LeavingEntry(ip, t, f)
  }

  ghost predicate Shape(t: Table) {
    |t.side| == SIDE_TABLE && MIN_PORT <= t.nextPort <= SIDE_TABLE
  }

  ghost predicate Inv(ip: U32, t: Table) {
    Shape(t) && Involution(t.ports) && forall f :: f in t.ports ==> Entry(ip, t, f)
  }

  function Empty(): (t: Table) {
    Table(map[], seq(SIDE_TABLE, _ => FlowUsed(Flow(0, 0, 0, 0, 0), 0, false)), MIN_PORT)
  }

  /** A known flow, or a new one that does not aim at the translator while the side table still has room. */
  ghost predicate Fits(ip: U32, t: Table, f: Flow) {
    f in t.ports || (f.dstIp != ip && t.nextPort < SIDE_TABLE)
  }

  /** The table after a flow was seen. */
  function Next(ip: U32, t: Table, f: Flow): (r: Table)
    requires |t.side| == SIDE_TABLE
    ensures |r.side| == SIDE_TABLE
  {
    var r := Translate(ip, t, f);
    if r.Assigned? then r.table else t
  }

  /** Where a flow is sent. */
  function Sent(ip: U32, t: Table, f: Flow): (r: Flow)
    requires |t.side| == SIDE_TABLE
  {
    var r := Translate(ip, t, f);
    if r.Assigned? || r.Known? then r.out else f
  }

  lemma EntriesStay(ip: U32, t: Table, f: Flow, k: Flow)
    requires Inv(ip, t) && f !in t.ports && f.dstIp != ip && t.nextPort < SIDE_TABLE && k in t.ports
    ensures var n := Next(ip, t, f); k in n.ports && n.ports[k] == t.ports[k] && Entry(ip, n, k)
  {
    var out := Outgoing(ip, f, t.nextPort);
    var n := Next(ip, t, f);
    var back := ReverseFlow(out);
    assert Entry(ip, t, k);
    assert k != back; // an entry for it would need a smaller port
    assert n.ports[k] == t.ports[k];
    assert forall p :: InRange(t, p) ==> n.side[p] == t.side[p];
  }

  lemma NewEntries(ip: U32, t: Table, f: Flow)
    requires Shape(t) && f !in t.ports && f.dstIp != ip && t.nextPort < SIDE_TABLE
    ensures var n, out := Next(ip, t, f), Outgoing(ip, f, t.nextPort);
            && f in n.ports && n.ports[f] == out && Entry(ip, n, f)
            && ReverseFlow(out) in n.ports && n.ports[ReverseFlow(out)] == ReverseFlow(f)
            && Entry(ip, n, ReverseFlow(out))
  {
  }

  /** One packet: the invariant stays, earlier translations stay, and the packet goes where the table now says. */
  lemma PacketKeeps(ip: U32, t: Table, f: Flow)
    requires Inv(ip, t) && Fits(ip, t, f)
    ensures Inv(ip, Next(ip, t, f)) && Extends(Next(ip, t, f).ports, t.ports)
    ensures f in Next(ip, t, f).ports && Sent(ip, t, f) == Next(ip, t, f).ports[f]
  {
    if f !in t.ports {
      var out := Outgoing(ip, f, t.nextPort);
      var n, back := Next(ip, t, f), ReverseFlow(out);
      assert back in t.ports ==> Entry(ip, t, back); // whose port would be assigned already
      InsertFresh(t.ports, f, out);
      NewEntries(ip, t, f);
      forall k | k in n.ports ensures Entry(ip, n, k) {
        if k in t.ports {
          EntriesStay(ip, t, f, k);
        }
      }
      InsertIsStableExactly(t.ports, f, out);
    }
  }

  function After(ip: U32, t: Table, flows: seq<Flow>): (r: Table)
    requires |t.side| == SIDE_TABLE
    ensures |r.side| == SIDE_TABLE
    decreases |flows|
  {
    if flows == [] then t else After(ip, Next(ip, t, flows[0]), flows[1..])
  }

  /** Every flow of the trace fits when its turn comes. */
  ghost predicate AllFit(ip: U32, t: Table, flows: seq<Flow>)
    requires |t.side| == SIDE_TABLE
    decreases |flows|
  {
    flows == [] || (Fits(ip, t, flows[0]) && AllFit(ip, Next(ip, t, flows[0]), flows[1..]))
  }

  lemma {:induction false} TraceKeeps(ip: U32, t: Table, flows: seq<Flow>)
    requires Inv(ip, t) && AllFit(ip, t, flows)
    ensures Inv(ip, After(ip, t, flows)) && Extends(After(ip, t, flows).ports, t.ports)
    decreases |flows|
  {
    if flows != [] {
      PacketKeeps(ip, t, flows[0]);
      TraceKeeps(ip, Next(ip, t, flows[0]), flows[1..]);
    }
  }

  lemma {:induction false} AfterMore(ip: U32, t: Table, flows: seq<Flow>, f: Flow)
    requires |t.side| == SIDE_TABLE
    ensures After(ip, t, flows + [f]) == Next(ip, After(ip, t, flows), f)
    ensures AllFit(ip, t, flows + [f]) <==> AllFit(ip, t, flows) && Fits(ip, After(ip, t, flows), f)
    decreases |flows|
  {
    if flows == [] {
      assert (flows + [f])[1..] == [];
    } else {
      assert (flows + [f])[1..] == flows[1..] + [f];
      AfterMore(ip, Next(ip, t, flows[0]), flows[1..], f);
    }
  }

  lemma EmptyIsFine(ip: U32)
    ensures Inv(ip, Empty())
  {
  }

  /**
   After any trace, a flow is sent somewhere; after any further trace it is still sent there,
   and a reply to it is sent back to where the flow came from, without taking a port.
   */
  lemma ReplyReachesSender(ip: U32, before: seq<Flow>, f: Flow, between: seq<Flow>)
    requires AllFit(ip, Empty(), before)
    requires var t := After(ip, Empty(), before); Fits(ip, t, f) && AllFit(ip, Next(ip, t, f), between)
    ensures var t := After(ip, Empty(), before);
            var later := After(ip, Next(ip, t, f), between);
            && Sent(ip, later, f) == Sent(ip, t, f)
            && Translate(ip, later, ReverseFlow(Sent(ip, t, f))) == Known(ReverseFlow(f))
  {
    EmptyIsFine(ip);
    TraceKeeps(ip, Empty(), before);
    var t := After(ip, Empty(), before);
    PacketKeeps(ip, t, f);
    TraceKeeps(ip, Next(ip, t, f), between);
    var later := After(ip, Next(ip, t, f), between);
    assert Undone(later.ports, f);
  }

  /** Flows leaving the network never share a port. */
  lemma PortsUnique(ip: U32, t: Table, a: Flow, b: Flow)
    requires Inv(ip, t) && a in t.ports && b in t.ports && a.dstIp != ip && b.dstIp != ip
    requires t.ports[a].srcPort == t.ports[b].srcPort
    ensures a == b
  {
  }

  /** Indexing the side table by the raw port fails exactly on new flows once the counter passed its length. */
  lemma PanicsExactly(ip: U32, t: Table, f: Flow)
    requires |t.side| == SIDE_TABLE
    ensures Translate(ip, t, f).Panics? <==> f !in t.ports && 64511 <= t.nextPort < 65535
  {
  }

  /** Which of the four things happens. A new flow leaves with all but its source, which is the next port here. */
  lemma OutcomeExactly(ip: U32, t: Table, f: Flow)
    requires |t.side| == SIDE_TABLE
    ensures var r := Translate(ip, t, f);
      && (r.Known? <==> f in t.ports) && (r.Known? ==> r.out == t.ports[f])
      && (r.Assigned? <==> f !in t.ports && t.nextPort < 64511)
      && (r.NoPortLeft? <==> f !in t.ports && t.nextPort >= 65535)
      && (r.Assigned? ==>
            && r.out == Flow(ip, f.dstIp, t.nextPort, f.dstPort, f.proto) && r.table.nextPort == t.nextPort + 1
            && r.table.ports.Keys == t.ports.Keys + {f, Flow(f.dstIp, ip, f.dstPort, t.nextPort, f.proto)})
  {
  }

  /** Different flows, none aimed at the translator. */
  ghost predicate NewFlows(ip: U32, flows: seq<Flow>) {
    && (forall i :: 0 <= i < |flows| ==> flows[i].dstIp != ip)
    && (forall i, j :: 0 <= i < j < |flows| ==> flows[i] != flows[j])
  }

  /** Each of them takes the next port, as long as the side table lasts. */
  lemma {:induction false} EachTakesAPort(ip: U32, flows: seq<Flow>)
    requires NewFlows(ip, flows) && |flows| <= SIDE_TABLE - MIN_PORT
    ensures AllFit(ip, Empty(), flows) && Inv(ip, After(ip, Empty(), flows))
    ensures After(ip, Empty(), flows).nextPort == MIN_PORT + |flows|
    ensures forall k :: k in After(ip, Empty(), flows).ports && k.dstIp != ip ==> k in flows
    decreases |flows|
  {
    if flows == [] {
      EmptyIsFine(ip);
    } else {
      var rest, f := flows[..|flows| - 1], flows[|flows| - 1];
      assert flows == rest + [f];
      EachTakesAPort(ip, rest);
      AfterMore(ip, Empty(), rest, f);
      assert f !in rest;
      PacketKeeps(ip, After(ip, Empty(), rest), f);
    }
  }

  /** After 63487 of them, one more panics. */
  lemma PortsRunOut(ip: U32, flows: seq<Flow>, f: Flow)
    requires NewFlows(ip, flows + [f]) && |flows| == 63487
    ensures AllFit(ip, Empty(), flows) && Translate(ip, After(ip, Empty(), flows), f).Panics?
  {
    assert forall i :: 0 <= i < |flows| ==> flows[i] == (flows + [f])[i];
    assert (flows + [f])[|flows|] == f;
    EachTakesAPort(ip, flows);
  }

  /** There are that many flows. */
  lemma EnoughFlows(ip: U32) returns (flows: seq<Flow>, f: Flow)
    ensures NewFlows(ip, flows + [f]) && |flows| == 63487
  {
    var other: U32 := if ip == 0 then 1 else 0;
    flows := seq(63487, i requires 0 <= i < 63487 => Flow(i, other, 0, 0, 6));
    f := Flow(63487, other, 0, 0, 6);
  }

  /**
   A flow that aims at the translator, at a port still to be assigned: once that port is given
   to a flow towards the first one's source, the first one's translation is replaced.
   */
  lemma AimingAtTranslator(ip: U32)
    requires ip != 1
    ensures var first := Flow(1, ip, 7, 1025, 6);
            var second := Flow(2, 1, 9, 7, 6);
            var t := Next(ip, Empty(), first);
            var u := Next(ip, t, second);
            && second.dstIp != ip && t.ports[first] == Sent(ip, Empty(), first)
            && first in u.ports && u.ports[first] != t.ports[first] && !Involution(u.ports)
  {
    var first := Flow(1, ip, 7, 1025, 6);
    var second := Flow(2, 1, 9, 7, 6);
    var t := Next(ip, Empty(), first);
    var out := Outgoing(ip, first, 1024);
    var none: map<Flow, Flow> := map[];
    assert t.ports == Insert(none, first, out);
    assert first != ReverseFlow(out);
    InsertFresh(none, first, out);
    var out2 := Outgoing(ip, second, 1025);
    assert ReverseFlow(out2) == first && t.ports[first] == out;
    assert second !in t.ports;
    InsertClash(t.ports, second, out2);
    assert Next(ip, t, second).ports == Insert(t.ports, second, out2);
  }

  // ---------------------------------------------------------------- the translator

  datatype Verdict = Rewritten | Passed | Panicked

  /** A packet of the given flow, its ports apart from the other fields. */
  ghost predicate Carries(payload: array<Byte>, f: Flow)
    reads payload
  {
    payload.Length > 0 && ExtractFlow(payload[..]) == Some(f) && PortsApart(payload[..])
  }

  class Translator {
    const ip: U32
    var portHash: map<Flow, Flow>
    var flowVec: seq<FlowUsed>
    var nextPort: nat

    ghost function View(): (t: Table)
      reads this
    {
      Table(portHash, flowVec, nextPort)
    }

    constructor (natIp: U32)
      ensures ip == natIp && View() == Empty()
    {
      ip := natIp;
      portHash := map[];
      flowVec := Empty().side;
      nextPort := 1024;
    }

    /** Finds or assigns the flow a packet is rewritten to. */
    method Lookup(flow: Flow) returns (r: Outcome)
      requires |flowVec| == SIDE_TABLE
      modifies this
      ensures r == Translate(ip, old(View()), flow) && |flowVec| == SIDE_TABLE
      ensures r.Panics? || View() == Next(ip, old(View()), flow)
    {
      if flow in portHash {
        return Known(portHash[flow]);
      }
      if nextPort < MAX_PORT {
        var assignedPort := nextPort;
        nextPort := nextPort + 1;
        if assignedPort >= |flowVec| {
          return Panics;
        }
        flowVec := flowVec[assignedPort := flowVec[assignedPort].(flow := flow, used := true)];
        var outgoing := Outgoing(ip, flow, assignedPort);
        portHash := portHash[flow := outgoing];
        portHash := portHash[ReverseFlow(outgoing) := ReverseFlow(flow)];
        return Assigned(Table(portHash, flowVec, nextPort), outgoing);
      }
      return NoPortLeft;
    }

    /** Translates one packet in place. */
    method Process(payload: array<Byte>, checksum: Checksum) returns (v: Verdict)
      requires |flowVec| == SIDE_TABLE
      modifies this, payload
      ensures |flowVec| == SIDE_TABLE
      ensures v == Panicked <==>
        (!LongEnough(old(payload[..])) || Translate(ip, old(View()), ExtractFlow(old(payload[..])).value).Panics?)
      ensures v == Rewritten ==>
        var f := ExtractFlow(old(payload[..])).value;
        && View() == Next(ip, old(View()), f)
        && payload[..] == Stamped(old(payload[..]), Sent(ip, old(View()), f), checksum)
      ensures v == Passed <==>
        var found := ExtractFlow(old(payload[..]));
        found.Some? && found.value !in old(portHash) && old(nextPort) >= 65535
      ensures v == Passed ==> View() == old(View()) && payload[..] == old(payload[..])
    {
      var found := ExtractFlow(payload[..]);
      if found.None? {
        return Panicked;
      }
      var r := Lookup(found.value);
      match r
      case Panics =>
        v := Panicked;
      case NoPortLeft =>
        v := Passed;
      case Known(out) =>
        StampFlow(payload, out, checksum);
        v := Rewritten;
      case Assigned(_, out) =>
        StampFlow(payload, out, checksum);
        v := Rewritten;
    }

    /** One packet whose flow fits. */
    method ProcessFitting(payload: array<Byte>, checksum: Checksum, ghost f: Flow)
      requires Inv(ip, View()) && Fits(ip, View(), f) && Carries(payload, f)
      modifies this, payload
      ensures View() == Next(ip, old(View()), f) && Inv(ip, View()) && Extends(portHash, old(portHash))
      ensures f in portHash && Carries(payload, portHash[f])
    {
      PacketKeeps(ip, View(), f);
      BytesCarryTranslation(ip, View(), payload[..], checksum);
      var _ := Process(payload, checksum);
    }

    /** Every packet so far carries the translation of its flow. */
    ghost predicate AllTranslated(packets: seq<array<Byte>>, flows: seq<Flow>)
      reads this, packets
    {
      && |packets| == |flows|
      && forall k :: 0 <= k < |packets| ==> flows[k] in portHash && Carries(packets[k], portHash[flows[k]])
    }

    /**
     A trace of packets whose flows fit: none panics, the table is the trace's, and every packet
     leaves with the translation its flow has in the end.
     */
    method ProcessAll(packets: seq<array<Byte>>, checksum: Checksum, ghost flows: seq<Flow>)
      requires Inv(ip, View()) && AllFit(ip, View(), flows) && |flows| == |packets|
      requires forall i :: 0 <= i < |packets| ==> Carries(packets[i], flows[i])
      requires forall i, j :: 0 <= i < j < |packets| ==> packets[i] != packets[j]
      modifies this, packets
      ensures View() == After(ip, old(View()), flows) && Extends(portHash, old(portHash))
      ensures AllTranslated(packets, flows)
      decreases |packets|
    {
      if packets != [] {
        ProcessFitting(packets[0], checksum, flows[0]);
        var rest := packets[1..];
        assert forall i :: 0 <= i < |rest| ==> rest[i] == packets[i + 1] && Carries(rest[i], flows[1..][i]);
        ghost var out := portHash[flows[0]];
        assert packets[0] !in rest;
        ProcessAll(rest, checksum, flows[1..]);
        assert Carries(packets[0], out);
        TranslatedJoin(packets, flows);
      }
    }

    lemma TranslatedJoin(packets: seq<array<Byte>>, flows: seq<Flow>)
      requires packets != [] && flows != [] && AllTranslated(packets[1..], flows[1..])
      requires flows[0] in portHash && Carries(packets[0], portHash[flows[0]])
      ensures AllTranslated(packets, flows)
    {
      forall k | 0 <= k < |packets| ensures flows[k] in portHash && Carries(packets[k], portHash[flows[k]]) {
        assert k > 0 ==> packets[k] == packets[1..][k - 1] && flows[k] == flows[1..][k - 1];
      }
    }
  }

  /** On a packet with ports apart the bytes that leave carry exactly the translated flow. */
  lemma BytesCarryTranslation(ip: U32, t: Table, s: seq<Byte>, checksum: Checksum)
    requires Inv(ip, t) && LongEnough(s) && PortsApart(s) && Fits(ip, t, ExtractFlow(s).value)
    ensures var f := ExtractFlow(s).value;
      && PortsApart(Stamped(s, Sent(ip, t, f), checksum))
      && ExtractFlow(Stamped(s, Sent(ip, t, f), checksum)) == Some(Next(ip, t, f).ports[f])
  {
    var f := ExtractFlow(s).value;
    PacketKeeps(ip, t, f);
    assert Entry(ip, Next(ip, t, f), f);
    StampThenExtract(s, Sent(ip, t, f), checksum);
  }
}
