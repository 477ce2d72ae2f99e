/**
 Five-tuple flows read from and stamped into an IPv4 packet: addresses at fixed offsets,
 ports right behind the header, whose length in words is the low nibble of the first byte.
 */
module Flows {
  import opened Words
  import opened Options

  type U16 = x: int | 0 <= x < 0x1_0000 witness 0
  type U32 = x: int | 0 <= x < 0x1_0000_0000 witness 0

  datatype Flow = Flow(srcIp: U32, dstIp: U32, srcPort: U16, dstPort: U16, proto: Byte)

  /** The checksum routine, which looks at the whole packet. */
  type Checksum = seq<Byte> -> U16

  function ReverseFlow(f: Flow): (r: Flow) {
    Flow(f.dstIp, f.srcIp, f.dstPort, f.srcPort, f.proto)
  }

  // ---------------------------------------------------------------- big-endian words

  function Read16(s: seq<Byte>, at: nat): (v: U16)
    requires at + 2 <= |s|
  {
    s[at] as int * 256 + s[at + 1] as int
  }

  function Read32(s: seq<Byte>, at: nat): (v: U32)
    requires at + 4 <= |s|
  {
    Read16(s, at) * 0x1_0000 + Read16(s, at + 2)
  }

  /** `r` is `s` but for positions `at`..`at + n`. */
  ghost predicate SameBut(s: seq<Byte>, r: seq<Byte>, at: nat, n: nat) {
    |r| == |s| && forall i :: 0 <= i < |s| && !(at <= i < at + n) ==> r[i] == s[i]
  }

  function Put16(s: seq<Byte>, at: nat, v: U16): (r: seq<Byte>)
    requires at + 2 <= |s|
    ensures SameBut(s, r, at, 2) && Read16(r, at) == v
  {
    s[at := v / 256][at + 1 := v % 256]
  }

  function Put32(s: seq<Byte>, at: nat, v: U32): (r: seq<Byte>)
    requires at + 4 <= |s|
    ensures SameBut(s, r, at, 4) && Read32(r, at) == v
  {
    Put16(Put16(s, at, v / 0x1_0000), at + 2, v % 0x1_0000)
  }

  // ---------------------------------------------------------------- extract and stamp

  function HeaderWords(s: seq<Byte>): (n: nat)
    requires s != []
    ensures n < 16
  {
    s[0] % 16
  }

  /** Offset of the ports: the header length in bytes. */
  function PortStart(s: seq<Byte>): (n: nat)
    requires s != []
  {
    HeaderWords(s) * 4
  }

  /** Neither extracting nor stamping runs off the packet. */
  predicate LongEnough(s: seq<Byte>) {
    |s| >= 20 && |s| >= PortStart(s) + 4
  }

  /** The flow of a packet; None where the source panics on a slice out of range. */
  function ExtractFlow(s: seq<Byte>): (r: Option<Flow>)
    ensures r.Some? <==> LongEnough(s)
  {
    if !LongEnough(s) then None
    else Some(Flow(Read32(s, 12), Read32(s, 16), Read16(s, PortStart(s)), Read16(s, PortStart(s) + 2), s[9]))
  }

  /** The packet after addresses and ports are written. */
  function Addressed(s: seq<Byte>, f: Flow): (r: seq<Byte>)
    requires LongEnough(s)
    ensures |r| == |s|
  {
    var p := PortStart(s);
    Put16(Put16(Put32(Put32(s, 12, f.srcIp), 16, f.dstIp), p, f.srcPort), p + 2, f.dstPort)
  }

  /** The packet after the checksum is recomputed as well. */
  function Stamped(s: seq<Byte>, f: Flow, checksum: Checksum): (r: seq<Byte>)
    requires LongEnough(s)
    ensures |r| == |s|
  {
    var cleared := Put16(Addressed(s, f), 10, 0);
    Put16(cleared, 10, checksum(cleared))
  }

  method Write16(bytes: array<Byte>, at: nat, v: U16)
    requires at + 2 <= bytes.Length
    modifies bytes
    ensures bytes[..] == Put16(old(bytes[..]), at, v)
  {
    bytes[at] := v / 256;
    bytes[at + 1] := v % 256;
  }

  method Write32(bytes: array<Byte>, at: nat, v: U32)
    requires at + 4 <= bytes.Length
    modifies bytes
    ensures bytes[..] == Put32(old(bytes[..]), at, v)
  {
    Write16(bytes, at, v / 0x1_0000);
    Write16(bytes, at + 2, v % 0x1_0000);
  }

  /** Writes a flow into a packet in place. */
  method StampFlow(bytes: array<Byte>, f: Flow, checksum: Checksum)
    requires LongEnough(bytes[..])
    modifies bytes
    ensures bytes[..] == Stamped(old(bytes[..]), f, checksum)
  {
    ghost var was := bytes[..];
    var portStart := (bytes[0] % 16) * 4;
    assert portStart == PortStart(was);
    Write32(bytes, 12, f.srcIp);
    Write32(bytes, 16, f.dstIp);
    Write16(bytes, portStart, f.srcPort);
    Write16(bytes, portStart + 2, f.dstPort);
    assert bytes[..] == Addressed(was, f);
    Write16(bytes, 10, 0);
    var csum := checksum(bytes[..]);
    Write16(bytes, 10, csum);
  }

  // ---------------------------------------------------------------- byte by byte

  /** Which bytes an extracted flow is made of: the ports start behind as many words as the low nibble says. */
  lemma ExtractBytes(s: seq<Byte>, version: nat, words: nat)
    requires s != [] && s[0] == 16 * version + words && words < 16
    ensures ExtractFlow(s).Some? <==> |s| >= 20 && |s| >= 4 * words + 4
    ensures |s| >= 20 && |s| >= 4 * words + 4 ==>
      var f, p := ExtractFlow(s).value, 4 * words;
      && f.srcIp == s[12] as int * 0x100_0000 + s[13] as int * 0x1_0000 + s[14] as int * 256 + s[15] as int
      && f.dstIp == s[16] as int * 0x100_0000 + s[17] as int * 0x1_0000 + s[18] as int * 256 + s[19] as int
      && f.srcPort == s[p] as int * 256 + s[p + 1] as int && f.dstPort == s[p + 2] as int * 256 + s[p + 3] as int
      && f.proto == s[9]
  {
    LowNibble(s, version, words);
  }

  lemma LowNibble(s: seq<Byte>, version: nat, words: nat)
    requires s != [] && s[0] == 16 * version + words && words < 16
    ensures PortStart(s) == 4 * words
  {
  }

  /** The four bytes of both ports, and the eight of both addresses, most significant first. */
  function PortByte(f: Flow, i: nat): int
    requires i < 4
  {
    match i
    case 0 => f.srcPort / 256
    case 1 => f.srcPort % 256
    case 2 => f.dstPort / 256
    case 3 => f.dstPort % 256
  }

  function AddressByte(f: Flow, i: nat): int
    requires i < 8
  {
    var ip := if i < 4 then f.srcIp else f.dstIp;
    match i % 4
    case 0 => ip / 0x100_0000
    case 1 => ip / 0x1_0000 % 256
    case 2 => ip / 256 % 256
    case 3 => ip % 256
  }

  lemma Put16At(s: seq<Byte>, at: nat, v: U16, i: nat)
    requires at + 2 <= |s| && i < |s|
    ensures var r := Put16(s, at, v);
      |r| == |s| && r[i] == if i == at then v / 256 else if i == at + 1 then v % 256 else s[i]
  {
  }

  lemma Put32At(s: seq<Byte>, at: nat, v: U32, i: nat)
    requires at + 4 <= |s| && i < |s|
    ensures var r := Put32(s, at, v);
      && |r| == |s| && (!(at <= i < at + 4) ==> r[i] == s[i])
      && (i == at ==> r[i] == v / 0x100_0000) && (i == at + 1 ==> r[i] == v / 0x1_0000 % 256)
      && (i == at + 2 ==> r[i] == v / 256 % 256) && (i == at + 3 ==> r[i] == v % 256)
  {
    var hi, lo := v / 0x1_0000, v % 0x1_0000;
    Put16At(s, at, hi, i);
    Put16At(Put16(s, at, hi), at + 2, lo, i);
    Quarters(v);
  }

  lemma Quarters(v: U32)
    ensures v / 0x1_0000 / 256 == v / 0x100_0000
    ensures v % 0x1_0000 / 256 == v / 256 % 256 && v % 0x1_0000 % 256 == v % 256
  {
    var a, b, c, d := v / 0x1_0000 / 256, v / 0x1_0000 % 256, v % 0x1_0000 / 256, v % 0x1_0000 % 256;
    assert v == a * 0x100_0000 + b * 0x1_0000 + c * 256 + d;
    assert v / 0x100_0000 == a && v % 256 == d;
    assert v / 256 == (a * 256 + b) * 256 + c;
  }

  lemma AddressedAt(s: seq<Byte>, f: Flow, i: nat, p: nat)
    requires LongEnough(s) && i < |s| && p == PortStart(s)
    ensures Addressed(s, f)[i] == if p <= i < p + 4 then PortByte(f, i - p)
                                         else if 12 <= i < 20 then AddressByte(f, i - 12) else s[i]
  {
    var a := Put32(s, 12, f.srcIp);
    var b := Put32(a, 16, f.dstIp);
    var c := Put16(b, p, f.srcPort);
    Put32At(s, 12, f.srcIp, i);
    Put32At(a, 16, f.dstIp, i);
    Put16At(b, p, f.srcPort, i);
    Put16At(c, p + 2, f.dstPort, i);
  }

  /**
   What every byte of a stamped packet is, also where fields overlap: the two ports behind as
   many words as the low nibble says, else the addresses, else what was there; but bytes 10 and
   11 are the checksum of the packet in which they are zero.
   */
  lemma StampBytes(s: seq<Byte>, f: Flow, checksum: Checksum, version: nat, words: nat, i: nat)
    requires i < |s| && |s| >= 20 && |s| >= 4 * words + 4 && s[0] == 16 * version + words && words < 16
    ensures LongEnough(s)
    ensures var r, p := Stamped(s, f, checksum), 4 * words;
      && r[10] as int * 256 + r[11] as int == checksum(r[10 := 0][11 := 0])
      && (!(10 <= i < 12) ==>
            r[i] == if p <= i < p + 4 then PortByte(f, i - p)
                           else if 12 <= i < 20 then AddressByte(f, i - 12) else s[i])
  {
    LowNibble(s, version, words);
    var b := Addressed(s, f);
    var cleared := Put16(b, 10, 0);
    var csum := checksum(cleared);
    var r := Put16(cleared, 10, csum);
    assert r[10 := 0][11 := 0] == cleared;
    AddressedAt(s, f, i, 4 * words);
    Put16At(b, 10, 0, i);
    Put16At(cleared, 10, csum, i);
  }

  // ---------------------------------------------------------------- what stamping means

  /** Stamping touches checksum, addresses and ports, nothing else. */
  lemma StampFrame(s: seq<Byte>, f: Flow, checksum: Checksum, i: nat)
    requires LongEnough(s) && i < |s| && !(10 <= i < 20) && !(PortStart(s) <= i < PortStart(s) + 4)
    ensures Stamped(s, f, checksum)[i] == s[i]
  {
  }

  /** The ports of such a packet overlap no other field that stamping or extracting uses. */
  predicate PortsApart(s: seq<Byte>)
    requires s != []
  {
    HeaderWords(s) == 1 || HeaderWords(s) >= 5
  }

  /** A stamped packet carries the flow stamped into it, and stays well formed. */
  lemma StampThenExtract(s: seq<Byte>, f: Flow, checksum: Checksum)
    requires LongEnough(s) && PortsApart(s) && f.proto == s[9]
    ensures LongEnough(Stamped(s, f, checksum)) && PortsApart(Stamped(s, f, checksum))
    ensures ExtractFlow(Stamped(s, f, checksum)) == Some(f)
  {
  }

  /** Stamping a packet with its own flow reversed swaps its two ends and keeps the protocol. */
  lemma ReplyBytes(s: seq<Byte>, checksum: Checksum)
    requires LongEnough(s) && PortsApart(s)
    ensures var r, p := Stamped(s, ReverseFlow(ExtractFlow(s).value), checksum), PortStart(s);
      && LongEnough(r) && PortStart(r) == p && r[9] == s[9]
      && Read32(r, 12) == Read32(s, 16) && Read32(r, 16) == Read32(s, 12)
      && Read16(r, p) == Read16(s, p + 2) && Read16(r, p + 2) == Read16(s, p)
  {
    var f := ReverseFlow(ExtractFlow(s).value);
    StampFrame(s, f, checksum, 0);
    StampThenExtract(s, f, checksum);
  }

  // ---------------------------------------------------------------- exactly when

  /** Every flow of the packet's protocol survives being stamped and extracted. */
  ghost predicate RoundTrips(s: seq<Byte>, checksum: Checksum)
    requires LongEnough(s)
  {
    forall f: Flow :: f.proto == s[9] ==> ExtractFlow(Stamped(s, f, checksum)) == Some(f)
  }

  /** With an empty header the ports overwrite the header length. */
  lemma NoWords(s: seq<Byte>, checksum: Checksum)
    requires LongEnough(s) && HeaderWords(s) == 0
    ensures !RoundTrips(s, checksum)
  {
    var port: U16 := if Read16(s, 4) == 0x100 then 0x101 else 0x100;
    var f := Flow(0, 0, port, 0, s[9]);
    var r := Stamped(s, f, checksum);
    var b := Put32(Put32(s, 12, 0), 16, 0);
    var c := Put16(b, 0, port);
    var d := Put16(c, 2, 0);
    assert c[0] == 1 && d[0] == c[0] && r[0] == d[0];
    StampFrame(s, f, checksum, 4);
    StampFrame(s, f, checksum, 5);
    assert PortStart(r) == 4 && Read16(r, 4) == Read16(s, 4);
  }

  /** With two words the source port overwrites the protocol. */
  lemma TwoWords(s: seq<Byte>, checksum: Checksum)
    requires LongEnough(s) && HeaderWords(s) == 2
    ensures !RoundTrips(s, checksum)
  {
    var port: U16 := if s[9] == 0 then 1 else 0;
    var f := Flow(0, 0, port, 0, s[9]);
    var b := Put32(Put32(s, 12, 0), 16, 0);
    var c := Put16(b, 8, port);
    var d := Put16(c, 10, 0);
    assert c[9] == port && d[9] == c[9] && Stamped(s, f, checksum)[9] == d[9];
  }

  /** With three words the ports overwrite the source address, with four the destination address. */
  lemma ThreeOrFourWords(s: seq<Byte>, checksum: Checksum)
    requires LongEnough(s) && 3 <= HeaderWords(s) <= 4
    ensures !RoundTrips(s, checksum)
  {
    var f := Flow(0, 0, 1, 0, s[9]);
    var p := PortStart(s);
    var b := Put32(Put32(s, 12, 0), 16, 0);
    var c := Put16(b, p, 1);
    var d := Put16(c, p + 2, 0);
    var r := Stamped(s, f, checksum);
    assert c[p + 1] == 1 && d[p + 1] == c[p + 1] && r[p + 1] == d[p + 1];
    assert r[p + 1] == 1;
    assert Read16(r, p) != 0;
  }

  /** Stamping and extracting agree on every flow exactly when the ports are apart. */
  lemma RoundTripsExactly(s: seq<Byte>, checksum: Checksum)
    requires LongEnough(s)
    ensures RoundTrips(s, checksum) <==> PortsApart(s)
  {
    if PortsApart(s) {
      forall f: Flow | f.proto == s[9] ensures ExtractFlow(Stamped(s, f, checksum)) == Some(f) {
        StampThenExtract(s, f, checksum);
      }
    } else if HeaderWords(s) == 0 {
      NoWords(s, checksum);
    } else if HeaderWords(s) == 2 {
      TwoWords(s, checksum);
    } else {
      ThreeOrFourWords(s, checksum);
    }
  }
}
