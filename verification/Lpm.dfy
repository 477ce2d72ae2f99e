/**
 The DIR-24-8 longest-prefix-match table: a first table indexed by the top 24 address
 bits, whose overflow entries point at 256-entry blocks of a second table. The flat tables
 are painted prefix by prefix, shorter prefixes first, in whatever order the hash maps
 yield their keys, and must agree with the naive longest-match rule.
 */
module Lpm {
  import opened Words
  import opened Options

  const TBL24_SIZE: nat := 0x100_0001
  const RAW_SIZE: nat := 33
  const OVERFLOW_MASK: nat := 0x8000
  const ADDRESSES: nat := 0x1_0000_0000

  /** For every prefix length, the prefixes of that length and their gates. */
  type RawEntries = seq<map<nat, nat>>

  // ---------------------------------------------------------------- the longest-match rule

  /** The network part of an address for a prefix length. */
  function PrefixKey(ip: nat, len: nat): (k: nat)
    requires len <= 32
    ensures k <= ip
  {
    var p := Pow2(32 - len);
    ModAtMost(ip, p);
    ip - ip % p
  }

  lemma ModAtMost(x: nat, p: nat)
    requires p > 0
    ensures 0 <= x % p <= x
  {
  }

  /** Gate of the longest prefix shorter than `n` bits that contains `ip`. */
  function Best(raw: RawEntries, ip: nat, n: nat): Option<nat>
    requires |raw| == RAW_SIZE && n <= RAW_SIZE
  {
    if n == 0 then None
    else if PrefixKey(ip, n - 1) in raw[n - 1] then Some(raw[n - 1][PrefixKey(ip, n - 1)])
    else Best(raw, ip, n - 1)
  }

  /** Gate for an address: that of the longest matching prefix, or 0. */
  function LongestMatch(raw: RawEntries, ip: nat): nat
    requires |raw| == RAW_SIZE
  {
    OrElse(Best(raw, ip, RAW_SIZE), 0)
  }

  function OrElse(o: Option<nat>, d: nat): nat {
    if o.Some? then o.value else d
  }

  /** `len` is the length of the longest prefix in the table that contains `ip`. */
  ghost predicate LongestLength(raw: RawEntries, ip: nat, len: nat)
    requires |raw| == RAW_SIZE
  {
    && len <= 32
    && PrefixKey(ip, len) in raw[len]
    && forall l :: len < l <= 32 ==> PrefixKey(ip, l) !in raw[l]
  }

  /** The recursive rule is the textbook one: most specific prefix wins, no prefix gives 0. */
  lemma {:induction false} LongestMatchMeaning(raw: RawEntries, ip: nat, n: nat)
    requires |raw| == RAW_SIZE && n <= RAW_SIZE
    requires forall l :: n <= l <= 32 ==> PrefixKey(ip, l) !in raw[l]
    ensures forall len: nat :: LongestLength(raw, ip, len) ==> Best(raw, ip, n) == Some(raw[len][PrefixKey(ip, len)])
    ensures Best(raw, ip, n).None? <==> forall l :: 0 <= l <= 32 ==> PrefixKey(ip, l) !in raw[l]
  {
    if n > 0 && PrefixKey(ip, n - 1) !in raw[n - 1] {
      LongestMatchMeaning(raw, ip, n - 1);
    }
  }

  // ---------------------------------------------------------------- prefixes as ranges

  lemma KeyRange(ip: nat, k: nat, p: nat)
    requires p > 0 && k % p == 0
    ensures ip - ip % p == k <==> k <= ip < k + p
  {
    var m, q := k / p, ip / p;
    assert k == m * p && ip == q * p + ip % p;
    if k <= ip < k + p {
      ModUnique(ip, p, m, ip - k);
    }
  }

  lemma ShortPowers(len: nat)
    requires len <= 24
    ensures Pow2(32 - len) == 256 * Pow2(24 - len)
    ensures Pow2(24 - len) * Pow2(len) == 0x100_0000
  {
    Pow2Add(8, 24 - len);
    Pow2Add(24 - len, len);
    assert Pow2(8) == 256;
    Pow2Add(8, 8);
    Pow2Add(8, 16);
  }

  /** An aligned key is a multiple of 256 times the size of its entry range. */
  lemma ShortMultiple(k: nat, q: nat) returns (m: nat)
    requires q > 0 && k % (256 * q) == 0
    ensures k == 256 * (m * q) && k % 256 == 0 && k / 256 == m * q
  {
    m := k / (256 * q);
    assert k == m * (256 * q);
    assert m * (256 * q) == 256 * (m * q);
    ModUnique(k, 256, m * q, 0);
  }

  /** A prefix of at most 24 bits covers whole entries of the first table. */
  lemma ShortRange(ip: nat, k: nat, len: nat)
    requires len <= 24 && k % Pow2(32 - len) == 0
    ensures PrefixKey(ip, len) == k <==> k / 256 <= ip / 256 < k / 256 + Pow2(24 - len)
    ensures k % 256 == 0
  {
    ShortPowers(len);
    KeyRange(ip, k, Pow2(32 - len));
    var m := ShortMultiple(k, Pow2(24 - len));
  }

  lemma ShortBound(k: nat, len: nat)
    requires len <= 24 && k < ADDRESSES && k % Pow2(32 - len) == 0
    ensures k / 256 + Pow2(24 - len) <= 0x100_0000
  {
    ShortPowers(len);
    var q, n := Pow2(24 - len), Pow2(len);
    var m := ShortMultiple(k, q);
    MultipleBelow(m, n, q);
  }

  lemma MultipleBelow(m: nat, n: nat, q: nat)
    requires m * q < q * n
    ensures m * q + q <= q * n
  {
    if m < n {
      MulGap(q, n, m);
    } else if m > n {
      MulGap(q, m, n);
    }
  }

  /** A prefix longer than 24 bits stays inside one 256-address block. */
  lemma LongRange(ip: nat, k: nat, len: nat)
    requires 24 < len <= 32 && k % Pow2(32 - len) == 0
    ensures k % 256 + Pow2(32 - len) <= 256
    ensures PrefixKey(ip, len) == k <==>
            ip / 256 == k / 256 && k % 256 <= ip % 256 < k % 256 + Pow2(32 - len)
  {
    var p := Pow2(32 - len);
    LongFits(k, len);
    KeyRange(ip, k, p);
    InOneBlock(ip, k, p);
  }

  lemma LongFits(k: nat, len: nat)
    requires 24 < len <= 32 && k % Pow2(32 - len) == 0
    ensures k % 256 + Pow2(32 - len) <= 256
  {
    var p, r := Pow2(32 - len), Pow2(len - 24);
    assert p * r == 256 by {
      Pow2Add(32 - len, len - 24);
      assert Pow2(8) == 256;
    }
    BlockFits(k, p, r);
  }

  lemma InOneBlock(ip: nat, k: nat, p: nat)
    requires k % 256 + p <= 256
    ensures k <= ip < k + p <==> ip / 256 == k / 256 && k % 256 <= ip % 256 < k % 256 + p
  {
  }

  lemma BlockFits(k: nat, p: nat, r: nat)
    requires p > 0 && r > 0 && k % p == 0
    ensures p * r > 0 && k % (p * r) + p <= p * r
  {
    var m := k / p;
    assert k == m * p;
    var a, b := m / r, m % r;
    assert m == a * r + b;
    assert k == (a * r + b) * p == a * (p * r) + b * p;
    assert b * p + p <= p * r by { if b < r { MulGap(p, r, b); } }
    ModUnique(k, p * r, a, b * p);
  }

  /**
   Alignment is exactly what the painting of short prefixes needs: the range of entries
   written for key `k` is the range of its prefix if and only if bits 8.. of `k` below the
   prefix are zero.
   */
  lemma AlignmentNeeded(k: nat, len: nat)
    requires len <= 24
    ensures (forall ip: nat ::
               PrefixKey(ip, len) == PrefixKey(k, len) <==> k / 256 <= ip / 256 < k / 256 + Pow2(24 - len))
            <==> (k / 256) % Pow2(24 - len) == 0
  {
    var q, key := Pow2(24 - len), PrefixKey(k, len);
    var m, d := KeyParts(k, len);
    forall ip: nat
      ensures PrefixKey(ip, len) == key <==> m * q <= ip / 256 < m * q + q
    {
      ShortRange(ip, key, len);
    }
    if d > 0 {
      assert key / 256 == m * q;
      assert PrefixKey(key, len) == key;
    }
  }

  /** Key and entry number of an address, as multiples of the entry range. */
  lemma KeyParts(k: nat, len: nat) returns (m: nat, d: nat)
    requires len <= 24
    ensures var q, key := Pow2(24 - len), PrefixKey(k, len);
      && key % Pow2(32 - len) == 0 && key == 256 * (m * q) && key / 256 == m * q
      && k / 256 == m * q + d && d < q && (k / 256) % q == d
  {
    ShortPowers(len);
    var q, p := Pow2(24 - len), Pow2(32 - len);
    DropRest(k, p);
    m := ShortMultiple(PrefixKey(k, len), q);
    d := (k % p) / 256;
    BytePart(k, m * q, k % p, q);
    ModUnique(k / 256, q, m, d);
  }

  lemma DropRest(k: nat, p: nat)
    requires p > 0
    ensures 0 <= k % p <= k && (k - k % p) % p == 0
  {
    var n := k / p;
    assert k == n * p + k % p;
    ModUnique(k - k % p, p, n, 0);
  }

  lemma BytePart(k: nat, t: nat, r: nat, q: nat)
    requires k == 256 * t + r && r < 256 * q
    ensures k / 256 == t + r / 256 && r / 256 < q
  {
  }

  // ---------------------------------------------------------------- the flat tables

  /** Content of an overflow entry: the block number with the top bit of 16 set. */
  function EncodeBlock(b: nat): (r: nat)
    ensures OVERFLOW_MASK <= r < 0x1_0000
  {
    b % 0x8000 + OVERFLOW_MASK
  }

  function DecodeBlock(e: nat): nat {
    e % 0x8000
  }

  /** Fifteen bits name 2^15 blocks: the next block would be taken for an earlier one. */
  lemma BlockNumbersFit(b: nat)
    ensures DecodeBlock(EncodeBlock(b)) == b <==> b < 0x8000
  {
  }

  function Lookup(t24: seq<nat>, tlong: seq<nat>, ip: nat): nat
    requires |t24| == |tlong| == TBL24_SIZE && ip < ADDRESSES
  {
    var e := t24[ip / 256];
    if e >= OVERFLOW_MASK then tlong[DecodeBlock(e) * 256 + ip % 256] else e
  }

  /** Overflow entries are 16-bit and point at distinct blocks among those handed out. */
  ghost predicate Layout(t24: seq<nat>, tlong: seq<nat>, cur: nat) {
    && |t24| == |tlong| == TBL24_SIZE
    && cur % 256 == 0 && cur <= 0x80_0000
    && (forall e :: 0 <= e < 0x100_0000 && t24[e] >= OVERFLOW_MASK ==>
          t24[e] < 0x1_0000 && DecodeBlock(t24[e]) * 256 < cur)
    && (forall e, f :: 0 <= e < f < 0x100_0000 && t24[e] >= OVERFLOW_MASK && t24[f] >= OVERFLOW_MASK ==>
          t24[e] != t24[f])
  }

  /** `after` is `before` with prefix `k`/`len` painted over with gate `v`. */
  ghost predicate Painted(t24: seq<nat>, tlong: seq<nat>, t24': seq<nat>, tlong': seq<nat>, k: nat, len: nat, v: nat)
    requires |t24| == |tlong| == |t24'| == |tlong'| == TBL24_SIZE && len <= 32
  {
    forall ip: nat :: ip < ADDRESSES ==>
      Lookup(t24', tlong', ip) == if PrefixKey(ip, len) == k then v else Lookup(t24, tlong, ip)
  }

  lemma ShortPaints(t24: seq<nat>, tlong: seq<nat>, t24': seq<nat>, cur: nat, k: nat, len: nat, v: nat)
    requires Layout(t24, tlong, cur) && |t24'| == TBL24_SIZE
    requires len <= 24 && k < ADDRESSES && k % Pow2(32 - len) == 0 && v < OVERFLOW_MASK
    requires forall e :: 0 <= e < TBL24_SIZE ==>
      t24'[e] == if k / 256 <= e < k / 256 + Pow2(24 - len) then v else t24[e]
    ensures Layout(t24', tlong, cur) && Painted(t24, tlong, t24', tlong, k, len, v)
  {
    forall ip: nat | ip < ADDRESSES
      ensures Lookup(t24', tlong, ip) == if PrefixKey(ip, len) == k then v else Lookup(t24, tlong, ip)
    {
      ShortRange(ip, k, len);
    }
  }

  /** `tlong'` is `tlong` with `v` written from `start` on. */
  ghost predicate Overwritten(tlong: seq<nat>, tlong': seq<nat>, start: nat, n: nat, v: nat) {
    && |tlong| == |tlong'| == TBL24_SIZE
    && forall j :: 0 <= j < TBL24_SIZE ==> tlong'[j] == if start <= j < start + n then v else tlong[j]
  }

  /** Writing into the block of an overflow entry changes that entry's addresses only. */
  lemma BlockPaints(t24: seq<nat>, tlong: seq<nat>, tlong': seq<nat>, cur: nat, k: nat, len: nat, v: nat)
    requires Layout(t24, tlong, cur)
    requires 24 < len <= 32 && k < ADDRESSES && k % Pow2(32 - len) == 0
    requires t24[k / 256] >= OVERFLOW_MASK
    requires Overwritten(tlong, tlong', DecodeBlock(t24[k / 256]) * 256 + k % 256, Pow2(32 - len), v)
    ensures Layout(t24, tlong', cur) && Painted(t24, tlong, t24, tlong', k, len, v)
  {
    forall ip: nat | ip < ADDRESSES
      ensures Lookup(t24, tlong', ip) == if PrefixKey(ip, len) == k then v else Lookup(t24, tlong, ip)
    {
      BlockPaintsAt(t24, tlong, tlong', cur, k, len, v, ip);
    }
  }

  lemma BlockPaintsAt(t24: seq<nat>, tlong: seq<nat>, tlong': seq<nat>, cur: nat, k: nat, len: nat, v: nat, ip: nat)
    requires Layout(t24, tlong, cur) && ip < ADDRESSES
    requires 24 < len <= 32 && k < ADDRESSES && k % Pow2(32 - len) == 0
    requires t24[k / 256] >= OVERFLOW_MASK
    requires Overwritten(tlong, tlong', DecodeBlock(t24[k / 256]) * 256 + k % 256, Pow2(32 - len), v)
    ensures Lookup(t24, tlong', ip) == if PrefixKey(ip, len) == k then v else Lookup(t24, tlong, ip)
  {
    LongRange(ip, k, len);
    var a, b, p := ip / 256, k / 256, Pow2(32 - len);
    if t24[a] >= OVERFLOW_MASK {
      if a != b { BlocksDiffer(t24, tlong, cur, a, b); }
      InBlock(DecodeBlock(t24[a]), ip % 256, DecodeBlock(t24[b]), k % 256, p);
    }
  }

  lemma BlocksDiffer(t24: seq<nat>, tlong: seq<nat>, cur: nat, a: nat, b: nat)
    requires Layout(t24, tlong, cur) && a < 0x100_0000 && b < 0x100_0000 && a != b
    requires t24[a] >= OVERFLOW_MASK && t24[b] >= OVERFLOW_MASK
    ensures DecodeBlock(t24[a]) != DecodeBlock(t24[b])
  {
  }

  /** An offset within a 256-entry block lies in a stretch of a block exactly when both agree. */
  lemma InBlock(d: nat, x: nat, e: nat, y: nat, p: nat)
    requires x < 256 && y + p <= 256
    ensures e * 256 + y <= d * 256 + x < e * 256 + y + p <==> d == e && y <= x < y + p
  {
  }

  /** `tlong'` is `tlong` with the block at `cur` opened: `v` on a stretch of it, `fill` on the rest. */
  ghost predicate BlockOpened(tlong: seq<nat>, tlong': seq<nat>, cur: nat, from: nat, n: nat, v: nat, fill: nat) {
    && |tlong| == |tlong'| == TBL24_SIZE
    && forall j | 0 <= j < TBL24_SIZE ::
         tlong'[j] == if cur + from <= j < cur + from + n then v else if cur <= j < cur + 256 then fill else tlong[j]
  }

  /** Opening a block keeps every other address and paints the prefix inside the block. */
  lemma NewBlockPaints(t24: seq<nat>, tlong: seq<nat>, tlong': seq<nat>, cur: nat, k: nat, len: nat, v: nat)
    requires Layout(t24, tlong, cur) && cur < 0x80_0000
    requires 24 < len <= 32 && k < ADDRESSES && k % Pow2(32 - len) == 0
    requires t24[k / 256] < OVERFLOW_MASK
    requires BlockOpened(tlong, tlong', cur, k % 256, Pow2(32 - len), v, t24[k / 256])
    ensures var t24' := t24[k / 256 := EncodeBlock(cur / 256)];
      Layout(t24', tlong', cur + 256) && Painted(t24, tlong, t24', tlong', k, len, v)
  {
    var t24' := t24[k / 256 := EncodeBlock(cur / 256)];
    NewBlockLayout(t24, tlong, tlong', cur, k / 256);
    forall ip: nat | ip < ADDRESSES
      ensures Lookup(t24', tlong', ip) == if PrefixKey(ip, len) == k then v else Lookup(t24, tlong, ip)
    {
      NewBlockPaintsAt(t24, tlong, tlong', cur, k, len, v, ip);
    }
  }

  lemma NewBlockLayout(t24: seq<nat>, tlong: seq<nat>, tlong': seq<nat>, cur: nat, e: nat)
    requires Layout(t24, tlong, cur) && cur < 0x80_0000 && |tlong'| == TBL24_SIZE && e < 0x100_0000
    ensures Layout(t24[e := EncodeBlock(cur / 256)], tlong', cur + 256)
  {
  }

  lemma NewBlockPaintsAt(t24: seq<nat>, tlong: seq<nat>, tlong': seq<nat>, cur: nat, k: nat, len: nat, v: nat, ip: nat)
    requires Layout(t24, tlong, cur) && cur < 0x80_0000 && ip < ADDRESSES
    requires 24 < len <= 32 && k < ADDRESSES && k % Pow2(32 - len) == 0
    requires t24[k / 256] < OVERFLOW_MASK
    requires BlockOpened(tlong, tlong', cur, k % 256, Pow2(32 - len), v, t24[k / 256])
    ensures Lookup(t24[k / 256 := EncodeBlock(cur / 256)], tlong', ip)
            == if PrefixKey(ip, len) == k then v else Lookup(t24, tlong, ip)
  {
    LongRange(ip, k, len);
    var d := cur / 256;
    BlockNumbersFit(d);
    if ip / 256 == k / 256 {
      OpenedAt(tlong, tlong', d, k % 256, Pow2(32 - len), v, t24[k / 256], ip % 256);
    } else if t24[ip / 256] >= OVERFLOW_MASK {
      assert DecodeBlock(t24[ip / 256]) * 256 + ip % 256 < cur;
    }
  }

  lemma OpenedAt(tlong: seq<nat>, tlong': seq<nat>, d: nat, from: nat, n: nat, v: nat, fill: nat, x: nat)
    requires d < 0x8000 && x < 256 && from + n <= 256 && BlockOpened(tlong, tlong', d * 256, from, n, v, fill)
    ensures tlong'[d * 256 + x] == if from <= x < from + n then v else fill
  {
  }

  // ---------------------------------------------------------------- well-formed input

  /** Host bits are zero; gates are 16-bit, and below the overflow bit where it is consulted. */
  ghost predicate WellFormed(raw: RawEntries) {
    && |raw| == RAW_SIZE
    && forall len, k :: 0 <= len <= 32 && k in raw[len] ==>
         k < ADDRESSES && k % Pow2(32 - len) == 0 && raw[len][k] < 0x1_0000
         && (len <= 24 ==> raw[len][k] < OVERFLOW_MASK)
  }

  /** The first-table entries that hold some prefix longer than 24 bits. */
  ghost function LongBlocks(raw: RawEntries): set<nat>
    requires |raw| == RAW_SIZE
  {
    set len, k | 25 <= len < 33 && k in raw[len] :: k / 256
  }

  /**
   The entries a construction over first table `t24` hands out a block for: those of long
   prefixes, except where the entry has a block that no shorter prefix paints over.
   */
  ghost function NewBlocks(raw: RawEntries, t24: seq<nat>): set<nat>
    requires |raw| == RAW_SIZE && |t24| == TBL24_SIZE
  {
    set e | e in LongBlocks(raw) && e < TBL24_SIZE && (t24[e] < OVERFLOW_MASK || Best(raw, 256 * e, 25).Some?)
  }

  ghost predicate Grown(older: RawEntries, newer: RawEntries) {
    |older| == |newer| == RAW_SIZE && forall len :: 0 <= len < RAW_SIZE ==> older[len].Keys <= newer[len].Keys
  }

  lemma {:induction false} GrownMatches(older: RawEntries, newer: RawEntries, ip: nat, n: nat)
    requires Grown(older, newer) && n <= RAW_SIZE
    ensures Best(newer, ip, n).None? ==> Best(older, ip, n).None?
  {
    if n > 0 { GrownMatches(older, newer, ip, n - 1); }
  }

  lemma SubsetSize(a: set<nat>, b: set<nat>)
    requires a <= b
    ensures |a| <= |b|
    ensures a < b ==> |a| < |b|
  {
    assert b == a + (b - a);
  }

  /** Answer after the prefixes shorter than `len` and the keys of `len` outside `todo`. */
  ghost function Progress(raw: RawEntries, len: nat, todo: set<nat>, ip: nat, before: nat): nat
    requires |raw| == RAW_SIZE && len <= 32
  {
    var k := PrefixKey(ip, len);
    if k in raw[len] && k !in todo then raw[len][k] else OrElse(Best(raw, ip, len), before)
  }

  /** The tables answer as `Progress` says, starting from the tables `t0`, `l0`. */
  ghost predicate Answers(t24: seq<nat>, tlong: seq<nat>, t0: seq<nat>, l0: seq<nat>,
                          raw: RawEntries, len: nat, todo: set<nat>)
    requires |t24| == |tlong| == |t0| == |l0| == TBL24_SIZE && |raw| == RAW_SIZE && len <= 32
  {
    forall ip: nat :: ip < ADDRESSES ==> Lookup(t24, tlong, ip) == Progress(raw, len, todo, ip, Lookup(t0, l0, ip))
  }

  /** The tables answer for all prefixes shorter than `len`. */
  ghost predicate AnswersBelow(t24: seq<nat>, tlong: seq<nat>, t0: seq<nat>, l0: seq<nat>, raw: RawEntries, len: nat)
    requires |t24| == |tlong| == |t0| == |l0| == TBL24_SIZE && |raw| == RAW_SIZE && len <= 33
  {
    forall ip: nat :: ip < ADDRESSES ==> Lookup(t24, tlong, ip) == OrElse(Best(raw, ip, len), Lookup(t0, l0, ip))
  }

  lemma AnswersStart(t24: seq<nat>, tlong: seq<nat>, t0: seq<nat>, l0: seq<nat>, raw: RawEntries, len: nat)
    requires |t24| == |tlong| == |t0| == |l0| == TBL24_SIZE && |raw| == RAW_SIZE && len <= 32
    requires AnswersBelow(t24, tlong, t0, l0, raw, len)
    ensures Answers(t24, tlong, t0, l0, raw, len, raw[len].Keys)
  {
  }

  lemma AnswersDone(t24: seq<nat>, tlong: seq<nat>, t0: seq<nat>, l0: seq<nat>, raw: RawEntries, len: nat)
    requires |t24| == |tlong| == |t0| == |l0| == TBL24_SIZE && |raw| == RAW_SIZE && len <= 32
    requires Answers(t24, tlong, t0, l0, raw, len, {})
    ensures AnswersBelow(t24, tlong, t0, l0, raw, len + 1)
  {
  }

  /** Painting one more prefix of the current length is progress, whichever is taken next. */
  lemma AnswersStep(t24: seq<nat>, tlong: seq<nat>, t24': seq<nat>, tlong': seq<nat>,
                    t0: seq<nat>, l0: seq<nat>, raw: RawEntries, len: nat, todo: set<nat>, k: nat)
    requires |t24| == |tlong| == |t24'| == |tlong'| == |t0| == |l0| == TBL24_SIZE && |raw| == RAW_SIZE && len <= 32
    requires Answers(t24, tlong, t0, l0, raw, len, todo) && k in raw[len]
    requires Painted(t24, tlong, t24', tlong', k, len, raw[len][k])
    ensures Answers(t24', tlong', t0, l0, raw, len, todo - {k})
  {
  }

  // ---------------------------------------------------------------- which entries get a block

  /** Painting prefix `k`/`len` into the first table takes away the blocks of exactly its entries. */
  ghost predicate Released(t24: seq<nat>, t24': seq<nat>, k: nat, len: nat)
    requires |t24| == |t24'| == TBL24_SIZE && len <= 24
  {
    forall e: nat :: e < 0x100_0000 ==>
      (t24'[e] < OVERFLOW_MASK <==> PrefixKey(256 * e, len) == k || t24[e] < OVERFLOW_MASK)
  }

  lemma ShortReleases(t24: seq<nat>, t24': seq<nat>, k: nat, len: nat, v: nat)
    requires |t24| == |t24'| == TBL24_SIZE && len <= 24 && k % Pow2(32 - len) == 0 && v < OVERFLOW_MASK
    requires forall e :: 0 <= e < TBL24_SIZE ==>
      t24'[e] == if k / 256 <= e < k / 256 + Pow2(24 - len) then v else t24[e]
    ensures Released(t24, t24', k, len)
  {
    forall e: nat | e < 0x100_0000
      ensures t24'[e] < OVERFLOW_MASK <==> PrefixKey(256 * e, len) == k || t24[e] < OVERFLOW_MASK
    {
      ShortRange(256 * e, k, len);
    }
  }

  /** Without a block are the entries that had none in `t0` or were painted by a short prefix so far. */
  ghost predicate Bare(t24: seq<nat>, t0: seq<nat>, raw: RawEntries, len: nat, todo: set<nat>)
    requires |t24| == |t0| == TBL24_SIZE && |raw| == RAW_SIZE && len <= 24
  {
    forall e: nat :: e < 0x100_0000 ==>
      var k := PrefixKey(256 * e, len);
      t24[e] < OVERFLOW_MASK <==>
        t0[e] < OVERFLOW_MASK || Best(raw, 256 * e, len).Some? || (k in raw[len] && k !in todo)
  }

  ghost predicate BareBelow(t24: seq<nat>, t0: seq<nat>, raw: RawEntries, len: nat)
    requires |t24| == |t0| == TBL24_SIZE && |raw| == RAW_SIZE && len <= 25
  {
    forall e: nat :: e < 0x100_0000 ==>
      (t24[e] < OVERFLOW_MASK <==> t0[e] < OVERFLOW_MASK || Best(raw, 256 * e, len).Some?)
  }

  lemma BareStart(t24: seq<nat>, t0: seq<nat>, raw: RawEntries, len: nat)
    requires |t24| == |t0| == TBL24_SIZE && |raw| == RAW_SIZE && len <= 24 && BareBelow(t24, t0, raw, len)
    ensures Bare(t24, t0, raw, len, raw[len].Keys)
  {
  }

  lemma BareStep(t24: seq<nat>, t24': seq<nat>, t0: seq<nat>, raw: RawEntries, len: nat, todo: set<nat>, k: nat)
    requires |t24| == |t24'| == |t0| == TBL24_SIZE && |raw| == RAW_SIZE && len <= 24
    requires Bare(t24, t0, raw, len, todo) && k in raw[len] && Released(t24, t24', k, len)
    ensures Bare(t24', t0, raw, len, todo - {k})
  {
  }

  lemma BareDone(t24: seq<nat>, t0: seq<nat>, raw: RawEntries, len: nat)
    requires |t24| == |t0| == TBL24_SIZE && |raw| == RAW_SIZE && len <= 24 && Bare(t24, t0, raw, len, {})
    ensures BareBelow(t24, t0, raw, len + 1)
  {
  }

  /** The entries among `blocks` that have their block. */
  ghost function Given(t24: seq<nat>, blocks: set<nat>): set<nat> {
    set e | e in blocks && e < |t24| && t24[e] >= OVERFLOW_MASK
  }

  /** Since `first`, one block was handed out to each of the entries in `blocks` that has one, and to no other. */
  ghost predicate Handed(t24: seq<nat>, cur: nat, first: nat, raw: RawEntries, blocks: set<nat>)
    requires |raw| == RAW_SIZE
  {
    && |t24| == TBL24_SIZE && cur == first + 256 * |Given(t24, blocks)|
    && forall e :: e in LongBlocks(raw) && e !in blocks ==> e < TBL24_SIZE && t24[e] >= OVERFLOW_MASK
  }

  predicate HasBlock(t24: seq<nat>, k: nat) {
    k / 256 < |t24| && t24[k / 256] >= OVERFLOW_MASK
  }

  /** Every long prefix dealt with so far has a block. */
  ghost predicate Served(t24: seq<nat>, raw: RawEntries, len: nat, todo: set<nat>)
    requires |raw| == RAW_SIZE
  {
    forall l, k :: 25 <= l < RAW_SIZE && k in raw[l] && (l < len || (l == len && k !in todo)) ==> HasBlock(t24, k)
  }

  /** Entry `e` has a block now, and nothing else changed hands. */
  ghost predicate Obtained(t24: seq<nat>, t24': seq<nat>, e: nat) {
    && |t24| == |t24'| == TBL24_SIZE
    && forall x :: 0 <= x < TBL24_SIZE ==> (t24'[x] >= OVERFLOW_MASK <==> x == e || t24[x] >= OVERFLOW_MASK)
  }

  lemma ServedStep(t24: seq<nat>, t24': seq<nat>, raw: RawEntries, len: nat, todo: set<nat>, k: nat)
    requires |raw| == RAW_SIZE && Obtained(t24, t24', k / 256) && k / 256 < TBL24_SIZE && Served(t24, raw, len, todo)
    ensures Served(t24', raw, len, todo - {k})
  {
    forall j | j == k || HasBlock(t24, j) ensures HasBlock(t24', j) {
    }
  }

  lemma ServedNext(t24: seq<nat>, raw: RawEntries, len: nat)
    requires |raw| == RAW_SIZE && 25 <= len < RAW_SIZE && Served(t24, raw, len - 1, {})
    ensures Served(t24, raw, len, raw[len].Keys)
  {
  }

  lemma HandedStart(t24: seq<nat>, t0: seq<nat>, cur: nat, raw: RawEntries)
    requires |t24| == |t0| == TBL24_SIZE && WellFormed(raw) && BareBelow(t24, t0, raw, 25)
    ensures Handed(t24, cur, cur, raw, NewBlocks(raw, t0))
  {
    var blocks := NewBlocks(raw, t0);
    forall e | e in LongBlocks(raw) ensures e < 0x100_0000 && (e in blocks <==> t24[e] < OVERFLOW_MASK) {
      var len, k :| 25 <= len < 33 && k in raw[len] && e == k / 256;
    }
    assert Given(t24, blocks) == {};
  }

  lemma HandedRoom(t24: seq<nat>, cur: nat, first: nat, raw: RawEntries, blocks: set<nat>, e: nat)
    requires |raw| == RAW_SIZE && Handed(t24, cur, first, raw, blocks)
    requires e in LongBlocks(raw) && e < TBL24_SIZE && t24[e] < OVERFLOW_MASK
    ensures e in blocks && cur + 256 <= first + 256 * |blocks|
  {
    SubsetSize(Given(t24, blocks) + {e}, blocks);
  }

  lemma HandedStep(t24: seq<nat>, t24': seq<nat>, cur: nat, cur': nat, first: nat, raw: RawEntries,
                   blocks: set<nat>, e: nat)
    requires |raw| == RAW_SIZE && Handed(t24, cur, first, raw, blocks) && Obtained(t24, t24', e)
    requires e in LongBlocks(raw) && e < TBL24_SIZE && cur' == cur + if t24[e] < OVERFLOW_MASK then 256 else 0
    ensures Handed(t24', cur', first, raw, blocks)
  {
    if t24[e] < OVERFLOW_MASK {
      assert Given(t24', blocks) == Given(t24, blocks) + {e};
    } else {
      assert Given(t24', blocks) == Given(t24, blocks);
    }
  }

  lemma HandedAll(t24: seq<nat>, cur: nat, first: nat, raw: RawEntries, blocks: set<nat>)
    requires |raw| == RAW_SIZE && Handed(t24, cur, first, raw, blocks) && blocks <= LongBlocks(raw)
    requires Served(t24, raw, RAW_SIZE - 1, {})
    ensures cur == first + 256 * |blocks|
  {
    forall e | e in blocks ensures e in Given(t24, blocks) {
      var len, k :| 25 <= len < 33 && k in raw[len] && e == k / 256;
      assert HasBlock(t24, k);
    }
    assert Given(t24, blocks) == blocks;
  }

  lemma DefaultKey(ip: nat, len: nat)
    requires len == 0 && ip < ADDRESSES
    ensures PrefixKey(ip, len) == 0
  {
    var p, q := Pow2(32 - len), Pow2(24 - len);
    assert p == 256 * q && q == 0x100_0000 by { ShortPowers(len); }
    ModUnique(ip, p, 0, ip);
  }

  lemma {:induction false} DefaultRoute(raw: RawEntries, ip: nat, n: nat)
    requires |raw| == RAW_SIZE && 0 < n <= RAW_SIZE && 0 in raw[0] && ip < ADDRESSES
    ensures Best(raw, ip, n).Some?
  {
    if n == 1 {
      DefaultKey(ip, n - 1);
    } else {
      DefaultRoute(raw, ip, n - 1);
    }
  }

  /**
   Constructing again from the same prefixes hands out a second block to exactly the entries
   that a prefix of at most 24 bits covers: with a default route, to all of them.
   */
  lemma RebuildBlocks(raw: RawEntries, t24: seq<nat>)
    requires WellFormed(raw) && |t24| == TBL24_SIZE && Served(t24, raw, RAW_SIZE - 1, {})
    ensures NewBlocks(raw, t24) == set e | e in LongBlocks(raw) && Best(raw, 256 * e, 25).Some?
    ensures 0 in raw[0] ==> NewBlocks(raw, t24) == LongBlocks(raw)
  {
    forall e | e in LongBlocks(raw)
      ensures e < 0x100_0000 && t24[e] >= OVERFLOW_MASK && (0 in raw[0] ==> Best(raw, 256 * e, 25).Some?)
    {
      var len, k :| 25 <= len < 33 && k in raw[len] && e == k / 256;
      assert HasBlock(t24, k);
      if 0 in raw[0] { DefaultRoute(raw, 256 * e, 25); }
    }
  }

  /** Over an earlier build of fewer prefixes, answering below 33 bits is the longest match. */
  lemma AnswersAll(t24: seq<nat>, tlong: seq<nat>, t0: seq<nat>, l0: seq<nat>, raw: RawEntries, older: RawEntries)
    requires |t24| == |tlong| == |t0| == |l0| == TBL24_SIZE && Grown(older, raw)
    requires AnswersBelow(t24, tlong, t0, l0, raw, RAW_SIZE)
    requires forall ip: nat :: ip < ADDRESSES ==> Lookup(t0, l0, ip) == LongestMatch(older, ip)
    ensures forall ip: nat :: ip < ADDRESSES ==> Lookup(t24, tlong, ip) == LongestMatch(raw, ip)
  {
    forall ip: nat | ip < ADDRESSES ensures Lookup(t24, tlong, ip) == LongestMatch(raw, ip) {
      GrownMatches(older, raw, ip, RAW_SIZE);
    }
  }

  // ---------------------------------------------------------------- the table object

  class IPLookup {
    const tbl24: array<nat>
    const tblLong: array<nat>
    var currentTblLong: nat
    var rawEntries: RawEntries

    /** The prefixes present when the tables were last constructed. */
    ghost var built: RawEntries

    ghost predicate Tables()
      reads this, tbl24, tblLong
    {
      && tbl24.Length == tblLong.Length == TBL24_SIZE && tbl24 != tblLong
      && Layout(tbl24[..], tblLong[..], currentTblLong)
    }

    /** What the flat tables answer for an address. */
    ghost function View(ip: nat): nat
      reads this, tbl24, tblLong
      requires tbl24.Length == tblLong.Length == TBL24_SIZE && ip < ADDRESSES
    {
      Lookup(tbl24[..], tblLong[..], ip)
    }

    ghost predicate Valid()
      reads this, tbl24, tblLong
    {
      && Tables()
      && Grown(built, rawEntries)
      && forall ip: nat :: ip < ADDRESSES ==> View(ip) == LongestMatch(built, ip)
    }

    constructor ()
      ensures Valid() && fresh(tbl24) && fresh(tblLong)
      ensures currentTblLong == 0 && rawEntries == seq(RAW_SIZE, _ => map[])
    {
      tbl24 := new nat[TBL24_SIZE](_ => 0);
      tblLong := new nat[TBL24_SIZE](_ => 0);
      currentTblLong := 0;
      rawEntries := seq(RAW_SIZE, _ => map[]);
      built := seq(RAW_SIZE, _ => map[]);
      new;
      forall ip: nat | ip < ADDRESSES ensures View(ip) == LongestMatch(built, ip) {
        EmptyMatchesNothing(built, ip, RAW_SIZE);
      }
    }

    /** Records a prefix; lookups change only at the next construction. */
    method Insert(ip: nat, len: nat, gate: nat)
      requires Valid() && len < RAW_SIZE
      modifies this`rawEntries
      ensures Valid()
      ensures rawEntries == old(rawEntries)[len := old(rawEntries)[len] + map[ip := gate]]
    {
      rawEntries := rawEntries[len := rawEntries[len] + map[ip := gate]];
    }

    method PaintShort(k: nat, len: nat, v: nat)
      requires Tables() && len <= 24 && k < ADDRESSES && k % Pow2(32 - len) == 0 && v < OVERFLOW_MASK
      modifies tbl24
      ensures Tables()
      ensures Painted(old(tbl24[..]), old(tblLong[..]), tbl24[..], tblLong[..], k, len, v)
      ensures Released(old(tbl24[..]), tbl24[..], k, len)
    {
      ShortBound(k, len);
      var start := k / 256;
      var end := start + Pow2(24 - len);
      for pfx := start to end
        invariant forall e :: 0 <= e < TBL24_SIZE ==> tbl24[e] == if start <= e < pfx then v else old(tbl24[e])
      {
        tbl24[pfx] := v;
      }
      ShortPaints(old(tbl24[..]), tblLong[..], tbl24[..], currentTblLong, k, len, v);
      ShortReleases(old(tbl24[..]), tbl24[..], k, len, v);
    }

    method PaintLong(k: nat, len: nat, v: nat)
      requires Tables() && 24 < len <= 32 && k < ADDRESSES && k % Pow2(32 - len) == 0
      requires tbl24[k / 256] < OVERFLOW_MASK ==> currentTblLong < 0x80_0000
      modifies this`currentTblLong, tbl24, tblLong
      ensures Tables()
      ensures Painted(old(tbl24[..]), old(tblLong[..]), tbl24[..], tblLong[..], k, len, v)
      ensures currentTblLong == old(currentTblLong) + (if old(tbl24[k / 256]) < OVERFLOW_MASK then 256 else 0)
      ensures Obtained(old(tbl24[..]), tbl24[..], k / 256)
    {
      LongRange(k, k, len);
      ghost var t24, tlong := tbl24[..], tblLong[..];
      var t24entry := tbl24[k / 256];
      if t24entry < OVERFLOW_MASK {
        var ctlb := currentTblLong;
        var start := ctlb + k % 256;
        var end := start + Pow2(32 - len);
        for j := ctlb to ctlb + 256
          modifies tblLong
          invariant forall i | 0 <= i < TBL24_SIZE ::
            tblLong[i] == if ctlb <= i < j then (if start <= i < end then v else t24entry) else old(tblLong[i])
        {
          tblLong[j] := if j < start || j >= end then t24entry else v;
        }
        tbl24[k / 256] := EncodeBlock(ctlb / 256);
        currentTblLong := currentTblLong + 256;
        NewBlockPaints(t24, tlong, tblLong[..], ctlb, k, len, v);
        assert tbl24[..] == t24[k / 256 := EncodeBlock(ctlb / 256)];
      } else {
        var start := DecodeBlock(t24entry) * 256 + k % 256;
        var end := start + Pow2(32 - len);
        for j := start to end
          modifies tblLong
          invariant forall i :: 0 <= i < TBL24_SIZE ==> tblLong[i] == if start <= i < j then v else old(tblLong[i])
        {
          tblLong[j] := v;
        }
        BlockPaints(t24, tlong, tblLong[..], currentTblLong, k, len, v);
        assert tbl24[..] == t24;
      }
    }

    ghost predicate Below(t0: seq<nat>, l0: seq<nat>, len: nat)
      reads this, tbl24, tblLong
      requires Tables() && |t0| == |l0| == TBL24_SIZE && |rawEntries| == RAW_SIZE && len <= 33
    {
      AnswersBelow(tbl24[..], tblLong[..], t0, l0, rawEntries, len)
    }

    /** All prefixes of one length of at most 24 bits, in any order. */
    method PaintShortLevel(len: nat, ghost t0: seq<nat>, ghost l0: seq<nat>)
      requires Tables() && WellFormed(rawEntries) && len <= 24
      requires |t0| == |l0| == TBL24_SIZE && Below(t0, l0, len) && BareBelow(tbl24[..], t0, rawEntries, len)
      modifies tbl24
      ensures Tables() && Below(t0, l0, len + 1) && BareBelow(tbl24[..], t0, rawEntries, len + 1)
    {
      var todo := rawEntries[len].Keys;
      AnswersStart(tbl24[..], tblLong[..], t0, l0, rawEntries, len);
      BareStart(tbl24[..], t0, rawEntries, len);
      while todo != {}
        invariant Tables() && todo <= rawEntries[len].Keys
        invariant Answers(tbl24[..], tblLong[..], t0, l0, rawEntries, len, todo)
        invariant Bare(tbl24[..], t0, rawEntries, len, todo)
        decreases todo
      {
        var k :| k in todo;
        ghost var t24 := tbl24[..];
        PaintShort(k, len, rawEntries[len][k]);
        AnswersStep(t24, tblLong[..], tbl24[..], tblLong[..], t0, l0, rawEntries, len, todo, k);
        BareStep(t24, tbl24[..], t0, rawEntries, len, todo, k);
        todo := todo - {k};
      }
      AnswersDone(tbl24[..], tblLong[..], t0, l0, rawEntries, len);
      BareDone(tbl24[..], t0, rawEntries, len);
    }

    /** Blocks handed out since `first` belong one each to entries in `blocks`, and the table has room for the rest. */
    ghost predicate Allotted(first: nat, blocks: set<nat>)
      reads this, tbl24, tblLong
      requires Tables() && |rawEntries| == RAW_SIZE
    {
      && Handed(tbl24[..], currentTblLong, first, rawEntries, blocks)
      && first + 256 * |blocks| <= 0x80_0000
    }

    /** One prefix above 24 bits; opens a block if its entry has none. */
    method PaintNext(k: nat, len: nat, ghost first: nat, ghost blocks: set<nat>)
      requires Tables() && WellFormed(rawEntries) && 24 < len <= 32 && k in rawEntries[len]
      requires Allotted(first, blocks)
      modifies this`currentTblLong, tbl24, tblLong
      ensures Tables() && Allotted(first, blocks) && Obtained(old(tbl24[..]), tbl24[..], k / 256)
      ensures Painted(old(tbl24[..]), old(tblLong[..]), tbl24[..], tblLong[..], k, len, rawEntries[len][k])
    {
      ghost var t24, cur, e := tbl24[..], currentTblLong, k / 256;
      assert e in LongBlocks(rawEntries);
      if tbl24[k / 256] < OVERFLOW_MASK {
        HandedRoom(t24, cur, first, rawEntries, blocks, e);
      }
      PaintLong(k, len, rawEntries[len][k]);
      HandedStep(t24, tbl24[..], cur, currentTblLong, first, rawEntries, blocks, e);
    }

    /** All prefixes of one length above 24 bits, in any order. */
    method PaintLongLevel(len: nat, ghost t0: seq<nat>, ghost l0: seq<nat>, ghost first: nat, ghost blocks: set<nat>)
      requires Tables() && WellFormed(rawEntries) && 24 < len <= 32
      requires |t0| == |l0| == TBL24_SIZE && Below(t0, l0, len)
      requires Allotted(first, blocks) && Served(tbl24[..], rawEntries, len, rawEntries[len].Keys)
      modifies this`currentTblLong, tbl24, tblLong
      ensures Tables() && Below(t0, l0, len + 1)
      ensures Allotted(first, blocks) && Served(tbl24[..], rawEntries, len, {})
    {
      var todo := rawEntries[len].Keys;
      AnswersStart(tbl24[..], tblLong[..], t0, l0, rawEntries, len);
      while todo != {}
        invariant Tables() && todo <= rawEntries[len].Keys && Allotted(first, blocks)
        invariant Served(tbl24[..], rawEntries, len, todo)
        invariant Answers(tbl24[..], tblLong[..], t0, l0, rawEntries, len, todo)
        decreases todo
      {
        var k :| k in todo;
        ghost var t24, tlong := tbl24[..], tblLong[..];
        PaintNext(k, len, first, blocks);
        AnswersStep(t24, tlong, tbl24[..], tblLong[..], t0, l0, rawEntries, len, todo, k);
        ServedStep(t24, tbl24[..], rawEntries, len, todo, k);
        todo := todo - {k};
      }
      AnswersDone(tbl24[..], tblLong[..], t0, l0, rawEntries, len);
    }

    /**
     Builds the tables from the recorded prefixes, on a fresh object or over an earlier
     build. Afterwards every lookup follows the longest-match rule, and exactly the blocks
     that were missing have been handed out.
     */
    method ConstructTable()
      requires Valid() && WellFormed(rawEntries)
      requires currentTblLong + 256 * |NewBlocks(rawEntries, tbl24[..])| <= 0x80_0000
      modifies this`currentTblLong, this`built, tbl24, tblLong
      ensures Valid() && built == rawEntries
      ensures currentTblLong == old(currentTblLong) + 256 * |NewBlocks(rawEntries, old(tbl24[..]))|
      ensures Served(tbl24[..], rawEntries, RAW_SIZE - 1, {})
    {
      ghost var t0, l0 := tbl24[..], tblLong[..];
      ghost var first, blocks := currentTblLong, NewBlocks(rawEntries, t0);
      assert Below(t0, l0, 0) && BareBelow(t0, t0, rawEntries, 0);
      for i := 0 to 25
        modifies tbl24
        invariant Tables() && Below(t0, l0, i) && BareBelow(tbl24[..], t0, rawEntries, i)
      {
        PaintShortLevel(i, t0, l0);
      }
      HandedStart(tbl24[..], t0, first, rawEntries);
      for i := 25 to RAW_SIZE
        modifies this`currentTblLong, tbl24, tblLong
        invariant Tables() && Allotted(first, blocks) && Below(t0, l0, i) && Served(tbl24[..], rawEntries, i - 1, {})
      {
        ServedNext(tbl24[..], rawEntries, i);
        PaintLongLevel(i, t0, l0, first, blocks);
      }
      HandedAll(tbl24[..], currentTblLong, first, rawEntries, blocks);
      AnswersAll(tbl24[..], tblLong[..], t0, l0, rawEntries, built);
      built := rawEntries;
    }

    method LookupEntry(ip: nat) returns (gate: nat)
      requires Valid() && ip < ADDRESSES
      ensures gate == LongestMatch(built, ip)
      ensures forall len: nat :: LongestLength(built, ip, len) ==> gate == built[len][PrefixKey(ip, len)]
      ensures (forall len :: 0 <= len <= 32 ==> PrefixKey(ip, len) !in built[len]) ==> gate == 0
    {
      LongestMatchMeaning(built, ip, RAW_SIZE);
      var t24entry := tbl24[ip / 256];
      if t24entry >= OVERFLOW_MASK {
        var index := DecodeBlock(t24entry) * 256 + ip % 256;
        gate := tblLong[index];
      } else {
        gate := t24entry;
      }
      assert gate == View(ip);
    }
  }

  lemma {:induction false} EmptyMatchesNothing(raw: RawEntries, ip: nat, n: nat)
    requires |raw| == RAW_SIZE && n <= RAW_SIZE && forall len :: 0 <= len < RAW_SIZE ==> raw[len] == map[]
    ensures Best(raw, ip, n).None?
  {
    if n > 0 { EmptyMatchesNothing(raw, ip, n - 1); }
  }
}
