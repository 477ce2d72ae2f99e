/**
 The Maglev load balancer's lookup table. Each backend ranks all table slots by stepping
 through them with its own offset and skip; backends then take turns claiming their best
 free slot until the table is full.
 */
module Maglev {
  import opened Words

  /** Marks a slot no backend has claimed. */
  const EMPTY: nat := 0x8000

  ghost predicate Prime(n: nat) {
    n >= 2 && forall d :: 1 < d < n ==> n % d != 0
  }

  ghost predicate Distinct(s: seq<nat>) {
    forall i, j :: 0 <= i < j < |s| ==> s[i] != s[j]
  }

  ghost predicate Below(s: seq<nat>, n: nat) {
    forall i :: 0 <= i < |s| ==> s[i] < n
  }

  /** `s` lists each of 0..n-1 exactly once. */
  ghost predicate Permutation(s: seq<nat>, n: nat) {
    |s| == n && Below(s, n) && Distinct(s)
  }

  // ---------------------------------------------------------------- preference rows

  function OffsetSkip(hash1: nat, hash2: nat, lsize: nat): (r: (nat, nat))
    requires lsize >= 2
    ensures r.0 < lsize && 1 <= r.1 < lsize
  {
    (hash2 % lsize, hash1 % (lsize - 1) + 1)
  }

  function Row(offset: nat, skip: nat, lsize: nat): (r: seq<nat>)
    requires lsize > 0
    ensures |r| == lsize && Below(r, lsize)
  {
    seq(lsize, j requires 0 <= j < lsize => (offset + j * skip) % lsize)
  }

  /** Euclid's lemma for a prime and a factor below it. */
  lemma {:induction false} Euclid(p: nat, a: nat, b: nat)
    requires Prime(p) && 0 < a < p && (a * b) % p == 0
    ensures b % p == 0
    decreases a
  {
    var q, r := p / a, p % a;
    assert p == q * a + r;
    if r == 0 {
      assert a == 1;
    } else {
      var m := (a * b) / p;
      assert a * b == m * p;
      assert r * b == (p - q * a) * b == p * b - q * (a * b);
      assert r * b == p * b - q * (m * p) == (b - q * m) * p;
      ModUnique(r * b, p, b - q * m, 0);
      Euclid(p, r, b);
    }
  }

  /** Two different steps of at most a prime table's length land on different slots. */
  lemma StepsDiffer(offset: nat, skip: nat, lsize: nat, i: nat, j: nat)
    requires Prime(lsize) && 1 <= skip < lsize && i < j < lsize
    ensures (offset + i * skip) % lsize != (offset + j * skip) % lsize
  {
    var x, y, d := offset + i * skip, offset + j * skip, j - i;
    assert y - x == skip * d && x <= y;
    if x % lsize == y % lsize {
      SameSlot(x, y, lsize);
      Euclid(lsize, skip, d);
      ModUnique(d, lsize, 0, d);
    }
  }

  /** Over a prime table size, stepping by any skip visits every slot once. */
  lemma RowPermutation(offset: nat, skip: nat, lsize: nat)
    requires Prime(lsize) && 1 <= skip < lsize
    ensures Permutation(Row(offset, skip, lsize), lsize)
  {
    var row := Row(offset, skip, lsize);
    forall i, j | 0 <= i < j < lsize ensures row[i] != row[j] {
      StepsDiffer(offset, skip, lsize, i, j);
    }
  }

  lemma SameSlot(x: nat, y: nat, n: nat)
    requires n > 0 && x <= y && x % n == y % n
    ensures (y - x) % n == 0
  {
    var a, b := x / n, y / n;
    assert x == a * n + x % n && y == b * n + x % n;
    assert y - x == (b - a) * n + 0;
    ModUnique(y - x, n, b - a, 0);
  }

  /** A skip that divides the table size brings the row back to its first slot too early. */
  lemma CompositeRepeats(offset: nat, d: nat, lsize: nat)
    requires 1 < d < lsize && lsize % d == 0
    ensures 0 < lsize / d < lsize && Row(offset, d, lsize)[0] == Row(offset, d, lsize)[lsize / d]
  {
    var e := CoFactor(lsize, d);
    var q, r := offset / lsize, offset % lsize;
    assert offset == q * lsize + r;
    assert offset + e * d == (q + 1) * lsize + r;
    ModUnique(offset + e * d, lsize, q + 1, r);
    assert offset + 0 * d == offset;
  }

  lemma CoFactor(n: nat, d: nat) returns (e: nat)
    requires 1 < d < n && n % d == 0
    ensures e == n / d && n == e * d && 1 < e < n && n % e == 0
  {
    e := n / d;
    assert n == e * d + 0;
    FactorBounds(e, d, n);
    ModUnique(n, e, d, 0);
  }

  lemma FactorBounds(e: nat, d: nat, n: nat)
    requires e * d == n && 1 < d < n
    ensures 1 < e < n
  {
  }

  /** Every possible row is a permutation exactly when the table size is prime. */
  lemma RowsNeedPrime(lsize: nat)
    requires lsize >= 2
    ensures (forall offset: nat, skip: nat :: 1 <= skip < lsize ==> Permutation(Row(offset, skip, lsize), lsize))
            <==> Prime(lsize)
  {
    if Prime(lsize) {
      forall offset: nat, skip: nat | 1 <= skip < lsize ensures Permutation(Row(offset, skip, lsize), lsize) {
        RowPermutation(offset, skip, lsize);
      }
    } else {
      var d :| 1 < d < lsize && lsize % d == 0;
      CompositeRepeats(0, d, lsize);
      assert !Distinct(Row(0, d, lsize));
      assert !Permutation(Row(0, d, lsize), lsize);
    }
  }

  // ---------------------------------------------------------------- the size in use

  lemma SmallDivisors(d: nat)
    requires 1 < d < 257
    ensures 65537 % d != 0
  {
  }

  /** The table size the load balancer is built with. */
  lemma TableSizeIsPrime()
    ensures Prime(65537)
  {
    forall d | 1 < d < 65537 ensures 65537 % d != 0 {
      if d < 257 {
        SmallDivisors(d);
      } else if 65537 % d == 0 {
        var e := CoFactor(65537, d);
        SmallFactor(e, d);
        SmallDivisors(e);
      }
    }
  }

  lemma SmallFactor(e: nat, d: nat)
    requires d >= 257 && e * d == 65537
    ensures e < 257
  {
  }

  // ---------------------------------------------------------------- taking turns

  /** The best-ranked slot not yet taken. */
  function Pick(row: seq<nat>, taken: seq<nat>): nat {
    if row == [] then 0
    else if row[0] !in taken then row[0]
    else Pick(row[1..], taken)
  }

  /** The slots claimed in the first `t` turns; turn `t` belongs to backend `t % |rows|`. */
  function Picks(rows: seq<seq<nat>>, t: nat): (r: seq<nat>)
    requires |rows| > 0
    ensures |r| == t
  {
    if t == 0 then []
    else
      var before := Picks(rows, t - 1);
      before + [Pick(rows[(t - 1) % |rows|], before)]
  }

  ghost predicate GoodRows(rows: seq<seq<nat>>, size: nat) {
    && 0 < |rows| <= EMPTY
    && forall i :: 0 <= i < |rows| ==> Permutation(rows[i], size)
  }

  lemma {:induction false} PickFound(row: seq<nat>, taken: seq<nat>, p: nat)
    requires p < |row| && row[p] !in taken && forall j :: 0 <= j < p ==> row[j] in taken
    ensures Pick(row, taken) == row[p]
  {
    if p > 0 {
      assert row[0] in taken;
      PickFound(row[1..], taken, p - 1);
    }
  }

  lemma {:induction false} PickIsFree(row: seq<nat>, taken: seq<nat>, free: nat)
    requires free in row && free !in taken
    ensures Pick(row, taken) in row && Pick(row, taken) !in taken
  {
    if row[0] in taken {
      PickIsFree(row[1..], taken, free);
    }
  }

  // ---------------------------------------------------------------- pigeonholes

  function Range(n: nat): (r: set<nat>)
    ensures forall x: nat :: x in r <==> x < n
  {
    if n == 0 then {} else Range(n - 1) + {n - 1}
  }

  lemma {:induction false} RangeSize(n: nat)
    ensures |Range(n)| == n
  {
    if n > 0 {
      RangeSize(n - 1);
      assert Range(n) == Range(n - 1) + {n - 1};
    }
  }

  function Elements(s: seq<nat>): set<nat> {
    set x | x in s
  }

  lemma {:induction false} DistinctSize(s: seq<nat>)
    requires Distinct(s)
    ensures |Elements(s)| == |s|
  {
    if s != [] {
      var t := s[..|s| - 1];
      DistinctSize(t);
      assert Elements(s) == Elements(t) + {s[|s| - 1]};
    }
  }

  lemma SubsetEqual(a: set<nat>, b: set<nat>)
    requires a <= b && |a| >= |b|
    ensures a == b
  {
    assert b == a + (b - a);
    assert |b| == |a| + |b - a|;
  }

  /** `n` distinct values below `n` are all of them. */
  lemma Pigeonhole(s: seq<nat>, n: nat)
    requires Permutation(s, n)
    ensures forall x: nat :: x < n ==> x in s
  {
    DistinctSize(s);
    RangeSize(n);
    SubsetEqual(Elements(s), Range(n));
    forall x: nat | x < n ensures x in s { assert x in Range(n); }
  }

  /** Fewer than `n` values leave some value below `n` free. */
  lemma FreeSlot(s: seq<nat>, n: nat) returns (free: nat)
    requires Distinct(s) && Below(s, n) && |s| < n
    ensures free < n && free !in s
  {
    DistinctSize(s);
    RangeSize(n);
    if Range(n) <= Elements(s) {
      SubsetEqual(Range(n), Elements(s));
    }
    free :| free in Range(n) && free !in Elements(s);
  }

  // ---------------------------------------------------------------- the greedy fill

  /** Up to a full table, every turn claims a slot nobody had. */
  lemma {:induction false} PicksDistinct(rows: seq<seq<nat>>, size: nat, t: nat)
    requires GoodRows(rows, size) && t <= size
    ensures Distinct(Picks(rows, t)) && Below(Picks(rows, t), size)
  {
    if t > 0 {
      PicksDistinct(rows, size, t - 1);
      var before := Picks(rows, t - 1);
      var free := FreeSlot(before, size);
      var row := rows[(t - 1) % |rows|];
      Pigeonhole(row, size);
      PickIsFree(row, before, free);
    }
  }

  /** Slots claimed by backend `i` in the first `n` turns. */
  ghost function Claimed(picks: seq<nat>, backends: nat, i: nat, n: nat): set<nat>
    requires backends > 0 && n <= |picks|
  {
    set t: nat | 0 <= t < n && t % backends == i :: picks[t]
  }

  function Share(n: nat, backends: nat, i: nat): nat
    requires backends > 0
  {
    n / backends + (if i < n % backends then 1 else 0)
  }

  lemma ShareStep(n: nat, backends: nat, i: nat)
    requires i < backends
    ensures Share(n + 1, backends, i) == Share(n, backends, i) + (if n % backends == i then 1 else 0)
  {
    var q, r := n / backends, n % backends;
    assert n == q * backends + r;
    if r + 1 == backends {
      assert n + 1 == (q + 1) * backends + 0;
      ModUnique(n + 1, backends, q + 1, 0);
    } else {
      ModUnique(n + 1, backends, q, r + 1);
    }
  }

  lemma {:induction false} ClaimedSize(picks: seq<nat>, backends: nat, i: nat, n: nat)
    requires i < backends && n <= |picks| && Distinct(picks)
    ensures |Claimed(picks, backends, i, n)| == Share(n, backends, i)
  {
    if n == 0 {
      ModUnique(0, backends, 0, 0);
      assert Claimed(picks, backends, i, 0) == {};
    } else {
      ClaimedSize(picks, backends, i, n - 1);
      ShareStep(n - 1, backends, i);
      var before := Claimed(picks, backends, i, n - 1);
      if (n - 1) % backends == i {
        assert picks[n - 1] !in before;
        assert Claimed(picks, backends, i, n) == before + {picks[n - 1]};
      } else {
        assert Claimed(picks, backends, i, n) == before;
      }
    }
  }

  /** The table follows the turns: the slot claimed in turn `t` names that turn's backend. */
  ghost predicate FollowsTurns(lut: seq<nat>, rows: seq<seq<nat>>)
    requires |rows| > 0
  {
    Below(Picks(rows, |lut|), |lut|) &&
    forall t :: 0 <= t < |lut| ==> lut[Picks(rows, |lut|)[t]] == t % |rows|
  }

  ghost function Owned(lut: seq<nat>, i: nat): set<nat> {
    set c: nat | 0 <= c < |lut| && lut[c] == i
  }

  /**
   Exact balance: of a table of S slots over N backends, backend i owns S / N slots, and
   one more exactly when i < S mod N; and no slot is left to anything but a backend.
   */
  lemma Balanced(lut: seq<nat>, rows: seq<seq<nat>>)
    requires GoodRows(rows, |lut|) && FollowsTurns(lut, rows)
    ensures forall i: nat :: i < |rows| ==> |Owned(lut, i)| == |lut| / |rows| + (if i < |lut| % |rows| then 1 else 0)
    ensures forall c :: 0 <= c < |lut| ==> lut[c] < |rows|
  {
    var n := |rows|;
    var picks := Picks(rows, |lut|);
    PicksDistinct(rows, |lut|, |lut|);
    Pigeonhole(picks, |lut|);
    forall i: nat | i < n ensures |Owned(lut, i)| == Share(|lut|, n, i) {
      ClaimedSize(picks, n, i, |lut|);
      OwnedIsClaimed(lut, rows, i);
    }
    forall c | 0 <= c < |lut| ensures lut[c] < n {
      assert c in picks;
      var t :| 0 <= t < |picks| && picks[t] == c;
      assert lut[picks[t]] == t % n;
    }
  }

  lemma OwnedIsClaimed(lut: seq<nat>, rows: seq<seq<nat>>, i: nat)
    requires GoodRows(rows, |lut|) && FollowsTurns(lut, rows) && i < |rows|
    ensures Owned(lut, i) == Claimed(Picks(rows, |lut|), |rows|, i, |lut|)
  {
    var n := |rows|;
    var picks := Picks(rows, |lut|);
    PicksDistinct(rows, |lut|, |lut|);
    Pigeonhole(picks, |lut|);
    forall c: nat | c in Owned(lut, i) ensures c in Claimed(picks, n, i, |lut|) {
      assert c in picks;
      var t :| 0 <= t < |picks| && picks[t] == c;
      assert lut[picks[t]] == t % n;
    }
  }

  /** Two tables that follow the turns are the same table. */
  lemma TurnsDecide(a: seq<nat>, b: seq<nat>, rows: seq<seq<nat>>)
    requires |a| == |b| && GoodRows(rows, |a|) && FollowsTurns(a, rows) && FollowsTurns(b, rows)
    ensures a == b
  {
    var picks := Picks(rows, |a|);
    PicksDistinct(rows, |a|, |a|);
    Pigeonhole(picks, |a|);
    forall c | 0 <= c < |a| ensures a[c] == b[c] {
      assert c in picks;
      var t :| 0 <= t < |picks| && picks[t] == c;
      assert a[picks[t]] == b[picks[t]];
    }
  }

  /** State of the fill after `n` turns. */
  ghost predicate Filled(entry: seq<nat>, next: seq<nat>, rows: seq<seq<nat>>, n: nat)
    requires |rows| > 0
  {
    && n <= |entry| && |next| == |rows|
    && Below(Picks(rows, n), |entry|)
    && (forall c :: 0 <= c < |entry| ==> (entry[c] == EMPTY <==> c !in Picks(rows, n)))
    && (forall t :: 0 <= t < n ==> entry[Picks(rows, n)[t]] == t % |rows|)
    && (forall i :: 0 <= i < |rows| ==> Passed(rows[i], next[i], Picks(rows, n)))
  }

  /** Everything a backend ranks before position `k` is taken. */
  ghost predicate Passed(row: seq<nat>, k: nat, taken: seq<nat>) {
    k <= |row| && forall j :: 0 <= j < k ==> row[j] in taken
  }

  /** While a slot is free, no backend has passed its whole row. */
  lemma RowNotExhausted(rows: seq<seq<nat>>, size: nat, n: nat, i: nat, k: nat)
    requires GoodRows(rows, size) && n < size && i < |rows| && Passed(rows[i], k, Picks(rows, n))
    ensures k < size
  {
    PicksDistinct(rows, size, n);
    var free := FreeSlot(Picks(rows, n), size);
    Pigeonhole(rows[i], size);
    assert free in rows[i];
    var p :| 0 <= p < size && rows[i][p] == free;
  }

  lemma ClaimStep(entry: seq<nat>, next: seq<nat>, rows: seq<seq<nat>>, n: nat, k: nat)
    requires GoodRows(rows, |entry|) && n < |entry| && Filled(entry, next, rows, n)
    requires k < |entry| && Passed(rows[n % |rows|], k, Picks(rows, n)) && entry[rows[n % |rows|][k]] == EMPTY
    ensures var i := n % |rows|;
      Filled(entry[rows[i][k] := i], next[i := k + 1], rows, n + 1)
  {
    var i := n % |rows|;
    var c := rows[i][k];
    var before := Picks(rows, n);
    PickFound(rows[i], before, k);
    var after := before + [c];
    assert Picks(rows, n + 1) == after;
    ClaimEntries(entry, before, c, |rows|);
    forall j | 0 <= j < |rows| ensures Passed(rows[j], next[i := k + 1][j], after) {
      assert Passed(rows[j], next[j], before);
      PassedMore(rows[j], next[j], before, c);
      if j == i { PassedOne(rows[i], k, before, c); }
    }
  }

  lemma PassedMore(row: seq<nat>, k: nat, before: seq<nat>, c: nat)
    requires Passed(row, k, before)
    ensures Passed(row, k, before + [c])
  {
  }

  lemma PassedOne(row: seq<nat>, k: nat, before: seq<nat>, c: nat)
    requires Passed(row, k, before) && k < |row| && row[k] == c
    ensures Passed(row, k + 1, before + [c])
  {
  }

  /** Claiming a free slot in the turn of backend |before| % n. */
  lemma ClaimEntries(entry: seq<nat>, before: seq<nat>, c: nat, n: nat)
    requires 0 < n <= EMPTY && c < |entry| && entry[c] == EMPTY && Below(before, |entry|)
    requires forall x :: 0 <= x < |entry| ==> (entry[x] == EMPTY <==> x !in before)
    requires forall t :: 0 <= t < |before| ==> entry[before[t]] == t % n
    ensures var entry', after := entry[c := |before| % n], before + [c];
      && (forall x :: 0 <= x < |entry| ==> (entry'[x] == EMPTY <==> x !in after))
      && (forall t :: 0 <= t < |after| ==> after[t] < |entry| && entry'[after[t]] == t % n)
  {
  }

  /**
   Fills the table by taking turns. Never indexes past a row, never overwrites a claimed
   slot, and ends with the table that the turns decide.
   */
  method GenerateLut(rows: seq<seq<nat>>, size: nat) returns (lut: seq<nat>)
    requires GoodRows(rows, size)
    ensures |lut| == size && FollowsTurns(lut, rows)
  {
    var next: seq<nat> := seq(|rows|, _ => 0);
    var entry: seq<nat> := seq(size, _ => EMPTY);
    var n := 0;
    while n < size
      invariant |entry| == size && Filled(entry, next, rows, n)
      invariant n < size ==> n % |rows| == 0
      decreases size - n
    {
      RoundOver(n, |rows|);
      entry, next, n := TakeTurns(entry, next, rows, n);
    }
    lut := entry;
  }

  /** One round: every backend in turn, until the table is full. */
  method TakeTurns(entry0: seq<nat>, next0: seq<nat>, rows: seq<seq<nat>>, n0: nat)
    returns (entry: seq<nat>, next: seq<nat>, n: nat)
    requires GoodRows(rows, |entry0|) && n0 < |entry0| && n0 % |rows| == 0 && Filled(entry0, next0, rows, n0)
    ensures |entry| == |entry0| && n0 < n && Filled(entry, next, rows, n)
    ensures n < |entry| ==> n == n0 + |rows|
  {
    entry, next, n := entry0, next0, n0;
    var i := 0;
    while i < |rows|
      invariant 0 <= i <= |rows| && n == n0 + i < |entry| == |entry0|
      invariant Filled(entry, next, rows, n)
      decreases |rows| - i
    {
      entry, next, n := TakeTurn(entry, next, rows, n0, i, n);
      if n >= |entry| { return; }
      i := i + 1;
    }
  }

  /** Turn `i` of a round belongs to backend `i`. */
  method TakeTurn(entry: seq<nat>, next: seq<nat>, rows: seq<seq<nat>>, ghost n0: nat, i: nat, n: nat)
    returns (entry': seq<nat>, next': seq<nat>, n': nat)
    requires GoodRows(rows, |entry|) && n == n0 + i < |entry| && i < |rows| && n0 % |rows| == 0
    requires Filled(entry, next, rows, n)
    ensures |entry'| == |entry| && n' == n + 1 && Filled(entry', next', rows, n')
  {
    TurnOwner(n0, i, n, |rows|);
    entry', next' := Claim(entry, next, rows, n, i);
    n' := n + 1;
  }

  /** Backend `i` claims the next free slot of its row. */
  method Claim(entry: seq<nat>, next: seq<nat>, rows: seq<seq<nat>>, n: nat, i: nat)
    returns (entry': seq<nat>, next': seq<nat>)
    requires GoodRows(rows, |entry|) && n < |entry| && i < |rows| && n % |rows| == i
    requires Filled(entry, next, rows, n)
    ensures |entry'| == |entry| && Filled(entry', next', rows, n + 1)
  {
    var k := FindFree(entry, next, rows, n, i);
    ClaimStep(entry, next, rows, n, k);
    entry' := entry[rows[i][k] := i];
    next' := next[i := k + 1];
  }

  /** Walks backend `i`'s row from where it stopped to the next free slot. */
  method FindFree(entry: seq<nat>, next: seq<nat>, rows: seq<seq<nat>>, n: nat, i: nat) returns (k: nat)
    requires GoodRows(rows, |entry|) && n < |entry| && i < |rows| && Filled(entry, next, rows, n)
    ensures k < |entry| && Passed(rows[i], k, Picks(rows, n)) && entry[rows[i][k]] == EMPTY
  {
    k := next[i];
    RowNotExhausted(rows, |entry|, n, i, k);
    while entry[rows[i][k]] != EMPTY
      invariant k < |entry| && Passed(rows[i], k, Picks(rows, n))
      decreases |entry| - k
    {
      RowNotExhausted(rows, |entry|, n, i, k + 1);
      k := k + 1;
    }
  }

  lemma TurnOwner(n0: nat, i: nat, n: nat, backends: nat)
    requires i < backends && n0 % backends == 0 && n == n0 + i
    ensures n % backends == i
  {
    assert n0 == (n0 / backends) * backends + 0;
    ModUnique(n, backends, n0 / backends, i);
  }

  lemma RoundOver(n0: nat, backends: nat)
    requires backends > 0 && n0 % backends == 0
    ensures (n0 + backends) % backends == 0
  {
    var q := n0 / backends;
    assert n0 == q * backends + 0;
    assert n0 + backends == (q + 1) * backends + 0;
    ModUnique(n0 + backends, backends, q + 1, 0);
  }

  // ---------------------------------------------------------------- the balancer

  /** One row per backend, from the two hashes of its name. */
  function GeneratePermutations(hashes: seq<(nat, nat)>, lsize: nat): (rows: seq<seq<nat>>)
    requires lsize >= 2
    ensures |rows| == |hashes|
    ensures forall i :: 0 <= i < |rows| ==> |rows[i]| == lsize && Below(rows[i], lsize)
  {
    seq(|hashes|, i requires 0 <= i < |hashes| =>
      var os := OffsetSkip(hashes[i].0, hashes[i].1, lsize);
      Row(os.0, os.1, lsize))
  }

  lemma GeneratedRowsGood(hashes: seq<(nat, nat)>, lsize: nat)
    requires Prime(lsize) && 0 < |hashes| <= EMPTY
    ensures GoodRows(GeneratePermutations(hashes, lsize), lsize)
  {
    var rows := GeneratePermutations(hashes, lsize);
    forall i | 0 <= i < |rows| ensures Permutation(rows[i], lsize) {
      var os := OffsetSkip(hashes[i].0, hashes[i].1, lsize);
      RowPermutation(os.0, os.1, lsize);
    }
  }

  /** Which slot a backend ranks at place `j`: it starts at its second hash and steps by its first, reduced. */
  lemma RowSlot(hashes: seq<(nat, nat)>, lsize: nat, i: nat, j: nat)
    requires lsize >= 2 && i < |hashes| && j < lsize
    ensures var skip := hashes[i].0 % (lsize - 1) + 1;
      GeneratePermutations(hashes, lsize)[i][j] == (hashes[i].1 + j * skip) % lsize
  {
    var skip := hashes[i].0 % (lsize - 1) + 1;
    ModOfSum(hashes[i].1, j * skip, lsize);
  }

  lemma ModOfSum(x: nat, y: nat, m: nat)
    requires m > 0
    ensures (x % m + y) % m == (x + y) % m
  {
    var q, z := x / m, x % m + y;
    assert x == q * m + x % m && z == (z / m) * m + z % m;
    assert x + y == (q + z / m) * m + z % m;
    ModUnique(x + y, m, q + z / m, z % m);
  }

  /** In its turn a backend claims the slot it ranks best among those not claimed before. */
  lemma ClaimsBestFree(rows: seq<seq<nat>>, size: nat, t: nat) returns (k: nat)
    requires GoodRows(rows, size) && t < size
    ensures var row, before := rows[t % |rows|], Picks(rows, t);
      && k < |row| && row[k] == Picks(rows, t + 1)[t] && row[k] !in before
      && forall j :: 0 <= j < k ==> row[j] in before
  {
    var i, before := t % |rows|, Picks(rows, t);
    k := 0;
    RowNotExhausted(rows, size, t, i, 0);
    while rows[i][k] in before
      invariant k < |rows[i]| && Passed(rows[i], k, before)
      decreases |rows[i]| - k
    {
      RowNotExhausted(rows, size, t, i, k + 1);
      k := k + 1;
    }
    PickFound(rows[i], before, k);
  }

  /** The first claim of all: backend 0 gets the slot of its second hash. */
  lemma FirstSlot(hashes: seq<(nat, nat)>, lsize: nat, lut: seq<nat>)
    requires lsize >= 2 && hashes != [] && |lut| == lsize
    requires FollowsTurns(lut, GeneratePermutations(hashes, lsize))
    ensures lut[hashes[0].1 % lsize] == 0
  {
    var rows := GeneratePermutations(hashes, lsize);
    RowSlot(hashes, lsize, 0, 0);
    FirstPick(rows, lsize);
    assert Picks(rows, lsize)[0] == rows[0][0];
  }

  lemma {:induction false} FirstPick(rows: seq<seq<nat>>, t: nat)
    requires |rows| > 0 && rows[0] != [] && t > 0
    ensures Picks(rows, t)[0] == rows[0][0]
  {
    if t > 1 { FirstPick(rows, t - 1); }
  }

  datatype Table = Table(lut: seq<nat>, lutSize: nat)

  /** A table over a prime number of slots, for any hashes of the backend names. */
  method New(hashes: seq<(nat, nat)>, lsize: nat) returns (t: Table)
    requires Prime(lsize) && lsize * lsize <= WORD && 0 < |hashes| <= EMPTY
    ensures t.lutSize == lsize == |t.lut|
    ensures FollowsTurns(t.lut, GeneratePermutations(hashes, lsize))
    ensures forall i: nat :: i < |hashes| ==>
      |Owned(t.lut, i)| == lsize / |hashes| + (if i < lsize % |hashes| then 1 else 0)
    ensures forall c :: 0 <= c < lsize ==> t.lut[c] < |hashes|
    ensures t.lut[hashes[0].1 % lsize] == 0
  {
    var rows := GeneratePermutations(hashes, lsize);
    GeneratedRowsGood(hashes, lsize);
    var lut := GenerateLut(rows, lsize);
    Balanced(lut, rows);
    FirstSlot(hashes, lsize, lut);
    t := Table(lut, lsize);
  }

  /** Every flow hash is sent to some backend. */
  method LookupBackend(t: Table, hash: nat, ghost backends: nat) returns (b: nat)
    requires t.lutSize == |t.lut| > 0 && forall c :: 0 <= c < |t.lut| ==> t.lut[c] < backends
    ensures b < backends && b == t.lut[hash % |t.lut|]
  {
    b := t.lut[hash % t.lutSize];
  }
}
