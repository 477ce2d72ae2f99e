/**
 Machine words: bit operations on naturals, wrapping 64-bit counters, and the rounding
 to a power of two that sizes every ring in the framework.

 A `usize` is a natural below `WORD`. The bitwise operators recurse over binary digits,
 so that facts about masks and shifts are proved by induction.
 */
module Words {

  type Byte = x: int | 0 <= x < 256 witness 0

  /** 2^64, the modulus of `usize` arithmetic. */
  const WORD: nat := 0x1_0000_0000_0000_0000

  /** 2^63, the largest power of two that fits in a word. */
  const HALF_WORD: nat := 0x8000_0000_0000_0000

  function Pow2(n: nat): (r: nat)
    ensures r > 0
  {
    if n == 0 then 1 else 2 * Pow2(n - 1)
  }

  function WrapAdd(x: nat, y: nat): (r: nat)
    ensures r < WORD
  {
    (x + y) % WORD
  }

  function WrapSub(x: nat, y: nat): (r: nat)
    ensures r < WORD
  {
    (x - y) % WORD
  }

  function Min(x: nat, y: nat): (r: nat)
    ensures r <= x && r <= y && (r == x || r == y)
  {
    if x <= y then x else y
  }

  function Or(x: nat, y: nat): nat {
    if x == 0 && y == 0 then 0
    else 2 * Or(x / 2, y / 2) + (if x % 2 == 1 || y % 2 == 1 then 1 else 0)
  }

  function And(x: nat, y: nat): nat {
    if x == 0 || y == 0 then 0
    else 2 * And(x / 2, y / 2) + (if x % 2 == 1 && y % 2 == 1 then 1 else 0)
  }

  function Shr(x: nat, m: nat): nat {
    if m == 0 then x else Shr(x / 2, m - 1)
  }

  /** Binary digit `i` of `x`. */
  function Bit(x: nat, i: nat): (b: nat)
    ensures b < 2
  {
    if i == 0 then x % 2 else Bit(x / 2, i - 1)
  }

  ghost predicate IsPow2(x: nat) {
    exists k: nat :: x == Pow2(k)
  }

  /** `r` is the least power of two that is not below `x`. */
  ghost predicate IsLeastPow2(r: nat, x: nat) {
    IsPow2(r) && r >= x && forall k: nat :: Pow2(k) >= x ==> r <= Pow2(k)
  }

  // ---------------------------------------------------------------- powers of two

  lemma {:induction false} Pow2Mono(a: nat, b: nat)
    requires a <= b
    ensures Pow2(a) <= Pow2(b)
    ensures a < b ==> Pow2(a) < Pow2(b)
  {
    if a < b { Pow2Mono(a, b - 1); }
  }

  lemma {:induction false} Pow2Add(a: nat, b: nat)
    ensures Pow2(a + b) == Pow2(a) * Pow2(b)
  {
    if a > 0 {
      Pow2Add(a - 1, b);
      assert Pow2(a + b) == 2 * Pow2(a - 1 + b);
    }
  }

  lemma Pow2Of64()
    ensures Pow2(64) == WORD
    ensures Pow2(63) == HALF_WORD
  {
    assert Pow2(8) == 256;
    assert Pow2(16) == 65536 by { Pow2Add(8, 8); }
    assert Pow2(32) == 65536 * 65536 by { Pow2Add(16, 16); }
    Pow2Add(32, 32);
  }

  // ---------------------------------------------------------------- binary digits

  lemma {:induction false} BitOfOr(x: nat, y: nat, i: nat)
    ensures Bit(Or(x, y), i) == if Bit(x, i) == 1 || Bit(y, i) == 1 then 1 else 0
    decreases i
  {
    if i > 0 { BitOfOr(x / 2, y / 2, i - 1); }
  }

  lemma {:induction false} BitOfShr(x: nat, m: nat, i: nat)
    ensures Bit(Shr(x, m), i) == Bit(x, i + m)
    decreases m
  {
    if m > 0 {
      BitOfShr(x / 2, m - 1, i);
    }
  }

  lemma {:induction false} BitsAbove(x: nat, k: nat, i: nat)
    requires x < Pow2(k) && k <= i
    ensures Bit(x, i) == 0
    decreases i
  {
    if i > 0 {
      BitsAbove(x / 2, if k == 0 then 0 else k - 1, i - 1);
    }
  }

  lemma {:induction false} TopBit(x: nat, k: nat)
    requires Pow2(k) <= x < Pow2(k + 1)
    ensures Bit(x, k) == 1
    decreases k
  {
    if k > 0 {
      assert Pow2(k - 1) <= x / 2 < Pow2(k);
      TopBit(x / 2, k - 1);
    }
  }

  /** Every positive number lies between two consecutive powers of two. */
  lemma {:induction false} Magnitude(x: nat) returns (k: nat)
    requires x > 0
    ensures Pow2(k) <= x < Pow2(k + 1)
  {
    if x == 1 {
      k := 0;
      assert Pow2(1) == 2;
    } else {
      var h := Magnitude(x / 2);
      k := h + 1;
      assert Pow2(h + 2) == 2 * Pow2(h + 1);
    }
  }

  /** A number whose digits are one up to `k` and zero above is 2^(k+1) - 1. */
  lemma {:induction false} AllOnes(x: nat, k: nat)
    requires forall i: nat :: Bit(x, i) == if i <= k then 1 else 0
    ensures x == Pow2(k + 1) - 1
    decreases k
  {
    assert Bit(x, 0) == 1;
    forall i: nat
      ensures Bit(x / 2, i) == if i + 1 <= k then 1 else 0
    {
      assert Bit(x, i + 1) == Bit(x / 2, i);
    }
    if k == 0 {
      NoBits(x / 2);
      assert Pow2(1) == 2;
    } else {
      AllOnes(x / 2, k - 1);
    }
  }

  lemma {:induction false} NoBits(x: nat)
    requires forall i: nat :: Bit(x, i) == 0
    ensures x == 0
  {
    if x > 0 {
      var k := Magnitude(x);
      TopBit(x, k);
    }
  }

  // ---------------------------------------------------------------- masks

  /** Masking with slots - 1 is reduction modulo slots when slots is a power of two. */
  lemma {:induction false} AndMask(x: nat, k: nat)
    ensures And(x, Pow2(k) - 1) == x % Pow2(k)
    decreases k
  {
    if k == 0 {
    } else {
      AndMask(x / 2, k - 1);
      var h := Pow2(k - 1);
      assert Pow2(k) == 2 * h;
      assert (2 * h - 1) / 2 == h - 1 && (2 * h - 1) % 2 == 1;
      ModByDoubling(x, h);
    }
  }

  lemma ModByDoubling(x: nat, h: nat)
    requires h > 0
    ensures x % (2 * h) == 2 * ((x / 2) % h) + x % 2
  {
    var q, r := (x / 2) / h, (x / 2) % h;
    assert x / 2 == q * h + r;
    assert x == q * (2 * h) + (2 * r + x % 2);
    ModUnique(x, 2 * h, q, 2 * r + x % 2);
  }

  lemma ModUnique(x: int, m: nat, q: int, r: nat)
    requires m > 0 && x == q * m + r && r < m
    ensures x % m == r && x / m == q
  {
    var q', r' := x / m, x % m;
    QuotientUnique(m, q, r, q', r');
  }

  lemma QuotientUnique(m: nat, q: int, r: nat, q': int, r': nat)
    requires m > 0 && r < m && r' < m
    requires q * m + r == q' * m + r'
    ensures q == q' && r == r'
  {
    if q > q' {
      MulGap(m, q, q');
    } else if q < q' {
      MulGap(m, q', q);
    }
  }

  lemma MulGap(m: nat, q: int, p: int)
    requires q > p
    ensures q * m >= p * m + m
  {
    assert q * m == p * m + (q - p) * m;
    assert (q - p) * m == m + (q - p - 1) * m;
    assert (q - p - 1) * m >= 0;
  }

  /** `x & (x - 1) == 0`, the test used by `new`, recognises exactly the powers of two. */
  lemma {:induction false} PowerTest(x: nat)
    requires x > 0
    ensures And(x, x - 1) == 0 <==> IsPow2(x)
    decreases x
  {
    if x == 1 {
      assert Pow2(0) == 1;
    } else if x % 2 == 1 {
      assert And(x, x - 1) >= 2 * And(x / 2, x / 2);
      AndSelf(x / 2);
      forall k: nat ensures Pow2(k) != x {
        assert k > 0 ==> Pow2(k) == 2 * Pow2(k - 1);
      }
    } else {
      PowerTest(x / 2);
      assert (x - 1) / 2 == x / 2 - 1;
      if IsPow2(x / 2) {
        var k: nat :| x / 2 == Pow2(k);
        assert x == Pow2(k + 1);
      }
      if IsPow2(x) {
        var k: nat :| x == Pow2(k);
        assert k > 0 && x / 2 == Pow2(k - 1);
      }
    }
  }

  lemma {:induction false} AndSelf(x: nat)
    ensures And(x, x) == x
  {
    if x > 0 { AndSelf(x / 2); }
  }

  // ---------------------------------------------------------------- wrapping counters

  lemma ModOfMod(x: nat, m: nat, c: nat)
    requires m > 0 && c > 0
    ensures (x % (m * c)) % m == x % m
  {
    var q, r := x / (m * c), x % (m * c);
    var s, t := r / m, r % m;
    assert x == q * (m * c) + r;
    assert r == s * m + t;
    assert q * (m * c) == (q * c) * m;
    assert x == (q * c + s) * m + t;
    ModUnique(x, m, q * c + s, t);
  }

  /** The slot of a wrapped 64-bit counter is the slot of the unbounded counter. */
  lemma WrappedSlot(x: nat, k: nat)
    requires k <= 64
    ensures And(x % WORD, Pow2(k) - 1) == x % Pow2(k)
  {
    AndMask(x % WORD, k);
    Pow2Of64();
    Pow2Add(k, 64 - k);
    ModOfMod(x, Pow2(k), Pow2(64 - k));
  }

  /** The wrapping difference of two wrapped counters is their true difference. */
  lemma WrappedDifference(x: nat, y: nat)
    requires 0 <= x - y < WORD
    ensures WrapSub(x % WORD, y % WORD) == x - y
  {
  }

  /** Incrementing a wrapped counter is wrapping the incremented one. */
  lemma WrappedSum(x: nat, y: nat)
    ensures WrapAdd(x % WORD, y) == (x + y) % WORD
  {
  }

  /** `mask + tail - head` in wrapping arithmetic is the number of free slots. */
  lemma WrappedFree(mask: nat, tail: nat, head: nat)
    requires 0 <= mask + tail - head < WORD
    ensures WrapSub(WrapAdd(mask, tail % WORD), head % WORD) == mask + tail - head
  {
  }

  // ---------------------------------------------------------------- ring slots

  /** Slot of an unbounded position in a ring. */
  function Slot(x: nat, slots: nat): (r: nat)
    requires slots > 0
    ensures r < slots
  {
    x % slots
  }

  /** Positions less than a ring apart use different slots. */
  lemma SlotsDiffer(x: nat, y: nat, slots: nat)
    requires slots > 0 && x < y < x + slots
    ensures Slot(x, slots) != Slot(y, slots)
  {
    if x % slots == y % slots {
      var a, b := x / slots, y / slots;
      assert x == a * slots + x % slots;
      assert y == b * slots + x % slots;
      assert y - x == (b - a) * slots;
      if b > a { MulGap(slots, b, a); } else if b < a { MulGap(slots, a, b); }
    }
  }

  lemma SlotOffset(base: nat, k: nat, slots: nat)
    requires slots > 0 && k < slots
    ensures Slot(base + k, slots) ==
      if Slot(base, slots) + k < slots then Slot(base, slots) + k else Slot(base, slots) + k - slots
  {
    var q, r := base / slots, base % slots;
    assert base == q * slots + r;
    if r + k < slots {
      ModUnique(base + k, slots, q, r + k);
    } else {
      assert base + k == (q + 1) * slots + (r + k - slots);
      ModUnique(base + k, slots, q + 1, r + k - slots);
    }
  }

  // ---------------------------------------------------------------- rounding

  /** The top `m` digits of `x`, counted down from digit `k`, are one; none is set above. */
  ghost predicate Smeared(x: nat, k: nat, m: nat) {
    forall i: nat :: (i > k ==> Bit(x, i) == 0) && (i <= k < i + m ==> Bit(x, i) == 1)
  }

  function Smear(x: nat, m: nat): nat {
    Or(x, Shr(x, m))
  }

  lemma SmearStep(x: nat, k: nat, m: nat)
    requires Smeared(x, k, m) && m > 0
    ensures Smeared(Smear(x, m), k, 2 * m)
  {
    forall i: nat
      ensures i > k ==> Bit(Smear(x, m), i) == 0
      ensures i <= k < i + 2 * m ==> Bit(Smear(x, m), i) == 1
    {
      BitOfOr(x, Shr(x, m), i);
      BitOfShr(x, m, i);
      assert Bit(x, i) < 2 && Bit(x, i + m) < 2;
    }
  }

  lemma SmearStart(x: nat, k: nat)
    requires Pow2(k) <= x < Pow2(k + 1)
    ensures Smeared(x, k, 1)
  {
    TopBit(x, k);
    forall i: nat | i > k ensures Bit(x, i) == 0 { BitsAbove(x, k + 1, i); }
  }

  lemma SmearDone(x: nat, k: nat)
    requires Smeared(x, k, 64) && k < 64
    ensures x == Pow2(k + 1) - 1
  {
    AllOnes(x, k);
  }

  lemma LeastPow2(x: nat, k: nat)
    requires Pow2(k) < x <= Pow2(k + 1)
    ensures IsLeastPow2(Pow2(k + 1), x)
  {
    forall j: nat | Pow2(j) >= x ensures Pow2(k + 1) <= Pow2(j) {
      if j <= k { Pow2Mono(j, k); } else { Pow2Mono(k + 1, j); }
    }
  }

  function AllSmears(x: nat): nat {
    Smear(Smear(Smear(Smear(Smear(Smear(x, 1), 2), 4), 8), 16), 32)
  }

  lemma AllSmearsValue(x: nat, k: nat)
    requires Pow2(k) <= x < Pow2(k + 1) && k < 64
    ensures AllSmears(x) == Pow2(k + 1) - 1
  {
    SmearStart(x, k);
    var a := Smear(x, 1);  SmearStep(x, k, 1);
    var b := Smear(a, 2);  SmearStep(a, k, 2);
    var c := Smear(b, 4);  SmearStep(b, k, 4);
    var d := Smear(c, 8);  SmearStep(c, k, 8);
    var e := Smear(d, 16); SmearStep(d, k, 16);
    var f := Smear(e, 32); SmearStep(e, k, 32);
    SmearDone(f, k);
  }

  /** A 64-bit word that is not zero has its top digit below 64. */
  lemma WordMagnitude(x: nat) returns (k: nat)
    requires 0 < x < WORD
    ensures k < 64 && Pow2(k) <= x < Pow2(k + 1)
  {
    k := Magnitude(x);
    Pow2Of64();
    if k >= 64 { Pow2Mono(64, k); }
  }

  /**
   Rounds up to a power of two by filling in all digits below the top one.
   The result is the least power of two not below `size` exactly on 1..2^63; on 0 and
   above 2^63 the final increment wraps to 0.
   */
  method RoundToPowerOf2(size: nat) returns (r: nat)
    requires size < WORD
    ensures 1 <= size <= HALF_WORD <==> IsLeastPow2(r, size)
    ensures !(1 <= size <= HALF_WORD) ==> r == 0
    ensures r < WORD
  {
    r := WrapSub(size, 1);
    ghost var x := r;
    r := Or(r, Shr(r, 1));
    r := Or(r, Shr(r, 2));
    r := Or(r, Shr(r, 4));
    r := Or(r, Shr(r, 8));
    r := Or(r, Shr(r, 16));
    r := Or(r, Shr(r, 32));
    assert r == AllSmears(x);
    r := WrapAdd(r, 1);
    RoundingValue(size, x, r);
  }

  lemma RoundingValue(size: nat, x: nat, r: nat)
    requires size < WORD && x == WrapSub(size, 1) && r == WrapAdd(AllSmears(x), 1)
    ensures 1 <= size <= HALF_WORD <==> IsLeastPow2(r, size)
    ensures !(1 <= size <= HALF_WORD) ==> r == 0
  {
    if size == 1 {
      SmearZero();
      OneIsLeast();
    } else {
      var k := WordMagnitude(x);
      AllSmearsValue(x, k);
      RoundingRange(size, x, k);
    }
  }

  lemma OneIsLeast()
    ensures IsLeastPow2(1, 1)
  {
    assert Pow2(0) == 1;
  }

  lemma RoundingRange(size: nat, x: nat, k: nat)
    requires size < WORD && size != 1 && x == WrapSub(size, 1)
    requires k < 64 && Pow2(k) <= x < Pow2(k + 1)
    ensures 1 <= size <= HALF_WORD <==> IsLeastPow2(WrapAdd(Pow2(k + 1) - 1, 1), size)
    ensures !(1 <= size <= HALF_WORD) ==> WrapAdd(Pow2(k + 1) - 1, 1) == 0
  {
    if 1 <= size <= HALF_WORD {
      RoundingFits(size, k);
    } else {
      RoundingWraps(size, x, k);
    }
  }

  lemma RoundingFits(size: nat, k: nat)
    requires 2 <= size <= HALF_WORD && k < 64 && Pow2(k) <= size - 1 < Pow2(k + 1)
    ensures IsLeastPow2(WrapAdd(Pow2(k + 1) - 1, 1), size)
  {
    Pow2Of64();
    if k < 63 { Pow2Mono(k + 1, 63); }
    LeastPow2(size, k);
  }

  lemma RoundingWraps(size: nat, x: nat, k: nat)
    requires size == 0 || HALF_WORD < size < WORD
    requires x == WrapSub(size, 1) && k < 64 && Pow2(k) <= x < Pow2(k + 1)
    ensures WrapAdd(Pow2(k + 1) - 1, 1) == 0 && !IsLeastPow2(0, size)
  {
    Pow2Of64();
    if k < 63 { Pow2Mono(k + 1, 63); }
    ZeroIsNoPower();
  }

  lemma ZeroIsNoPower()
    ensures !IsPow2(0)
  {
  }

  lemma {:induction false} ShrZero(m: nat)
    ensures Shr(0, m) == 0
  {
    if m > 0 { ShrZero(m - 1); }
  }

  lemma SmearZero()
    ensures forall m: nat :: Smear(0, m) == 0
  {
    forall m: nat ensures Smear(0, m) == 0 { ShrZero(m); }
  }
}
