/** Machine words as naturals: shifts, masks and single bits are defined on the binary digits, and the
    bit scans of include/std.h are proved against them. */
module Bits {

  function Pow2(n: nat): (r: nat)
    ensures r >= 1
  {
    if n == 0 then 1 else 2 * Pow2(n - 1)
  }

  /** i >> d */
  function Up(i: nat, d: nat): nat
    decreases d
  {
    if d == 0 then i else Up(i / 2, d - 1)
  }

  lemma {:induction false} UpStep(i: nat, d: nat)
    ensures Up(i, d + 1) == Up(i, d) / 2
    decreases d
  {
    if d > 0 { UpStep(i / 2, d - 1); }
  }

  lemma {:induction false} UpUp(i: nat, d: nat, e: nat)
    ensures Up(Up(i, d), e) == Up(i, d + e)
    decreases d
  {
    if d > 0 { UpUp(i / 2, d - 1, e); }
  }

  lemma {:induction false} UpBound(i: nat, d: nat, n: nat)
    requires i < Pow2(n + d)
    ensures Up(i, d) < Pow2(n)
    decreases d
  {
    if d > 0 { UpBound(i / 2, d - 1, n); }
  }

  lemma {:induction false} UpOfFirst(i: nat, d: nat)
    ensures Up(i * Pow2(d), d) == i
    decreases d
  {
    if d > 0 {
      assert i * Pow2(d) == (i * Pow2(d - 1)) * 2;
      UpOfFirst(i, d - 1);
      assert (i * Pow2(d - 1)) * 2 / 2 == i * Pow2(d - 1);
    }
  }

  lemma {:induction false} Pow2Add(a: nat, b: nat)
    ensures Pow2(a + b) == Pow2(a) * Pow2(b)
    decreases b
  {
    if b > 0 {
      Pow2Add(a, b - 1);
      assert Pow2(a) * (2 * Pow2(b - 1)) == 2 * (Pow2(a) * Pow2(b - 1));
    }
  }

  lemma {:induction false} UpBelow(x: nat, d: nat)
    ensures Up(x, d) == 0 <==> x < Pow2(d)
    decreases d
  {
    if d > 0 { UpBelow(x / 2, d - 1); }
  }

  lemma {:induction false} PowInjective(a: nat, b: nat)
    requires a < b
    ensures Pow2(a) < Pow2(b)
  {
    Pow2Mono(a + 1, b);
  }

  lemma {:induction false} Pow2Mono(a: nat, b: nat)
    requires a <= b
    ensures Pow2(a) <= Pow2(b)
    decreases b - a
  {
    if a < b { Pow2Mono(a, b - 1); }
  }

  /** is_pow2 for a non-zero argument. */
  predicate IsPow2(n: nat)
    requires n > 0
  {
    n == 1 || (n % 2 == 0 && IsPow2(n / 2))
  }

  lemma {:induction false} IsPow2Exact(n: nat, k: nat)
    requires Pow2(k) <= n < Pow2(k + 1)
    ensures n > 0 && (IsPow2(n) <==> n == Pow2(k))
    decreases k
  {
    if k == 0 {
      assert Pow2(1) == 2 * Pow2(0) && Pow2(0) == 1;
    } else {
      IsPow2Exact(n / 2, k - 1);
    }
  }

  // ---------------------------------------------------------------------------
  // Bits of a word
  // ---------------------------------------------------------------------------

  /** (w >> i) & 1 */
  predicate Test(w: nat, i: nat)
    decreases i
  {
    if i == 0 then w % 2 == 1 else Test(w / 2, i - 1)
  }

  /** w | (1 << i) */
  function Set(w: nat, i: nat): nat
    decreases i
  {
    if i == 0 then w - w % 2 + 1 else w % 2 + 2 * Set(w / 2, i - 1)
  }

  /** w & ~(1 << i) */
  function Clear(w: nat, i: nat): nat
    decreases i
  {
    if i == 0 then w - w % 2 else w % 2 + 2 * Clear(w / 2, i - 1)
  }

  /** w & ((1 << k) - 1) */
  function Low(w: nat, k: nat): nat
    decreases k
  {
    if k == 0 then 0 else w % 2 + 2 * Low(w / 2, k - 1)
  }

  /** w & (~0 << k) */
  function High(w: nat, k: nat): nat
    decreases k
  {
    if k == 0 then w else 2 * High(w / 2, k - 1)
  }

  /** v & w */
  function And(v: nat, w: nat): nat
  {
    if v == 0 then 0 else (v % 2) * (w % 2) + 2 * And(v / 2, w / 2)
  }

  lemma {:induction false} SetBit(w: nat, i: nat, j: nat)
    ensures Test(Set(w, i), j) <==> i == j || Test(w, j)
    decreases i
  {
    if j == 0 || i == 0 { SetTail(w, i); } else { SetTail(w, i); SetBit(w / 2, i - 1, j - 1); }
  }

  lemma SetTail(w: nat, i: nat)
    ensures Set(w, i) / 2 == if i == 0 then w / 2 else Set(w / 2, i - 1)
    ensures Set(w, i) % 2 == if i == 0 then 1 else w % 2
  {
  }

  lemma {:induction false} ClearBit(w: nat, i: nat, j: nat)
    ensures Test(Clear(w, i), j) <==> i != j && Test(w, j)
    decreases i
  {
    ClearTail(w, i);
    if j > 0 && i > 0 { ClearBit(w / 2, i - 1, j - 1); }
  }

  lemma ClearTail(w: nat, i: nat)
    ensures Clear(w, i) / 2 == if i == 0 then w / 2 else Clear(w / 2, i - 1)
    ensures Clear(w, i) % 2 == if i == 0 then 0 else w % 2
  {
  }

  lemma {:induction false} LowBit(w: nat, k: nat, j: nat)
    ensures Test(Low(w, k), j) <==> j < k && Test(w, j)
    decreases k
  {
    if k == 0 {
      ZeroBit(j);
    } else if j > 0 {
      assert Low(w, k) / 2 == Low(w / 2, k - 1);
      LowBit(w / 2, k - 1, j - 1);
    }
  }

  lemma {:induction false} HighBit(w: nat, k: nat, j: nat)
    ensures Test(High(w, k), j) <==> j >= k && Test(w, j)
    decreases k
  {
    if k > 0 && j > 0 {
      assert High(w, k) / 2 == High(w / 2, k - 1);
      HighBit(w / 2, k - 1, j - 1);
    }
  }

  lemma {:induction false} AndBit(v: nat, w: nat, j: nat)
    ensures Test(And(v, w), j) <==> Test(v, j) && Test(w, j)
    decreases j
  {
    if v == 0 {
      ZeroBit(j);
    } else {
      assert (v % 2) * (w % 2) == if v % 2 == 1 && w % 2 == 1 then 1 else 0;
      assert And(v, w) / 2 == And(v / 2, w / 2);
      if j > 0 { AndBit(v / 2, w / 2, j - 1); }
    }
  }

  lemma {:induction false} ZeroBit(j: nat)
    ensures !Test(0, j)
    decreases j
  {
    if j > 0 { ZeroBit(j - 1); }
  }

  /** A non-zero word has a bit set. */
  lemma {:induction false} SomeBit(w: nat) returns (j: nat)
    requires w != 0
    ensures Test(w, j)
  {
    if w % 2 == 1 { j := 0; } else { j := SomeBit(w / 2); j := j + 1; }
  }

  lemma NotZeroBits(w: nat)
    requires w != 0
    ensures !forall j: nat :: Test(w, j) <==> Test(0, j)
  {
    var j := SomeBit(w);
    ZeroBit(j);
  }

  /** Words with the same bits are the same word. */
  lemma {:induction false} SameBits(v: nat, w: nat)
    requires forall j: nat :: Test(v, j) <==> Test(w, j)
    ensures v == w
    decreases v + w
  {
    if v == 0 {
      if w != 0 { NotZeroBits(w); }
    } else if w == 0 {
      NotZeroBits(v);
    } else {
      assert Test(v, 0) <==> Test(w, 0);
      forall j: nat ensures Test(v / 2, j) <==> Test(w / 2, j) {
        assert Test(v, j + 1) <==> Test(w, j + 1);
      }
      SameBits(v / 2, w / 2);
    }
  }

  lemma {:induction false} TestUp(w: nat, d: nat, j: nat)
    ensures Test(Up(w, d), j) <==> Test(w, d + j)
    decreases d
  {
    if d > 0 { TestUp(w / 2, d - 1, j); }
  }

  /** A word whose bits are all below n is below 2^n. */
  lemma Bounded(w: nat, n: nat)
    requires forall j: nat :: Test(w, j) ==> j < n
    ensures w < Pow2(n)
  {
    UpBelow(w, n);
    if Up(w, n) != 0 {
      var j := SomeBit(Up(w, n));
      TestUp(w, n, j);
    }
  }

  /** Bit b is the lowest set bit of w. */
  ghost predicate Lowest(w: nat, b: nat) { Test(w, b) && forall j: nat | j < b :: !Test(w, j) }

  /** Bit b is the highest set bit of w. */
  ghost predicate Highest(w: nat, b: nat) { Test(w, b) && forall j: nat | j > b :: !Test(w, j) }

  lemma HighestUp(w: nat, b: nat)
    requires Highest(w, b)
    ensures Up(w, b) == 1
  {
    TestUp(w, b, 0);
    if Up(w, b) / 2 != 0 {
      var j := SomeBit(Up(w, b) / 2);
      UpStep(w, b);
      TestUp(w, b + 1, j);
    }
  }

  lemma UpShifted(v: nat, k: nat, d: nat)
    requires k <= d
    ensures Up(v * Pow2(k), d) == Up(v, d - k)
  {
    UpOfFirst(v, k);
    UpUp(v * Pow2(k), k, d - k);
  }

  // ---------------------------------------------------------------------------
  // Scans
  // ---------------------------------------------------------------------------

  /** State of a scan for the lowest bit of w: the low bits, all zero, have been shifted out, and
      one of the low k bits of what is left is set. */
  ghost predicate LowScan(w: nat, val: nat, bit: nat, k: nat)
  {
    && val == Up(w, bit)
    && (forall j: nat | j < bit :: !Test(w, j))
    && (exists j: nat | j < k :: Test(val, j))
  }

  /** One step of the scan: if the low k bits are zero they are shifted out. */
  method FfsStep(w: nat, val: nat, bit: nat, k: nat) returns (val': nat, bit': nat)
    requires LowScan(w, val, bit, 2 * k)
    ensures LowScan(w, val', bit', k) && bit <= bit' <= bit + k
  {
    ghost var j: nat :| j < 2 * k && Test(val, j);
    LowBit(val, k, j);
    if Low(val, k) == 0 {
      ZeroBit(j);
      TestUp(val, k, j - k);
      UpUp(w, bit, k);
      forall i: nat | i < bit + k ensures !Test(w, i) {
        if i >= bit { TestUp(w, bit, i - bit); LowBit(val, k, i - bit); ZeroBit(i - bit); }
      }
      val', bit' := Up(val, k), bit + k;
    } else {
      ghost var i := SomeBit(Low(val, k));
      LowBit(val, k, i);
      val', bit' := val, bit;
    }
  }

  /** ffs32 */
  method Ffs32(w: nat) returns (bit: int)
    requires w < Pow2(32)
    ensures w == 0 ==> bit == -1
    ensures w != 0 ==> 0 <= bit < 32 && Lowest(w, bit)
  {
    if w == 0 { return -1; }
    FirstBit(w, 32);
    var val := w;
    val, bit := FfsStep(w, val, 0, 16);
    val, bit := FfsStep(w, val, bit, 8);
    val, bit := FfsStep(w, val, bit, 4);
    val, bit := FfsStep(w, val, bit, 2);
    val, bit := FfsStep(w, val, bit, 1);
    TestUp(w, bit, 0);
  }

  /** A non-zero word of n bits has one of them set, and none above. */
  lemma FirstBit(w: nat, n: nat)
    requires 0 < w < Pow2(n)
    ensures exists j: nat | j < n :: Test(w, j)
    ensures forall j: nat | j >= n :: !Test(w, j)
  {
    UpBelow(w, n);
    forall j: nat | j >= n ensures !Test(w, j) { TestUp(w, n, j - n); ZeroBit(j - n); }
    var j := SomeBit(w);
  }

  /** State of a scan for the highest bit of a word of n bits: the bits above bit, all zero, have been
      shifted out of val, and one of its top k bits is set. */
  ghost predicate HighScan(w: nat, val: nat, bit: int, n: nat, k: nat)
  {
    && k <= bit + 1 <= n
    && val == w * Pow2(n - 1 - bit)
    && (forall j: nat | j > bit :: !Test(w, j))
    && (exists j: nat | bit - k < j <= bit :: Test(w, j))
  }

  /** One step of the scan: if the top k bits are zero, the word is shifted left by k. */
  method FlsStep(w: nat, val: nat, bit: int, n: nat, k: nat) returns (val': nat, bit': int)
    requires HighScan(w, val, bit, n, 2 * k)
    ensures HighScan(w, val', bit', n, k) && bit - k <= bit' <= bit
  {
    UpShifted(w, n - 1 - bit, n - k);
    if Up(val, n - k) == 0 {
      TopClear(w, bit, k);
      ShiftTwice(w, n - 1 - bit, k);
      val', bit' := val * Pow2(k), bit - k;
    } else {
      TopSet(w, bit, k);
      val', bit' := val, bit;
    }
  }

  lemma ShiftTwice(w: nat, a: nat, b: nat)
    ensures w * Pow2(a) * Pow2(b) == w * Pow2(a + b)
  {
    Pow2Add(a, b);
    assert w * (Pow2(a) * Pow2(b)) == w * Pow2(a) * Pow2(b);
  }

  lemma TopClear(w: nat, bit: int, k: nat)
    requires 2 * k <= bit + 1 && Up(w, bit + 1 - k) == 0 && exists j: nat | bit - 2 * k < j <= bit :: Test(w, j)
    ensures forall j: nat | j > bit - k :: !Test(w, j)
    ensures exists j: nat | bit - 2 * k < j <= bit - k :: Test(w, j)
  {
    var rest := bit + 1 - k;
    var j: nat :| bit - 2 * k < j <= bit && Test(w, j);
    forall i: nat | i > bit - k ensures !Test(w, i) { TestUp(w, rest, i - rest); ZeroBit(i - rest); }
    assert !Test(w, j) || j <= bit - k;
  }

  lemma TopSet(w: nat, bit: int, k: nat)
    requires k <= bit + 1 && Up(w, bit + 1 - k) != 0 && forall j: nat | j > bit :: !Test(w, j)
    ensures exists j: nat | bit - k < j <= bit :: Test(w, j)
  {
    var i := SomeBit(Up(w, bit + 1 - k));
    TestUp(w, bit + 1 - k, i);
    assert Test(w, bit + 1 - k + i);
  }

  /** fls32 */
  method Fls32(w: nat) returns (bit: int)
    requires w < Pow2(32)
    ensures w == 0 ==> bit == -1
    ensures w != 0 ==> 0 <= bit < 32 && Highest(w, bit)
  {
    if w == 0 { return -1; }
    FirstBit(w, 32);
    var val := w;
    val, bit := FlsStep(w, val, 31, 32, 16);
    val, bit := FlsStep(w, val, bit, 32, 8);
    val, bit := FlsStep(w, val, bit, 32, 4);
    val, bit := FlsStep(w, val, bit, 32, 2);
    val, bit := FlsStep(w, val, bit, 32, 1);
  }

  /** fls64 */
  method Fls64(w: nat) returns (bit: int)
    requires w < Pow2(64)
    ensures w == 0 ==> bit == -1
    ensures w != 0 ==> 0 <= bit < 64 && Highest(w, bit)
  {
    if w == 0 { return -1; }
    FirstBit(w, 64);
    var val := w;
    val, bit := FlsStep(w, val, 63, 64, 32);
    val, bit := FlsStep(w, val, bit, 64, 16);
    val, bit := FlsStep(w, val, bit, 64, 8);
    val, bit := FlsStep(w, val, bit, 64, 4);
    val, bit := FlsStep(w, val, bit, 64, 2);
    val, bit := FlsStep(w, val, bit, 64, 1);
  }
}
