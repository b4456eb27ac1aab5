/** Sets of 256 priorities as four 64-bit words (include/lib/dsa/bmp256.h). */
module Bmp256 {
  import opened Bits

  const WORDS: nat := 4
  const SIZE: nat := 256

  type Bmp = seq<nat>

  ghost predicate Wf(b: Bmp) {
    |b| == WORDS && forall k | 0 <= k < WORDS :: b[k] < Pow2(64)
  }

  /** bmp256_test */
  predicate Bit(b: Bmp, i: nat)
    requires |b| == WORDS && i < SIZE
  {
    Test(b[i / 64], i % 64)
  }

  /** bmp256_set */
  function SetAt(b: Bmp, i: nat): Bmp
    requires |b| == WORDS && i < SIZE
  {
    b[i / 64 := Set(b[i / 64], i % 64)]
  }

  /** bmp256_unset */
  function UnsetAt(b: Bmp, i: nat): Bmp
    requires |b| == WORDS && i < SIZE
  {
    b[i / 64 := Clear(b[i / 64], i % 64)]
  }

  /** bmp256_and */
  function AndWith(b: Bmp, c: Bmp): Bmp
    requires |b| == WORDS && |c| == WORDS
  {
    [And(b[0], c[0]), And(b[1], c[1]), And(b[2], c[2]), And(b[3], c[3])]
  }

  /** bmp256_unset_all_above */
  function UnsetAbove(b: Bmp, i: nat): Bmp
    requires |b| == WORDS && i < SIZE
  {
    var index, off := i / 64, i % 64;
    var cut := b[index := if off == 63 then b[index] else Low(b[index], off + 1)];
    var cut := if index < 3 then cut[3 := 0] else cut;
    var cut := if index < 2 then cut[2 := 0] else cut;
    if index < 1 then cut[1 := 0] else cut
  }

  /** bmp256_set_all */
  function Full(): Bmp { seq(WORDS, _ => Pow2(64) - 1) }

  /** bmp256_unset_all */
  function Empty(): Bmp { seq(WORDS, _ => 0) }

  // ---------------------------------------------------------------------------
  // Words
  // ---------------------------------------------------------------------------

  lemma NoBitsAbove(w: nat, n: nat, j: nat)
    requires w < Pow2(n) && j >= n
    ensures !Test(w, j)
  {
    UpBelow(w, n);
    TestUp(w, n, j - n);
    ZeroBit(j - n);
  }

  /** A word whose bits come from a word of n bits, with perhaps one more below n, has n bits. */
  lemma StillFits(w: nat, v: nat, n: nat, i: nat)
    requires w < Pow2(n) && i < n && forall j: nat :: Test(v, j) ==> Test(w, j) || j == i
    ensures v < Pow2(n)
  {
    forall j: nat | Test(v, j) ensures j < n {
      if j >= n { NoBitsAbove(w, n, j); }
    }
    Bounded(v, n);
  }

  lemma {:induction false} Ones(n: nat, j: nat)
    ensures Test(Pow2(n) - 1, j) <==> j < n
    decreases n
  {
    if n == 0 {
      ZeroBit(j);
    } else {
      assert (Pow2(n) - 1) / 2 == Pow2(n - 1) - 1;
      if j > 0 { Ones(n - 1, j - 1); }
    }
  }

  // ---------------------------------------------------------------------------
  // Operations
  // ---------------------------------------------------------------------------

  lemma SetAtBits(b: Bmp, i: nat)
    requires Wf(b) && i < SIZE
    ensures Wf(SetAt(b, i))
    ensures forall j: nat | j < SIZE :: Bit(SetAt(b, i), j) <==> j == i || Bit(b, j)
  {
    var w, o := b[i / 64], i % 64;
    forall j: nat ensures Test(Set(w, o), j) <==> o == j || Test(w, j) { SetBit(w, o, j); }
    StillFits(w, Set(w, o), 64, o);
    forall j: nat | j < SIZE ensures Bit(SetAt(b, i), j) <==> j == i || Bit(b, j) { SameWord(i, j); }
  }

  lemma UnsetAtBits(b: Bmp, i: nat)
    requires Wf(b) && i < SIZE
    ensures Wf(UnsetAt(b, i))
    ensures forall j: nat | j < SIZE :: Bit(UnsetAt(b, i), j) <==> j != i && Bit(b, j)
  {
    var w, o := b[i / 64], i % 64;
    forall j: nat ensures Test(Clear(w, o), j) <==> o != j && Test(w, j) { ClearBit(w, o, j); }
    StillFits(w, Clear(w, o), 64, o);
    forall j: nat | j < SIZE ensures Bit(UnsetAt(b, i), j) <==> j != i && Bit(b, j) { SameWord(i, j); }
  }

  lemma SameWord(i: nat, j: nat)
    ensures i == j <==> i / 64 == j / 64 && i % 64 == j % 64
  {
  }

  lemma WordOrder(i: nat, j: nat)
    ensures j <= i <==> j / 64 < i / 64 || (j / 64 == i / 64 && j % 64 <= i % 64)
  {
  }

  lemma InWord(j: nat, k: nat)
    requires k * 64 <= j < k * 64 + 64
    ensures j / 64 == k && j % 64 == j - k * 64
  {
  }

  lemma AndBits(b: Bmp, c: Bmp)
    requires Wf(b) && Wf(c)
    ensures Wf(AndWith(b, c))
    ensures forall j: nat | j < SIZE :: Bit(AndWith(b, c), j) <==> Bit(b, j) && Bit(c, j)
  {
    forall k, j: nat | 0 <= k < WORDS ensures Test(And(b[k], c[k]), j) <==> Test(b[k], j) && Test(c[k], j) {
      AndBit(b[k], c[k], j);
    }
    forall k | 0 <= k < WORDS ensures And(b[k], c[k]) < Pow2(64) { StillFits(b[k], And(b[k], c[k]), 64, 0); }
    forall j: nat | j < SIZE ensures Bit(AndWith(b, c), j) <==> Bit(b, j) && Bit(c, j) {
      assert AndWith(b, c)[j / 64] == And(b[j / 64], c[j / 64]);
    }
  }

  lemma UnsetAboveWord(b: Bmp, i: nat, k: nat)
    requires |b| == WORDS && i < SIZE && k < WORDS
    ensures UnsetAbove(b, i)[k] ==
      if k < i / 64 then b[k]
      else if k > i / 64 then 0
      else if i % 64 == 63 then b[k] else Low(b[k], i % 64 + 1)
  {
  }

  lemma UnsetAboveBit(b: Bmp, i: nat, j: nat)
    requires |b| == WORDS && i < SIZE && j < SIZE
    ensures Bit(UnsetAbove(b, i), j) <==> j <= i && Bit(b, j)
  {
    UnsetAboveWord(b, i, j / 64);
    WordOrder(i, j);
    ZeroBit(j % 64);
    LowBit(b[j / 64], i % 64 + 1, j % 64);
  }

  lemma UnsetAboveBits(b: Bmp, i: nat)
    requires Wf(b) && i < SIZE
    ensures Wf(UnsetAbove(b, i))
    ensures forall j: nat | j < SIZE :: Bit(UnsetAbove(b, i), j) <==> j <= i && Bit(b, j)
  {
    forall j: nat | j < SIZE ensures Bit(UnsetAbove(b, i), j) <==> j <= i && Bit(b, j) { UnsetAboveBit(b, i, j); }
    forall k: nat | k < WORDS ensures UnsetAbove(b, i)[k] < Pow2(64) {
      UnsetAboveWord(b, i, k);
      LowFits(b[k], i % 64 + 1);
    }
  }

  lemma LowFits(w: nat, k: nat)
    requires w < Pow2(64)
    ensures Low(w, k) < Pow2(64)
  {
    forall j: nat ensures Test(Low(w, k), j) ==> Test(w, j) { LowBit(w, k, j); }
    StillFits(w, Low(w, k), 64, 0);
  }

  lemma FullBits()
    ensures Wf(Full()) && forall j: nat | j < SIZE :: Bit(Full(), j)
  {
    forall j: nat | j < SIZE ensures Bit(Full(), j) { Ones(64, j % 64); }
  }

  lemma EmptyBits()
    ensures Wf(Empty()) && forall j: nat | j < SIZE :: !Bit(Empty(), j)
  {
    forall j: nat | j < SIZE ensures !Bit(Empty(), j) { ZeroBit(j % 64); }
  }

  /** bmp256_fls: the highest member, or -1 for the empty set. */
  method Fls(b: Bmp) returns (r: int)
    requires Wf(b)
    ensures -1 <= r < SIZE
    ensures r >= 0 ==> Bit(b, r)
    ensures forall j: nat | r < j < SIZE :: !Bit(b, j)
  {
    r := FlsWord(b, 3);
    if r != -1 { return; }
    r := FlsWord(b, 2);
    if r != -1 { return; }
    r := FlsWord(b, 1);
    if r != -1 { return; }
    r := FlsWord(b, 0);
  }

  /** The highest member in word k, or -1. */
  method FlsWord(b: Bmp, k: nat) returns (r: int)
    requires Wf(b) && k < WORDS
    ensures r == -1 || k * 64 <= r < k * 64 + 64
    ensures r >= 0 ==> Bit(b, r)
    ensures forall j: nat | k * 64 <= j < k * 64 + 64 && j > r :: !Bit(b, j)
  {
    var bit := Fls64(b[k]);
    if bit == -1 {
      r := -1;
      forall j: nat | k * 64 <= j < k * 64 + 64 ensures !Bit(b, j) { InWord(j, k); ZeroBit(j % 64); }
    } else {
      r := bit + k * 64;
      InWord(r, k);
      forall j: nat | r < j < k * 64 + 64 ensures !Bit(b, j) { InWord(j, k); }
    }
  }
}
