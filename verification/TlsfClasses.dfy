/** Size classes of the two-level segregated-fit allocator (__tlsf_map).

    Sizes below 32 have a class each.  A size of 32 or more belongs to the first-level class of its
    highest bit, divided into 32 second-level classes; a size between two of them goes to the upper
    one.  The class above the last first-level class is held down to it. */
module TlsfClasses {
  import opened Bits

  const FL_SHIFT: nat := 27
  const SL_SHIFT: nat := 5
  const SL_COUNT: nat := 32
  const FL_COUNT: nat := 28
  const MAX_ALLOC: nat := 0x800_0000

  /** The ceiling of the last class; larger sizes are held down. */
  const CLAMP: nat := 0xFC0_0000

  datatype Class = Class(fl: nat, sl: nat)

  predicate InRange(c: Class) { c.fl < FL_COUNT && c.sl < SL_COUNT }

  /** Classes 1 to 4 of the first level stay empty. */
  predicate Used(c: Class) { InRange(c) && (c.fl == 0 || c.fl >= SL_SHIFT) }

  /** Order of search. */
  predicate AtMost(c: Class, d: Class) { c.fl < d.fl || (c.fl == d.fl && c.sl <= d.sl) }

  /** The largest size a class stands for. */
  function Ceiling(c: Class): nat {
    if c.fl < SL_SHIFT then c.sl else (SL_COUNT + c.sl) * Pow2(c.fl - SL_SHIFT)
  }

  /** The position of the highest bit. */
  function Log(n: nat): (b: nat)
    requires n > 0
    ensures Pow2(b) <= n < 2 * Pow2(b)
  {
    if n == 1 then 0 else 1 + Log(n / 2)
  }

  lemma PowOrder(a: nat, b: nat)
    ensures a <= b ==> Pow2(a) <= Pow2(b)
  {
    if a <= b { Pow2Mono(a, b); }
  }

  lemma {:induction false} LogUnique(n: nat, b: nat)
    requires Pow2(b) <= n < 2 * Pow2(b)
    ensures Log(n) == b
  {
    PowOrder(Log(n) + 1, b);
    PowOrder(b + 1, Log(n));
  }

  /** The second-level position of a size in the first-level class l, rounded up. */
  function Slot(size: nat, l: nat): nat
    requires l >= SL_SHIFT && size >= Pow2(l)
  {
    SlotBounds(size, l);
    Up(size, l - SL_SHIFT) - SL_COUNT + if Low(size, l - SL_SHIFT) != 0 then 1 else 0
  }

  lemma SlotBounds(size: nat, l: nat)
    requires l >= SL_SHIFT && size >= Pow2(l)
    ensures Up(size, l - SL_SHIFT) >= SL_COUNT
    ensures size < 2 * Pow2(l) ==> Up(size, l - SL_SHIFT) < 2 * SL_COUNT
  {
    var s := l - SL_SHIFT;
    UpLow(size, s);
    assert Pow2(5) == 32;
    Pow2Add(5, s);
    var u, p := Up(size, s), Pow2(s);
    CeilDiv(u, p, Low(size, s), 31);
    CeilDiv(u, p, Low(size, s), 63);
  }

  lemma {:induction false} UpLow(v: nat, d: nat)
    ensures v == Up(v, d) * Pow2(d) + Low(v, d) && Low(v, d) < Pow2(d)
    decreases d
  {
    if d > 0 {
      UpLow(v / 2, d - 1);
      assert Up(v, d) * Pow2(d) == 2 * (Up(v / 2, d - 1) * Pow2(d - 1));
    }
  }

  function ClassOf(size: nat): Class {
    if size < SL_COUNT then Class(0, size)
    else
      LogAtLeast(size, SL_SHIFT);
      Settle(Log(size), Slot(size, Log(size)))
  }

  /** A slot past the last goes on to the next first-level class, and the first level is held down. */
  function Settle(l: nat, slot: nat): Class {
    var fl := if slot >= SL_COUNT then l + 1 else l;
    Class(if fl > FL_SHIFT then FL_SHIFT else fl, if slot >= SL_COUNT then 0 else slot)
  }

  lemma {:induction false} LogAtLeast(n: nat, b: nat)
    requires n >= Pow2(b)
    ensures n > 0 && Log(n) >= b
  {
    PowOrder(Log(n) + 1, b);
  }

  lemma ClassInRange(size: nat)
    ensures Used(ClassOf(size))
  {
    if size >= SL_COUNT {
      assert Pow2(5) == 32;
      LogAtLeast(size, SL_SHIFT);
      SlotBounds(size, Log(size));
    }
  }

  /** Rounding a quotient up. */
  lemma CeilDiv(u: nat, p: nat, r: nat, k: nat)
    requires r < p
    ensures u * p + r <= k * p <==> u + (if r == 0 then 0 else 1) <= k
    ensures u * p + r < (k + 1) * p <==> u <= k
  {
    assert (u + 1) * p == u * p + p && (k + 1) * p == k * p + p;
    if u <= k { MulMono(u, k, p); } else { MulMono(k + 1, u, p); }
    if u + 1 <= k { MulMono(u + 1, k, p); }
  }

  /** Being at most the ceiling of a slot, in terms of the slot. */
  lemma SlotCeiling(size: nat, l: nat, sl: nat)
    requires l >= SL_SHIFT && Pow2(l) <= size < 2 * Pow2(l)
    ensures Slot(size, l) <= SL_COUNT
    ensures size <= (SL_COUNT + sl) * Pow2(l - SL_SHIFT) <==> Slot(size, l) <= sl
  {
    var s := l - SL_SHIFT;
    SlotBounds(size, l);
    UpLow(size, s);
    CeilDiv(Up(size, s), Pow2(s), Low(size, s), SL_COUNT + sl);
  }

  lemma MulMono(a: nat, b: nat, m: nat)
    requires a <= b
    ensures a * m <= b * m
  {
  }

  /** A size is at most the ceiling of exactly the classes from its own upwards: its class is the least
      that can stand for it. */
  lemma ClassIsLeast(size: nat, c: Class)
    requires size <= CLAMP && Used(c)
    ensures size <= Ceiling(c) <==> AtMost(ClassOf(size), c)
  {
    if size < SL_COUNT {
      SmallIsLeast(size, c);
    } else {
      NotClamped(size);
      LargeIsLeast(size, Log(size), c);
    }
  }

  lemma SmallIsLeast(size: nat, c: Class)
    requires size < SL_COUNT && Used(c)
    ensures size <= Ceiling(c) <==> AtMost(Class(0, size), c)
  {
    assert Pow2(5) == 32;
    if c.fl >= SL_SHIFT { CeilingBounds(c); Pow2Mono(SL_SHIFT, c.fl); }
  }

  lemma LargeIsLeast(size: nat, l: nat, c: Class)
    requires SL_SHIFT <= l <= FL_SHIFT && Pow2(l) <= size < 2 * Pow2(l) && SL_COUNT <= size
    requires l == FL_SHIFT ==> Slot(size, l) < SL_COUNT
    requires Used(c)
    ensures size <= Ceiling(c) <==> AtMost(Settle(l, Slot(size, l)), c)
  {
    SlotOf(size, l);
    SettleOrder(l, Slot(size, l), c);
    if c.fl >= SL_SHIFT {
      if c.fl == l { SameLevel(size, c); } else { OtherLevel(size, l, c); }
    }
  }

  lemma SameLevel(size: nat, c: Class)
    requires c.fl >= SL_SHIFT && Pow2(c.fl) <= size < 2 * Pow2(c.fl)
    ensures size <= Ceiling(c) <==> Slot(size, c.fl) <= c.sl
  {
    SlotCeiling(size, c.fl, c.sl);
  }

  lemma SettleOrder(l: nat, slot: nat, c: Class)
    requires l <= FL_SHIFT && slot <= SL_COUNT && (l == FL_SHIFT ==> slot < SL_COUNT) && InRange(c)
    ensures AtMost(Settle(l, slot), c) <==> c.fl > l || (c.fl == l && slot <= c.sl)
  {
  }

  lemma OtherLevel(size: nat, l: nat, c: Class)
    requires Used(c) && c.fl >= SL_SHIFT && c.fl != l && Pow2(l) <= size < 2 * Pow2(l)
    ensures size <= Ceiling(c) <==> c.fl > l
  {
    CeilingBounds(c);
    PowOrder(l + 1, c.fl);
    PowOrder(c.fl + 1, l);
  }

  lemma CeilingBounds(c: Class)
    requires Used(c) && c.fl >= SL_SHIFT
    ensures Pow2(c.fl) <= Ceiling(c) < 2 * Pow2(c.fl)
  {
    var p := Pow2(c.fl - SL_SHIFT);
    Pow2Add(5, c.fl - SL_SHIFT);
    assert Pow2(5) == 32;
    MulMono(32, 32 + c.sl, p);
    MulMono(32 + c.sl, 63, p);
  }

  lemma LogBelow(size: nat)
    requires SL_COUNT <= size < 2 * MAX_ALLOC
    ensures SL_SHIFT <= Log(size) <= FL_SHIFT
  {
    LogAtLeast(size, SL_SHIFT) by { assert Pow2(5) == 32; }
    PowOrder(28, Log(size));
    PowersUsed();
  }

  lemma LastSlot(size: nat)
    requires Pow2(FL_SHIFT) <= size < 2 * Pow2(FL_SHIFT) && size <= CLAMP
    ensures Slot(size, FL_SHIFT) < SL_COUNT
  {
    PowersUsed();
    SlotCeiling(size, FL_SHIFT, 31);
  }

  /** Up to the ceiling of the last class nothing is held down. */
  lemma NotClamped(size: nat)
    requires SL_COUNT <= size <= CLAMP
    ensures SL_SHIFT <= Log(size) <= FL_SHIFT
    ensures Log(size) == FL_SHIFT ==> Slot(size, FL_SHIFT) < SL_COUNT
  {
    LogBelow(size);
    if Log(size) == FL_SHIFT { LastSlot(size); }
  }

  lemma PowersUsed()
    ensures Pow2(22) == 0x40_0000 && Pow2(27) == MAX_ALLOC && Pow2(28) == 2 * MAX_ALLOC && Pow2(32) == 0x1_0000_0000
  {
    assert Pow2(10) == 1024;
    Pow2Add(10, 10);
    Pow2Add(20, 2);
    Pow2Add(22, 5);
    Pow2Add(22, 10);
    assert Pow2(2) == 4 && Pow2(5) == 32 && Pow2(28) == 2 * Pow2(27);
  }

  lemma OwnCeiling(size: nat)
    requires size <= CLAMP
    ensures size <= Ceiling(ClassOf(size))
  {
    ClassInRange(size);
    ClassIsLeast(size, ClassOf(size));
  }

  /** The map is monotone up to the ceiling of the last class. */
  lemma Monotone(a: nat, b: nat)
    requires a <= b <= CLAMP
    ensures AtMost(ClassOf(a), ClassOf(b))
  {
    ClassInRange(b);
    OwnCeiling(b);
    ClassIsLeast(a, ClassOf(b));
  }

  /** ... and not beyond: the next size is held down below it. */
  lemma HeldDown()
    ensures ClassOf(CLAMP) == Class(FL_SHIFT, SL_COUNT - 1) && ClassOf(CLAMP + 1) == Class(FL_SHIFT, 0)
  {
    PowersUsed();
    TopClass(CLAMP);
    TopClass(CLAMP + 1);
    SlotCeiling(CLAMP, FL_SHIFT, 30);
    SlotCeiling(CLAMP, FL_SHIFT, 31);
    SlotCeiling(CLAMP + 1, FL_SHIFT, 31);
  }

  lemma TopClass(size: nat)
    requires MAX_ALLOC <= size < 2 * MAX_ALLOC
    ensures Pow2(FL_SHIFT) <= size < 2 * Pow2(FL_SHIFT) && ClassOf(size) == Settle(FL_SHIFT, Slot(size, FL_SHIFT))
  {
    PowersUsed();
    LogUnique(size, FL_SHIFT);
  }

  /** The map is monotone on the sizes up to a bound if and only if the bound is at most the ceiling of the
      last class. */
  lemma MonotoneExactly(bound: nat)
    ensures (forall a: nat, b: nat | a <= b <= bound :: AtMost(ClassOf(a), ClassOf(b))) <==> bound <= CLAMP
  {
    if bound <= CLAMP {
      forall a: nat, b: nat | a <= b <= bound ensures AtMost(ClassOf(a), ClassOf(b)) { Monotone(a, b); }
    } else {
      HeldDown();
      assert !AtMost(ClassOf(CLAMP), ClassOf(CLAMP + 1));
    }
  }

  /** A size above the last ceiling lands in the last first-level class. */
  lemma Clamped(size: nat)
    requires size > CLAMP
    ensures ClassOf(size).fl == FL_SHIFT
  {
    PowersUsed();
    LogAtLeast(size, FL_SHIFT);
    SlotBounds(size, Log(size));
  }

  lemma LargestRequest()
    ensures Ceiling(Class(FL_SHIFT, 0)) == MAX_ALLOC
  {
    PowersUsed();
  }

  /** Every block of a class above the request's is larger than the request. */
  lemma HigherIsEnough(request: nat, size: nat)
    requires request <= MAX_ALLOC && !AtMost(ClassOf(size), ClassOf(request))
    ensures size > request
  {
    if size <= request { Monotone(size, request); }
  }

  /** A block that holds the request is in the request's class or above: a search from the request's
      class upwards passes over none of them. */
  lemma EnoughIsHigher(request: nat, size: nat)
    requires request <= MAX_ALLOC && request <= size
    ensures AtMost(ClassOf(request), ClassOf(size))
  {
    if size <= CLAMP {
      Monotone(request, size);
    } else {
      Clamped(size);
      LargestRequest();
      ClassIsLeast(request, Class(FL_SHIFT, 0));
    }
  }

  /** __tlsf_map */
  method Map(size: nat) returns (fli: nat, sli: nat)
    requires size < 0x1_0000_0000
    ensures Class(fli, sli) == ClassOf(size)
  {
    if size < SL_COUNT { return 0, size; }
    PowersUsed();
    var bit := Fls32(size);
    HighestUp(size, bit);
    HighestIsLog(size, bit);
    fli := bit;
    assert fli >= SL_SHIFT by { assert Pow2(5) == 32; LogAtLeast(size, SL_SHIFT); }
    sli := Up(size, fli - SL_SHIFT) % SL_COUNT;
    SlotOf(size, fli);
    if Low(size, fli - SL_SHIFT) != 0 {
      sli := sli + 1;
      if sli >= SL_COUNT {
        fli := fli + 1;
        sli := 0;
      }
    }
    if fli > FL_SHIFT { fli := FL_SHIFT; }
  }

  lemma SlotOf(size: nat, l: nat)
    requires l >= SL_SHIFT && Pow2(l) <= size < 2 * Pow2(l)
    ensures Slot(size, l) == Up(size, l - SL_SHIFT) % SL_COUNT + if Low(size, l - SL_SHIFT) != 0 then 1 else 0
    ensures Slot(size, l) <= SL_COUNT
  {
    SlotBounds(size, l);
    SlotCeiling(size, l, 0);
  }

  lemma {:induction false} HighestIsLog(n: nat, b: nat)
    requires Up(n, b) == 1
    ensures n > 0 && Log(n) == b
  {
    UpLow(n, b);
    LogUnique(n, b);
  }
}
