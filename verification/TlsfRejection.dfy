/** A request that the two-level segregated-fit heap refuses although a block that is large enough is free:
    the state is reached by the heap's own operations. */
module TlsfRejection {
  import opened TlsfClasses
  import opened TlsfBlocks
  import TlsfHeap
  import opened Bits

  /** The heap after one, two and three operations: everything free; a block of small bytes given out; a
      second, of BLOCK_MIN bytes, behind it; the first released again. */
  function Untouched(small: nat, big: nat): Memory {
    map[64 := Header(small + big + 80, true, false, 0)]
  }

  function OneGiven(small: nat, big: nat): Memory {
    map[64 := Header(small, false, false, 0), 96 + small := Header(big + 48, true, false, 64)]
  }

  function TwoGiven(small: nat, big: nat): Memory {
    map[64 := Header(small, false, false, 0),
        96 + small := Header(BLOCK_MIN, false, false, 64),
        144 + small := Header(big, true, false, 96 + small)]
  }

  function Blocked(small: nat, big: nat): Memory {
    map[64 := Header(small, true, false, 0),
        96 + small := Header(BLOCK_MIN, false, true, 64),
        144 + small := Header(big, true, false, 96 + small)]
  }

  function End(small: nat, big: nat): nat { 176 + small + big }

  lemma FirstTaken(small: nat, big: nat)
    ensures TlsfHeap.Taken(Untouched(small, big), End(small, big), 64, small) == OneGiven(small, big)
  {
  }

  lemma SecondTaken(small: nat, big: nat)
    requires big >= BLOCK_MIN
    ensures TlsfHeap.Taken(OneGiven(small, big), End(small, big), 96 + small, BLOCK_MIN) == TwoGiven(small, big)
  {
  }

  lemma FirstReleased(small: nat, big: nat)
    ensures TlsfHeap.Freed(TwoGiven(small, big), End(small, big), 64) == Blocked(small, big)
  {
  }

  /** The only free block of a heap serves every request that it is large enough for. */
  lemma OnlyFree(h: TlsfHeap.Heap, a: nat, size: nat)
    requires h.Valid() && a in h.mem && h.mem[a].free && h.mem[a].size >= size
    requires forall x | x in h.mem && h.mem[x].free :: x == a
    ensures h.HasRoom(size) && !h.OwnHeadTooSmall(size)
  {
    var c := ClassOf(size);
    if c in h.bins.lists && h.bins.lists[c] != [] {
      var first := h.bins.lists[c][0];
      assert first in h.bins.lists[c];
      assert TlsfHeap.Member(h.mem, {}, c, first);
    }
  }

  /** A block of the request's own class that is smaller than it comes first there. */
  lemma SmallFirst(h: TlsfHeap.Heap, size: nat, small: nat, big: nat)
    requires h.Valid() && h.mem == Blocked(small, big) && small < size <= big
    requires ClassOf(small) == ClassOf(size) != ClassOf(big)
    ensures h.HasRoom(size) && h.OwnHeadTooSmall(size)
  {
    var c := ClassOf(size);
    ClassInRange(size);
    assert TlsfHeap.InList(h.mem, h.bins.lists, {}, 64);
    var first := h.bins.lists[c][0];
    assert first in h.bins.lists[c];
    assert TlsfHeap.Member(h.mem, {}, c, first);
    assert 144 + small in h.mem && h.mem[144 + small].size >= size;
  }

  /** __tlsf_init, two allocations, one release, and a third allocation that fails although a free block
      holds the request.  It does so for every request whose class also holds a smaller size. */
  method RejectedDespiteRoom(request: nat, small: nat, big: nat) returns (h: TlsfHeap.Heap, p: nat)
    requires 0 < request <= MAX_ALLOC && Multiple(small, 8) && BLOCK_MIN <= small < TlsfHeap.Padded(request) <= big
    requires big % 4 == 0 && small + big < 0xFFFF_0000
    requires ClassOf(small) == ClassOf(TlsfHeap.Padded(request)) != ClassOf(big)
    ensures fresh(h) && h.Valid() && h.HasRoom(TlsfHeap.Padded(request)) && p == 0
    ensures h.mem == Blocked(small, big)
  {
    TlsfHeap.PaddedBounds(request);
    h := Prepare(small, big);
    p := Refused(h, request, TlsfHeap.Padded(request), small, big);
  }

  method Refused(h: TlsfHeap.Heap, request: nat, size: nat, small: nat, big: nat) returns (p: nat)
    requires h.Valid() && h.mem == Blocked(small, big) && small < size <= big && 0 < request <= MAX_ALLOC
    requires size == TlsfHeap.Padded(request) && ClassOf(small) == ClassOf(size) != ClassOf(big)
    modifies h`mem, h.bins
    ensures h.Valid() && h.mem == old(h.mem) && h.HasRoom(size) && p == 0
  {
    SmallFirst(h, size, small, big);
    p := h.Alloc(request, false);
  }

  /** An allocation from the only free block of a heap. */
  method GiveOnly(h: TlsfHeap.Heap, a: nat, size: nat) returns (p: nat)
    requires h.Valid() && a in h.mem && h.mem[a].free && h.mem[a].size >= size
    requires forall x | x in h.mem && h.mem[x].free :: x == a
    requires Multiple(size, 8) && BLOCK_MIN <= size <= MAX_ALLOC
    modifies h`mem, h.bins
    ensures h.Valid() && p == a + HEADER && h.mem == TlsfHeap.Taken(old(h.mem), h.hi, a, size)
  {
    OnlyFree(h, a, size);
    SmallIsPadded(size);
    p := h.Alloc(size, false);
  }

  method Start(small: nat, big: nat) returns (h: TlsfHeap.Heap)
    requires BLOCK_MIN <= small && BLOCK_MIN <= big && small % 4 == 0 && big % 4 == 0 && small + big < 0xFFFF_0000
    ensures fresh(h) && fresh(h.bins) && h.Valid() && h.mem == Untouched(small, big) && h.lo == 64 && h.hi == End(small, big)
  {
    h := new TlsfHeap.Heap();
    var ok := h.Init(64, 112 + small + big, false);
    StartsAt(h.lo);
  }

  method Prepare(small: nat, big: nat) returns (h: TlsfHeap.Heap)
    requires Multiple(small, 8) && BLOCK_MIN <= small <= MAX_ALLOC && BLOCK_MIN <= big && big % 4 == 0
    requires small + big < 0xFFFF_0000
    ensures fresh(h) && fresh(h.bins) && h.Valid() && h.mem == Blocked(small, big)
  {
    MultipleByFour(small);
    h := Start(small, big);
    FirstTaken(small, big);
    var first := GiveOnly(h, 64, small);
    SecondTaken(small, big);
    MultipleMod(BLOCK_MIN);
    var second := GiveOnly(h, 96 + small, BLOCK_MIN);
    FirstReleased(small, big);
    h.FreeLive(first);
  }

  lemma StartsAt(lo: nat)
    requires 64 <= lo < 72 && Multiple(lo, 8)
    ensures lo == 64
  {
    MultipleMod(lo);
  }

  lemma SmallIsPadded(size: nat)
    requires Multiple(size, 8) && size >= BLOCK_MIN
    ensures TlsfHeap.Padded(size) == size
  {
    MultipleMod(size);
  }

  /** 528 bytes are refused beside a free block of 4096, for one of 520. */
  method Rejected528() returns (h: TlsfHeap.Heap, p: nat)
    ensures h.Valid() && h.HasRoom(528) && p == 0
  {
    SomeClasses();
    MultipleMod(520);
    MultipleMod(528);
    SmallIsPadded(528);
    h, p := RejectedDespiteRoom(528, 520, 4096);
  }

  lemma SomeClasses()
    ensures ClassOf(520) == ClassOf(528) == Class(9, 1) && ClassOf(4096) == Class(12, 0)
  {
    assert Pow2(4) == 16 && Pow2(7) == 128 && Pow2(9) == 512 && Pow2(12) == 4096;
    LogUnique(520, 9);
    LogUnique(528, 9);
    LogUnique(4096, 12);
    SlotCeiling(520, 9, 0);
    SlotCeiling(520, 9, 1);
    SlotCeiling(528, 9, 0);
    SlotCeiling(528, 9, 1);
    SlotCeiling(4096, 12, 0);
  }
}
