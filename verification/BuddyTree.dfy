/** The block tree behind the buddy allocator, as a set of blocks.

    Block (o, i) covers the pages p with p >> o == i.  The chain of a page is the sequence of blocks
    (0, p), (1, p >> 1), (2, p >> 2), ...; a set of blocks partitions the arena when every page of it
    meets the set in exactly one block of its chain. */
module BuddyTree {
  import opened Bits

  datatype Block = Block(order: nat, idx: nat)

  function Buddy(i: nat): nat { if i % 2 == 0 then i + 1 else i - 1 }

  lemma BuddyTwice(i: nat)
    ensures Buddy(Buddy(i)) == i && Buddy(i) != i && Buddy(i) / 2 == i / 2
  {
  }

  // ---------------------------------------------------------------------------
  // Partitions
  // ---------------------------------------------------------------------------

  function Chain(p: nat, d: nat): Block { Block(d, Up(p, d)) }

  ghost predicate Meets(m: set<Block>, p: nat, d: nat) { Chain(p, d) in m }

  /** Page p lies in exactly one block of m. */
  ghost predicate OnceCovered(m: set<Block>, p: nat) {
    && (exists d: nat :: Meets(m, p, d))
    && (forall d: nat, e: nat :: Meets(m, p, d) && Meets(m, p, e) ==> d == e)
  }

  /** The blocks of m tile the pages 0..Pow2(top), and nothing beyond them. */
  ghost predicate Partition(m: set<Block>, top: nat) {
    && (forall p: nat :: p < Pow2(top) ==> OnceCovered(m, p))
    && (forall b :: b in m ==> b.order <= top && b.idx < Pow2(top - b.order))
  }

  lemma MeetsSplit(p: nat, b: Block)
    requires b.order > 0
    ensures Chain(p, b.order) == b <==> Chain(p, b.order - 1) in {Left(b), Right(b)}
  {
    UpStep(p, b.order - 1);
  }

  function Left(b: Block): Block
    requires b.order > 0
  {
    Block(b.order - 1, 2 * b.idx)
  }

  function Right(b: Block): Block
    requires b.order > 0
  {
    Block(b.order - 1, 2 * b.idx + 1)
  }

  /** Replacing a block by its two halves keeps a partition, and neither half was there before. */
  lemma SplitPartition(m: set<Block>, top: nat, b: Block)
    requires Partition(m, top) && b in m && b.order > 0
    ensures Left(b) !in m && Right(b) !in m
    ensures Partition(m - {b} + {Left(b), Right(b)}, top)
  {
    var m' := m - {b} + {Left(b), Right(b)};
    HalfNotThere(m, top, b, Left(b));
    HalfNotThere(m, top, b, Right(b));
    forall p: nat | p < Pow2(top) ensures OnceCovered(m', p) { SplitPage(m, b, p); }
    assert Pow2(top - (b.order - 1)) == 2 * Pow2(top - b.order);
  }

  lemma HalfNotThere(m: set<Block>, top: nat, b: Block, h: Block)
    requires Partition(m, top) && b in m && b.order > 0 && (h == Left(b) || h == Right(b))
    ensures h !in m
  {
    var p := FirstPage(h);
    assert Pow2(top - h.order) == 2 * Pow2(top - b.order);
    FirstPageInside(h, top);
    UpOfFirst(h.idx, h.order);
    MeetsSplit(p, b);
    assert OnceCovered(m, p);
    assert Chain(p, h.order) == h && Chain(p, b.order) == b;
    assert Meets(m, p, b.order);
    assert h in m ==> Meets(m, p, h.order);
  }

  function FirstPage(b: Block): nat { b.idx * Pow2(b.order) }

  lemma FirstPageInside(b: Block, top: nat)
    requires b.order <= top && b.idx < Pow2(top - b.order)
    ensures FirstPage(b) < Pow2(top)
  {
    Pow2Add(top - b.order, b.order);
    MulLess(b.idx, Pow2(top - b.order), Pow2(b.order));
  }

  lemma MulLess(a: nat, b: nat, c: nat)
    requires a < b && c > 0
    ensures a * c < b * c
  {
  }

  lemma SplitPage(m: set<Block>, b: Block, p: nat)
    requires OnceCovered(m, p) && b in m && b.order > 0
    ensures OnceCovered(m - {b} + {Left(b), Right(b)}, p)
  {
    var m' := m - {b} + {Left(b), Right(b)};
    MeetsSplit(p, b);
    var d: nat :| Meets(m, p, d);
    if Chain(p, b.order) == b {
      assert Meets(m, p, b.order);
      assert Meets(m', p, b.order - 1);
      forall e: nat | Meets(m', p, e) ensures e == b.order - 1 {
        if Chain(p, e) in m { assert Meets(m, p, e); }
      }
    } else {
      assert Meets(m', p, d);
      forall e: nat | Meets(m', p, e) ensures Meets(m, p, e) {
        assert Chain(p, e) in m;
      }
    }
  }

  /** Replacing two buddies by their parent keeps a partition. */
  lemma MergePartition(m: set<Block>, top: nat, b: Block)
    requires Partition(m, top) && b.order > 0 && Left(b) in m && Right(b) in m
    ensures b !in m
    ensures Partition(m - {Left(b), Right(b)} + {b}, top)
  {
    var m' := m - {Left(b), Right(b)} + {b};
    var p := FirstPage(Left(b));
    FirstPageInside(Left(b), top);
    UpOfFirst(Left(b).idx, b.order - 1);
    MeetsSplit(p, b);
    assert OnceCovered(m, p);
    assert Meets(m, p, b.order - 1);
    assert b in m ==> Meets(m, p, b.order);
    MergeInside(m, top, b);
    forall p: nat | p < Pow2(top) ensures OnceCovered(m', p) { MergePage(m, b, p); }
  }

  lemma MergeInside(m: set<Block>, top: nat, b: Block)
    requires Partition(m, top) && b.order > 0 && Left(b) in m && Right(b) in m
    ensures b.order <= top && b.idx < Pow2(top - b.order)
  {
    assert Right(b).idx < Pow2(top - (b.order - 1));
    assert b.order - 1 < top;
  }

  lemma MergePage(m: set<Block>, b: Block, p: nat)
    requires OnceCovered(m, p) && b.order > 0 && Left(b) in m && Right(b) in m
    ensures OnceCovered(m - {Left(b), Right(b)} + {b}, p)
  {
    var m' := m - {Left(b), Right(b)} + {b};
    MeetsSplit(p, b);
    var d: nat :| Meets(m, p, d);
    if Chain(p, b.order) == b {
      assert Meets(m, p, b.order - 1);
      assert Meets(m', p, b.order);
      forall e: nat | Meets(m', p, e) ensures e == b.order {
        if Chain(p, e) in m { assert Meets(m, p, e); }
      }
    } else {
      assert Chain(p, d) != Left(b) && Chain(p, d) != Right(b);
      assert Meets(m', p, d);
      forall e: nat | Meets(m', p, e) ensures Meets(m, p, e) {
        assert Chain(p, e) in m;
      }
    }
  }

  // ---------------------------------------------------------------------------
  // Coalesced free sets and completeness
  // ---------------------------------------------------------------------------

  /** No two buddies are both free. */
  ghost predicate Coalesced(free: set<Block>, numOrders: nat) {
    forall b {:trigger Alone(free, b)} :: b in free && b.order + 1 < numOrders ==> Alone(free, b)
  }

  predicate Alone(free: set<Block>, b: Block) { Block(b.order, Buddy(b.idx)) !in free }

  lemma FewerCoalesced(free: set<Block>, fewer: set<Block>, numOrders: nat)
    requires Coalesced(free, numOrders) && fewer <= free
    ensures Coalesced(fewer, numOrders)
  {
    forall b | b in fewer && b.order + 1 < numOrders ensures Alone(fewer, b) { assert Alone(free, b); }
  }

  lemma MoreCoalesced(free: set<Block>, b: Block, numOrders: nat)
    requires Coalesced(free, numOrders) && (b.order + 1 < numOrders ==> Alone(free, b))
    ensures Coalesced(free + {b}, numOrders)
  {
    BuddyTwice(b.idx);
    forall c | c in free + {b} && c.order + 1 < numOrders ensures Alone(free + {b}, c) {
      assert Alone(free, c);
      BuddyTwice(c.idx);
    }
  }

  /** No page of block b is covered by a block of `live`. */
  ghost predicate Unallocated(live: set<Block>, b: Block) {
    forall p: nat, d: nat :: Chain(p, b.order) == b ==> !Meets(live, p, d)
  }

  /** A run of unallocated pages that is aligned to its own size lies inside one free block of at least
      that size. */
  lemma {:induction false} RunIsFree(free: set<Block>, live: set<Block>, top: nat, numOrders: nat, b: Block)
      returns (d: nat)
    requires Partition(free + live, top) && Coalesced(free, numOrders) && top < numOrders
    requires b.order <= top && b.idx < Pow2(top - b.order) && Unallocated(live, b)
    ensures Block(b.order + d, Up(b.idx, d)) in free
    decreases b.order
  {
    if b.order == 0 {
      assert OnceCovered(free + live, b.idx);
      d :| Meets(free + live, b.idx, d);
      assert Chain(b.idx, 0) == b && !Meets(live, b.idx, d);
    } else {
      assert Pow2(top - (b.order - 1)) == 2 * Pow2(top - b.order);
      HalfUnallocated(live, b);
      var dl := RunIsFree(free, live, top, numOrders, Left(b));
      var dr := RunIsFree(free, live, top, numOrders, Right(b));
      d := JoinHalves(free, numOrders, b, dl, dr);
    }
  }

  /** The free blocks around both halves of b cannot be the halves themselves, so one is around b. */
  lemma JoinHalves(free: set<Block>, numOrders: nat, b: Block, dl: nat, dr: nat) returns (d: nat)
    requires Coalesced(free, numOrders) && 0 < b.order < numOrders
    requires Block(b.order - 1 + dl, Up(2 * b.idx, dl)) in free && Block(b.order - 1 + dr, Up(2 * b.idx + 1, dr)) in free
    ensures Block(b.order + d, Up(b.idx, d)) in free
  {
    assert Buddy(Left(b).idx) == Right(b).idx && (Left(b) in free ==> Alone(free, Left(b)));
    assert Left(b) !in free || Right(b) !in free;
    if dl > 0 {
      d := dl - 1;
      assert 2 * b.idx / 2 == b.idx;
    } else {
      d := dr - 1;
      assert (2 * b.idx + 1) / 2 == b.idx;
    }
  }

  lemma HalfUnallocated(live: set<Block>, b: Block)
    requires b.order > 0 && Unallocated(live, b)
    ensures Unallocated(live, Left(b)) && Unallocated(live, Right(b))
  {
    forall p: nat, d: nat | Chain(p, b.order - 1) == Left(b) || Chain(p, b.order - 1) == Right(b)
      ensures !Meets(live, p, d)
    {
      MeetsSplit(p, b);
    }
  }

  /** A free block contains an unallocated aligned run of every smaller order. */
  lemma FreeIsRun(free: set<Block>, live: set<Block>, top: nat, b: Block, o: nat) returns (r: Block)
    requires Partition(free + live, top) && free !! live && b in free && o <= b.order
    ensures r.order == o && r.idx < Pow2(top - o) && Up(r.idx, b.order - o) == b.idx && Unallocated(live, r)
  {
    r := Block(o, b.idx * Pow2(b.order - o));
    UpOfFirst(b.idx, b.order - o);
    Pow2Add(top - b.order, b.order - o);
    MulLess(b.idx, Pow2(top - b.order), Pow2(b.order - o));
    forall p: nat, d: nat | Chain(p, o) == r ensures !Meets(live, p, d) {
      UpUp(p, o, b.order - o);
      PageOfBlock(p, b, top);
      assert OnceCovered(free + live, p);
      assert Meets(free + live, p, b.order);
      assert Meets(live, p, d) ==> Meets(free + live, p, d);
    }
  }

  lemma PageOfBlock(p: nat, b: Block, top: nat)
    requires Chain(p, b.order) == b && b.order <= top && b.idx < Pow2(top - b.order)
    ensures p < Pow2(top)
  {
    UpInverse(p, b.order, top - b.order);
  }

  lemma {:induction false} UpInverse(p: nat, d: nat, n: nat)
    requires Up(p, d) < Pow2(n)
    ensures p < Pow2(n + d)
    decreases d
  {
    if d > 0 { UpInverse(p / 2, d - 1, n); }
  }

  // ---------------------------------------------------------------------------
  // Splitting down and merging up, on free sets
  // ---------------------------------------------------------------------------

  /** The free set after block (a, j) has been split down to order o; the block left over is
      (o, SplitIdx(a, j, o)). */
  function SplitDown(free: set<Block>, a: nat, j: nat, o: nat): set<Block>
    requires o <= a
    decreases a
  {
    if a == o then free else SplitDown(free + {Block(a - 1, 2 * j + 1)}, a - 1, 2 * j, o)
  }

  function SplitIdx(a: nat, j: nat, o: nat): nat
    requires o <= a
    decreases a
  {
    if a == o then j else SplitIdx(a - 1, 2 * j, o)
  }

  /** The free set after block (o, i) has been given back and merged with its free buddies. */
  function MergeUp(free: set<Block>, o: nat, i: nat, numOrders: nat): set<Block>
    decreases numOrders - o
  {
    if o + 1 < numOrders && Block(o, Buddy(i)) in free
    then MergeUp(free - {Block(o, i), Block(o, Buddy(i))}, o + 1, i / 2, numOrders)
    else free + {Block(o, i)}
  }

  /** Nothing below block (a, j) is free. */
  ghost predicate NoneBelow(free: set<Block>, a: nat, j: nat) {
    forall b :: b in free && b.order < a ==> Up(b.idx, a - b.order) != j
  }

  /** Freeing what was just split off merges all the way back. */
  lemma {:induction false} MergeUndoesSplit(free: set<Block>, a: nat, j: nat, o: nat, numOrders: nat)
    requires o <= a < numOrders && NoneBelow(free, a, j)
    ensures MergeUp(SplitDown(free, a, j, o), o, SplitIdx(a, j, o), numOrders) == MergeUp(free, a, j, numOrders)
    decreases a
  {
    if a > o {
      var f1 := free + {Block(a - 1, 2 * j + 1)};
      forall b | b in f1 && b.order < a - 1 ensures Up(b.idx, a - 1 - b.order) != 2 * j {
        UpStep(b.idx, a - 1 - b.order);
      }
      MergeUndoesSplit(f1, a - 1, 2 * j, o, numOrders);
      assert Up(2 * j, 1) == j && Up(2 * j + 1, 1) == j by {
        UpStep(2 * j, 0); UpStep(2 * j + 1, 0);
      }
      assert Block(a - 1, 2 * j) !in free && Block(a - 1, 2 * j + 1) !in free;
      assert f1 - {Block(a - 1, 2 * j), Block(a - 1, Buddy(2 * j))} == free;
    }
  }

  /** Exact round trip on the free set: taking a free block, splitting it and freeing the piece gives
      back the very same set. */
  lemma RoundTrip(free: set<Block>, live: set<Block>, top: nat, numOrders: nat, b: Block, o: nat)
    requires Partition(free + live, top) && Coalesced(free, numOrders) && top < numOrders
    requires b in free && o <= b.order
    ensures MergeUp(SplitDown(free - {b}, b.order, b.idx, o), o, SplitIdx(b.order, b.idx, o), numOrders) == free
  {
    forall c | c in free - {b} && c.order < b.order ensures Up(c.idx, b.order - c.order) != b.idx {
      var p := FirstPage(c);
      FirstPageInside(c, top);
      UpOfFirst(c.idx, c.order);
      UpUp(p, c.order, b.order - c.order);
      assert OnceCovered(free + live, p);
      assert Meets(free + live, p, c.order);
      assert Chain(p, b.order) == b ==> Meets(free + live, p, b.order);
    }
    assert b.order + 1 < numOrders ==> Alone(free, b);
    MergeUndoesSplit(free - {b}, b.order, b.idx, o, numOrders);
    assert free - {b} + {b} == free;
  }

  /** Some aligned run of Pow2(o) pages of the arena is unallocated. */
  ghost predicate RunAvailable(live: set<Block>, top: nat, o: nat) {
    o <= top && exists r: Block :: r.order == o && r.idx < Pow2(top - o) && Unallocated(live, r)
  }

  /** Completeness: a free block of order o or more exists exactly when an aligned run of that size is
      unallocated, so failing for want of a free block is never due to fragmentation among free blocks. */
  lemma Completeness(free: set<Block>, live: set<Block>, top: nat, numOrders: nat, o: nat)
    requires Partition(free + live, top) && free !! live && Coalesced(free, numOrders) && top < numOrders
    ensures (exists b :: b in free && b.order >= o) <==> RunAvailable(live, top, o)
  {
    if b :| b in free && b.order >= o {
      var r := FreeIsRun(free, live, top, b, o);
    }
    if RunAvailable(live, top, o) {
      var r: Block :| r.order == o && r.idx < Pow2(top - o) && Unallocated(live, r);
      var d := RunIsFree(free, live, top, numOrders, r);
      assert Block(o + d, Up(r.idx, d)) in free;
    }
  }
}
