/** The buddy allocator of src/lib/buddy_alloc.c and include/lib/buddy_alloc.h, with its two bitmaps
    as arrays of bits and the number of orders as a parameter. */
module BuddyArena {
  import opened BuddyTree
  import opened Bits

  const PAGE_SHIFT := 21
  const PMA_NULL := 0

  class Arena {
    const numOrders: nat
    var base: nat
    const orders: array<bool>
    const blocks: array<bool>
    ghost var live: set<Block>     // allocated and not yet freed
    ghost var top: nat             // order of the arena

    ghost predicate Shape() {
      && numOrders > 0 && orders.Length == numOrders && blocks.Length == Pow2(numOrders) - 1
      && orders != blocks
    }

    function NumBlocks(order: nat): nat
      requires order < numOrders
    {
      Pow2(numOrders - 1 - order)
    }

    /** __buddy_block_bitmap_bit: level by level, the root first. */
    function TreeBit(order: nat, idx: nat): nat
      requires order < numOrders
    {
      Pow2(numOrders - 1 - order) - 1 + idx
    }

    predicate IsBlock(b: Block) { b.order < numOrders && b.idx < NumBlocks(b.order) }

    lemma TreeBitInRange(b: Block)
      requires Shape() && IsBlock(b)
      ensures TreeBit(b.order, b.idx) < blocks.Length
    {
      Pow2Mono(numOrders - 1 - b.order, numOrders - 1);
    }

    lemma TreeBitInjective(b: Block, c: Block)
      requires IsBlock(b) && IsBlock(c) && TreeBit(b.order, b.idx) == TreeBit(c.order, c.idx)
      ensures b == c
    {
      if b.order < c.order {
        Pow2Mono(numOrders - 1 - c.order + 1, numOrders - 1 - b.order);
      } else if c.order < b.order {
        Pow2Mono(numOrders - 1 - b.order + 1, numOrders - 1 - c.order);
      }
    }

    ghost predicate BitSet(bits: seq<bool>, b: Block) {
      IsBlock(b) && TreeBit(b.order, b.idx) < |bits| && bits[TreeBit(b.order, b.idx)]
    }

    /** The blocks whose bit is set. */
    ghost function FreeOf(bits: seq<bool>): set<Block> {
      set o: nat, i: nat | o < numOrders && i < Pow2(numOrders) && BitSet(bits, Block(o, i)) :: Block(o, i)
    }
  
    ghost function FreeSet(): set<Block>
      reads blocks
    {
      FreeOf(blocks[..])
    }

    lemma FreeOfMember(bits: seq<bool>, b: Block)
      requires |bits| == Pow2(numOrders) - 1
      ensures b in FreeOf(bits) <==> BitSet(bits, b)
    {
      if IsBlock(b) { Pow2Mono(numOrders - 1 - b.order, numOrders); }
    }

    /** Writing one tree bit changes the free set by exactly that block. */
    lemma FreeOfUpdate(bits: seq<bool>, b: Block, v: bool)
      requires Shape() && |bits| == blocks.Length && IsBlock(b) && TreeBit(b.order, b.idx) < |bits|
      ensures FreeOf(bits[TreeBit(b.order, b.idx) := v]) == if v then FreeOf(bits) + {b} else FreeOf(bits) - {b}
    {
      var bits' := bits[TreeBit(b.order, b.idx) := v];
      forall c ensures c in FreeOf(bits') <==> if c == b then v else c in FreeOf(bits) {
        FreeOfMember(bits, c);
        FreeOfMember(bits', c);
        if IsBlock(c) && TreeBit(c.order, c.idx) == TreeBit(b.order, b.idx) { TreeBitInjective(b, c); }
        if IsBlock(c) { TreeBitInRange(c); }
      }
    }

    ghost predicate AnyFree(bits: seq<bool>, order: nat) {
      exists b :: b in FreeOf(bits) && b.order == order
    }

    ghost predicate OrdersExact(flags: seq<bool>, bits: seq<bool>) {
      forall o :: 0 <= o < |flags| ==> (flags[o] <==> AnyFree(bits, o))
    }

    ghost predicate Tree()
      reads this, blocks
    {
      && Shape() && base != PMA_NULL && top < numOrders
      && FreeSet() !! live
      && Partition(FreeSet() + live, top)
      && Coalesced(FreeSet(), numOrders)
    }

    ghost predicate Valid()
      reads this, orders, blocks
    {
      Tree() && OrdersExact(orders[..], blocks[..])
    }

    // -------------------------------------------------------------------------
    // Bit operations
    // -------------------------------------------------------------------------

    method SetBlock(b: Block)
      requires Shape() && IsBlock(b)
      modifies blocks
      ensures FreeSet() == old(FreeSet()) + {b}
    {
      TreeBitInRange(b);
      FreeOfUpdate(blocks[..], b, true);
      ghost var was := blocks[..];
      blocks[TreeBit(b.order, b.idx)] := true;
      assert blocks[..] == was[TreeBit(b.order, b.idx) := true];
    }

    method ClearBlock(b: Block)
      requires Shape() && IsBlock(b)
      modifies blocks
      ensures FreeSet() == old(FreeSet()) - {b}
    {
      TreeBitInRange(b);
      FreeOfUpdate(blocks[..], b, false);
      ghost var was := blocks[..];
      blocks[TreeBit(b.order, b.idx)] := false;
      assert blocks[..] == was[TreeBit(b.order, b.idx) := false];
    }

    method IsBlockFree(b: Block) returns (r: bool)
      requires Shape() && IsBlock(b)
      ensures r <==> b in FreeSet()
    {
      TreeBitInRange(b);
      FreeOfMember(blocks[..], b);
      r := blocks[TreeBit(b.order, b.idx)];
    }

    /** __buddy_find_block_at_order: the lowest free block of the order, -1 without one. */
    method FindBlockAtOrder(order: nat) returns (r: int)
      requires Shape() && order < numOrders
      ensures !orders[order] ==> r == -1
      ensures r == -1 || (0 <= r && Block(order, r) in FreeSet())
      ensures r != -1 ==> forall b :: b in FreeSet() && b.order == order ==> r <= b.idx
      ensures r == -1 && orders[order] ==> !AnyFree(blocks[..], order)
    {
      if !orders[order] { return -1; }
      var i := 0;
      while i < NumBlocks(order)
        invariant i <= NumBlocks(order)
        invariant forall b :: b in FreeSet() && b.order == order ==> i <= b.idx
      {
        var f := IsBlockFree(Block(order, i));
        if f { return i; }
        i := i + 1;
      }
      forall b | b in FreeSet() ensures b.order != order {
        FreeOfMember(blocks[..], b);
      }
      return -1;
    }

    /** __buddy_update_order_bitmap: clears the order's bit when no block of it is left. */
    method UpdateOrder(order: nat)
      requires Shape() && order < numOrders
      modifies orders
      ensures orders[..] == old(orders[..])[order := orders[order]]
      ensures orders[order] <==> old(orders[order]) && AnyFree(blocks[..], order)
    {
      var r := FindBlockAtOrder(order);
      if r < 0 {
        orders[order] := false;
      } else {
        orders[order] := true;
        assert Block(order, r) in FreeSet();
      }
    }

    /** __buddy_order_can_alloc: exactly whether Alloc would succeed. */
    method OrderCanAlloc(order: nat) returns (r: bool)
      requires Valid()
      ensures r <==> order < numOrders && RunAvailable(live, top, order)
    {
      if order >= numOrders { return false; }
      Completeness(FreeSet(), live, top, numOrders, order);
      var i := order;
      while i < numOrders
        invariant order <= i <= numOrders
        invariant forall o :: order <= o < i ==> !orders[o]
      {
        if orders[i] {
          assert AnyFree(blocks[..], i);
          return true;
        }
        i := i + 1;
      }
      forall b | b in FreeSet() && b.order >= order ensures false {
        FreeOfMember(blocks[..], b);
        assert AnyFree(blocks[..], b.order);
      }
      return false;
    }
  
    // -------------------------------------------------------------------------
    // Addresses
    // -------------------------------------------------------------------------

    /** buddy_block_idx_to_addr */
    function AddrOf(b: Block): nat
      reads this`base
    {
      base + b.idx * Pow2(b.order + PAGE_SHIFT)
    }

    /** buddy_addr_to_block_idx */
    function IdxOf(addr: nat, order: nat): nat
      requires addr >= base
      reads this`base
    {
      Up(addr - base, order + PAGE_SHIFT)
    }

    lemma AddrRoundTrip(b: Block)
      ensures AddrOf(b) >= base && IdxOf(AddrOf(b), b.order) == b.idx
    {
      UpOfFirst(b.idx, b.order + PAGE_SHIFT);
    }

    // -------------------------------------------------------------------------
    // Allocation and release
    // -------------------------------------------------------------------------

    /** The block that an allocation takes: lowest sufficient order, then lowest index. */
    ghost predicate IsBest(free: set<Block>, order: nat, b: Block) {
      && b in free && order <= b.order
      && forall c :: c in free && order <= c.order ==> b.order < c.order || (b.order == c.order && b.idx <= c.idx)
    }

    lemma MemberIsBlock(b: Block)
      requires Tree() && b in FreeSet() + live
      ensures IsBlock(b) && b.order <= top
    {
      Pow2Mono(top - b.order, numOrders - 1 - b.order);
    }

    /** Setting a block's bit and its order's bit together keeps the order bitmap exact. */
    lemma OrdersAfterSet(flags: seq<bool>, bits: seq<bool>, bits': seq<bool>, b: Block)
      requires OrdersExact(flags, bits) && FreeOf(bits') == FreeOf(bits) + {b} && b.order < |flags|
      ensures OrdersExact(flags[b.order := true], bits')
    {
      forall o | 0 <= o < |flags| ensures flags[b.order := true][o] <==> AnyFree(bits', o) {
        if o == b.order { assert b in FreeOf(bits'); }
        if c :| c in FreeOf(bits) && c.order == o { assert c in FreeOf(bits'); }
      }
    }

    /** Only the order's own bit can go stale when some of its blocks are cleared. */
    lemma OrdersAfterClear(flags: seq<bool>, bits: seq<bool>, flags': seq<bool>, bits': seq<bool>, order: nat)
      requires OrdersExact(flags, bits) && order < |flags| && FreeOf(bits') <= FreeOf(bits)
      requires forall b :: b in FreeOf(bits) && b.order != order ==> b in FreeOf(bits')
      requires |flags'| == |flags| && flags' == flags[order := flags'[order]]
      requires flags'[order] <==> flags[order] && AnyFree(bits', order)
      ensures OrdersExact(flags', bits')
    {
      forall o | 0 <= o < |flags'| ensures flags'[o] <==> AnyFree(bits', o) {
        if o == order {
          if c :| c in FreeOf(bits') && c.order == o { assert c in FreeOf(bits); }
        } else {
          if c :| c in FreeOf(bits) && c.order == o { assert c in FreeOf(bits'); }
          if c :| c in FreeOf(bits') && c.order == o { assert c in FreeOf(bits); }
        }
      }
    }

    /** First loop of __buddy_alloc.  The order bitmap is exact here, so the search of an order whose
        bit is set always finds a block. */
    method FindBest(order: nat) returns (found: bool, a: nat, j: nat)
      requires Valid() && order < numOrders
      ensures found ==> IsBest(FreeSet(), order, Block(a, j))
      ensures !found ==> forall b :: b in FreeSet() ==> b.order < order
    {
      a, j := order, 0;
      while a <= numOrders - 1
        invariant order <= a <= numOrders
        invariant forall b :: b in FreeSet() && order <= b.order ==> a <= b.order
      {
        if orders[a] {
          assert AnyFree(blocks[..], a);
          var r := FindBlockAtOrder(a);
          return true, a, r;
        }
        assert !AnyFree(blocks[..], a);
        a := a + 1;
      }
      forall b | b in FreeSet() ensures b.order < numOrders { FreeOfMember(blocks[..], b); }
      return false, a, 0;
    }

    /** Block `cur` is held by the operation in progress: off the bitmap and not yet live. */
    ghost predicate Holding(cur: Block)
      reads this, orders, blocks
    {
      && Shape() && base != PMA_NULL && top < numOrders
      && OrdersExact(orders[..], blocks[..]) && Coalesced(FreeSet(), numOrders)
      && FreeSet() !! live && cur !in FreeSet() + live
      && Partition(FreeSet() + live + {cur}, top)
    }

    /** One round of the second loop of __buddy_alloc: keep the left half, free the right one. */
    method SplitOnce(a: nat, j: nat)
      requires Holding(Block(a, j)) && a > 0
      modifies orders, blocks
      ensures Holding(Block(a - 1, 2 * j))
      ensures FreeSet() == old(FreeSet()) + {Block(a - 1, 2 * j + 1)}
    {
      ghost var free := FreeSet();
      var cur := Block(a, j);
      ghost var flags, bits := orders[..], blocks[..];
      SplitSets(free, cur);
      ClearBlock(Left(cur));
      SetBlock(Right(cur));
      orders[a - 1] := true;
      assert FreeSet() == free + {Right(cur)};
      OrdersAfterSet(flags, bits, blocks[..], Right(cur));
      assert orders[..] == flags[a - 1 := true];
    }

    /** What the split does to the free blocks and to the partition. */
    lemma SplitSets(free: set<Block>, cur: Block)
      requires top < numOrders && cur.order > 0 && free !! live && cur !in free + live
      requires Partition(free + live + {cur}, top) && Coalesced(free, numOrders)
      ensures IsBlock(Left(cur)) && IsBlock(Right(cur))
      ensures Left(cur) !in free + {Right(cur)} + live && Right(cur) !in free + live
      ensures Partition(free + {Right(cur)} + live + {Left(cur)}, top) && Coalesced(free + {Right(cur)}, numOrders)
    {
      SplitPartition(free + live + {cur}, top, cur);
      assert free + live + {cur} - {cur} + {Left(cur), Right(cur)} == free + {Right(cur)} + live + {Left(cur)};
      HalvesAreBlocks(cur);
      CoalescedAfterSplit(free, cur);
    }

    /** Second loop of __buddy_alloc: split the held block down to the order. */
    method SplitTo(a0: nat, j0: nat, order: nat) returns (j: nat)
      requires Holding(Block(a0, j0)) && order <= a0
      modifies orders, blocks
      ensures Holding(Block(order, j))
      ensures j == SplitIdx(a0, j0, order) && FreeSet() == SplitDown(old(FreeSet()), a0, j0, order)
    {
      var a := a0;
      j := j0;
      while a > order
        invariant order <= a <= a0 && Holding(Block(a, j))
        invariant SplitIdx(a, j, order) == SplitIdx(a0, j0, order)
        invariant SplitDown(FreeSet(), a, j, order) == SplitDown(old(FreeSet()), a0, j0, order)
      {
        SplitOnce(a, j);
        a, j := a - 1, 2 * j;
      }
    }

    lemma HalvesAreBlocks(b: Block)
      requires 0 < b.order < numOrders && top < numOrders && b.order <= top && b.idx < Pow2(top - b.order)
      ensures IsBlock(Left(b)) && IsBlock(Right(b))
    {
      Pow2Mono(top - b.order, numOrders - 1 - b.order);
      assert NumBlocks(b.order - 1) == 2 * Pow2(numOrders - 1 - b.order);
    }

    lemma CoalescedAfterSplit(free: set<Block>, b: Block)
      requires Coalesced(free, numOrders) && b.order > 0 && Left(b) !in free
      ensures Coalesced(free + {Right(b)}, numOrders)
    {
      assert Buddy(Right(b).idx) == Left(b).idx;
      MoreCoalesced(free, Right(b), numOrders);
    }
  
    /** Take a free block off the bitmap. */
    method Take(b: Block)
      requires Valid() && b in FreeSet()
      modifies orders, blocks
      ensures Holding(b) && FreeSet() == old(FreeSet()) - {b}
    {
      ghost var free := FreeSet();
      ghost var flags, bits := orders[..], blocks[..];
      MemberIsBlock(b);
      ClearBlock(b);
      UpdateOrder(b.order);
      OrdersAfterClear(flags, bits, orders[..], blocks[..], b.order);
      assert FreeSet() + live + {b} == free + live;
      FewerCoalesced(free, FreeSet(), numOrders);
    }

    /** __buddy_alloc */
    method Alloc(order: nat) returns (addr: nat)
      requires Valid()
      modifies this`live, orders, blocks
      ensures Valid()
      // it fails only when no aligned run of that size is unallocated
      ensures addr != PMA_NULL <==> order < numOrders && RunAvailable(old(live), top, order)
      ensures addr == PMA_NULL ==> blocks[..] == old(blocks[..]) && orders[..] == old(orders[..]) && live == old(live)
      ensures addr != PMA_NULL ==>
        exists b :: IsBest(old(FreeSet()), order, b) && Allocated(old(FreeSet()), old(live), order, b, addr)
    {
      if order >= numOrders { return PMA_NULL; }
      Completeness(FreeSet(), live, top, numOrders, order);
      var found, a, j := FindBest(order);
      if !found { return PMA_NULL; }
      addr := AllocFrom(a, j, order);
      assert Allocated(old(FreeSet()), old(live), order, Block(a, j), addr);
    }

    /** Block b was taken from the old free set, split down to the order, and its first part handed out. */
    ghost predicate Allocated(free: set<Block>, was: set<Block>, order: nat, b: Block, addr: nat)
      requires order <= b.order
      reads this, blocks
    {
      var piece := Block(order, SplitIdx(b.order, b.idx, order));
      && FreeSet() == SplitDown(free - {b}, b.order, b.idx, order)
      && live == was + {piece} && piece !in was
      && addr == AddrOf(piece)
    }

    method AllocFrom(a: nat, j: nat, order: nat) returns (addr: nat)
      requires Valid() && Block(a, j) in FreeSet() && order <= a
      modifies this`live, orders, blocks
      ensures Valid() && addr != PMA_NULL
      ensures Allocated(old(FreeSet()), old(live), order, Block(a, j), addr)
    {
      Take(Block(a, j));
      var i := SplitTo(a, j, order);
      HandOut(Block(order, i));
      AddrRoundTrip(Block(order, i));
      addr := AddrOf(Block(order, i));
    }

    ghost method HandOut(b: Block)
      requires Holding(b)
      modifies this`live
      ensures Valid() && live == old(live) + {b}
    {
      live := live + {b};
      assert FreeSet() + live == FreeSet() + old(live) + {b};
    }

    ghost method TakeBack(b: Block)
      requires Valid() && b in live
      modifies this`live
      ensures Holding(b) && live == old(live) - {b}
    {
      live := live - {b};
      assert FreeSet() + live + {b} == FreeSet() + old(live);
    }

    /** The held block and its free buddy make their parent, on sets. */
    lemma MergeSets(free: set<Block>, o: nat, i: nat)
      requires Block(o, Buddy(i)) in free && free !! live && Block(o, i) !in free + live
      requires Partition(free + live + {Block(o, i)}, top)
      ensures var f := free - {Block(o, i), Block(o, Buddy(i))}; var parent := Block(o + 1, i / 2);
        && f !! live && parent !in f + live
        && Partition(f + live + {parent}, top)
    {
      var cur, buddy, parent := Block(o, i), Block(o, Buddy(i)), Block(o + 1, i / 2);
      var m := free + live + {cur};
      assert {Left(parent), Right(parent)} == {cur, buddy};
      MergePartition(m, top, parent);
      assert m - {Left(parent), Right(parent)} + {parent} == free - {cur, buddy} + live + {parent};
    }

    /** One round of the loop of __buddy_free: the held block and its free buddy become their parent. */
    method MergeOnce(o: nat, i: nat)
      requires Holding(Block(o, i)) && o + 1 < numOrders && Block(o, Buddy(i)) in FreeSet()
      modifies orders, blocks
      ensures Holding(Block(o + 1, i / 2))
      ensures FreeSet() == old(FreeSet()) - {Block(o, i), Block(o, Buddy(i))}
    {
      ghost var flags, bits := orders[..], blocks[..];
      MergeSets(FreeSet(), o, i);
      HeldIsBlock(Block(o, i));
      HeldIsBlock(Block(o, Buddy(i)));
      ClearBlock(Block(o, i));
      ClearBlock(Block(o, Buddy(i)));
      UpdateOrder(o);
      assert FreeSet() == FreeOf(bits) - {Block(o, i), Block(o, Buddy(i))};
      OrdersAfterClear(flags, bits, orders[..], blocks[..], o);
      FewerCoalesced(FreeOf(bits), FreeSet(), numOrders);
    }

    lemma HeldIsBlock(b: Block)
      requires top < numOrders && b.order <= top && b.idx < Pow2(top - b.order)
      ensures IsBlock(b)
    {
      Pow2Mono(top - b.order, numOrders - 1 - b.order);
    }

    /** __buddy_free.  The caller returns a block it got from Alloc, with the same order. */
    method Free(addr: nat, order: nat)
      requires Valid()
      requires addr != PMA_NULL && order < numOrders ==>
        exists b :: b in live && b.order == order && addr == AddrOf(b)
      modifies this`live, orders, blocks
      ensures Valid()
      ensures addr == PMA_NULL || order >= numOrders ==>
        blocks[..] == old(blocks[..]) && orders[..] == old(orders[..]) && live == old(live)
      ensures addr != PMA_NULL && order < numOrders ==>
        && addr >= base
        && live == old(live) - {Block(order, IdxOf(addr, order))}
        && FreeSet() == MergeUp(old(FreeSet()), order, IdxOf(addr, order), numOrders)
    {
      if addr == PMA_NULL || order >= numOrders { return; }
      ghost var b :| b in live && b.order == order && addr == AddrOf(b);
      AddrRoundTrip(b);
      var i := IdxOf(addr, order);
      TakeBack(b);
      ghost var free := FreeSet();
      var o, j := MergeLoop(order, i);
      GiveBack(o, j);
    }

    /** Merging the held block upwards ends in the given set of free blocks. */
    ghost predicate Merging(o: nat, i: nat, goal: set<Block>)
      reads this, orders, blocks
    {
      o < numOrders && Holding(Block(o, i)) && MergeUp(FreeSet(), o, i, numOrders) == goal
    }

    /** One round of the loop below. */
    method TryMerge(o: nat, i: nat, ghost goal: set<Block>) returns (merged: bool)
      requires Merging(o, i, goal) && o + 1 < numOrders
      modifies orders, blocks
      ensures if merged then Merging(o + 1, i / 2, goal) else Merging(o, i, goal) && Block(o, Buddy(i)) !in FreeSet()
    {
      HeldIsBlock(Block(o, i));
      BuddyInRange(o, i);
      merged := IsBlockFree(Block(o, Buddy(i)));
      if merged { MergeOnce(o, i); }
    }

    /** Loop of __buddy_free: merge the held block upwards while its buddy is free.  The buddy's index
        is always in range below the last order. */
    method MergeLoop(order: nat, idx: nat) returns (o: nat, i: nat)
      requires Holding(Block(order, idx)) && order < numOrders
      modifies orders, blocks
      ensures o < numOrders && Holding(Block(o, i))
      ensures o + 1 < numOrders ==> Block(o, Buddy(i)) !in FreeSet()
      ensures FreeSet() + {Block(o, i)} == MergeUp(old(FreeSet()), order, idx, numOrders)
    {
      ghost var goal := MergeUp(FreeSet(), order, idx, numOrders);
      o, i := order, idx;
      while o < numOrders - 1
        invariant Merging(o, i, goal)
      {
        var merged := TryMerge(o, i, goal);
        if !merged { break; }
        o, i := o + 1, i / 2;
      }
    }

    lemma BuddyInRange(o: nat, i: nat)
      requires o + 1 < numOrders && i < NumBlocks(o)
      ensures Buddy(i) < NumBlocks(o)
    {
      assert NumBlocks(o) == 2 * NumBlocks(o + 1);
    }

    /** The end of __buddy_free: mark the held block and its order free. */
    method GiveBack(o: nat, i: nat)
      requires Holding(Block(o, i)) && o < numOrders
      requires o + 1 < numOrders ==> Block(o, Buddy(i)) !in FreeSet()
      modifies orders, blocks
      ensures Valid() && FreeSet() == old(FreeSet()) + {Block(o, i)}
    {
      ghost var free := FreeSet();
      ghost var flags, bits := orders[..], blocks[..];
      HeldIsBlock(Block(o, i));
      SetBlock(Block(o, i));
      orders[o] := true;
      OrdersAfterSet(flags, bits, blocks[..], Block(o, i));
      assert orders[..] == flags[o := true];
      assert free + live + {Block(o, i)} == FreeSet() + live;
      MoreCoalesced(free, Block(o, i), numOrders);
    }
  
    // -------------------------------------------------------------------------
    // Exact round trip
    // -------------------------------------------------------------------------

    /** Every bit below Pow2(n) - 1 belongs to a level. */
    lemma {:induction false} BitHasLevel(k: nat, n: nat) returns (d: nat)
      requires k < Pow2(n) - 1
      ensures d < n && Pow2(d) - 1 <= k < Pow2(d + 1) - 1
      decreases n
    {
      if k >= Pow2(n - 1) - 1 { d := n - 1; } else { d := BitHasLevel(k, n - 1); }
    }

    /** The free set determines the block bitmap bit for bit, and with it the order bitmap. */
    lemma FreeSetIsBitmap(bits: seq<bool>, bits': seq<bool>)
      requires numOrders > 0 && |bits| == |bits'| == Pow2(numOrders) - 1 && FreeOf(bits) == FreeOf(bits')
      ensures bits == bits'
    {
      forall k | 0 <= k < |bits| ensures bits[k] == bits'[k] {
        var d := BitHasLevel(k, numOrders);
        var b := Block(numOrders - 1 - d, k - (Pow2(d) - 1));
        assert Pow2(d + 1) == 2 * Pow2(d);
        FreeOfMember(bits, b);
        FreeOfMember(bits', b);
      }
    }

    lemma ExactOrders(flags: seq<bool>, flags': seq<bool>, bits: seq<bool>)
      requires |flags| == |flags'| && OrdersExact(flags, bits) && OrdersExact(flags', bits)
      ensures flags == flags'
    {
    }

    /** In any valid state, a successful allocation followed by the release of its address restores both
        bitmaps bit for bit. */
    method AllocThenFree(order: nat) returns (addr: nat)
      requires Valid()
      modifies this`live, orders, blocks
      ensures Valid() && live == old(live)
      ensures blocks[..] == old(blocks[..]) && orders[..] == old(orders[..])
    {
      addr := Alloc(order);
      if addr != PMA_NULL {
        FreeAgain(addr, order, old(FreeSet()), old(live));
        FreeSetIsBitmap(blocks[..], old(blocks[..]));
        ExactOrders(orders[..], old(orders[..]), blocks[..]);
      }
    }

    method FreeAgain(addr: nat, order: nat, ghost free: set<Block>, ghost was: set<Block>)
      requires Valid() && addr != PMA_NULL && order < numOrders
      requires Partition(free + was, top) && Coalesced(free, numOrders)
      requires exists b :: IsBest(free, order, b) && Allocated(free, was, order, b, addr)
      modifies this`live, orders, blocks
      ensures Valid() && live == was && FreeSet() == free
    {
      ghost var b :| IsBest(free, order, b) && Allocated(free, was, order, b, addr);
      ghost var piece := Block(order, SplitIdx(b.order, b.idx, order));
      AddrRoundTrip(piece);
      RoundTrip(free, was, top, numOrders, b, order);
      assert piece in live;
      Free(addr, order);
    }

    // -------------------------------------------------------------------------
    // Initialisation
    // -------------------------------------------------------------------------

    constructor (numOrders: nat)
      requires numOrders > 0
      ensures Shape() && this.numOrders == numOrders && fresh(orders) && fresh(blocks)
    {
      this.numOrders := numOrders;
      orders := new bool[numOrders];
      blocks := new bool[Pow2(numOrders) - 1];
      base, live, top := 0, {}, 0;
    }

    /** The memory an arena of order `top` hands out blocks of. */
    ghost function ArenaBytes(): nat
      reads this`top
    {
      Pow2(top + PAGE_SHIFT)
    }

    method ClearBitmaps()
      requires Shape()
      modifies orders, blocks
      ensures FreeSet() == {} && forall o :: 0 <= o < orders.Length ==> !orders[o]
    {
      var i := 0;
      while i < orders.Length
        invariant i <= orders.Length && forall o :: 0 <= o < i ==> !orders[o]
      {
        orders[i] := false;
        i := i + 1;
      }
      i := 0;
      while i < blocks.Length
        invariant i <= blocks.Length && forall k :: 0 <= k < i ==> !blocks[k]
        invariant forall o :: 0 <= o < orders.Length ==> !orders[o]
      {
        blocks[i] := false;
        i := i + 1;
      }
      forall b ensures b !in FreeSet() { FreeOfMember(blocks[..], b); }
    }

    /** buddy_arena_init.  On success the arena is one free block whose size is the least power of two
        not below the trimmed size: it stays inside the memory it was given exactly when the trimmed
        size is a power of two. */
    method Init(baseAddr: nat, size: nat) returns (ok: bool)
      requires Shape() && baseAddr < U64 && size < U64 && numOrders + PAGE_SHIFT <= 64
      modifies this, orders, blocks
      ensures ok <==> TrimmedSize(baseAddr, size, numOrders) > 0
      ensures !ok ==> blocks[..] == old(blocks[..]) && orders[..] == old(orders[..]) && base == old(base) && live == old(live)
      ensures ok ==> Valid() && live == {} && FreeSet() == {Block(top, 0)} && base == AlignUp(baseAddr)
      ensures ok ==> ArenaBytes() >= TrimmedSize(baseAddr, size, numOrders)
      ensures ok ==> (ArenaBytes() <= TrimmedSize(baseAddr, size, numOrders) <==>
                      exists k: nat :: TrimmedSize(baseAddr, size, numOrders) == Pow2(k))
    {
      if baseAddr == PMA_NULL { return false; }
      var aligned := AlignUp(baseAddr);
      if aligned < baseAddr || aligned == PMA_NULL { return false; }
      var cutoff := aligned - baseAddr;
      if cutoff > size { return false; }
      var rest := (size - cutoff) / PAGE * PAGE;
      if rest < PAGE { return false; }
      if rest > Pow2(numOrders - 1 + PAGE_SHIFT) { rest := Pow2(numOrders - 1 + PAGE_SHIFT); }
      PageIsPow2();
      Pow2Mono(PAGE_SHIFT, numOrders - 1 + PAGE_SHIFT);
      InitOrder(aligned, rest);
      ok := true;
    }

    /** The second half of buddy_arena_init: one free block, of the order of the rounded-up size. */
    method InitOrder(aligned: nat, rest: nat)
      requires Shape() && aligned != PMA_NULL && PAGE <= rest <= Pow2(numOrders - 1 + PAGE_SHIFT)
      modifies this, orders, blocks
      ensures Valid() && live == {} && FreeSet() == {Block(top, 0)} && base == aligned
      ensures ArenaBytes() >= rest && (ArenaBytes() <= rest <==> exists k: nat :: rest == Pow2(k))
    {
      ClearBitmaps();
      base := aligned;
      var lg := Log2(rest);
      LogInRange(rest, lg, numOrders);
      var order := lg - PAGE_SHIFT;
      orders[order] := true;
      SetBlock(Block(order, 0));
      live, top := {}, order;
      SingleBlock(top);
      assert FreeSet() + live == {Block(top, 0)};
      forall o | 0 <= o < orders.Length ensures orders[o] <==> AnyFree(blocks[..], o) {
        assert Block(order, 0) in FreeSet();
      }
      ExactPower(rest, lg);
    }
  }

  const U64: nat := 0x1_0000_0000_0000_0000
  const PAGE: nat := 0x20_0000

  /** p2align_up on 64-bit words. */
  function AlignUp(x: nat): nat { (x + PAGE - 1) % U64 / PAGE * PAGE }

  /** The size that buddy_arena_init works with; 0 when it refuses. */
  function TrimmedSize(baseAddr: nat, size: nat, numOrders: nat): nat
    requires numOrders > 0
  {
    var aligned := AlignUp(baseAddr);
    if baseAddr == PMA_NULL || aligned < baseAddr || aligned == PMA_NULL || aligned - baseAddr > size then 0
    else
      var rest := (size - (aligned - baseAddr)) / PAGE * PAGE;
      if rest < PAGE then 0
      else if rest > Pow2(numOrders - 1 + PAGE_SHIFT) then Pow2(numOrders - 1 + PAGE_SHIFT) else rest
  }

  /** log2 of include/std.h: rounds up. */
  method Log2(size: nat) returns (order: nat)
    ensures size > 0 ==> size <= Pow2(order)
    ensures size > 0 ==> order == 0 || Pow2(order - 1) < size
    ensures size == 0 ==> order == 0
  {
    if size == 0 { return 0; }
    order := 0;
    var temp := size / 2;
    while temp != 0
      invariant Up(size, order + 1) == temp && Up(size, order) > 0
      decreases temp
    {
      UpStep(size, order + 1);
      order := order + 1;
      temp := temp / 2;
    }
    UpBelow(size, order);
    UpBelow(size, order + 1);
    IsPow2Exact(size, order);
    if !IsPow2(size) { order := order + 1; }
  }

  /** __buddy_get_order: the least order whose block holds that many pages. */
  method GetOrder(numPages: nat) returns (order: nat)
    ensures numPages <= Pow2(order)
    ensures order == 0 || Pow2(order - 1) < numPages
  {
    order := 0;
    var size := 1;
    while size < numPages
      invariant size == Pow2(order) && (order == 0 || Pow2(order - 1) < numPages)
      decreases numPages - size
    {
      size := size * 2;
      order := order + 1;
    }
  }

  lemma LogInRange(rest: nat, lg: nat, numOrders: nat)
    requires numOrders > 0 && PAGE <= rest <= Pow2(numOrders - 1 + PAGE_SHIFT)
    requires rest <= Pow2(lg) && (lg == 0 || Pow2(lg - 1) < rest)
    ensures PAGE_SHIFT <= lg < numOrders + PAGE_SHIFT
  {
    PageIsPow2();
    if lg < PAGE_SHIFT { PowInjective(lg, PAGE_SHIFT); }
    if lg > numOrders - 1 + PAGE_SHIFT { Pow2Mono(numOrders - 1 + PAGE_SHIFT, lg - 1); }
  }

  lemma PageIsPow2()
    ensures Pow2(PAGE_SHIFT) == PAGE
  {
    assert Pow2(5) == 32;
    Pow2Add(5, 5);
    Pow2Add(10, 10);
    assert Pow2(21) == 2 * Pow2(20);
  }

  lemma ExactPower(rest: nat, lg: nat)
    requires rest > 0 && rest <= Pow2(lg) && (lg == 0 || Pow2(lg - 1) < rest)
    ensures Pow2(lg) <= rest <==> exists k: nat :: rest == Pow2(k)
  {
    if k: nat :| rest == Pow2(k) {
      if k > lg { PowInjective(lg, k); }
      if k < lg { Pow2Mono(k, lg - 1); }
    }
  }

  /** Three pages make an arena of four: the fourth page is not part of the memory given. */
  lemma ThreePagesOverclaimed()
    ensures TrimmedSize(PAGE, 3 * PAGE, 15) == 3 * PAGE
    ensures !exists k: nat :: 3 * PAGE == Pow2(k)
  {
    PageIsPow2();
    assert Pow2(22) == 2 * Pow2(21) && Pow2(23) == 2 * Pow2(22);
    Pow2Mono(23, 14 + PAGE_SHIFT);
    forall k: nat ensures 3 * PAGE != Pow2(k) {
      if k <= 22 { Pow2Mono(k, 22); } else { Pow2Mono(23, k); }
    }
  }

  lemma SingleBlock(top: nat)
    ensures Partition({Block(top, 0)}, top)
  {
    var m := {Block(top, 0)};
    forall p: nat | p < Pow2(top) ensures OnceCovered(m, p) {
      UpBound(p, top, 0);
      assert Meets(m, p, top);
    }
  }
}
