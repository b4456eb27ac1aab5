/** The two-level segregated-fit heap: allocation and release over block headers in memory and free
    lists by size class, plain and with an alignment. */
module TlsfHeap {
  import opened Bits
  import opened TlsfClasses
  import opened TlsfBlocks
  import FreeLists
  import Seqs

  const TAG: nat := 16   // sizeof(struct aligned_block)

  type Bins = map<Class, seq<nat>>

  /** Start addresses and sizes of the allocated blocks. */
  function Live(m: Memory): map<nat, nat> {
    map a | a in m && !m[a].free :: m[a].size
  }

  predicate IsLive(m: Memory, a: nat) { a in m && !m[a].free }

  predicate LiveSame(m: Memory, m': Memory, a: nat) {
    (IsLive(m, a) <==> IsLive(m', a)) && (IsLive(m, a) ==> m[a].size == m'[a].size)
  }

  /** The block a has been allocated, and every other allocated block is as before. */
  ghost predicate NewlyLive(m: Memory, m': Memory, a: nat) {
    && !IsLive(m, a) && IsLive(m', a)
    && forall x {:trigger LiveSame(m, m', x)} | x != a :: LiveSame(m, m', x)
  }

  /** The allocated block b has given way to a, and every other is as before. */
  ghost predicate Replaces(m: Memory, m': Memory, b: nat, a: nat) {
    && IsLive(m, b) && IsLive(m', a) && (a == b || (!IsLive(m, a) && !IsLive(m', b)))
    && forall x {:trigger LiveSame(m, m', x)} | x != a && x != b :: LiveSame(m, m', x)
  }

  lemma NewThenReplaced(m: Memory, m1: Memory, m2: Memory, b: nat, a: nat)
    requires NewlyLive(m, m1, b) && Replaces(m1, m2, b, a)
    ensures NewlyLive(m, m2, a)
  {
    if a != b { assert LiveSame(m, m1, a); }
    forall x | x != a ensures LiveSame(m, m2, x) {
      if x != b { assert LiveSame(m, m1, x) && LiveSame(m1, m2, x); }
    }
  }

  /** In terms of the allocated blocks and their sizes. */
  lemma NewlyLiveMap(m: Memory, m': Memory, a: nat)
    requires a in m' && Live(m') == Live(m)[a := m'[a].size] && a !in Live(m)
    ensures NewlyLive(m, m', a)
  {
    forall x | x != a ensures LiveSame(m, m', x) {
      assert x in Live(m') <==> x in Live(m);
      assert x in Live(m) ==> Live(m')[x] == Live(m)[x];
    }
    assert a in Live(m');
  }

  lemma ReplacesMap(m: Memory, m': Memory, b: nat, a: nat)
    requires a in m' && Live(m') == (Live(m) - {b})[a := m'[a].size] && b in Live(m) && a !in Live(m)
    ensures Replaces(m, m', b, a)
  {
    forall x | x != a && x != b ensures LiveSame(m, m', x) {
      assert x in Live(m') <==> x in Live(m);
      assert x in Live(m) ==> Live(m')[x] == Live(m)[x];
    }
    assert a in Live(m') && b !in Live(m');
  }

  // ---------------------------------------------------------------------------
  // Free bytes
  // ---------------------------------------------------------------------------

  /** Byte x of the heap, header bytes included, belongs to a free block. */
  ghost predicate FreeAt(m: Memory, x: nat) { exists a :: Covers(m, a, x) && m[a].free }

  /** Exactly the bytes of block a are no longer free. */
  ghost predicate Gives(m: Memory, m': Memory, a: nat) {
    forall x: nat {:trigger FreeAt(m', x)} :: FreeAt(m', x) <==> FreeAt(m, x) && !Covers(m', a, x)
  }

  lemma FreeAtOwner(m: Memory, lo: nat, hi: nat, b: nat, x: nat)
    requires Tiled(m, lo, hi)
    ensures Covers(m, b, x) ==> (FreeAt(m, x) <==> m[b].free)
    ensures FreeAt(m, x) ==> lo <= x < hi
  {
    ExactTiling(m, lo, hi, x);
    if FreeAt(m, x) {
      var a :| Covers(m, a, x) && m[a].free;
    }
  }

  lemma GivesNewlyLive(m: Memory, m': Memory, lo: nat, hi: nat, a: nat)
    requires Tiled(m, lo, hi) && Tiled(m', lo, hi) && NewlyLive(m, m', a)
    ensures Gives(m, m', a)
  {
    forall x: nat ensures FreeAt(m', x) <==> FreeAt(m, x) && !Covers(m', a, x) {
      FreeAtOwner(m, lo, hi, 0, x);
      FreeAtOwner(m', lo, hi, 0, x);
      ExactTiling(m, lo, hi, x);
      ExactTiling(m', lo, hi, x);
      if lo <= x < hi {
        var b :| Covers(m, b, x);
        var c :| Covers(m', c, x);
        FreeAtOwner(m, lo, hi, b, x);
        FreeAtOwner(m', lo, hi, c, x);
        if c != a { SameOwner(m, m', a, b, c, x); }
      }
    }
  }

  lemma SameOwner(m: Memory, m': Memory, a: nat, b: nat, c: nat, x: nat)
    requires NewlyLive(m, m', a) && Covers(m, b, x) && Covers(m', c, x) && c != a
    requires forall d, e | Covers(m, d, x) && Covers(m, e, x) :: d == e
    requires forall d, e | Covers(m', d, x) && Covers(m', e, x) :: d == e
    ensures m[b].free <==> m'[c].free
  {
    assert LiveSame(m, m', c);
    if !m'[c].free { assert Covers(m, c, x); }
    if !m[b].free {
      assert b != a && LiveSame(m, m', b);
      assert Covers(m', b, x);
    }
  }

  /** Releasing a block makes exactly its bytes free. */
  lemma GivenBack(m: Memory, m': Memory, lo: nat, hi: nat, a: nat)
    requires Tiled(m, lo, hi) && Tiled(m', lo, hi) && a in Live(m) && Live(m') == Live(m) - {a}
    ensures Gives(m', m, a)
  {
    assert a !in Live(m');
    forall x | x != a ensures LiveSame(m', m, x) {
      assert x in Live(m') <==> x in Live(m);
      assert x in Live(m) ==> Live(m')[x] == Live(m)[x];
    }
    GivesNewlyLive(m', m, lo, hi, a);
  }

  /** The block b has been given out for size bytes: cut to them when the rest makes a block, which is free
      then, and whole otherwise. */
  ghost predicate FitsTightly(m: Memory, m': Memory, b: nat, size: nat)
    requires b in m && b in m'
  {
    if m[b].size >= size + HEADER + BLOCK_MIN
    then
      var rest := b + HEADER + size;
      && m'[b].size == size
      && rest in m' && m'[rest].free && rest + HEADER + m'[rest].size == Next(m, b)
    else m'[b].size == m[b].size < size + HEADER + BLOCK_MIN
  }

  // ---------------------------------------------------------------------------
  // Blocks and lists
  // ---------------------------------------------------------------------------

  /** A free block that is not being worked on. */
  ghost predicate Listable(m: Memory, ex: set<nat>, a: nat) {
    a in m && m[a].free && a !in ex
  }

  ghost predicate InList(m: Memory, bins: Bins, ex: set<nat>, a: nat) {
    Listable(m, ex, a) ==> ClassOf(m[a].size) in bins && a in bins[ClassOf(m[a].size)]
  }

  ghost predicate Member(m: Memory, ex: set<nat>, c: Class, a: nat) {
    Listable(m, ex, a) && ClassOf(m[a].size) == c
  }

  /** The lists hold exactly the free blocks, except those of ex, each in the list of its size. */
  ghost predicate Listed(m: Memory, bins: Bins, ex: set<nat>) {
    && (forall c, a | c in bins && a in bins[c] :: Member(m, ex, c, a))
    && (forall a {:trigger InList(m, bins, ex, a)} :: InList(m, bins, ex, a))
  }

  ghost predicate SameBlock(m: Memory, m': Memory, ex: set<nat>, ex': set<nat>, a: nat) {
    && (Listable(m, ex, a) <==> Listable(m', ex', a))
    && (Listable(m, ex, a) ==> m'[a].size == m[a].size)
  }

  lemma ListedFrame(m: Memory, m': Memory, bins: Bins, ex: set<nat>, ex': set<nat>)
    requires Listed(m, bins, ex)
    requires forall a :: SameBlock(m, m', ex, ex', a)
    ensures Listed(m', bins, ex')
  {
    forall a ensures InList(m', bins, ex', a) { assert InList(m, bins, ex, a) && SameBlock(m, m', ex, ex', a); }
    forall c, a | c in bins && a in bins[c] ensures Member(m', ex', c, a) {
      assert Member(m, ex, c, a) && SameBlock(m, m', ex, ex', a);
    }
  }

  lemma ListedRemove(m: Memory, bins: Bins, ex: set<nat>, c: Class, b: nat)
    requires Listed(m, bins, ex) && c in bins && b in bins[c] && Seqs.NoDup(bins[c])
    ensures Listed(m, bins[c := Seqs.Without(bins[c], b)], ex + {b})
  {
    var bins', ex' := bins[c := Seqs.Without(bins[c], b)], ex + {b};
    Seqs.WithoutMembers(bins[c], b);
    assert Member(m, ex, c, b);
    forall a ensures InList(m, bins', ex', a) { assert InList(m, bins, ex, a); }
    forall d, a | d in bins' && a in bins'[d] ensures Member(m, ex', d, a) { assert Member(m, ex, d, a); }
  }

  lemma ListedInsert(m: Memory, bins: Bins, ex: set<nat>, c: Class, b: nat)
    requires Listed(m, bins, ex) && b in m && m[b].free && b in ex && c in bins && c == ClassOf(m[b].size)
    ensures forall d | d in bins :: b !in bins[d]
    ensures Listed(m, bins[c := [b] + bins[c]], ex - {b})
  {
    var bins', ex' := bins[c := [b] + bins[c]], ex - {b};
    forall d | d in bins ensures b !in bins[d] {
      assert b in bins[d] ==> Member(m, ex, d, b);
    }
    forall a ensures InList(m, bins', ex', a) { assert InList(m, bins, ex, a); }
    forall d, a | d in bins' && a in bins'[d] ensures Member(m, ex', d, a) {
      assert a == b || Member(m, ex, d, a);
    }
  }

  // ---------------------------------------------------------------------------
  // What the client holds
  // ---------------------------------------------------------------------------

  lemma LiveMark(m: Memory, hi: nat, a: nat)
    requires a in m
    ensures Live(Mark(m, hi, a, true)) == Live(m) - {a}
    ensures Live(Mark(m, hi, a, false)) == Live(m)[a := m[a].size]
  {
  }

  lemma LiveSplit(m: Memory, hi: nat, a: nat, size: nat)
    requires a in m && size + HEADER <= m[a].size
    requires a + HEADER + size !in m
    ensures Live(Split(m, hi, a, size)) ==
      if m[a].free then Live(m)[a := size]
      else Live(m)[a := size][a + HEADER + size := m[a].size - size - HEADER]
  {
  }

  lemma LiveAbsorb(m: Memory, hi: nat, a: nat)
    requires a in m && Next(m, a) in m && m[a].free && m[Next(m, a)].free
    ensures Live(Absorb(m, hi, a)) == Live(m)
  {
  }

  function RoundUp(x: nat, a: nat): (r: nat)
    requires a > 0
  {
    (x + a - 1) / a * a
  }

  /** tlsf_align_up: TLSF_ALIGNMENT is 8. */
  function RoundUpEight(x: nat): nat { (x + 7) / 8 * 8 }

  /** What a request is served with. */
  function Padded(request: nat): (size: nat)
  {
    if RoundUpEight(request) < BLOCK_MIN then BLOCK_MIN else RoundUpEight(request)
  }

  lemma PaddedBounds(request: nat)
    requires request <= MAX_ALLOC
    ensures request <= Padded(request) <= MAX_ALLOC && BLOCK_MIN <= Padded(request) && Multiple(Padded(request), 8)
  {
    MultipleMod(Padded(request));
  }

  /** The least size of a block that may serve the request. */
  lemma PaddedIsLeast(request: nat, n: nat)
    requires Multiple(n, 8) && n >= request && n >= BLOCK_MIN
    ensures Padded(request) <= n
  {
    MultipleMod(n);
  }

  /** Headers after block b has been given out for size bytes. */
  function Taken(m: Memory, hi: nat, b: nat, size: nat): Memory
    requires b in m
  {
    if m[b].size >= size + HEADER + BLOCK_MIN then Split(m, hi, b, size) else Mark(m, hi, b, false)
  }

  class Heap {
    var mem: Memory
    var lo: nat
    var hi: nat
    const bins: FreeLists.Lists
    var tags: map<nat, nat>    // struct aligned_block: aligned pointer to original pointer

    ghost predicate Good(exApart: set<nat>, exListed: set<nat>)
      reads this, bins
    {
      && Tiled(mem, lo, hi) && hi % 4 == 0 && hi - lo < 0x1_0000_0000
      && bins.Valid()
      && Settled(mem, exApart)
      && Listed(mem, bins.lists, exListed)
    }

    ghost predicate Valid()
      reads this, bins
    {
      Good({}, {})
    }

    /** A zeroed struct tlsf. */
    constructor ()
      ensures mem == map[] && fresh(bins) && bins.Valid() && Listed(mem, bins.lists, {})
    {
      mem, tags := map[], map[];
      lo, hi := 0, 0;
      bins := new FreeLists.Lists();
      new;
      forall a ensures InList(mem, bins.lists, {}, a) { }
    }

    /** __tlsf_init on a zeroed struct.  The heap it makes is exactly tiled if and only if its end is a
        multiple of four, since a stored size has no room for a remainder, and the memory under the first
        header holds no previous-free bit. */
    method Init(heapStart: nat, heapSize: nat, stale: bool) returns (ok: bool)
      requires mem == map[] && bins.Valid() && Listed(mem, bins.lists, {})
      requires heapSize < 0x1_0000_0000
      modifies this`mem, this`lo, this`hi, bins
      ensures ok <==> heapStart != 0 && heapSize >= BLOCK_MIN + HEADER
      ensures ok ==> heapStart <= lo < heapStart + 8 && Multiple(lo, 8) && hi == heapStart + heapSize && Live(mem) == map[]
      ensures ok ==> (Tiled(mem, lo, hi) <==> hi % 4 == 0 && !stale)
      ensures ok && hi % 4 == 0 ==> mem == map[lo := Header(hi - lo - HEADER, true, stale, 0)]
      ensures ok && Tiled(mem, lo, hi) ==> Valid()
    {
      var start := AlignUpEight(heapStart);
      ok := heapStart != 0 && heapSize >= BLOCK_MIN + HEADER && start - heapStart < heapSize;
      if !ok { return; }
      lo, hi := start, heapStart + heapSize;
      var blockSize := hi - lo - HEADER;
      Truncated(lo, hi);
      FirstBlock(blockSize, blockSize - blockSize % 4, stale);
    }

    /** One free block takes the whole heap; its header holds size. */
    method FirstBlock(blockSize: nat, size: nat, stale: bool)
      requires mem == map[] && bins.Valid() && Listed(mem, bins.lists, {})
      requires Multiple(lo, 8) && lo > 0 && lo + HEADER + blockSize == hi && hi - lo < 0x1_0000_0000 && 8 <= size <= blockSize
      requires size == blockSize <==> hi % 4 == 0
      modifies this`mem, bins
      ensures mem == map[lo := Header(size, true, stale, 0)]
      ensures Live(mem) == map[] && (Tiled(mem, lo, hi) <==> size == blockSize && !stale)
      ensures Tiled(mem, lo, hi) ==> Valid()
    {
      mem := map[lo := Header(size, true, stale, 0)];
      ClassInRange(blockSize);
      var fli, sli := Map(blockSize);
      NoneListed(bins.lists, lo);
      OneBlock(lo, hi, mem[lo]);
      if size == blockSize { OneListed(bins.lists, Class(fli, sli), lo, mem[lo]); }
      bins.Insert(lo, Class(fli, sli));
    }

    /** Sets or clears a block's free bit and the previous-free bit after it. */
    method SetFree(a: nat, free: bool)
      requires a in mem && (Next(mem, a) < hi ==> Next(mem, a) in mem)
      modifies this`mem
      ensures mem == Mark(old(mem), hi, a, free)
    {
      mem := mem[a := mem[a].(free := free)];
      var next := Next(mem, a);
      if next < hi { mem := mem[next := mem[next].(prevFree := free)]; }
    }

    /** tlsf_map_insert of a block's size. */
    method MapBlock(a: nat) returns (c: Class)
      requires Tiled(mem, lo, hi) && hi - lo < 0x1_0000_0000 && a in mem
      ensures c == ClassOf(mem[a].size) && InRange(c)
    {
      SizeBound(mem, lo, hi, a);
      ClassInRange(mem[a].size);
      var fli, sli := Map(mem[a].size);
      c := Class(fli, sli);
    }

    /** Takes a free block out of its list. */
    method Unlist(b: nat, ghost exApart: set<nat>, ghost ex: set<nat>)
      requires Good(exApart, ex) && Listable(mem, ex, b)
      modifies bins
      ensures Good(exApart, ex + {b})
    {
      var c := MapBlock(b);
      assert InList(mem, bins.lists, ex, b);
      assert bins.ListAt(c);
      ListedRemove(mem, bins.lists, ex, c, b);
      bins.Remove(b, c);
    }

    /** Puts a free block into its list. */
    method Enlist(b: nat)
      requires Good({}, {b}) && b in mem && mem[b].free
      modifies bins
      ensures Valid()
    {
      var c := MapBlock(b);
      ListedInsert(mem, bins.lists, {b}, c, b);
      assert {b} - {b} == {};
      assert Local(mem, lo, hi, b);
      bins.Insert(b, c);
    }

    /** __tlsf_merge_next: a block that is being freed takes in the one after it, if that is free. */
    method MergeNext(a: nat)
      requires a in mem && mem[a].free && Good({a}, {a})
      modifies this`mem, bins
      ensures a in mem && mem[a].free && NextBusy(mem, a) && Good({a}, {a})
      ensures mem == MergedNext(old(mem), hi, a)
    {
      NextInside(mem, lo, hi, a);
      var next := Next(mem, a);
      if next < hi && mem[next].free {
        ghost var m := mem;
        NextInside(mem, lo, hi, next);
        assert Apart(mem, {a}, next);
        Unlist(next, {a}, {a});
        var size := mem[a].size + mem[next].size + HEADER;
        mem := mem[a := mem[a].(size := size)];
        var nextNext := Next(mem, next);
        if nextNext < hi { mem := mem[nextNext := mem[nextNext].(prevPhys := a)]; }
        mem := mem - {next};
        assert mem == Absorb(m, hi, a);
        AbsorbTiled(m, lo, hi, a);
        AbsorbSettled(m, lo, hi, a, {a});
        ListedFrame(m, mem, bins.lists, {a} + {next}, {a});
      }
    }

    /** __tlsf_merge_prev: the block joins the one before it, if that is free. */
    method MergePrev(a: nat) returns (b: nat)
      requires a in mem && mem[a].free && NextBusy(mem, a) && Good({a}, {a})
      modifies this`mem, bins
      ensures b in mem && mem[b].free && Good({}, {b})
      ensures mem == MergedPrev(old(mem), hi, a)
    {
      NextInside(mem, lo, hi, a);
      if !mem[a].prevFree {
        NowSettled(mem, lo, hi, a);
        return a;
      }
      ghost var m := mem;
      var prev := mem[a].prevPhys;
      NextInside(mem, lo, hi, prev);
      PrevOfFree(mem, lo, hi, prev);
      Unlist(prev, {a}, {a});
      var size := mem[prev].size + HEADER + mem[a].size;
      var next := Next(mem, a);
      mem := mem[prev := mem[prev].(size := size)];
      if next < hi { mem := mem[next := mem[next].(prevPhys := prev)]; }
      mem := mem - {a};
      assert mem == Absorb(m, hi, prev);
      AbsorbTiled(m, lo, hi, prev);
      AbsorbSettled(m, lo, hi, prev, {a});
      ListedFrame(m, mem, bins.lists, {a} + {prev}, {prev});
      NowSettled(mem, lo, hi, prev);
      b := prev;
    }

    /** __tlsf_free: whatever is not in the heap is ignored. */
    method Free(addr: nat)
      requires Valid()
      requires lo + HEADER <= addr < hi ==> addr - HEADER in Live(mem)
      modifies this`mem, bins
      ensures Valid()
      ensures mem == if lo + HEADER <= addr < hi then Freed(old(mem), hi, addr - HEADER) else old(mem)
      ensures Live(mem) == Live(old(mem)) - (if addr < HEADER then {} else {addr - HEADER})
      ensures lo + HEADER <= addr < hi ==> Gives(mem, old(mem), addr - HEADER)
    {
      if addr < lo || addr >= hi || addr - HEADER < lo {
        NotLive(addr);
        return;
      }
      Release(addr - HEADER);
      GivenBack(old(mem), mem, lo, hi, addr - HEADER);
    }

    /** __tlsf_free of a live block: the range checks let it through. */
    method FreeLive(addr: nat)
      requires Valid() && addr >= HEADER && addr - HEADER in Live(mem)
      modifies this`mem, bins
      ensures Valid() && mem == Freed(old(mem), hi, addr - HEADER) && Live(mem) == Live(old(mem)) - {addr - HEADER}
    {
      SizeBound(mem, lo, hi, addr - HEADER);
      assert Local(mem, lo, hi, addr - HEADER);
      Free(addr);
    }

    /** __tlsf_free past its range checks. */
    method Release(a: nat)
      requires Valid() && a in Live(mem)
      modifies this`mem, bins
      ensures Valid() && mem == Freed(old(mem), hi, a) && Live(mem) == Live(old(mem)) - {a}
    {
      LiveFreed(mem, hi, a);
      MarkFree(a);
      MergeNext(a);
      var b := MergePrev(a);
      Enlist(b);
    }

    /** __tlsf_mark_free: the block is not in a list yet. */
    method MarkFree(a: nat)
      requires Valid() && a in Live(mem)
      modifies this`mem
      ensures a in mem && mem[a].free && Good({a}, {a})
      ensures mem == Mark(old(mem), hi, a, true) && Live(mem) == Live(old(mem)) - {a}
    {
      ghost var m := mem;
      NextInside(mem, lo, hi, a);
      MarkTiled(mem, lo, hi, a, true);
      MarkSettled(mem, lo, hi, a);
      LiveMark(mem, hi, a);
      SetFree(a, true);
      ListedFrame(m, mem, bins.lists, {}, {a});
    }

    lemma NotLive(addr: nat)
      requires Valid() && (addr < lo + HEADER || addr >= hi)
      ensures addr >= HEADER ==> addr - HEADER !in mem
    {
      if addr >= HEADER {
        assert addr - HEADER in mem ==> Local(mem, lo, hi, addr - HEADER);
        if addr - HEADER in mem { SizeBound(mem, lo, hi, addr - HEADER); }
      }
    }

    /** The first block of the least non-empty class that a request of that size is searched from. */
    ghost predicate Chosen(size: nat, b: nat)
      reads this, bins
    {
      exists d | d in bins.lists :: IsLeast(size, d) && bins.lists[d][0] == b
    }

    ghost predicate IsLeast(size: nat, d: Class)
      reads this, bins
    {
      && d in bins.lists && bins.lists[d] != [] && AtMost(ClassOf(size), d)
      && forall e | e in bins.lists && AtMost(ClassOf(size), e) && bins.lists[e] != [] :: AtMost(d, e)
    }

    /** The first block of the request's own class is smaller than the request. */
    ghost predicate OwnHeadTooSmall(size: nat)
      reads this, bins
    {
      var c := ClassOf(size);
      c in bins.lists && bins.lists[c] != [] && bins.lists[c][0] in mem && mem[bins.lists[c][0]].size < size
    }

    /** Some free block holds the request. */
    ghost predicate HasRoom(size: nat)
      reads this
    {
      exists a :: a in mem && mem[a].free && mem[a].size >= size
    }

    /** When an allocation fails: the size is too large, no free block is large enough, or a block of
        the request's own class is in the way. */
    ghost predicate Fails(request: nat)
      reads this, bins
    {
      request > MAX_ALLOC || !HasRoom(Padded(request)) || OwnHeadTooSmall(Padded(request))
    }

    /** __tlsf_alloc.  The stale bit is what the memory of a new header happens to hold as its
        previous-free bit. */
    method Alloc(request: nat, stale: bool) returns (p: nat)
      requires Valid()
      modifies this`mem, bins
      ensures Valid()
      ensures p == 0 <==> request == 0 || old(Fails(request))
      ensures p == 0 ==> mem == old(mem) && bins.lists == old(bins.lists)
      ensures p != 0 ==>
        && p >= HEADER && Multiple(p, 8)
        && p - HEADER in old(mem) && old(mem)[p - HEADER].free && old(mem)[p - HEADER].size >= Padded(request)
        && old(Chosen(Padded(request), p - HEADER))
        && mem == Taken(old(mem), hi, p - HEADER, Padded(request))
        && p - HEADER in mem && mem[p - HEADER].size >= request && !mem[p - HEADER].prevFree
        && Live(mem) == Live(old(mem))[p - HEADER := mem[p - HEADER].size]
        && Restores(mem, hi, p - HEADER, old(mem))
        && FitsTightly(old(mem), mem, p - HEADER, Padded(request)) && Gives(old(mem), mem, p - HEADER)
    {
      if request == 0 || request > MAX_ALLOC { return 0; }
      PaddedBounds(request);
      var ok, b := Serve(Padded(request), stale);
      HeaderAligned(b);
      p := if ok then b + HEADER else 0;
      if ok { ServedTightly(old(mem), b, Padded(request)); }
    }

    lemma ServedTightly(m: Memory, b: nat, size: nat)
      requires Valid() && Tiled(m, lo, hi) && b in m && m[b].free && m[b].size >= size && mem == Taken(m, hi, b, size)
      requires b in mem && Live(mem) == Live(m)[b := mem[b].size]
      ensures FitsTightly(m, mem, b, size) && Gives(m, mem, b)
    {
      NextInside(m, lo, hi, b);
      NewlyLiveMap(m, mem, b);
      GivesNewlyLive(m, mem, lo, hi, b);
    }

    /** __tlsf_alloc for a padded size. */
    method Serve(size: nat, stale: bool) returns (ok: bool, b: nat)
      requires Valid() && BLOCK_MIN <= size <= MAX_ALLOC && Multiple(size, 8)
      modifies this`mem, bins
      ensures Valid()
      ensures ok <==> old(HasRoom(size) && !OwnHeadTooSmall(size))
      ensures !ok ==> mem == old(mem) && bins.lists == old(bins.lists)
      ensures ok ==>
        && Multiple(b, 8) && b in old(mem) && old(mem)[b].free && old(mem)[b].size >= size && old(Chosen(size, b))
        && mem == Taken(old(mem), hi, b, size) && b in mem && mem[b].size >= size && !mem[b].prevFree
        && Live(mem) == Live(old(mem))[b := mem[b].size]
        && Restores(mem, hi, b, old(mem))
    {
      b := 0;
      ClassInRange(size);
      var fli, sli := Map(size);
      var found, d, first := bins.Search(Class(fli, sli));
      SearchOutcome(size, found, d);
      ok := found && mem[first].size >= size;
      if ok {
        b := first;
        assert Local(mem, lo, hi, b);
        RestoredAfterTaking(mem, lo, hi, b, size);
        TakenShape(mem, lo, hi, b, size);
        Take(b, size, stale);
      }
    }

    /** What a search says about the room there is. */
    lemma SearchOutcome(size: nat, found: bool, d: Class)
      requires Valid() && size <= MAX_ALLOC
      requires found <==> exists e | e in bins.lists :: AtMost(ClassOf(size), e) && bins.lists[e] != []
      requires found ==> IsLeast(size, d)
      ensures !found ==> !HasRoom(size)
      ensures found ==> Member(mem, {}, d, bins.lists[d][0])
      ensures found && mem[bins.lists[d][0]].size < size ==> OwnHeadTooSmall(size)
      ensures found && mem[bins.lists[d][0]].size >= size ==> HasRoom(size) && !OwnHeadTooSmall(size)
    {
      if found {
        var b := bins.lists[d][0];
        assert b in bins.lists[d];
        if d != ClassOf(size) { HigherIsEnough(size, mem[b].size); }
      } else {
        forall a | a in mem && mem[a].free ensures mem[a].size < size {
          assert InList(mem, bins.lists, {}, a);
          if mem[a].size >= size { EnoughIsHigher(size, mem[a].size); }
        }
      }
    }

    /** Gives out a block that is large enough. */
    method Take(b: nat, size: nat, stale: bool)
      requires Valid() && b in mem && mem[b].free && mem[b].size >= size
      requires Multiple(size, 8) && size >= BLOCK_MIN
      modifies this`mem, bins
      ensures Valid() && mem == Taken(old(mem), hi, b, size) && b in mem && mem[b].size >= size
      ensures Live(mem) == Live(old(mem))[b := mem[b].size]
    {
      assert {} + {b} == {b};
      Unlist(b, {}, {});
      if mem[b].size >= size + HEADER + BLOCK_MIN { TakePart(b, size, stale); } else { TakeWhole(b, size); }
    }

    /** The chosen block is given out in one piece. */
    method TakeWhole(b: nat, size: nat)
      requires Good({}, {b}) && b in mem && mem[b].free && size <= mem[b].size < size + HEADER + BLOCK_MIN
      modifies this`mem
      ensures Valid() && mem == Taken(old(mem), hi, b, size) && b in mem && mem[b].size >= size
      ensures Live(mem) == Live(old(mem))[b := mem[b].size]
    {
      ghost var m := mem;
      NextInside(mem, lo, hi, b);
      MarkTiled(mem, lo, hi, b, false);
      MarkSettled(mem, lo, hi, b);
      LiveMark(mem, hi, b);
      SetFree(b, false);
      ListedFrame(m, mem, bins.lists, {b}, {});
    }

    /** What the chosen block has too much is cut off and listed. */
    method TakePart(b: nat, size: nat, stale: bool)
      requires Good({}, {b}) && b in mem && mem[b].free && mem[b].size >= size + HEADER + BLOCK_MIN
      requires Multiple(size, 8) && size >= BLOCK_MIN
      modifies this`mem, bins
      ensures Valid() && mem == Taken(old(mem), hi, b, size) && b in mem && mem[b].size >= size
      ensures Live(mem) == Live(old(mem))[b := mem[b].size]
    {
      ghost var m := mem;
      Cut(b, size, stale);
      SplitTiled(m, lo, hi, b, size);
      SplitSettled(m, lo, hi, b, size);
      LiveSplit(m, hi, b, size);
      ghost var cutout := b + HEADER + size;
      ListedFrame(m, mem, bins.lists, {b}, {cutout});
      Enlist(b + HEADER + size);
    }

    method Cut(b: nat, size: nat, stale: bool)
      requires Tiled(mem, lo, hi) && b in mem && mem[b].free && mem[b].size >= size + HEADER + BLOCK_MIN
      requires Multiple(size, 8) && size >= BLOCK_MIN
      modifies this`mem
      ensures mem == Split(old(mem), hi, b, size)
    {
      NextInside(mem, lo, hi, b);
      var cutout := b + HEADER + size;
      var next := Next(mem, b);
      mem := mem[cutout := Header(mem[b].size - size - HEADER, true, stale, b)];
      mem := mem[b := mem[b].(size := size)];
      if next < hi { mem := mem[next := mem[next].(prevPhys := cutout)]; }
      SetFree(b, false);
    }

    /** Live blocks do not overlap and lie inside the heap, so neither do the ranges given out. */
    lemma LiveApart(a: nat, b: nat)
      requires Valid() && a in Live(mem) && b in Live(mem) && a != b
      ensures a + HEADER + Live(mem)[a] <= b || b + HEADER + Live(mem)[b] <= a
      ensures lo <= a && a + HEADER + Live(mem)[a] <= hi
    {
      SizeBound(mem, lo, hi, a);
      assert Local(mem, lo, hi, a);
      if a < b { NoOverlap(mem, lo, hi, a, b); } else { NoOverlap(mem, lo, hi, b, a); }
    }

    /** Releasing what has just been allocated restores every header of the heap. */
    method AllocThenFree(request: nat, stale: bool) returns (p: nat)
      requires Valid()
      modifies this`mem, bins
      ensures Valid() && mem == old(mem)
    {
      p := Alloc(request, stale);
      if p == 0 { return; }
      SizeBound(mem, lo, hi, p - HEADER);
      assert Local(mem, lo, hi, p - HEADER);
      ghost var m := mem;
      Free(p);
      assert IsFreed(m, hi, p - HEADER, mem);
    }

    /** __tlsf_alloc_p2aligned */
    method AllocAligned(request: nat, alignment: nat, stale: bool) returns (p: nat)
      requires Valid() && alignment > 0
      modifies this`mem, this`tags, bins
      ensures Valid()
      ensures p == 0 <==> !IsPow2(alignment) || request == 0 || old(Fails(request + alignment + TAG))
      ensures p == 0 ==> mem == old(mem) && tags == old(tags)
      ensures p != 0 ==> Multiple(p, alignment) && Served(p, request, request + alignment + TAG, old(mem), old(tags))
    {
      if !IsPow2(alignment) || request == 0 || request > MAX_ALLOC { return 0; }
      var total := request + alignment + TAG;
      if total > MAX_ALLOC { return 0; }
      p := AllocTotal(request, alignment, total, stale);
    }

    /** __tlsf_alloc_p2aligned past its checks. */
    method AllocTotal(request: nat, alignment: nat, total: nat, stale: bool) returns (p: nat)
      requires Valid() && alignment > 0 && IsPow2(alignment) && request > 0 && total == request + alignment + TAG
      modifies this`mem, this`tags, bins
      ensures Valid() && (p == 0 <==> old(Fails(total)))
      ensures p == 0 ==> mem == old(mem) && tags == old(tags)
      ensures p != 0 ==> Multiple(p, alignment) && Served(p, request, total, old(mem), old(tags))
    {
      var ptr := Obtain(total, stale);
      if ptr == 0 { return 0; }
      ghost var m := mem;
      p := AlignUp(ptr + TAG, alignment);
      Tag(ptr, p, request, old(mem));
      NewThenReplaced(old(mem), m, mem, ptr - HEADER, tags[p] - HEADER);
      GivesNewlyLive(old(mem), mem, lo, hi, tags[p] - HEADER);
    }

    /** The pointer p is tagged with a new live block that holds the tag and the request.  Releasing it, whether
        or not its padding has been released before, restores every header.  The padding goes back to the
        heap: exactly the block's bytes are no longer free, and it is snug. */
    ghost predicate Served(p: nat, request: nat, total: nat, m0: Memory, tags0: map<nat, nat>)
      reads this
    {
      && p in tags && tags == tags0[p := tags[p]] && GivenFor(p, request)
      && NewlyLive(m0, mem, tags[p] - HEADER) && Restores(mem, hi, tags[p] - HEADER, m0)
      && Gives(m0, mem, tags[p] - HEADER) && SnugFor(p, Padded(total))
    }

    /** The block that the tag of p names starts right before the tag, up to what makes no block of its own, and
        is not longer than what was asked of it. */
    ghost predicate SnugFor(p: nat, size: nat)
      reads this
    {
      && p in tags && HEADER <= tags[p] <= p - TAG < tags[p] + HEADER + BLOCK_MIN && tags[p] - HEADER in mem
      && Next(mem, tags[p] - HEADER) < p - TAG + size + HEADER + BLOCK_MIN
    }

    /** What __tlsf_alloc promises, without how it chooses. */
    method Obtain(total: nat, stale: bool) returns (p: nat)
      requires Valid() && total > 0
      modifies this`mem, bins
      ensures Valid() && (p == 0 <==> old(Fails(total)))
      ensures p == 0 ==> mem == old(mem)
      ensures p != 0 ==>
        && p >= HEADER && Multiple(p, 8) && NewlyLive(old(mem), mem, p - HEADER)
        && mem[p - HEADER].size >= total && !mem[p - HEADER].prevFree
        && mem[p - HEADER].size < Padded(total) + HEADER + BLOCK_MIN
        && Restores(mem, hi, p - HEADER, old(mem))
    {
      p := Alloc(total, stale);
      if p != 0 { NewlyLiveMap(old(mem), mem, p - HEADER); }
    }

    /** __tlsf_alloc_p2aligned once the aligned pointer p is known. */
    method Tag(plain: nat, p: nat, request: nat, ghost m0: Memory)
      requires Valid() && plain >= HEADER && IsLive(mem, plain - HEADER) && !mem[plain - HEADER].prevFree
      requires plain + TAG <= p && Multiple(p, 8) && request > 0 && p + request <= Next(mem, plain - HEADER)
      requires Restores(mem, hi, plain - HEADER, m0)
      modifies this`mem, this`tags, bins
      ensures Valid() && p in tags && tags == old(tags)[p := tags[p]] && GivenFor(p, request)
      ensures Replaces(old(mem), mem, plain - HEADER, tags[p] - HEADER)
      ensures Restores(mem, hi, tags[p] - HEADER, m0)
      ensures p - TAG < tags[p] + HEADER + BLOCK_MIN && Next(mem, tags[p] - HEADER) == Next(old(mem), plain - HEADER)
    {
      var ptr := Place(plain, p - TAG, m0);
      tags := tags[p := ptr];
    }

    /** Enough padding before the tag becomes a free block, and the rest a block of its own. */
    method Place(plain: nat, header: nat, ghost m0: Memory) returns (ptr: nat)
      requires Valid() && HEADER <= plain <= header && Multiple(header, 8) && IsLive(mem, plain - HEADER)
      requires header + 8 <= Next(mem, plain - HEADER) && !mem[plain - HEADER].prevFree && Restores(mem, hi, plain - HEADER, m0)
      modifies this`mem, bins
      ensures Valid() && HEADER <= ptr <= header < ptr + HEADER + BLOCK_MIN && IsLive(mem, ptr - HEADER)
      ensures Next(mem, ptr - HEADER) == Next(old(mem), plain - HEADER)
      ensures Replaces(old(mem), mem, plain - HEADER, ptr - HEADER)
      ensures Restores(mem, hi, ptr - HEADER, m0)
    {
      ptr := plain;
      if header - ptr >= HEADER + BLOCK_MIN {
        LiveKeys(mem, lo, hi, ptr - HEADER, header - HEADER);
        HeaderAligned(header - HEADER);
        CarvePadding(ptr, header - HEADER, m0);
        ReplacesMap(old(mem), mem, ptr - HEADER, header - HEADER);
        ptr := header;
      }
    }

    /** The tag of p names a live block that holds the tag and size bytes from p on. */
    ghost predicate GivenFor(p: nat, size: nat)
      reads this
    {
      && p in tags && tags[p] >= HEADER && IsLive(mem, tags[p] - HEADER)
      && tags[p] + TAG <= p && p + size <= Next(mem, tags[p] - HEADER)
    }

    /** __tlsf_alloc_p2aligned: the padding before the new block becomes a block of its own and is
        released. */
    method CarvePadding(ptr: nat, newBlock: nat, ghost m0: Memory)
      requires Valid() && ptr >= HEADER && ptr - HEADER in Live(mem) && !mem[ptr - HEADER].prevFree
      requires Restores(mem, hi, ptr - HEADER, m0)
      requires ptr + BLOCK_MIN <= newBlock && Multiple(newBlock, 8) && newBlock + HEADER + 8 <= Next(mem, ptr - HEADER)
      modifies this`mem, bins
      ensures Valid() && newBlock in mem && Next(mem, newBlock) == Next(old(mem), ptr - HEADER)
      ensures Restores(mem, hi, newBlock, m0)
      ensures Live(mem) == (Live(old(mem)) - {ptr - HEADER})[newBlock := mem[newBlock].size]
    {
      var orig := ptr - HEADER;
      SizeBound(mem, lo, hi, orig);
      assert Local(mem, lo, hi, orig);
      LiveKeys(mem, lo, hi, orig, newBlock);
      RestoredAfterCarving(mem, lo, hi, orig, newBlock, m0);
      Divide(orig, newBlock);
      FreeLive(ptr);
      assert newBlock in Live(mem);
    }

    /** A live block becomes two. */
    method Divide(orig: nat, newBlock: nat)
      requires Valid() && orig in Live(mem)
      requires orig + HEADER + BLOCK_MIN <= newBlock && Multiple(newBlock, 8) && newBlock + HEADER + 8 <= Next(mem, orig)
      modifies this`mem
      ensures Valid() && mem == Split(old(mem), hi, orig, newBlock - orig - HEADER)
    {
      ghost var m := mem;
      var total := mem[orig].size;
      NextInside(mem, lo, hi, orig);
      var paddingSize := newBlock - orig - HEADER;
      GapAligned(orig, newBlock);
      SplitTiled(mem, lo, hi, orig, paddingSize);
      SplitSettled(mem, lo, hi, orig, paddingSize);
      mem := mem[newBlock := Header(total - paddingSize - HEADER, false, false, orig)];
      var next := Next(mem, newBlock);
      if next < hi { mem := mem[next := mem[next].(prevPhys := newBlock)]; }
      mem := mem[orig := mem[orig].(size := paddingSize)];
      assert mem == Split(m, hi, orig, paddingSize);
      ListedFrame(m, mem, bins.lists, {}, {});
    }

    /** __tlsf_free_p2aligned */
    method FreeAligned(p: nat)
      requires Valid()
      requires lo + TAG <= p < hi + TAG ==> GivenFor(p, 0)
      modifies this`mem, bins
      ensures Valid()
      ensures lo + TAG <= p < hi + TAG ==> 
        mem == Freed(old(mem), hi, tags[p] - HEADER) && Live(mem) == Live(old(mem)) - {tags[p] - HEADER}
      ensures !(lo + TAG <= p < hi + TAG) ==> mem == old(mem)
    {
      var header := p - TAG;
      if header < lo || header >= hi { return; }
      FreeLive(tags[p]);
    }

    /** Releasing an aligned block that has just been allocated restores every header of the heap. */
    method AllocAlignedThenFree(request: nat, alignment: nat, stale: bool) returns (p: nat)
      requires Valid() && alignment > 0
      modifies this`mem, this`tags, bins
      ensures Valid() && mem == old(mem)
    {
      p := AllocAligned(request, alignment, stale);
      if p == 0 { return; }
      SizeBound(mem, lo, hi, tags[p] - HEADER);
      assert Local(mem, lo, hi, tags[p] - HEADER);
      ghost var m := mem;
      FreeAligned(p);
      assert IsFreed(m, hi, tags[p] - HEADER, mem);
    }
  }

  ghost predicate IsFreed(m: Memory, hi: nat, a: nat, r: Memory) { a in m && r == Freed(m, hi, a) }

  /** Releasing the live block a restores the headers m0. */
  ghost predicate Restores(m: Memory, hi: nat, a: nat, m0: Memory) {
    forall r | IsFreed(m, hi, a, r) :: r == m0
  }

  lemma RestoredAfterTaking(m: Memory, lo: nat, hi: nat, b: nat, size: nat)
    requires Tiled(m, lo, hi) && Settled(m, {}) && b in m && m[b].free && m[b].size >= size
    requires Multiple(size, 8) && size >= BLOCK_MIN
    ensures Restores(Taken(m, hi, b, size), hi, b, m)
  {
    FreeUndoesTake(m, lo, hi, b, size);
  }

  lemma RestoredAfterCarving(t: Memory, lo: nat, hi: nat, b: nat, a: nat, m0: Memory)
    requires Tiled(t, lo, hi) && b in t && !t[b].free && !t[b].prevFree && Restores(t, hi, b, m0)
    requires b + HEADER + BLOCK_MIN <= a && Multiple(a, 8) && a + HEADER + 8 <= Next(t, b)
    ensures var s := Split(t, hi, b, a - b - HEADER); b in s && Restores(Freed(s, hi, b), hi, a, m0)
  {
    FreeUndoesCarving(t, lo, hi, b, a);
    assert IsFreed(t, hi, b, Freed(t, hi, b));
  }

  lemma TakenShape(m: Memory, lo: nat, hi: nat, b: nat, size: nat)
    requires Tiled(m, lo, hi) && Settled(m, {}) && b in m && m[b].free
    ensures size + HEADER <= m[b].size ==> !Split(m, hi, b, size)[b].prevFree
    ensures !Mark(m, hi, b, false)[b].prevFree
  {
    forall x | x in m ensures Apart(m, {Next(m, b)}, x) { assert Apart(m, {}, x); }
    PrevOfFree(m, lo, hi, b);
    assert Local(m, lo, hi, b);
  }

  /** The front of a divided block has no free neighbour to join. */
  lemma FrontStaysAlone(t: Memory, lo: nat, hi: nat, b: nat, a: nat)
    requires Tiled(t, lo, hi) && b in t && !t[b].free && !t[b].prevFree
    requires b + HEADER <= a && a + HEADER <= Next(t, b)
    ensures var s := Split(t, hi, b, a - b - HEADER); b in s && Freed(s, hi, b) == Mark(s, hi, b, true)
  {
    NextInside(t, lo, hi, b);
  }

  /** Releasing what is left of a block after its front has been released is releasing the block. */
  lemma FreeUndoesCarving(t: Memory, lo: nat, hi: nat, b: nat, a: nat)
    requires Tiled(t, lo, hi) && b in t && !t[b].free && !t[b].prevFree
    requires b + HEADER + BLOCK_MIN <= a && Multiple(a, 8) && a + HEADER + 8 <= Next(t, b)
    ensures var s := Split(t, hi, b, a - b - HEADER);
      b in s && a in Freed(s, hi, b) && Freed(Freed(s, hi, b), hi, a) == Freed(t, hi, b)
  {
    NextInside(t, lo, hi, b);
    FrontStaysAlone(t, lo, hi, b, a);
    GapAligned(b, a);
    AbsorbUndoesDivision(t, lo, hi, b, a - b - HEADER);
    var f := Mark(Mark(Split(t, hi, b, a - b - HEADER), hi, b, true), hi, a, true);
    var n := Next(t, b);
    assert Absorb(f, hi, b) == Mark(t, hi, b, true) && Next(f, a) == n && Next(f, b) == a;
    if n < hi && n in f && f[n].free { AbsorbAssociates(f, hi, b); }
  }

  /** p2align_up computes the multiple by masking. */
  lemma RoundUpMasks(x: nat, k: nat)
    ensures RoundUp(x, Pow2(k)) == High(x + Pow2(k) - 1, k)
  {
    var y := x + Pow2(k) - 1;
    UpLow(y, k);
    HighIsUp(y, k);
    DivUnique(y, Pow2(k), Up(y, k), Low(y, k));
  }

  lemma DivUnique(y: nat, p: nat, q: nat, r: nat)
    requires r < p && y == q * p + r
    ensures y / p == q
  {
    var d := y / p;
    assert d * p <= y < d * p + p == (d + 1) * p;
    CeilDiv(q, p, r, d);
    CeilDiv(d, p, 0, q);
    assert (q + 1) * p == q * p + p;
  }

  lemma {:induction false} HighIsUp(w: nat, k: nat)
    ensures High(w, k) == Up(w, k) * Pow2(k)
    decreases k
  {
    if k > 0 {
      HighIsUp(w / 2, k - 1);
      DoubleRight(Up(w, k), Pow2(k - 1));
    }
  }

  lemma DoubleRight(q: nat, p: nat)
    ensures q * (2 * p) == 2 * (q * p)
  {
  }

  /** A block that fills the heap keeps its size when the heap's end is a multiple of four. */
  lemma Truncated(lo: nat, hi: nat)
    requires Multiple(lo, 8) && lo + HEADER + 8 <= hi
    ensures var size := hi - lo - HEADER; size - size % 4 >= 8 && (size % 4 == 0 <==> hi % 4 == 0)
  {
    MultipleMod(lo);
  }

  lemma NoneListed(bins: Bins, a: nat)
    requires Listed(map[], bins, {})
    ensures forall d | d in bins :: a !in bins[d]
  {
    forall d | d in bins ensures a !in bins[d] { assert a in bins[d] ==> Member(map[], {}, d, a); }
  }

  lemma OneBlock(lo: nat, hi: nat, h: Header)
    requires lo > 0 && Multiple(lo, 8) && lo < hi && h.size >= 8 && h.prevPhys == 0
    ensures Tiled(map[lo := h], lo, hi) <==> lo + HEADER + h.size == hi && !h.prevFree
    ensures Settled(map[lo := h], {})
  {
    var m := map[lo := h];
    forall a | a in m ensures Apart(m, {}, a) { }
    assert Tiled(m, lo, hi) ==> Local(m, lo, hi, lo);
  }

  lemma OneListed(bins: Bins, c: Class, a: nat, h: Header)
    requires Listed(map[], bins, {}) && c in bins && h.free && c == ClassOf(h.size)
    ensures Listed(map[a := h], bins[c := [a] + bins[c]], {})
  {
    var m, bins' := map[a := h], bins[c := [a] + bins[c]];
    forall d, x | d in bins' && x in bins'[d] ensures Member(m, {}, d, x) {
      assert (x == a && d == c) || Member(map[], {}, d, x);
    }
    forall x ensures InList(m, bins', {}, x) { }
  }

  lemma LiveKeys(m: Memory, lo: nat, hi: nat, a: nat, b: nat)
    requires Tiled(m, lo, hi) && a in m && !m[a].free && a + HEADER <= b && b + HEADER <= Next(m, a)
    ensures b !in m
    ensures var s := Split(m, hi, a, b - a - HEADER);
      b in s && Next(s, b) == Next(m, a) && Live(s) - {a} == (Live(m) - {a})[b := s[b].size]
  {
    NextInside(m, lo, hi, a);
    if b in m { NoOverlap(m, lo, hi, a, b); }
    LiveSplit(m, hi, a, b - a - HEADER);
  }

  /** tlsf_align_up */
  method AlignUpEight(x: nat) returns (r: nat)
    ensures x <= r < x + 8 && Multiple(r, 8)
  {
    r := RoundUpEight(x);
    MultipleMod(r);
  }

  /** p2align_up */
  method AlignUp(x: nat, a: nat) returns (p: nat)
    requires a > 0 && IsPow2(a) && Multiple(x, 8)
    ensures x <= p < x + a && Multiple(p, a) && Multiple(p, 8)
  {
    p := RoundUp(x, a);
    RoundUpBounds(x, a);
    AlignedByEight(x, a);
  }

  lemma RoundUpBounds(x: nat, a: nat)
    requires a > 0
    ensures x <= RoundUp(x, a) < x + a && Multiple(RoundUp(x, a), a)
  {
    var q := (x + a - 1) / a;
    assert q * a <= x + a - 1 < q * a + a;
    TimesIsMultiple(q, a);
  }

  /** Rounding a multiple of eight up to a power of two leaves a multiple of eight. */
  lemma AlignedByEight(x: nat, a: nat)
    requires a > 0 && IsPow2(a) && Multiple(x, 8)
    ensures Multiple(RoundUp(x, a), 8)
  {
    if a == 1 || a == 2 || a == 4 {
      MultipleMod(x);
      SmallAlignment(x, x / 8);
    } else {
      EightDivides(a);
      RoundUpBounds(x, a);
      MultipleTrans(RoundUp(x, a), a, 8);
    }
  }

  lemma SmallAlignment(x: nat, k: nat)
    requires x == 8 * k
    ensures RoundUp(x, 1) == x && RoundUp(x, 2) == x && RoundUp(x, 4) == x
  {
    assert (8 * k + 1) / 2 == 4 * k && (8 * k + 3) / 4 == 2 * k;
  }

  lemma EightDivides(a: nat)
    requires a > 0 && IsPow2(a) && a != 1 && a != 2 && a != 4
    ensures Multiple(a, 8)
  {
    var b := a / 2;
    assert a == 2 * b && IsPow2(b);
    var c := b / 2;
    assert b == 2 * c && IsPow2(c);
    assert c == 2 * (c / 2);
    MultipleMod(a);
  }

  /** Giving a block out and taking it back restores every header. */
  lemma FreeUndoesTake(m: Memory, lo: nat, hi: nat, b: nat, size: nat)
    requires Tiled(m, lo, hi) && Settled(m, {}) && b in m && m[b].free && m[b].size >= size
    requires Multiple(size, 8) && size >= BLOCK_MIN
    ensures b in Taken(m, hi, b, size) && Freed(Taken(m, hi, b, size), hi, b) == m
  {
    if m[b].size >= size + HEADER + BLOCK_MIN {
      FreeUndoesCut(m, lo, hi, b, size);
    } else {
      FreeUndoesMark(m, lo, hi, b);
    }
  }

  /** A free block has no free block before or after it. */
  lemma NoPrevFree(m: Memory, lo: nat, hi: nat, b: nat)
    requires Tiled(m, lo, hi) && Settled(m, {}) && b in m && m[b].free
    ensures !m[b].prevFree && (Next(m, b) in m ==> !m[Next(m, b)].free)
  {
    assert Local(m, lo, hi, b);
    assert Apart(m, {}, b);
    forall x | x in m ensures Apart(m, {Next(m, b)}, x) { assert Apart(m, {}, x); }
    PrevOfFree(m, lo, hi, b);
  }

  lemma FreeUndoesMark(m: Memory, lo: nat, hi: nat, b: nat)
    requires Tiled(m, lo, hi) && Settled(m, {}) && b in m && m[b].free
    ensures b in Mark(m, hi, b, false) && Freed(Mark(m, hi, b, false), hi, b) == m
  {
    NoPrevFree(m, lo, hi, b);
    UnmarkUndone(m, lo, hi, b);
  }

  lemma FreeUndoesCut(m: Memory, lo: nat, hi: nat, b: nat, size: nat)
    requires Tiled(m, lo, hi) && Settled(m, {}) && b in m && m[b].free && m[b].size >= size + HEADER + BLOCK_MIN
    requires Multiple(size, 8) && size >= BLOCK_MIN
    ensures b in Split(m, hi, b, size) && Freed(Split(m, hi, b, size), hi, b) == m
  {
    NoPrevFree(m, lo, hi, b);
    AbsorbUndoesSplit(m, lo, hi, b, size);
    NextInside(m, lo, hi, b);
    FreedByAbsorbing(Split(m, hi, b, size), hi, b, m);
  }

  lemma FreedByAbsorbing(s: Memory, hi: nat, b: nat, m: Memory)
    requires b in s && Next(s, b) in s && Next(s, b) < hi && Next(s, b) != b && s[Next(s, b)].free
    requires Next(Mark(s, hi, b, true), b) in Mark(s, hi, b, true) && Absorb(Mark(s, hi, b, true), hi, b) == m
    requires b in m && !m[b].prevFree
    ensures Freed(s, hi, b) == m
  {
    assert MergedNext(Mark(s, hi, b, true), hi, b) == m;
  }

  function MergedNext(m: Memory, hi: nat, a: nat): (r: Memory)
    requires a in m
    ensures a in r
  {
    var n := Next(m, a);
    if n < hi && n in m && m[n].free then Absorb(m, hi, a) else m
  }

  function MergedPrev(m: Memory, hi: nat, a: nat): Memory
    requires a in m
  {
    var p := m[a].prevPhys;
    if m[a].prevFree && p in m && m[p].free && Next(m, p) == a then Absorb(m, hi, p) else m
  }

  /** Headers after the live block a has been released. */
  function Freed(m: Memory, hi: nat, a: nat): Memory
    requires a in m
  {
    MergedPrev(MergedNext(Mark(m, hi, a, true), hi, a), hi, a)
  }

  lemma LiveFreed(m: Memory, hi: nat, a: nat)
    requires a in m
    ensures Live(Freed(m, hi, a)) == Live(m) - {a}
  {
    LiveMark(m, hi, a);
    LiveMergedNext(Mark(m, hi, a, true), hi, a);
    LiveMergedPrev(MergedNext(Mark(m, hi, a, true), hi, a), hi, a);
  }

  lemma LiveMergedNext(m: Memory, hi: nat, a: nat)
    requires a in m && m[a].free
    ensures MergedNext(m, hi, a)[a].free && Live(MergedNext(m, hi, a)) == Live(m)
  {
    var n := Next(m, a);
    if n < hi && n in m && m[n].free { LiveAbsorb(m, hi, a); }
  }

  lemma LiveMergedPrev(m: Memory, hi: nat, a: nat)
    requires a in m && m[a].free
    ensures Live(MergedPrev(m, hi, a)) == Live(m)
  {
    var p := m[a].prevPhys;
    if m[a].prevFree && p in m && m[p].free && Next(m, p) == a { LiveAbsorb(m, hi, p); }
  }
}
