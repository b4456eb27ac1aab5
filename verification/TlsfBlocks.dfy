/** The physical side of the two-level segregated-fit heap: block headers tiling an address range, and
    what splitting, marking and joining blocks do to them. */
module TlsfBlocks {
  import opened Bits

  const HEADER: nat := 32
  const BLOCK_MIN: nat := 16

  /** The boundary fields of struct tlsf_block. */
  datatype Header = Header(size: nat, free: bool, prevFree: bool, prevPhys: nat)

  type Memory = map<nat, Header>

  /** The size word of a header: sizes are multiples of four, which leaves its two low bits for the
      flags. */
  function Pack(h: Header): nat {
    h.size + (if h.free then 1 else 0) + (if h.prevFree then 2 else 0)
  }

  /** tlsf_set_block_size */
  function SetSize(word: nat, size: nat): nat { High(size, 2) + Low(word, 2) }

  /** The macros that read the word read the fields. */
  lemma PackReads(h: Header)
    requires h.size % 4 == 0
    ensures High(Pack(h), 2) == h.size && (Test(Pack(h), 0) <==> h.free) && (Test(Pack(h), 1) <==> h.prevFree)
  {
    assert High(Pack(h), 2) == 2 * High(Pack(h) / 2, 1) == 4 * (Pack(h) / 2 / 2);
    assert Test(Pack(h), 1) == Test(Pack(h) / 2, 0);
  }

  /** The macros that write the word write one field. */
  lemma PackFlags(h: Header)
    requires h.size % 4 == 0
    ensures Set(Pack(h), 0) == Pack(h.(free := true)) && Clear(Pack(h), 0) == Pack(h.(free := false))
    ensures Set(Pack(h), 1) == Pack(h.(prevFree := true)) && Clear(Pack(h), 1) == Pack(h.(prevFree := false))
  {
    var w := Pack(h);
    assert Set(w, 1) == w % 2 + 2 * Set(w / 2, 0) && Clear(w, 1) == w % 2 + 2 * Clear(w / 2, 0);
  }

  /** A size loses its remainder by four, and the flags stay. */
  lemma PackSize(h: Header, size: nat)
    requires h.size % 4 == 0
    ensures SetSize(Pack(h), size) == Pack(h.(size := size - size % 4))
  {
    HighTwo(size);
    LowTwo(Pack(h));
    FlagBits(h.size, Pack(h) - h.size);
  }

  lemma HighTwo(n: nat)
    ensures High(n, 2) == n - n % 4
  {
    assert High(n, 2) == 2 * High(n / 2, 1) == 4 * (n / 2 / 2);
  }

  lemma LowTwo(n: nat)
    ensures Low(n, 2) == n % 4
  {
    assert Low(n, 2) == n % 2 + 2 * Low(n / 2, 1) && Low(n / 2, 1) == n / 2 % 2 + 2 * Low(n / 2 / 2, 0);
  }

  lemma FlagBits(size: nat, flags: nat)
    requires size % 4 == 0 && flags < 4
    ensures (size + flags) % 4 == flags
  {
  }

  function Next(m: Memory, a: nat): nat
    requires a in m
  {
    a + HEADER + m[a].size
  }

  // ---------------------------------------------------------------------------
  // Alignment
  // ---------------------------------------------------------------------------

  /** p is a multiple of a. */
  predicate Multiple(p: nat, a: nat)
    requires a > 0
  {
    p == 0 || (p >= a && Multiple(p - a, a))
  }

  lemma {:induction false} MultipleAdd(p: nat, q: nat, a: nat)
    requires a > 0 && Multiple(q, a)
    ensures Multiple(p + q, a) <==> Multiple(p, a)
    decreases q
  {
    if q > 0 {
      MultipleAdd(p, q - a, a);
      assert p + q >= a && p + q - a == p + (q - a);
    }
  }

  lemma {:induction false} TimesIsMultiple(k: nat, a: nat)
    requires a > 0
    ensures Multiple(k * a, a)
  {
    if k > 0 {
      TimesIsMultiple(k - 1, a);
      assert k * a == (k - 1) * a + a;
    }
  }

  lemma {:induction false} MultipleTrans(p: nat, a: nat, b: nat)
    requires a > 0 && b > 0 && Multiple(p, a) && Multiple(a, b)
    ensures Multiple(p, b)
    decreases p
  {
    if p > 0 {
      MultipleTrans(p - a, a, b);
      MultipleAdd(p - a, a, b);
    }
  }

  /** The offset of a payload from its header keeps the alignment. */
  lemma HeaderAligned(a: nat)
    ensures Multiple(a + HEADER, 8) <==> Multiple(a, 8)
  {
    MultipleAdd(a, HEADER, 8);
  }

  /** The room between two headers is a multiple of eight. */
  lemma GapAligned(a: nat, b: nat)
    requires Multiple(a, 8) && Multiple(b, 8) && a + HEADER <= b
    ensures Multiple(b - a - HEADER, 8)
  {
    HeaderAligned(a);
    MultipleAdd(b - a - HEADER, a + HEADER, 8);
  }

  lemma {:induction false} MultipleMod(p: nat)
    ensures Multiple(p, 8) <==> p % 8 == 0
  {
    if p >= 8 { MultipleMod(p - 8); }
  }

  lemma {:induction false} MultipleByFour(p: nat)
    requires Multiple(p, 8)
    ensures p % 4 == 0
  {
    if p > 0 { MultipleByFour(p - 8); }
  }

  // ---------------------------------------------------------------------------
  // Tiling
  // ---------------------------------------------------------------------------

  /** The block after a knows where a is and whether it is free. */
  ghost predicate NextOk(m: Memory, hi: nat, a: nat)
    requires a in m
  {
    var n := Next(m, a);
    n == hi || (n in m && m[n].prevPhys == a && m[n].prevFree == m[a].free)
  }

  ghost predicate PrevOk(m: Memory, lo: nat, a: nat)
    requires a in m
  {
    if a == lo then m[a].prevPhys == 0 && !m[a].prevFree
    else m[a].prevPhys in m && Next(m, m[a].prevPhys) == a
  }

  ghost predicate Local(m: Memory, lo: nat, hi: nat, a: nat)
    requires a in m
  {
    lo <= a < hi && Multiple(a, 8) && m[a].size >= 8 && NextOk(m, hi, a) && PrevOk(m, lo, a)
  }

  ghost predicate Tiled(m: Memory, lo: nat, hi: nat) {
    lo > 0 && lo in m && forall a {:trigger Local(m, lo, hi, a)} | a in m :: Local(m, lo, hi, a)
  }

  /** Apart from the blocks of ex, no two neighbours are both free. */
  ghost predicate Settled(m: Memory, ex: set<nat>) {
    forall a {:trigger Apart(m, ex, a)} | a in m :: Apart(m, ex, a)
  }

  ghost predicate Apart(m: Memory, ex: set<nat>, a: nat)
    requires a in m
  {
    var n := Next(m, a);
    m[a].free && n in m && m[n].free ==> a in ex || n in ex
  }

  /** Blocks do not overlap. */
  lemma {:induction false} NoOverlap(m: Memory, lo: nat, hi: nat, a: nat, b: nat)
    requires Tiled(m, lo, hi) && a in m && b in m && a < b
    ensures Next(m, a) <= b
    decreases b
  {
    assert Local(m, lo, hi, b) && Local(m, lo, hi, a);
    var p := m[b].prevPhys;
    if a < p {
      assert Local(m, lo, hi, p);
      NoOverlap(m, lo, hi, a, p);
    } else if p < a {
      NoOverlap(m, lo, hi, p, a);
    }
  }

  /** The block a byte of the heap belongs to. */
  lemma {:induction false} Owner(m: Memory, lo: nat, hi: nat, x: nat, from: nat) returns (a: nat)
    requires Tiled(m, lo, hi) && from in m && from <= x < hi
    ensures a in m && a <= x < Next(m, a)
    decreases x - from
  {
    assert Local(m, lo, hi, from);
    if x < Next(m, from) { a := from; } else { a := Owner(m, lo, hi, x, Next(m, from)); }
  }

  ghost predicate Covers(m: Memory, a: nat, x: nat) { a in m && a <= x < Next(m, a) }

  /** The headers with their sizes tile the heap: every byte belongs to exactly one block, and no block
      sticks out. */
  lemma ExactTiling(m: Memory, lo: nat, hi: nat, x: nat)
    requires Tiled(m, lo, hi)
    ensures lo <= x < hi <==> exists a :: Covers(m, a, x)
    ensures forall a, b | Covers(m, a, x) && Covers(m, b, x) :: a == b
  {
    if lo <= x < hi {
      var a := Owner(m, lo, hi, x, lo);
      assert Covers(m, a, x);
    }
    forall a | Covers(m, a, x) ensures lo <= x < hi {
      assert Local(m, lo, hi, a);
      if Next(m, a) != hi { assert Local(m, lo, hi, Next(m, a)); }
    }
    forall a, b | Covers(m, a, x) && Covers(m, b, x) ensures a == b {
      if a < b { NoOverlap(m, lo, hi, a, b); }
      if b < a { NoOverlap(m, lo, hi, b, a); }
    }
  }

  lemma SizeBound(m: Memory, lo: nat, hi: nat, a: nat)
    requires Tiled(m, lo, hi) && a in m
    ensures Next(m, a) <= hi && m[a].size < hi - lo
  {
    assert Local(m, lo, hi, a);
    if Next(m, a) != hi { assert Local(m, lo, hi, Next(m, a)); }
  }

  /** In a heap whose end is a multiple of four, sizes leave the two low bits of their word free. */
  lemma SizePacks(m: Memory, lo: nat, hi: nat, a: nat)
    requires Tiled(m, lo, hi) && a in m && hi % 4 == 0
    ensures m[a].size % 4 == 0
  {
    ByFour(m, lo, hi, a);
    if Next(m, a) != hi {
      assert Local(m, lo, hi, a);
      ByFour(m, lo, hi, Next(m, a));
    }
    Difference(a, m[a].size);
  }

  lemma ByFour(m: Memory, lo: nat, hi: nat, a: nat)
    requires Tiled(m, lo, hi) && a in m
    ensures a % 4 == 0
  {
    assert Local(m, lo, hi, a);
    MultipleByFour(a);
  }

  lemma Difference(a: nat, size: nat)
    requires a % 4 == 0 && (a + HEADER + size) % 4 == 0
    ensures size % 4 == 0
  {
  }

  // ---------------------------------------------------------------------------
  // Operations on headers
  // ---------------------------------------------------------------------------

  /** __tlsf_mark_free and __tlsf_unmark_free */
  function Mark(m: Memory, hi: nat, a: nat, free: bool): Memory
    requires a in m
  {
    var n := Next(m, a);
    var marked := m[a := m[a].(free := free)];
    if n < hi && n in m then marked[n := marked[n].(prevFree := free)] else marked
  }

  /** Cuts block a after size bytes.  The part that is cut off is free when a was; a is not. */
  function Split(m: Memory, hi: nat, a: nat, size: nat): Memory
    requires a in m && size + HEADER <= m[a].size
  {
    var n, c := Next(m, a), a + HEADER + size;
    var cut := m[a := Header(size, false, m[a].prevFree, m[a].prevPhys)][
                 c := Header(m[a].size - size - HEADER, m[a].free, false, a)];
    if n < hi && n in m then cut[n := m[n].(prevPhys := c)] else cut
  }

  /** Joins the block after a to a. */
  function Absorb(m: Memory, hi: nat, a: nat): Memory
    requires a in m && Next(m, a) in m
  {
    var n := Next(m, a);
    var nn := Next(m, n);
    var grown := (m - {n})[a := m[a].(size := m[a].size + HEADER + m[n].size)];
    if nn < hi && nn in m then grown[nn := m[nn].(prevPhys := a)] else grown
  }

  lemma NextInside(m: Memory, lo: nat, hi: nat, a: nat)
    requires Tiled(m, lo, hi) && a in m
    ensures Next(m, a) <= hi && (Next(m, a) < hi ==> Next(m, a) in m && Local(m, lo, hi, Next(m, a)))
    ensures Local(m, lo, hi, a) && hi !in m
  {
    SizeBound(m, lo, hi, a);
    assert Local(m, lo, hi, a);
    assert hi in m ==> Local(m, lo, hi, hi);
  }

  lemma MarkTiled(m: Memory, lo: nat, hi: nat, a: nat, free: bool)
    requires Tiled(m, lo, hi) && a in m
    ensures Tiled(Mark(m, hi, a, free), lo, hi)
  {
    NextInside(m, lo, hi, a);
    var m' := Mark(m, hi, a, free);
    forall x | x in m' ensures Local(m', lo, hi, x) { assert Local(m, lo, hi, x); }
  }

  lemma SplitTiled(m: Memory, lo: nat, hi: nat, a: nat, size: nat)
    requires Tiled(m, lo, hi) && a in m && Multiple(size, 8) && size >= 8 && size + HEADER + 8 <= m[a].size
    ensures a + HEADER + size !in m
    ensures Tiled(Split(m, hi, a, size), lo, hi)
  {
    NextInside(m, lo, hi, a);
    var n, c := Next(m, a), a + HEADER + size;
    MultipleAdd(a + HEADER, size, 8);
    HeaderAligned(a);
    if c in m { NoOverlap(m, lo, hi, a, c); }
    var m' := Split(m, hi, a, size);
    assert Next(m', c) == n;
    forall x | x in m' ensures Local(m', lo, hi, x) {
      if x != c {
        assert Local(m, lo, hi, x);
        if x != a && x != n { SplitOther(m, lo, hi, a, size, x); }
      }
    }
  }

  lemma SplitOther(m: Memory, lo: nat, hi: nat, a: nat, size: nat, x: nat)
    requires Tiled(m, lo, hi) && a in m && size + HEADER <= m[a].size && a + HEADER + size !in m
    requires x in m && x != a && x != Next(m, a)
    ensures var m' := Split(m, hi, a, size); x in m' && Local(m', lo, hi, x)
  {
    NextInside(m, lo, hi, a);
    assert Local(m, lo, hi, x);
    var m' := Split(m, hi, a, size);
    assert m'[x] == m[x];
  }

  lemma AbsorbTiled(m: Memory, lo: nat, hi: nat, a: nat)
    requires Tiled(m, lo, hi) && a in m && Next(m, a) in m && m[a].free == m[Next(m, a)].free
    ensures Tiled(Absorb(m, hi, a), lo, hi)
  {
    NextInside(m, lo, hi, a);
    var n := Next(m, a);
    NextInside(m, lo, hi, n);
    var m' := Absorb(m, hi, a);
    assert Next(m', a) == Next(m, n);
    forall x | x in m' ensures Local(m', lo, hi, x) {
      assert Local(m, lo, hi, x);
      assert x != lo ==> m[x].prevPhys == n || m'[x].prevPhys == m[x].prevPhys;
    }
  }

  // ---------------------------------------------------------------------------
  // Neighbours that are both free
  // ---------------------------------------------------------------------------

  ghost predicate NextBusy(m: Memory, a: nat)
    requires a in m
  {
    Next(m, a) in m ==> !m[Next(m, a)].free
  }

  lemma MarkSettled(m: Memory, lo: nat, hi: nat, a: nat)
    requires Tiled(m, lo, hi) && a in m && Settled(m, {})
    ensures Settled(Mark(m, hi, a, true), {a}) && Settled(Mark(m, hi, a, false), {})
  {
    NextInside(m, lo, hi, a);
    var f, b := Mark(m, hi, a, true), Mark(m, hi, a, false);
    forall x | x in f ensures Apart(f, {a}, x) { assert Apart(m, {}, x); }
    forall x | x in b ensures Apart(b, {}, x) { assert Apart(m, {}, x); }
  }

  lemma SplitSettled(m: Memory, lo: nat, hi: nat, a: nat, size: nat)
    requires Tiled(m, lo, hi) && a in m && size + HEADER <= m[a].size && a + HEADER + size !in m && Settled(m, {})
    ensures Settled(Split(m, hi, a, size), {})
  {
    NextInside(m, lo, hi, a);
    var m' := Split(m, hi, a, size);
    assert Apart(m, {}, a);
    forall x | x in m' ensures Apart(m', {}, x) {
      if x in m {
        assert Apart(m, {}, x);
        NextInside(m, lo, hi, x);
      }
    }
  }

  /** Joining a free block to the free block before it. */
  lemma AbsorbSettled(m: Memory, lo: nat, hi: nat, a: nat, ex: set<nat>)
    requires Tiled(m, lo, hi) && a in m && Next(m, a) in m && ex <= {a, Next(m, a)} && Settled(m, ex)
    ensures Settled(Absorb(m, hi, a), {a})
  {
    NextInside(m, lo, hi, a);
    var n := Next(m, a);
    NextInside(m, lo, hi, n);
    var m' := Absorb(m, hi, a);
    forall x | x in m' ensures Apart(m', {a}, x) {
      assert Apart(m, ex, x);
      NextInside(m, lo, hi, x);
    }
  }

  /** Once its neighbours are busy, a block is no longer an exception. */
  lemma NowSettled(m: Memory, lo: nat, hi: nat, a: nat)
    requires Tiled(m, lo, hi) && a in m && Settled(m, {a}) && NextBusy(m, a)
    requires !m[a].prevFree
    ensures Settled(m, {})
  {
    assert Local(m, lo, hi, a);
    if a != lo { assert Local(m, lo, hi, m[a].prevPhys); }
    forall x | x in m ensures Apart(m, {}, x) {
      assert Apart(m, {a}, x);
      assert Local(m, lo, hi, x);
    }
  }

  /** The block before a free block is busy. */
  lemma PrevOfFree(m: Memory, lo: nat, hi: nat, p: nat)
    requires Tiled(m, lo, hi) && p in m && m[p].free && Settled(m, {Next(m, p)})
    ensures !m[p].prevFree
  {
    assert Local(m, lo, hi, p);
    if p != lo {
      var pp := m[p].prevPhys;
      assert Local(m, lo, hi, pp) && Apart(m, {Next(m, p)}, pp);
    }
  }

  // ---------------------------------------------------------------------------
  // Freeing
  // ---------------------------------------------------------------------------

  /** Cutting a free block and then joining the pieces again restores every header. */
  lemma AbsorbUndoesSplit(m: Memory, lo: nat, hi: nat, a: nat, size: nat)
    requires Tiled(m, lo, hi) && a in m && m[a].free
    requires Multiple(size, 8) && size >= 8 && size + HEADER + 8 <= m[a].size
    ensures var s := Split(m, hi, a, size);
      && a in s && Next(s, a) in s && s[Next(s, a)].free && Next(s, Next(s, a)) == Next(m, a)
      && Absorb(Mark(s, hi, a, true), hi, a) == m
  {
    NextInside(m, lo, hi, a);
    SplitTiled(m, lo, hi, a, size);
    var s := Split(m, hi, a, size);
    var c := a + HEADER + size;
    SizeBound(s, lo, hi, c);
    assert Next(s, a) == c && Next(s, c) == Next(m, a);
    var f := Mark(s, hi, a, true);
    assert Next(f, c) == Next(m, a);
    var r := Absorb(f, hi, a);
    forall x ensures x in r <==> x in m { }
    forall x | x in m ensures r[x] == m[x] { }
    assert r == m;
  }

  lemma UnmarkUndone(m: Memory, lo: nat, hi: nat, a: nat)
    requires Tiled(m, lo, hi) && a in m && m[a].free
    ensures Mark(Mark(m, hi, a, false), hi, a, true) == m
  {
    NextInside(m, lo, hi, a);
    var r := Mark(Mark(m, hi, a, false), hi, a, true);
    forall x | x in m ensures r[x] == m[x] { }
    assert r == m;
  }

  lemma DivisionShape(m: Memory, lo: nat, hi: nat, a: nat, size: nat)
    requires Tiled(m, lo, hi) && a in m && !m[a].free
    requires Multiple(size, 8) && size >= 8 && size + HEADER + 8 <= m[a].size
    ensures var s := Mark(Split(m, hi, a, size), hi, a, true); var c := a + HEADER + size;
      && c !in m && a in s && c in s && Next(s, a) == c && Next(s, c) == Next(m, a)
      && s[c] == Header(m[a].size - size - HEADER, false, true, a)
  {
    NextInside(m, lo, hi, a);
    SplitTiled(m, lo, hi, a, size);
  }

  /** Dividing a live block, releasing the first part and then joining it to the second, once that is
      free too, restores the block's header as a free block's. */
  lemma AbsorbUndoesDivision(m: Memory, lo: nat, hi: nat, a: nat, size: nat)
    requires Tiled(m, lo, hi) && a in m && !m[a].free
    requires Multiple(size, 8) && size >= 8 && size + HEADER + 8 <= m[a].size
    ensures var s := Mark(Split(m, hi, a, size), hi, a, true); var c := a + HEADER + size;
      && a in s && c in s && Next(s, a) == c && Next(s, c) == Next(m, a)
      && s[c] == Header(m[a].size - size - HEADER, false, true, a)
      && Absorb(Mark(s, hi, c, true), hi, a) == Mark(m, hi, a, true)
  {
    NextInside(m, lo, hi, a);
    DivisionShape(m, lo, hi, a, size);
    var s := Mark(Split(m, hi, a, size), hi, a, true);
    var r := Absorb(Mark(s, hi, a + HEADER + size, true), hi, a);
    var t := Mark(m, hi, a, true);
    forall x ensures x in r <==> x in t { }
    forall x | x in t ensures r[x] == t[x] { }
    assert r == t;
  }

  /** Joining three blocks from the back or from the front is the same. */
  lemma AbsorbAssociates(m: Memory, hi: nat, a: nat)
    requires a in m && Next(m, a) in m && Next(m, Next(m, a)) in m && Next(m, Next(m, a)) < hi
    ensures var b := Next(m, a);
      && Next(Absorb(m, hi, b), a) == b && b in Absorb(m, hi, b)
      && Next(Absorb(m, hi, a), a) == Next(m, b) && Next(m, b) in Absorb(m, hi, a)
      && Absorb(Absorb(m, hi, b), hi, a) == Absorb(Absorb(m, hi, a), hi, a)
  {
    var b := Next(m, a);
    var n := Next(m, b);
    assert Next(Absorb(m, hi, b), b) == Next(m, n) == Next(Absorb(m, hi, a), n);
    var l, r := Absorb(Absorb(m, hi, b), hi, a), Absorb(Absorb(m, hi, a), hi, a);
    forall x ensures x in l <==> x in r { }
    forall x | x in l ensures l[x] == r[x] { }
    assert l == r;
  }
}
