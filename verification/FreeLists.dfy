/** The free lists of the two-level segregated-fit allocator: doubly linked lists threaded through the
    free blocks, one for each size class, and the two-level bitmap of the non-empty ones. */
module FreeLists {
  import opened Bits
  import opened Links
  import opened Seqs
  import opened TlsfClasses

  // ---------------------------------------------------------------------------
  // The bitmaps
  // ---------------------------------------------------------------------------

  /** Both bitmap levels say which lists are not empty. */
  ghost predicate BitsExact(fl: nat, sl: seq<nat>, lists: map<Class, seq<nat>>) {
    && |sl| == FL_COUNT
    && (forall f: nat | f < FL_COUNT :: RowExact(sl[f], f, lists))
    && (forall f: nat :: Test(fl, f) <==> f < FL_COUNT && sl[f] != 0)
  }

  ghost predicate RowExact(row: nat, f: nat, lists: map<Class, seq<nat>>) {
    && (forall j: nat :: Test(row, j) ==> j < SL_COUNT)
    && (forall c | c in lists && c.fl == f :: Test(row, c.sl) <==> lists[c] != [])
  }

  lemma RowSet(row: nat, lists: map<Class, seq<nat>>, c: Class, s: seq<nat>)
    requires RowExact(row, c.fl, lists) && InRange(c) && s != []
    ensures RowExact(Set(row, c.sl), c.fl, lists[c := s])
    ensures Set(row, c.sl) != 0
  {
    var row' := Set(row, c.sl);
    forall j: nat ensures Test(row', j) <==> c.sl == j || Test(row, j) { SetBit(row, c.sl, j); }
    if row' == 0 { ZeroBit(c.sl); }
  }

  lemma RowClear(row: nat, lists: map<Class, seq<nat>>, c: Class)
    requires RowExact(row, c.fl, lists) && InRange(c)
    ensures RowExact(Clear(row, c.sl), c.fl, lists[c := []])
  {
    var row' := Clear(row, c.sl);
    forall j: nat ensures Test(row', j) <==> c.sl != j && Test(row, j) { ClearBit(row, c.sl, j); }
  }

  /** Setting both bits of a class whose list becomes non-empty. */
  lemma BitsSet(fl: nat, sl: seq<nat>, lists: map<Class, seq<nat>>, c: Class, s: seq<nat>)
    requires BitsExact(fl, sl, lists) && InRange(c) && s != []
    ensures BitsExact(Set(fl, c.fl), sl[c.fl := Set(sl[c.fl], c.sl)], lists[c := s])
  {
    var lists' := lists[c := s];
    RowSet(sl[c.fl], lists, c, s);
    forall f: nat | f < FL_COUNT && f != c.fl ensures RowExact(sl[f], f, lists') {
      assert RowExact(sl[f], f, lists);
    }
    forall f: nat ensures Test(Set(fl, c.fl), f) <==> c.fl == f || Test(fl, f) { SetBit(fl, c.fl, f); }
  }

  /** Clearing the bit of a class whose list becomes empty, and that of its row with the last list. */
  lemma BitsClear(fl: nat, sl: seq<nat>, lists: map<Class, seq<nat>>, c: Class)
    requires BitsExact(fl, sl, lists) && c in lists && InRange(c) && lists[c] != []
    ensures var row := Clear(sl[c.fl], c.sl);
      BitsExact(if row == 0 then Clear(fl, c.fl) else fl, sl[c.fl := row], lists[c := []])
  {
    var lists' := lists[c := []];
    RowClear(sl[c.fl], lists, c);
    ZeroBit(c.sl);
    forall f: nat | f < FL_COUNT && f != c.fl ensures RowExact(sl[f], f, lists') {
      assert RowExact(sl[f], f, lists);
    }
    forall f: nat ensures Test(Clear(fl, c.fl), f) <==> c.fl != f && Test(fl, f) { ClearBit(fl, c.fl, f); }
  }

  /** Nothing changes in the bitmaps while the list stays non-empty. */
  lemma BitsKept(fl: nat, sl: seq<nat>, lists: map<Class, seq<nat>>, c: Class, s: seq<nat>)
    requires BitsExact(fl, sl, lists) && c in lists && s != [] && lists[c] != []
    ensures BitsExact(fl, sl, lists[c := s])
  {
    forall f: nat | f < FL_COUNT ensures RowExact(sl[f], f, lists[c := s]) {
      assert RowExact(sl[f], f, lists);
    }
  }

  // ---------------------------------------------------------------------------
  // All lists
  // ---------------------------------------------------------------------------

  class Lists {
    var heads: map<Class, nat>
    var links: map<nat, Link>
    var flBitmap: nat
    var slBitmaps: seq<nat>
    ghost var lists: map<Class, seq<nat>>

    ghost predicate ListAt(c: Class)
      reads this
    {
      c in heads && c in lists && Linked(links, heads[c], lists[c])
    }

    ghost predicate Valid()
      reads this
    {
      && (forall c :: c in lists <==> InRange(c))
      && (forall c | c in lists :: ListAt(c))
      && BitsExact(flBitmap, slBitmaps, lists)
      && Disjoint(lists)
    }

    /** A zeroed struct tlsf. */
    constructor ()
      ensures Valid() && forall c | InRange(c) :: lists[c] == []
    {
      heads := map f, s | 0 <= f < FL_COUNT && 0 <= s < SL_COUNT :: Class(f, s) := NULL;
      lists := map f, s | 0 <= f < FL_COUNT && 0 <= s < SL_COUNT :: Class(f, s) := [];
      links := map[];
      flBitmap := 0;
      slBitmaps := seq(FL_COUNT, _ => 0);
      forall j: nat ensures !Test(0, j) { ZeroBit(j); }
    }

    /** __tlsf_insert_free_block */
    method Insert(b: nat, c: Class)
      requires Valid() && InRange(c) && b != NULL
      requires forall d | d in lists :: b !in lists[d]
      modifies this
      ensures Valid()
      ensures lists == old(lists)[c := [b] + old(lists[c])]
    {
      ghost var s := lists[c];
      assert ListAt(c);
      Pushed(links, b, heads[c], s);
      BitsSet(flBitmap, slBitmaps, lists, c, [b] + s);
      StillDisjoint(lists, c, [b] + s);
      forall d | d in lists && d != c ensures Linked(PushLinks(links, b, heads[c]), heads[d], lists[d]) {
        assert ListAt(d);
        PushedOther(links, b, heads[c], s, heads[d], lists[d]);
      }
      var cur := heads[c];
      links := PushLinks(links, b, cur);
      heads := heads[c := b];
      flBitmap := Set(flBitmap, c.fl);
      slBitmaps := slBitmaps[c.fl := Set(slBitmaps[c.fl], c.sl)];
      lists := lists[c := [b] + s];
      forall d | d in lists ensures ListAt(d) { assert old(ListAt(d)); }
    }

    /** __tlsf_remove_free_block */
    method Remove(b: nat, c: Class)
      requires Valid() && c in lists && b in lists[c]
      modifies this
      ensures Valid()
      ensures lists == old(lists)[c := Without(old(lists[c]), b)]
    {
      ghost var s := lists[c];
      assert ListAt(c);
      ghost var i: nat :| i < |s| && s[i] == b;
      Removed(links, heads[c], s, i);
      Shrunk(lists, c, i);
      if |s| > 1 { BitsKept(flBitmap, slBitmaps, lists, c, Without(s, b)); }
      RemovedOthers(c, i);
      var next := links[b].next;
      links := RemoveLinks(links, b);
      if heads[c] == b {
        heads := heads[c := next];
        if next == NULL { Unset(c); }
      }
      lists := lists[c := Without(s, b)];
      forall d | d in lists ensures ListAt(d) { assert old(ListAt(d)); }
    }

    lemma RemovedOthers(c: Class, i: nat)
      requires Valid() && c in lists && i < |lists[c]|
      ensures Node(links, lists[c], i)
      ensures i > 0 ==> Node(links, lists[c], i - 1)
      ensures i + 1 < |lists[c]| ==> Node(links, lists[c], i + 1)
      ensures forall d | d in lists && d != c :: d in heads && Linked(RemoveLinks(links, lists[c][i]), heads[d], lists[d])
    {
      assert ListAt(c);
      Removed(links, heads[c], lists[c], i);
      forall d | d in lists && d != c
        ensures d in heads && Linked(RemoveLinks(links, lists[c][i]), heads[d], lists[d])
      {
        assert ListAt(d);
        RemovedOther(links, heads[c], lists[c], i, heads[d], lists[d]);
      }
    }

    /** The bits of a class whose last block has been removed. */
    method Unset(c: Class)
      requires BitsExact(flBitmap, slBitmaps, lists) && c in lists && InRange(c) && lists[c] != []
      modifies this`flBitmap, this`slBitmaps
      ensures BitsExact(flBitmap, slBitmaps, lists[c := []])
    {
      BitsClear(flBitmap, slBitmaps, lists, c);
      slBitmaps := slBitmaps[c.fl := Clear(slBitmaps[c.fl], c.sl)];
      if slBitmaps[c.fl] == 0 { flBitmap := Clear(flBitmap, c.fl); }
    }

    /** __tlsf_search_suitable_block: the first block of the least non-empty class from c upwards. */
    method Search(c: Class) returns (found: bool, d: Class, b: nat)
      requires Valid() && InRange(c)
      ensures found <==> exists e | e in lists :: AtMost(c, e) && lists[e] != []
      ensures found ==> d in lists && AtMost(c, d) && lists[d] != [] && b == lists[d][0]
      ensures found ==> forall e | e in lists && AtMost(c, e) && lists[e] != [] :: AtMost(d, e)
    {
      var fl := c.fl;
      var row := High(slBitmaps[fl], c.sl);
      forall j: nat ensures Test(row, j) <==> j >= c.sl && Test(slBitmaps[fl], j) { HighBit(slBitmaps[fl], c.sl, j); }
      d, b := c, NULL;
      if row == 0 {
        var rows := High(flBitmap, fl + 1);
        forall j: nat ensures Test(rows, j) <==> j > fl && Test(flBitmap, j) { HighBit(flBitmap, fl + 1, j); }
        NothingInRow(slBitmaps, lists, c, row);
        if rows == 0 {
          found := false;
          NothingAbove(flBitmap, slBitmaps, lists, c, rows);
          return;
        }
        Bounded(rows, 32);
        fl := Ffs32(rows);
        NothingBetween(flBitmap, slBitmaps, lists, c, rows, fl);
        row := slBitmaps[fl];
      }
      Bounded(row, 32);
      var sl := Ffs32(row);
      d := Class(fl, sl);
      assert ListAt(d);
      b := heads[d];
      found := true;
      forall e | e in lists && AtMost(c, e) && lists[e] != [] ensures AtMost(d, e) {
        if e.fl == fl { assert Test(slBitmaps[fl], e.sl); }
      }
    }
  }

  lemma Shrunk(lists: map<Class, seq<nat>>, c: Class, i: nat)
    requires Disjoint(lists) && c in lists && NoDup(lists[c]) && i < |lists[c]|
    ensures var s := lists[c]; Without(s, s[i]) == s[..i] + s[i + 1..] && Disjoint(lists[c := Without(s, s[i])])
  {
    WithoutAt(lists[c], i);
    WithoutMembers(lists[c], lists[c][i]);
    StillDisjoint(lists, c, Without(lists[c], lists[c][i]));
  }

  lemma NothingInRow(sl: seq<nat>, lists: map<Class, seq<nat>>, c: Class, row: nat)
    requires InRange(c) && |sl| == FL_COUNT && RowExact(sl[c.fl], c.fl, lists)
    requires row == 0 && forall j: nat :: Test(row, j) <==> j >= c.sl && Test(sl[c.fl], j)
    ensures forall e | e in lists && AtMost(c, e) && lists[e] != [] :: e.fl > c.fl
  {
    forall e | e in lists && e.fl == c.fl && e.sl >= c.sl ensures lists[e] == [] { ZeroBit(e.sl); }
  }

  lemma RowInBitmap(fl: nat, sl: seq<nat>, lists: map<Class, seq<nat>>, e: Class)
    requires BitsExact(fl, sl, lists) && e in lists && InRange(e) && lists[e] != []
    ensures Test(fl, e.fl)
  {
    assert RowExact(sl[e.fl], e.fl, lists);
    ZeroBit(e.sl);
  }

  lemma NothingAbove(fl: nat, sl: seq<nat>, lists: map<Class, seq<nat>>, c: Class, rows: nat)
    requires BitsExact(fl, sl, lists) && forall d :: d in lists <==> InRange(d)
    requires rows == 0 && forall j: nat :: Test(rows, j) <==> j > c.fl && Test(fl, j)
    ensures forall e | e in lists && lists[e] != [] :: e.fl <= c.fl
  {
    forall e | e in lists && lists[e] != [] ensures e.fl <= c.fl {
      RowInBitmap(fl, sl, lists, e);
      ZeroBit(e.fl);
    }
  }

  lemma NothingBetween(fl: nat, sl: seq<nat>, lists: map<Class, seq<nat>>, c: Class, rows: nat, f: nat)
    requires BitsExact(fl, sl, lists) && forall d :: d in lists <==> InRange(d)
    requires Lowest(rows, f) && forall j: nat :: Test(rows, j) <==> j > c.fl && Test(fl, j)
    ensures forall e | e in lists && lists[e] != [] && e.fl > c.fl :: f <= e.fl
    ensures f > c.fl && f < FL_COUNT && sl[f] != 0
  {
    forall e | e in lists && lists[e] != [] && e.fl > c.fl ensures f <= e.fl {
      RowInBitmap(fl, sl, lists, e);
    }
  }

  /** A block is in one list. */
  ghost predicate Disjoint(lists: map<Class, seq<nat>>) {
    forall c, d, b | c in lists && d in lists && b in lists[c] && b in lists[d] :: c == d
  }

  lemma StillDisjoint(lists: map<Class, seq<nat>>, c: Class, s: seq<nat>)
    requires Disjoint(lists) && c in lists
    requires forall x, d | x in s && d in lists && d != c :: x !in lists[d]
    ensures Disjoint(lists[c := s])
  {
  }
}
