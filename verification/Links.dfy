/** Doubly linked lists through nodes in memory, as sequences of node addresses. */
module Links {
  import opened Seqs

  const NULL: nat := 0

  /** The link fields of a list node. */
  datatype Link = Link(prev: nat, next: nat)

  ghost function Last(s: seq<nat>): nat { if s == [] then NULL else s[|s| - 1] }

  // ---------------------------------------------------------------------------
  // One list
  // ---------------------------------------------------------------------------

  ghost predicate Node(links: map<nat, Link>, s: seq<nat>, i: nat)
    requires i < |s|
  {
    && s[i] != NULL
    && s[i] in links
    && links[s[i]].prev == (if i == 0 then NULL else s[i - 1])
    && links[s[i]].next == (if i + 1 == |s| then NULL else s[i + 1])
  }

  /** The links of s's nodes make the list s, starting at head. */
  ghost predicate Linked(links: map<nat, Link>, head: nat, s: seq<nat>) {
    && head == (if s == [] then NULL else s[0])
    && NoDup(s)
    && forall i: nat {:trigger Node(links, s, i)} | i < |s| :: Node(links, s, i)
  }

  lemma LinkedFrame(links: map<nat, Link>, links': map<nat, Link>, head: nat, s: seq<nat>)
    requires Linked(links, head, s)
    requires forall x | x in s && x in links :: x in links' && links'[x] == links[x]
    ensures Linked(links', head, s)
  {
    forall i: nat | i < |s| ensures Node(links', s, i) {
      assert Node(links, s, i) && s[i] in s;
    }
  }

  /** Node n put between two neighbours, either of which may be missing. */
  function InsertLinks(links: map<nat, Link>, n: nat, prev: nat, next: nat): map<nat, Link>
    requires prev != NULL ==> prev in links
    requires next != NULL ==> next in links
  {
    var linked := links[n := Link(prev, next)];
    var once := if next == NULL then linked else linked[next := Link(n, linked[next].next)];
    if prev == NULL then once else once[prev := Link(once[prev].prev, n)]
  }

  lemma Inserted(links: map<nat, Link>, head: nat, s: seq<nat>, i: nat, n: nat)
    requires Linked(links, head, s) && n != NULL && n !in s && i <= |s|
    ensures i > 0 ==> Node(links, s, i - 1)
    ensures i < |s| ==> Node(links, s, i)
    ensures var prev, next := if i == 0 then NULL else s[i - 1], if i == |s| then NULL else s[i];
      Linked(InsertLinks(links, n, prev, next), if i == 0 then n else head, s[..i] + [n] + s[i..])
  {
    var t := s[..i] + [n] + s[i..];
    if i > 0 { assert Node(links, s, i - 1); }
    if i < |s| { assert Node(links, s, i); }
    var prev, next := if i == 0 then NULL else s[i - 1], if i == |s| then NULL else s[i];
    forall k: nat | k < |t| ensures Node(InsertLinks(links, n, prev, next), t, k) {
      if k < i { assert Node(links, s, k) && t[k] == s[k]; }
      if k > i { assert Node(links, s, k - 1) && t[k] == s[k - 1]; }
    }
  }

  /** A node put before the first. */
  function PushLinks(links: map<nat, Link>, b: nat, cur: nat): map<nat, Link>
    requires cur != NULL ==> cur in links
  {
    InsertLinks(links, b, NULL, cur)
  }

  lemma Pushed(links: map<nat, Link>, b: nat, head: nat, s: seq<nat>)
    requires Linked(links, head, s) && b != NULL && b !in s
    ensures head != NULL ==> head in links
    ensures Linked(PushLinks(links, b, head), b, [b] + s)
  {
    Inserted(links, head, s, 0, b);
    assert s[..0] + [b] + s[0..] == [b] + s;
  }

  /** Other lists are left alone. */
  lemma PushedOther(links: map<nat, Link>, b: nat, head: nat, s: seq<nat>, other: nat, t: seq<nat>)
    requires Linked(links, head, s) && Linked(links, other, t) && b !in t && forall x | x in s :: x !in t
    ensures head != NULL ==> head in links
    ensures Linked(PushLinks(links, b, head), other, t)
  {
    if s != [] { assert Node(links, s, 0) && head in s; }
    LinkedFrame(links, PushLinks(links, b, head), other, t);
  }

  /** A node taken out. */
  function RemoveLinks(links: map<nat, Link>, b: nat): map<nat, Link>
    requires b in links
    requires links[b].prev != NULL ==> links[b].prev in links
    requires links[b].next != NULL ==> links[b].next in links
  {
    var l := links[b];
    var once := if l.prev == NULL then links else links[l.prev := Link(links[l.prev].prev, l.next)];
    if l.next == NULL then once else once[l.next := Link(l.prev, once[l.next].next)]
  }

  lemma NeighboursLinked(links: map<nat, Link>, head: nat, s: seq<nat>, i: nat)
    requires Linked(links, head, s) && i < |s|
    ensures Node(links, s, i)
    ensures i > 0 ==> Node(links, s, i - 1)
    ensures i + 1 < |s| ==> Node(links, s, i + 1)
  {
  }

  lemma Removed(links: map<nat, Link>, head: nat, s: seq<nat>, i: nat)
    requires Linked(links, head, s) && i < |s|
    ensures Node(links, s, i)
    ensures i > 0 ==> Node(links, s, i - 1)
    ensures i + 1 < |s| ==> Node(links, s, i + 1)
    ensures Linked(RemoveLinks(links, s[i]), if i == 0 then links[s[i]].next else head, s[..i] + s[i + 1..])
  {
    NeighboursLinked(links, head, s, i);
    var t := s[..i] + s[i + 1..];
    forall k: nat | k < |t| ensures Node(RemoveLinks(links, s[i]), t, k) {
      var j := if k < i then k else k + 1;
      assert Node(links, s, j) && t[k] == s[j];
    }
  }

  lemma RemovedOther(links: map<nat, Link>, head: nat, s: seq<nat>, i: nat, other: nat, t: seq<nat>)
    requires Linked(links, head, s) && i < |s| && Linked(links, other, t) && forall x | x in s :: x !in t
    ensures Node(links, s, i)
    ensures i > 0 ==> Node(links, s, i - 1)
    ensures i + 1 < |s| ==> Node(links, s, i + 1)
    ensures Linked(RemoveLinks(links, s[i]), other, t)
  {
    NeighboursLinked(links, head, s, i);
    assert i > 0 ==> s[i - 1] in s;
    assert i + 1 < |s| ==> s[i + 1] in s;
    LinkedFrame(links, RemoveLinks(links, s[i]), other, t);
  }

  /** Taking a node out and clearing its own links. */
  lemma Detached(links: map<nat, Link>, head: nat, s: seq<nat>, i: nat)
    requires Linked(links, head, s) && i < |s|
    ensures Node(links, s, i)
    ensures i > 0 ==> Node(links, s, i - 1)
    ensures i + 1 < |s| ==> Node(links, s, i + 1)
    ensures var l := RemoveLinks(links, s[i])[s[i] := Link(NULL, NULL)];
      Linked(l, if i == 0 then links[s[i]].next else head, Without(s, s[i]))
    ensures forall x :: x in Without(s, s[i]) <==> x in s && x != s[i]
  {
    NeighboursLinked(links, head, s, i);
    Removed(links, head, s, i);
    WithoutAt(s, i);
    WithoutMembers(s, s[i]);
    var l := RemoveLinks(links, s[i]);
    LinkedFrame(l, l[s[i] := Link(NULL, NULL)], if i == 0 then links[s[i]].next else head, Without(s, s[i]));
  }

  lemma LastWithout(s: seq<nat>, i: nat)
    requires NoDup(s) && i < |s|
    ensures Last(Without(s, s[i])) == if i + 1 < |s| then Last(s) else if i == 0 then NULL else s[i - 1]
  {
    WithoutAt(s, i);
  }

  /** Nodes outside the list are left alone. */
  lemma OutsideKept(links: map<nat, Link>, head: nat, s: seq<nat>, i: nat)
    requires Linked(links, head, s) && i < |s|
    ensures Node(links, s, i)
    ensures i > 0 ==> Node(links, s, i - 1)
    ensures i + 1 < |s| ==> Node(links, s, i + 1)
    ensures RemoveLinks(links, s[i]).Keys == links.Keys
    ensures forall n | n in links && n !in s :: RemoveLinks(links, s[i])[n] == links[n]
  {
    NeighboursLinked(links, head, s, i);
    assert i > 0 ==> s[i - 1] in s;
    assert i + 1 < |s| ==> s[i + 1] in s;
  }
}
