/** The intrusive double-ended queue of include/lib/dsa/dq.h: nodes that carry their own links, and the
    two ends. */
module Dq {
  import opened Links
  import opened Seqs

  class Deque {
    var front: nat
    var rear: nat
    var links: map<nat, Link>      // the link fields of all nodes that are ever queued here
    ghost var contents: seq<nat>

    ghost predicate Valid()
      reads this
    {
      && Linked(links, front, contents)
      && rear == Last(contents)
      && (forall n | n in links && n !in contents :: links[n] == Link(NULL, NULL))
      && NULL !in links
    }

    constructor (nodes: set<nat>)
      requires NULL !in nodes
      ensures Valid() && contents == [] && links.Keys == nodes
    {
      front, rear := NULL, NULL;
      links := map n | n in nodes :: Link(NULL, NULL);
      contents := [];
    }

    /** dq_insert between the nodes at i - 1 and i. */
    method Insert(n: nat, prev: nat, next: nat, ghost i: nat)
      requires Valid() && n in links && n !in contents && i <= |contents|
      requires prev == (if i == 0 then NULL else contents[i - 1])
      requires next == (if i == |contents| then NULL else contents[i])
      modifies this
      ensures Valid() && links.Keys == old(links.Keys)
      ensures contents == old(contents[..i] + [n] + contents[i..])
    {
      Inserted(links, front, contents, i, n);
      links := InsertLinks(links, n, prev, next);
      if next == NULL { rear := n; }
      if prev == NULL { front := n; }
      contents := contents[..i] + [n] + contents[i..];
    }

    /** dq_pushback */
    method PushBack(n: nat)
      requires Valid() && n in links && n !in contents
      modifies this
      ensures Valid() && links.Keys == old(links.Keys) && contents == old(contents) + [n]
    {
      Insert(n, rear, NULL, |contents|);
    }

    /** dq_pushfront */
    method PushFront(n: nat)
      requires Valid() && n in links && n !in contents
      modifies this
      ensures Valid() && links.Keys == old(links.Keys) && contents == [n] + old(contents)
    {
      Insert(n, NULL, front, 0);
    }

    /** dq_dequeue */
    method Dequeue(n: nat)
      requires Valid() && n in contents
      modifies this
      ensures Valid() && links.Keys == old(links.Keys) && contents == Without(old(contents), n)
    {
      ghost var s := contents;
      ghost var i: nat :| i < |s| && s[i] == n;
      Detached(links, front, s, i);
      OutsideKept(links, front, s, i);
      LastWithout(s, i);
      var Link(prev, next) := links[n];
      links := RemoveLinks(links, n);
      if next == NULL { rear := prev; }
      if prev == NULL { front := next; }
      links := links[n := Link(NULL, NULL)];
      contents := Without(s, n);
    }

    /** dq_is_queued tells the truth without looking at the other nodes. */
    method IsQueued(n: nat) returns (r: bool)
      requires Valid() && n in links
      ensures r <==> n in contents
    {
      r := links[n].prev != NULL || links[n].next != NULL || front == n;
      if n in contents {
        var i: nat :| i < |contents| && contents[i] == n;
        assert Node(links, contents, i);
        if i > 0 { assert Node(links, contents, i - 1); }
      }
    }

    /** dq_popfront */
    method PopFront() returns (n: nat)
      requires Valid()
      modifies this
      ensures Valid() && links.Keys == old(links.Keys)
      ensures old(contents) == [] ==> n == NULL && contents == []
      ensures old(contents) != [] ==> n == old(contents)[0] && contents == old(contents)[1..]
    {
      assert contents != [] ==> Node(links, contents, 0);
      n := front;
      if n != NULL { Dequeue(n); }
    }

    /** dq_clear: walks the list and unlinks every node. */
    method Clear()
      requires Valid()
      modifies this
      ensures Valid() && links.Keys == old(links.Keys) && contents == []
    {
      var cur := front;
      ghost var i := 0;
      ghost var s := contents;
      forall k: nat | k < |s| ensures s[k] in links { assert Node(links, s, k); }
      while cur != NULL
        invariant i <= |s| && cur == (if i == |s| then NULL else s[i])
        invariant links.Keys == old(links.Keys)
        invariant forall n | n in links && (n !in s || n in s[..i]) :: links[n] == Link(NULL, NULL)
        invariant forall k: nat | i <= k < |s| :: s[k] in links && links[s[k]] == old(links)[s[k]]
        decreases |s| - i
      {
        assert old(Node(links, contents, i));
        var next := links[cur].next;
        links := links[cur := Link(NULL, NULL)];
        i := i + 1;
        cur := next;
      }
      front, rear := NULL, NULL;
      contents := [];
    }
  }
}
