/** Sequences without repetitions, and taking an element out of them. */
module Seqs {

  ghost predicate NoDup<T>(s: seq<T>) { forall i, j :: 0 <= i < j < |s| ==> s[i] != s[j] }

  /** s without the first b. */
  function Without<T(==)>(s: seq<T>, b: T): seq<T> {
    if s == [] then [] else if s[0] == b then s[1..] else [s[0]] + Without(s[1..], b)
  }

  lemma {:induction false} WithoutAt<T>(s: seq<T>, i: nat)
    requires NoDup(s) && i < |s|
    ensures Without(s, s[i]) == s[..i] + s[i + 1..]
  {
    if i > 0 {
      WithoutAt(s[1..], i - 1);
      assert [s[0]] + s[1..][..i - 1] == s[..i];
    }
  }

  lemma {:induction false} WithoutAbsent<T>(s: seq<T>, b: T)
    requires b !in s
    ensures Without(s, b) == s
  {
    if s != [] { WithoutAbsent(s[1..], b); }
  }

  lemma {:induction false} WithoutMembers<T>(s: seq<T>, b: T)
    requires NoDup(s)
    ensures NoDup(Without(s, b))
    ensures forall x :: x in Without(s, b) <==> x in s && x != b
  {
    if s != [] {
      WithoutMembers(s[1..], b);
      forall x ensures x in Without(s, b) <==> x in s && x != b { assert x in s <==> x == s[0] || x in s[1..]; }
      if s[0] != b {
        assert s[0] !in s[1..];
        assert s[0] !in Without(s[1..], b);
      }
    }
  }
}
