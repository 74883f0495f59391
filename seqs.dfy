/** Sequence helpers shared by the card rules and the deck manager. The "top" of every
    card list in the game is its last element, so most helpers work from the end. */
module Seqs {

  function Last<T>(s: seq<T>): T
    requires s != []
  {
    s[|s| - 1]
  }

  function ButLast<T>(s: seq<T>): seq<T>
    requires s != []
  {
    s[..|s| - 1]
  }

  function Min(a: int, b: int): int
  {
    if a <= b then a else b
  }

  /** No element occurs twice. */
  predicate Distinct<T(==)>(s: seq<T>)
  {
    forall i, j :: 0 <= i < j < |s| ==> s[i] != s[j]
  }

  lemma DistinctConcat<T>(a: seq<T>, b: seq<T>)
    requires Distinct(a) && Distinct(b)
    requires forall x :: x in a ==> x !in b
    ensures Distinct(a + b)
  {
    forall i, j | 0 <= i < j < |a + b|
      ensures (a + b)[i] != (a + b)[j]
    {
      if i < |a| && |a| <= j {
        assert (a + b)[i] in a;
        assert (a + b)[j] == b[j - |a|];
      }
    }
  }

  /** a can be obtained from b by deleting elements, keeping the order of the rest. */
  predicate IsSubsequence<T(==)>(a: seq<T>, b: seq<T>)
    decreases |b|
  {
    a == [] ||
    (b != [] &&
     ((Last(a) == Last(b) && IsSubsequence(ButLast(a), ButLast(b))) ||
      IsSubsequence(a, ButLast(b))))
  }

  lemma {:induction false} SubsequenceReflexive<T>(s: seq<T>)
    ensures IsSubsequence(s, s)
    decreases |s|
  {
    if s != [] {
      SubsequenceReflexive(ButLast(s));
    }
  }

  /** Splitting off the last element, in multiset form. */
  lemma MultisetButLast<T>(s: seq<T>)
    requires s != []
    ensures multiset(s) == multiset(ButLast(s)) + multiset{Last(s)}
  {
    assert s == ButLast(s) + [Last(s)];
  }

  /** The position of the first occurrence of x, as Python's list.index finds it. */
  function IndexOf<T(==)>(s: seq<T>, x: T): (k: nat)
    requires x in s
    ensures k < |s| && s[k] == x && x !in s[..k]
  {
    if s[0] == x then 0
    else
      var k := 1 + IndexOf(s[1..], x);
      assert s[..k] == [s[0]] + s[1..][..k - 1];
      k
  }

  /** s with its first occurrence of x deleted, as Python's list.remove does. */
  function RemoveFirst<T(==)>(s: seq<T>, x: T): (r: seq<T>)
    requires x in s
    ensures |r| == |s| - 1
    ensures multiset(r) == multiset(s) - multiset{x}
    ensures IsSubsequence(r, s)
  {
    var k := IndexOf(s, x);
    assert s == s[..k] + [x] + s[k + 1..];
    RemovePreservesOrder(s, k);
    s[..k] + s[k + 1..]
  }

  lemma {:induction false} RemovePreservesOrder<T>(s: seq<T>, k: nat)
    requires k < |s|
    ensures IsSubsequence(s[..k] + s[k + 1..], s)
    decreases |s|
  {
    var r := s[..k] + s[k + 1..];
    if k == |s| - 1 {
      assert r == ButLast(s);
      SubsequenceReflexive(r);
    } else {
      assert Last(r) == Last(s);
      assert ButLast(r) == ButLast(s)[..k] + ButLast(s)[k + 1..];
      RemovePreservesOrder(ButLast(s), k);
    }
  }
}
