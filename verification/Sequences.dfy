/** Sequences without repetition, and the two ways the server takes an element out of one. */
module Sequences {

  ghost predicate Distinct<T>(s: seq<T>)
  {
    forall i, j :: 0 <= i < j < |s| ==> s[i] != s[j]
  }

  ghost function Without<T>(s: seq<T>, k: nat): seq<T>
    requires k < |s|
  {
    s[..k] + s[k + 1..]
  }

  /** r is s with one occurrence of x closed up. */
  ghost predicate Dropped<T>(s: seq<T>, x: T, r: seq<T>)
  {
    exists k {:trigger Without(s, k)} :: 0 <= k < |s| && s[k] == x && r == Without(s, k)
  }

  lemma WithoutMembers<T>(s: seq<T>, k: nat)
    requires k < |s| && Distinct(s)
    ensures forall u :: u in Without(s, k) ==> u in s && u != s[k]
    ensures forall u :: u in s && u != s[k] ==> u in Without(s, k)
    ensures Distinct(Without(s, k))
  {
    forall u | u in s && u != s[k] ensures u in Without(s, k) {
      var i :| 0 <= i < |s| && s[i] == u;
      assert Without(s, k)[if i < k then i else i - 1] == u;
    }
  }

  /** Taking entry i out by moving the last entry into its place. */
  function SwapRemove<T>(s: seq<T>, i: nat): (r: seq<T>)
    requires i < |s|
    ensures |r| == |s| - 1
  {
    s[i := s[|s| - 1]][..|s| - 1]
  }

  lemma SwapRemoveMultiset<T>(s: seq<T>, i: nat)
    requires i < |s|
    ensures multiset(SwapRemove(s, i)) + multiset{s[i]} == multiset(s)
  {
    var t := s[i := s[|s| - 1]];
    assert t == t[..|s| - 1] + [s[|s| - 1]];
    assert multiset(t) == multiset(s) - multiset{s[i]} + multiset{s[|s| - 1]};
  }

  /** Position of the first x in s, or |s|. */
  function IndexOf(s: seq<int>, x: int): (k: nat)
    ensures k <= |s|
    ensures k < |s| ==> s[k] == x
    ensures x !in s[..k]
    ensures k == |s| <==> x !in s
  {
    if s == [] then 0
    else if s[0] == x then 0
    else
      var k := 1 + IndexOf(s[1..], x);
      assert s == [s[0]] + s[1..] && s[..k] == [s[0]] + s[1..][..k - 1];
      k
  }

  lemma IndexOfDistinct(s: seq<int>, k: nat)
    requires k < |s| && Distinct(s)
    ensures IndexOf(s, s[k]) == k
  {
    var i := IndexOf(s, s[k]);
    assert s[k] in s && s[i] == s[k];
  }

  /** The member list after x has left it. */
  function Leave(s: seq<int>, x: int): (r: seq<int>)
    requires x in s
  {
    SwapRemove(s, IndexOf(s, x))
  }

  lemma LeaveAt(s: seq<int>, x: int, i: nat)
    requires i < |s| && s[i] == x && x !in s[..i]
    ensures IndexOf(s, x) == i && Leave(s, x) == s[i := s[|s| - 1]][..|s| - 1]
  {
    assert x in s;
  }

  lemma LeaveMembers(s: seq<int>, x: int)
    requires Distinct(s) && x in s
    ensures Distinct(Leave(s, x)) && |Leave(s, x)| == |s| - 1
    ensures forall y :: y in Leave(s, x) <==> y in s && y != x
  {
    var k, n, r := IndexOf(s, x), |s| - 1, Leave(s, x);
    forall y | y in s && y != x ensures y in r {
      var i :| 0 <= i < |s| && s[i] == y;
      assert r[if i == n then k else i] == y;
    }
    assert forall i :: 0 <= i < n ==> r[i] == if i == k then s[n] else s[i];
  }

  ghost function Elements<T>(s: seq<T>): set<T>
  {
    set x | x in s
  }

  lemma {:induction false} DistinctCount<T>(s: seq<T>)
    requires Distinct(s)
    ensures |Elements(s)| == |s|
  {
    if s != [] {
      var t, x := s[..|s| - 1], s[|s| - 1];
      DistinctCount(t);
      forall y ensures y in Elements(s) <==> y in Elements(t) + {x} {
        assert s == t + [x];
      }
      assert x !in t;
      assert Elements(s) == Elements(t) + {x};
    }
  }

  /** Distinct numbers below a bound are at most that many. */
  lemma {:induction false} Pigeonhole(s: seq<int>, n: nat)
    requires Distinct(s) && forall x :: x in s ==> 0 <= x < n
    ensures |s| <= n
  {
    DistinctCount(s);
    SubsetOfRange(Elements(s), n);
  }

  lemma {:induction false} SubsetOfRange(d: set<int>, n: nat)
    requires forall x :: x in d ==> 0 <= x < n
    ensures |d| <= n
    decreases n
  {
    if n == 0 {
      assert forall x :: x in d ==> 0 <= x < 0;
      assert d == {};
    } else {
      SubsetOfRange(d - {n - 1}, n - 1);
    }
  }
}
