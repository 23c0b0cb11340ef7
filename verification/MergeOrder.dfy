/** Bottom-up merge sort on sequences: what each pass of HASH_SRT does to the insertion order. */
module MergeOrder {

  type Compare<!T> = (T, T) -> int

  /** The comparison is a total preorder on the elements of dom. */
  ghost predicate TotalPreorder<T>(cmp: Compare<T>, dom: set<T>)
  {
    && (forall a, b {:trigger cmp(a, b)} :: a in dom && b in dom ==> cmp(a, b) <= 0 || cmp(b, a) <= 0)
    && (forall a, b, c {:trigger cmp(a, b), cmp(b, c)} ::
          a in dom && b in dom && c in dom && cmp(a, b) <= 0 && cmp(b, c) <= 0 ==> cmp(a, c) <= 0)
  }

  ghost predicate Within<T>(s: seq<T>, dom: set<T>)
  {
    forall x :: x in s ==> x in dom
  }

  ghost predicate Sorted<T>(cmp: Compare<T>, s: seq<T>)
  {
    forall i, j :: 0 <= i < j < |s| ==> cmp(s[i], s[j]) <= 0
  }

  /** The elements of s that rank equal to g, in order. */
  ghost function EqualTo<T>(cmp: Compare<T>, g: T, s: seq<T>): seq<T>
  {
    if s == [] then []
    else (if cmp(g, s[0]) <= 0 && cmp(s[0], g) <= 0 then [s[0]] else []) + EqualTo(cmp, g, s[1..])
  }

  /** r rearranges s, and elements of s that rank equal keep their order. */
  ghost predicate StablePermutation<T>(cmp: Compare<T>, s: seq<T>, r: seq<T>)
  {
    && multiset(r) == multiset(s)
    && forall g :: g in s ==> EqualTo(cmp, g, r) == EqualTo(cmp, g, s)
  }

  ghost predicate Ties<T>(cmp: Compare<T>, x: T, y: T)
  {
    cmp(x, y) <= 0 && cmp(y, x) <= 0
  }

  /** x stands before y in s. */
  ghost predicate Before<T>(s: seq<T>, x: T, y: T)
  {
    exists p, q {:trigger s[p], s[q]} :: 0 <= p < q < |s| && s[p] == x && s[q] == y
  }

  lemma {:induction false} EqualToContains<T>(cmp: Compare<T>, g: T, s: seq<T>, i: nat)
    requires i < |s| && Ties(cmp, g, s[i])
    ensures s[i] in EqualTo(cmp, g, s)
  {
    if i > 0 { EqualToContains(cmp, g, s[1..], i - 1); }
  }

  lemma {:induction false} EqualToKeeps<T>(cmp: Compare<T>, g: T, s: seq<T>, i: nat, j: nat)
    requires i < j < |s| && Ties(cmp, g, s[i]) && Ties(cmp, g, s[j])
    ensures Before(EqualTo(cmp, g, s), s[i], s[j])
  {
    var rest := EqualTo(cmp, g, s[1..]);
    if i == 0 {
      EqualToContains(cmp, g, s[1..], j - 1);
      var b :| 0 <= b < |rest| && rest[b] == s[j];
      assert EqualTo(cmp, g, s)[0] == s[0] && EqualTo(cmp, g, s)[b + 1] == s[j];
    } else {
      EqualToKeeps(cmp, g, s[1..], i - 1, j - 1);
      var a, b :| 0 <= a < b < |rest| && rest[a] == s[i] && rest[b] == s[j];
      var n := |EqualTo(cmp, g, s)| - |rest|;
      assert EqualTo(cmp, g, s)[a + n] == s[i] && EqualTo(cmp, g, s)[b + n] == s[j];
    }
  }

  lemma {:induction false} EqualToIsPart<T>(cmp: Compare<T>, g: T, s: seq<T>, a: nat)
    requires a < |EqualTo(cmp, g, s)|
    ensures EqualTo(cmp, g, s)[a] in s
  {
    var n := |EqualTo(cmp, g, s)| - |EqualTo(cmp, g, s[1..])|;
    if a >= n { EqualToIsPart(cmp, g, s[1..], a - n); }
  }

  lemma {:induction false} EqualToOrder<T>(cmp: Compare<T>, g: T, s: seq<T>, x: T, y: T)
    requires Before(EqualTo(cmp, g, s), x, y)
    ensures Before(s, x, y)
  {
    var rest := EqualTo(cmp, g, s[1..]);
    var n := |EqualTo(cmp, g, s)| - |rest|;
    var a, b :| 0 <= a < b < |EqualTo(cmp, g, s)| && EqualTo(cmp, g, s)[a] == x && EqualTo(cmp, g, s)[b] == y;
    if a < n {
      EqualToIsPart(cmp, g, s[1..], b - n);
      var q :| 0 <= q < |s[1..]| && s[1..][q] == y;
      assert s[0] == x && s[q + 1] == y;
    } else {
      assert rest[a - n] == x && rest[b - n] == y;
      EqualToOrder(cmp, g, s[1..], x, y);
      var p, q :| 0 <= p < q < |s[1..]| && s[1..][p] == x && s[1..][q] == y;
      assert s[p + 1] == x && s[q + 1] == y;
    }
  }

  /** Two elements that rank equal stand in the result as they stood before. */
  lemma StableOrder<T>(cmp: Compare<T>, s: seq<T>, r: seq<T>, i: nat, j: nat)
    requires StablePermutation(cmp, s, r) && TotalPreorder(cmp, set x | x in s)
    requires i < j < |r| && cmp(r[i], r[j]) <= 0 && cmp(r[j], r[i]) <= 0
    ensures Before(s, r[i], r[j])
  {
    var g := r[i];
    assert g in multiset(r) && g in s;
    assert cmp(g, g) <= 0;
    EqualToKeeps(cmp, g, r, i, j);
    EqualToOrder(cmp, g, s, r[i], r[j]);
  }

  ghost function Merge<T>(cmp: Compare<T>, p: seq<T>, q: seq<T>): seq<T>
    decreases |p| + |q|
  {
    if p == [] then q
    else if q == [] then p
    else if cmp(p[0], q[0]) <= 0 then [p[0]] + Merge(cmp, p[1..], q)
    else [q[0]] + Merge(cmp, p, q[1..])
  }

  ghost function Upto<T>(s: seq<T>, k: nat): nat { if k <= |s| then k else |s| }

  /** One pass: neighbouring runs of k elements are merged two by two. */
  ghost function MergePass<T>(cmp: Compare<T>, s: seq<T>, k: nat): seq<T>
    requires k >= 1
  {
    if s == [] then []
    else Merge(cmp, s[..Upto(s, k)], s[Upto(s, k)..Upto(s, 2 * k)]) + MergePass(cmp, s[Upto(s, 2 * k)..], k)
  }

  ghost predicate RunsSorted<T>(cmp: Compare<T>, s: seq<T>, k: nat)
    requires k >= 1
  {
    s == [] || (Sorted(cmp, s[..Upto(s, k)]) && RunsSorted(cmp, s[Upto(s, k)..], k))
  }

  lemma {:induction false} MergePermutes<T>(cmp: Compare<T>, p: seq<T>, q: seq<T>)
    ensures multiset(Merge(cmp, p, q)) == multiset(p) + multiset(q)
    ensures |Merge(cmp, p, q)| == |p| + |q|
    decreases |p| + |q|
  {
    if p != [] && q != [] {
      if cmp(p[0], q[0]) <= 0 {
        assert p == [p[0]] + p[1..];
        MergePermutes(cmp, p[1..], q);
      } else {
        assert q == [q[0]] + q[1..];
        MergePermutes(cmp, p, q[1..]);
      }
    }
  }

  /** x goes in front of a sorted sequence whose elements come from p and q. */
  lemma SortedCons<T>(cmp: Compare<T>, x: T, s: seq<T>, p: seq<T>, q: seq<T>)
    requires Sorted(cmp, s) && multiset(s) == multiset(p) + multiset(q)
    requires (forall y :: y in p ==> cmp(x, y) <= 0) && (forall y :: y in q ==> cmp(x, y) <= 0)
    ensures Sorted(cmp, [x] + s)
  {
    forall j | 0 <= j < |s| ensures cmp(x, s[j]) <= 0 {
      assert s[j] in multiset(s);
      assert s[j] in multiset(p) || s[j] in multiset(q);
    }
  }

  /** What the head of a sorted sequence is below, and everything the head's lower bounds are below. */
  lemma BelowAll<T>(cmp: Compare<T>, dom: set<T>, x: T, s: seq<T>)
    requires TotalPreorder(cmp, dom) && Within(s, dom) && x in dom && Sorted(cmp, s)
    requires s != [] ==> cmp(x, s[0]) <= 0
    ensures forall y :: y in s ==> cmp(x, y) <= 0
  {
    forall y | y in s ensures cmp(x, y) <= 0 {
      var j :| 0 <= j < |s| && s[j] == y;
      if j > 0 { assert cmp(s[0], s[j]) <= 0 && s[0] in dom; }
    }
  }

  lemma {:induction false} MergeSorted<T>(cmp: Compare<T>, dom: set<T>, p: seq<T>, q: seq<T>)
    requires TotalPreorder(cmp, dom) && Within(p, dom) && Within(q, dom) && Sorted(cmp, p) && Sorted(cmp, q)
    ensures Sorted(cmp, Merge(cmp, p, q))
    decreases |p| + |q|
  {
    if p != [] && q != [] {
      if cmp(p[0], q[0]) <= 0 {
        MergeSorted(cmp, dom, p[1..], q);
        MergePermutes(cmp, p[1..], q);
        if |p| > 1 { assert cmp(p[0], p[1]) <= 0; }
        BelowAll(cmp, dom, p[0], p[1..]);
        BelowAll(cmp, dom, p[0], q);
        SortedCons(cmp, p[0], Merge(cmp, p[1..], q), p[1..], q);
      } else {
        assert p[0] in dom && q[0] in dom;
        MergeSorted(cmp, dom, p, q[1..]);
        MergePermutes(cmp, p, q[1..]);
        if |q| > 1 { assert cmp(q[0], q[1]) <= 0; }
        BelowAll(cmp, dom, q[0], p);
        BelowAll(cmp, dom, q[0], q[1..]);
        SortedCons(cmp, q[0], Merge(cmp, p, q[1..]), p, q[1..]);
      }
    }
  }

  lemma {:induction false} EqualToConcat<T>(cmp: Compare<T>, g: T, a: seq<T>, b: seq<T>)
    ensures EqualTo(cmp, g, a + b) == EqualTo(cmp, g, a) + EqualTo(cmp, g, b)
  {
    if a == [] {
      assert a + b == b;
    } else {
      assert (a + b)[1..] == a[1..] + b;
      EqualToConcat(cmp, g, a[1..], b);
    }
  }

  lemma {:induction false} NoneEqual<T>(cmp: Compare<T>, g: T, s: seq<T>)
    requires forall y :: y in s ==> !(cmp(g, y) <= 0 && cmp(y, g) <= 0)
    ensures EqualTo(cmp, g, s) == []
  {
    if s != [] { NoneEqual(cmp, g, s[1..]); }
  }

  /** If the head of q ranks strictly below the head of the sorted p, nothing in p ranks equal to it. */
  lemma NoneEqualAbove<T>(cmp: Compare<T>, dom: set<T>, g: T, x: T, p: seq<T>)
    requires TotalPreorder(cmp, dom) && Within(p, dom) && g in dom && x in dom && Sorted(cmp, p)
    requires p != [] && cmp(p[0], x) > 0 && cmp(g, x) <= 0 && cmp(x, g) <= 0
    ensures EqualTo(cmp, g, p) == []
  {
    forall y | y in p ensures !(cmp(g, y) <= 0 && cmp(y, g) <= 0) {
      var j :| 0 <= j < |p| && p[j] == y;
      assert p[0] in dom;
      assert j > 0 ==> cmp(p[0], p[j]) <= 0;
    }
    NoneEqual(cmp, g, p);
  }

  lemma SortedTail<T>(cmp: Compare<T>, p: seq<T>)
    requires p != [] && Sorted(cmp, p)
    ensures Sorted(cmp, p[1..])
  {
  }

  ghost function EqualHead<T>(cmp: Compare<T>, g: T, x: T): seq<T>
  {
    if cmp(g, x) <= 0 && cmp(x, g) <= 0 then [x] else []
  }

  lemma EqualToCons<T>(cmp: Compare<T>, g: T, x: T, s: seq<T>)
    ensures EqualTo(cmp, g, [x] + s) == EqualHead(cmp, g, x) + EqualTo(cmp, g, s)
  {
    assert ([x] + s)[1..] == s;
  }

  lemma {:induction false} MergeStable<T>(cmp: Compare<T>, dom: set<T>, g: T, p: seq<T>, q: seq<T>)
    requires TotalPreorder(cmp, dom) && Within(p, dom) && Within(q, dom) && g in dom && Sorted(cmp, p)
    ensures EqualTo(cmp, g, Merge(cmp, p, q)) == EqualTo(cmp, g, p) + EqualTo(cmp, g, q)
    decreases |p| + |q|
  {
    hide Sorted, TotalPreorder, EqualTo;
    if p == [] || q == [] {
      NoneEqual(cmp, g, []);
    } else if cmp(p[0], q[0]) <= 0 {
      SortedTail(cmp, p);
      MergeStable(cmp, dom, g, p[1..], q);
      TakenFromP(cmp, g, p, q, Merge(cmp, p[1..], q));
    } else {
      MergeStable(cmp, dom, g, p, q[1..]);
      assert q[0] in dom;
      if EqualHead(cmp, g, q[0]) != [] { NoneEqualAbove(cmp, dom, g, q[0], p); }
      TakenFromQ(cmp, g, p, q, Merge(cmp, p, q[1..]));
    }
  }

  lemma TakenFromP<T>(cmp: Compare<T>, g: T, p: seq<T>, q: seq<T>, m: seq<T>)
    requires p != [] && EqualTo(cmp, g, m) == EqualTo(cmp, g, p[1..]) + EqualTo(cmp, g, q)
    ensures EqualTo(cmp, g, [p[0]] + m) == EqualTo(cmp, g, p) + EqualTo(cmp, g, q)
  {
    hide EqualTo;
    assert p == [p[0]] + p[1..];
    EqualToCons(cmp, g, p[0], m);
    EqualToCons(cmp, g, p[0], p[1..]);
    var x, y, z := EqualHead(cmp, g, p[0]), EqualTo(cmp, g, p[1..]), EqualTo(cmp, g, q);
    assert x + (y + z) == (x + y) + z;
  }

  /** Taking from q is stable when nothing in p ranks equal to what is taken. */
  lemma TakenFromQ<T>(cmp: Compare<T>, g: T, p: seq<T>, q: seq<T>, m: seq<T>)
    requires q != [] && EqualTo(cmp, g, m) == EqualTo(cmp, g, p) + EqualTo(cmp, g, q[1..])
    requires EqualHead(cmp, g, q[0]) == [] || EqualTo(cmp, g, p) == []
    ensures EqualTo(cmp, g, [q[0]] + m) == EqualTo(cmp, g, p) + EqualTo(cmp, g, q)
  {
    hide EqualTo;
    assert q == [q[0]] + q[1..];
    EqualToCons(cmp, g, q[0], m);
    EqualToCons(cmp, g, q[0], q[1..]);
  }

  // ----- one pass -----

  lemma {:induction false} PassPermutes<T>(cmp: Compare<T>, s: seq<T>, k: nat)
    requires k >= 1
    ensures multiset(MergePass(cmp, s, k)) == multiset(s) && |MergePass(cmp, s, k)| == |s|
  {
    if s != [] {
      var p, q, r := s[..Upto(s, k)], s[Upto(s, k)..Upto(s, 2 * k)], s[Upto(s, 2 * k)..];
      assert s == p + q + r;
      MergePermutes(cmp, p, q);
      PassPermutes(cmp, r, k);
    }
  }

  lemma {:induction false} PassStable<T>(cmp: Compare<T>, dom: set<T>, g: T, s: seq<T>, k: nat)
    requires k >= 1 && TotalPreorder(cmp, dom) && Within(s, dom) && g in dom && RunsSorted(cmp, s, k)
    ensures EqualTo(cmp, g, MergePass(cmp, s, k)) == EqualTo(cmp, g, s)
    decreases |s|
  {
    hide TotalPreorder, Sorted, Merge, EqualTo;
    if s != [] {
      var p, q, r := s[..Upto(s, k)], s[Upto(s, k)..Upto(s, 2 * k)], s[Upto(s, 2 * k)..];
      TwoRuns(cmp, s, k);
      MergeStable(cmp, dom, g, p, q);
      PassStable(cmp, dom, g, r, k);
      EqualToConcat(cmp, g, p, q);
      EqualToConcat(cmp, g, p + q, r);
      EqualToConcat(cmp, g, Merge(cmp, p, q), MergePass(cmp, r, k));
      assert s == p + q + r;
    }
  }

  /** The first two runs of a sequence of sorted runs, and the rest. */
  lemma TwoRuns<T>(cmp: Compare<T>, s: seq<T>, k: nat)
    requires k >= 1 && s != [] && RunsSorted(cmp, s, k)
    ensures Sorted(cmp, s[..Upto(s, k)]) && Sorted(cmp, s[Upto(s, k)..Upto(s, 2 * k)])
    ensures RunsSorted(cmp, s[Upto(s, 2 * k)..], k)
  {
    var t := s[Upto(s, k)..];
    assert RunsSorted(cmp, t, k);
    assert t[..Upto(t, k)] == s[Upto(s, k)..Upto(s, 2 * k)];
    assert t[Upto(t, k)..] == s[Upto(s, 2 * k)..];
  }

  lemma {:induction false} PassSortsLongerRuns<T>(cmp: Compare<T>, dom: set<T>, s: seq<T>, k: nat)
    requires k >= 1 && TotalPreorder(cmp, dom) && Within(s, dom) && RunsSorted(cmp, s, k)
    ensures RunsSorted(cmp, MergePass(cmp, s, k), 2 * k)
    decreases |s|
  {
    hide TotalPreorder, Sorted;
    if s != [] {
      var p, q, r := s[..Upto(s, k)], s[Upto(s, k)..Upto(s, 2 * k)], s[Upto(s, 2 * k)..];
      TwoRuns(cmp, s, k);
      MergeSorted(cmp, dom, p, q);
      MergePermutes(cmp, p, q);
      PassSortsLongerRuns(cmp, dom, r, k);
      PassPermutes(cmp, r, k);
      var m, t := Merge(cmp, p, q), MergePass(cmp, r, k);
      assert (m + t)[..Upto(m + t, 2 * k)] == m;
      assert (m + t)[Upto(m + t, 2 * k)..] == t;
    }
  }

  lemma {:induction false} RunsOfOne<T>(cmp: Compare<T>, s: seq<T>)
    ensures RunsSorted(cmp, s, 1)
  {
    if s != [] { RunsOfOne(cmp, s[1..]); }
  }

  lemma StableCompose<T>(cmp: Compare<T>, s: seq<T>, r: seq<T>, r': seq<T>)
    requires StablePermutation(cmp, s, r) && StablePermutation(cmp, r, r')
    ensures StablePermutation(cmp, s, r')
  {
    forall g | g in s ensures EqualTo(cmp, g, r') == EqualTo(cmp, g, s) {
      assert g in multiset(r);
    }
  }

  /** A pass keeps a stable permutation and doubles the length of the sorted runs; the last one sorts everything. */
  lemma PassProgress<T>(cmp: Compare<T>, s: seq<T>, k: nat)
    requires k >= 1 && TotalPreorder(cmp, set x | x in s) && RunsSorted(cmp, s, k)
    ensures StablePermutation(cmp, s, MergePass(cmp, s, k))
    ensures RunsSorted(cmp, MergePass(cmp, s, k), 2 * k)
    ensures |s| <= 2 * k ==> Sorted(cmp, MergePass(cmp, s, k))
  {
    hide TotalPreorder, Sorted, RunsSorted;
    var dom := set x | x in s;
    PassPermutes(cmp, s, k);
    PassSortsLongerRuns(cmp, dom, s, k);
    forall g | g in s ensures EqualTo(cmp, g, MergePass(cmp, s, k)) == EqualTo(cmp, g, s) {
      PassStable(cmp, dom, g, s, k);
    }
    if |s| <= 2 * k { OneRun(cmp, MergePass(cmp, s, k), 2 * k); }
  }

  lemma OneRun<T>(cmp: Compare<T>, s: seq<T>, k: nat)
    requires k >= 1 && |s| <= k && RunsSorted(cmp, s, k)
    ensures Sorted(cmp, s)
  {
    assert s[..|s|] == s;
  }

  /** Repeated passes: sorted runs double until one run is everything, and the permutation stays stable. */
  lemma NextPass<T>(cmp: Compare<T>, orig: seq<T>, s: seq<T>, k: nat)
    requires k >= 1 && TotalPreorder(cmp, set x | x in orig) && StablePermutation(cmp, orig, s) && RunsSorted(cmp, s, k)
    ensures StablePermutation(cmp, orig, MergePass(cmp, s, k))
    ensures RunsSorted(cmp, MergePass(cmp, s, k), 2 * k)
    ensures |s| <= 2 * k ==> Sorted(cmp, MergePass(cmp, s, k))
  {
    hide TotalPreorder, Sorted, RunsSorted;
    SameElements(orig, s);
    assert (set x | x in orig) == (set x | x in s);
    PassProgress(cmp, s, k);
    StableCompose(cmp, orig, s, MergePass(cmp, s, k));
  }

  lemma SameElements<T>(s: seq<T>, r: seq<T>)
    requires multiset(r) == multiset(s)
    ensures |r| == |s| && (forall x :: x in s ==> x in r) && (forall x :: x in r ==> x in s)
  {
    assert |multiset(r)| == |r| && |multiset(s)| == |s|;
    assert forall x :: x in s ==> x in multiset(r);
    assert forall x :: x in r ==> x in multiset(s);
  }
}
