/** HASH_SRT: Simon Tatham's bottom-up merge sort, relinking the insertion-order list of a hash table in place. */
module HashSort {
  import opened Users
  import opened Sequences
  import opened MergeOrder
  import opened HashTables

  /** The elements emitted so far are linked both ways, except that the last next pointer is still stale. */
  ghost predicate Emitted(done: seq<User>)
    reads done`prev, done`next
  {
    && (forall i {:trigger done[i].prev} :: 0 <= i < |done| ==> done[i].prev == if i == 0 then null else done[i - 1])
    && (forall i {:trigger done[i].next} :: 0 <= i < |done| - 1 ==> done[i].next == done[i + 1])
    && Distinct(done)
  }

  ghost function Last(done: seq<User>): User?
  {
    if done == [] then null else done[|done| - 1]
  }

  ghost function LastOf(done: seq<User>): set<User>
  {
    if done == [] then {} else {done[|done| - 1]}
  }

  /** Elements lo to hi of s still point along s. */
  ghost predicate StillLinked(s: seq<User>, lo: nat, hi: nat)
    requires hi <= |s|
    reads s`next
  {
    forall i {:trigger s[i].next} :: lo <= i < hi ==> s[i].next == if i + 1 == |s| then null else s[i + 1]
  }

  /** No emitted element is among elements lo to hi of s. */
  ghost predicate Apart(done: seq<User>, s: seq<User>, lo: nat, hi: nat)
    requires hi <= |s|
  {
    forall i {:trigger s[i]} :: lo <= i < hi ==> s[i] !in done
  }

  /** Appends e to the list under construction. */
  method Emit(e: User, list: User?, tail: User?, ghost done: seq<User>) returns (list': User?)
    requires Emitted(done) && tail == Last(done) && list == First(done) && e !in done
    modifies e`prev, LastOf(done)`next
    ensures Emitted(done + [e]) && list' == First(done + [e])
  {
    list' := list;
    if tail != null {
      tail.next := e;
    } else {
      list' := e;
    }
    e.prev := tail;
  }

  /** Where a merge of the runs s[pi..pe] and s[qi..qe] stands. */
  ghost predicate MergeState(cmp: Compare<User>, s: seq<User>, k: nat, pi: nat, pe: nat, qi: nat, qe: nat, done: seq<User>)
    reads s`prev, s`next, done`prev, done`next
  {
    && k >= 1 && pi <= pe <= qi <= qe <= |s| && Distinct(s)
    && (forall u :: u in done ==> u in s)
    && Emitted(done)
    && StillLinked(s, pi, pe) && StillLinked(s, qi, |s|)
    && Apart(done, s, pi, pe) && Apart(done, s, qi, |s|)
    && done + Merge(cmp, s[pi..pe], s[qi..qe]) + MergePass(cmp, s[qe..], k) == MergePass(cmp, s, k)
  }

  lemma MergeTakesP(cmp: Compare<User>, s: seq<User>, k: nat, pi: nat, pe: nat, qi: nat, qe: nat, done: seq<User>)
    requires k >= 1 && pi < pe <= qi <= qe <= |s|
    requires qi == qe || cmp(s[pi], s[qi]) <= 0
    requires done + Merge(cmp, s[pi..pe], s[qi..qe]) + MergePass(cmp, s[qe..], k) == MergePass(cmp, s, k)
    ensures done + [s[pi]] + Merge(cmp, s[pi + 1..pe], s[qi..qe]) + MergePass(cmp, s[qe..], k) == MergePass(cmp, s, k)
  {
    hide Merge, MergePass;
    var p, q, rest := s[pi..pe], s[qi..qe], MergePass(cmp, s[qe..], k);
    assert p[1..] == s[pi + 1..pe];
    FirstFromP(cmp, p, q);
    OneElementOn(done, s[pi], Merge(cmp, p[1..], q), rest);
  }

  lemma MergeWithNothing(cmp: Compare<User>, s: seq<User>)
    ensures Merge(cmp, s, []) == s && Merge(cmp, [], s) == s
  {
  }

  lemma SmallerHead(cmp: Compare<User>, p: seq<User>, q: seq<User>)
    requires p != [] && q != []
    ensures Merge(cmp, p, q) == if cmp(p[0], q[0]) <= 0 then [p[0]] + Merge(cmp, p[1..], q) else [q[0]] + Merge(cmp, p, q[1..])
  {
  }

  lemma FirstFromP(cmp: Compare<User>, p: seq<User>, q: seq<User>)
    requires p != [] && (q == [] || cmp(p[0], q[0]) <= 0)
    ensures Merge(cmp, p, q) == [p[0]] + Merge(cmp, p[1..], q)
  {
    hide Merge;
    if q == [] {
      MergeWithNothing(cmp, p);
      MergeWithNothing(cmp, p[1..]);
    } else {
      SmallerHead(cmp, p, q);
    }
  }

  lemma FirstFromQ(cmp: Compare<User>, p: seq<User>, q: seq<User>)
    requires q != [] && (p == [] || cmp(p[0], q[0]) > 0)
    ensures Merge(cmp, p, q) == [q[0]] + Merge(cmp, p, q[1..])
  {
    hide Merge;
    if p == [] {
      MergeWithNothing(cmp, q);
      MergeWithNothing(cmp, q[1..]);
    } else {
      SmallerHead(cmp, p, q);
    }
  }

  lemma OneElementOn(done: seq<User>, x: User, m: seq<User>, rest: seq<User>)
    ensures done + ([x] + m) + rest == done + [x] + m + rest
  {
    assert done + ([x] + m) == done + [x] + m;
  }

  lemma MergeTakesQ(cmp: Compare<User>, s: seq<User>, k: nat, pi: nat, pe: nat, qi: nat, qe: nat, done: seq<User>)
    requires k >= 1 && pi <= pe <= qi < qe <= |s|
    requires pi == pe || cmp(s[pi], s[qi]) > 0
    requires done + Merge(cmp, s[pi..pe], s[qi..qe]) + MergePass(cmp, s[qe..], k) == MergePass(cmp, s, k)
    ensures done + [s[qi]] + Merge(cmp, s[pi..pe], s[qi + 1..qe]) + MergePass(cmp, s[qe..], k) == MergePass(cmp, s, k)
  {
    hide Merge, MergePass;
    var p, q, rest := s[pi..pe], s[qi..qe], MergePass(cmp, s[qe..], k);
    assert q[1..] == s[qi + 1..qe];
    FirstFromQ(cmp, p, q);
    OneElementOn(done, s[qi], Merge(cmp, p, q[1..]), rest);
  }

  /** The merge loop takes the next element from p. */
  method TakeP(cmp: Compare<User>, p: User, list: User?, tail: User?,
               ghost s: seq<User>, ghost k: nat, ghost pi: nat, ghost pe: nat, ghost qi: nat, ghost qe: nat, ghost done: seq<User>)
    returns (list': User?, p': User?)
    requires MergeState(cmp, s, k, pi, pe, qi, qe, done) && pi < pe && p == s[pi]
    requires qi == qe || cmp(s[pi], s[qi]) <= 0
    requires tail == Last(done) && list == First(done)
    modifies s`prev, s`next
    ensures MergeState(cmp, s, k, pi + 1, pe, qi, qe, done + [p]) && list' == First(done + [p])
    ensures p' == if pi + 1 < |s| then s[pi + 1] else null
  {
    hide Merge, MergePass, Emitted;
    MergeTakesP(cmp, s, k, pi, pe, qi, qe, done);
    assert done != [] ==> done[|done| - 1] in done;
    p' := p.next;
    list' := Emit(p, list, tail, done);
  }

  /** The merge loop takes the next element from q. */
  method TakeQ(cmp: Compare<User>, q: User, list: User?, tail: User?,
               ghost s: seq<User>, ghost k: nat, ghost pi: nat, ghost pe: nat, ghost qi: nat, ghost qe: nat, ghost done: seq<User>)
    returns (list': User?, q': User?)
    requires MergeState(cmp, s, k, pi, pe, qi, qe, done) && qi < qe && q == s[qi]
    requires pi == pe || cmp(s[pi], s[qi]) > 0
    requires tail == Last(done) && list == First(done)
    modifies s`prev, s`next
    ensures MergeState(cmp, s, k, pi, pe, qi + 1, qe, done + [q]) && list' == First(done + [q])
    ensures q' == if qi + 1 < |s| then s[qi + 1] else null
  {
    hide Merge, MergePass, Emitted;
    MergeTakesQ(cmp, s, k, pi, pe, qi, qe, done);
    assert done != [] ==> done[|done| - 1] in done;
    q' := q.next;
    list' := Emit(q, list, tail, done);
  }

  /** When both runs are used up, the merge stands at the element behind them. */
  lemma MergeDone(cmp: Compare<User>, s: seq<User>, k: nat, pe: nat, qe: nat, done: seq<User>)
    requires MergeState(cmp, s, k, pe, pe, qe, qe, done)
    ensures MergeState(cmp, s, k, qe, qe, qe, qe, done)
  {
    assert s[pe..pe] == s[qe..qe];
  }

  /** Merges one pair of runs onto the list under construction; returns the element behind them. */
  method MergeRuns(cmp: Compare<User>, p0: User, q0: User?, psize0: nat, insize: nat, list0: User?, tail0: User?,
                   ghost s: seq<User>, ghost pi0: nat, ghost done0: seq<User>)
    returns (list: User?, tail: User?, q: User?, ghost done: seq<User>)
    requires insize >= 1 && pi0 < |s| && p0 == s[pi0] && psize0 == Upto(s[pi0..], insize)
    requires q0 == if pi0 + psize0 < |s| then s[pi0 + psize0] else null
    requires var qe := pi0 + Upto(s[pi0..], 2 * insize); MergeState(cmp, s, insize, pi0, pi0 + psize0, pi0 + psize0, qe, done0)
    requires tail0 == Last(done0) && list0 == First(done0)
    modifies s`prev, s`next
    ensures var qe := pi0 + Upto(s[pi0..], 2 * insize);
            && q == (if qe < |s| then s[qe] else null)
            && MergeState(cmp, s, insize, qe, qe, qe, qe, done)
    ensures tail == Last(done) && list == First(done) && done != []
  {
    var p: User?, psize: nat, qsize: nat := p0, psize0, insize;
    hide MergeState;
    list, tail, q, done := list0, tail0, q0, done0;
    ghost var pe, qe := pi0 + psize0, pi0 + Upto(s[pi0..], 2 * insize);
    ghost var pi, qi := pi0, pe;
    while psize != 0 || (qsize != 0 && q != null)
      invariant pi + psize == pe && pi0 <= pi && pe <= qi <= qe <= |s|
      invariant qi + qsize == pe + insize
      invariant psize > 0 ==> p == s[pi]
      invariant q == if qi < |s| then s[qi] else null
      invariant MergeState(cmp, s, insize, pi, pe, qi, qe, done)
      invariant tail == Last(done) && list == First(done)
      invariant done == [] ==> psize > 0
      decreases psize + qsize
    {
      var e: User;
      if psize == 0 {
        e := q;
        list, q := TakeQ(cmp, q, list, tail, s, insize, pi, pe, qi, qe, done);
        qi, qsize := qi + 1, qsize - 1;
      } else if qsize == 0 || q == null {
        e := p;
        list, p := TakeP(cmp, p, list, tail, s, insize, pi, pe, qi, qe, done);
        pi, psize := pi + 1, psize - 1;
      } else if cmp(p, q) <= 0 {
        e := p;
        list, p := TakeP(cmp, p, list, tail, s, insize, pi, pe, qi, qe, done);
        pi, psize := pi + 1, psize - 1;
      } else {
        e := q;
        list, q := TakeQ(cmp, q, list, tail, s, insize, pi, pe, qi, qe, done);
        qi, qsize := qi + 1, qsize - 1;
      }
      tail := e;
      done := done + [e];
    }
    MergeDone(cmp, s, insize, pe, qe, done);
  }

  /** A merge of the next two runs starts where the previous merge ended. */
  lemma MergeStarts(cmp: Compare<User>, s: seq<User>, k: nat, pos: nat, done: seq<User>)
    requires MergeState(cmp, s, k, pos, pos, pos, pos, done) && pos < |s|
    ensures var pe, qe := pos + Upto(s[pos..], k), pos + Upto(s[pos..], 2 * k);
            MergeState(cmp, s, k, pos, pe, pe, qe, done)
  {
    StartEquation(cmp, s, k, pos, done, MergePass(cmp, s, k));
    hide MergePass, Merge;
  }

  lemma StartEquation(cmp: Compare<User>, s: seq<User>, k: nat, pos: nat, done: seq<User>, all: seq<User>)
    requires k >= 1 && pos < |s|
    requires done + Merge(cmp, s[pos..pos], s[pos..pos]) + MergePass(cmp, s[pos..], k) == all
    ensures var pe, qe := pos + Upto(s[pos..], k), pos + Upto(s[pos..], 2 * k);
            done + Merge(cmp, s[pos..pe], s[pe..qe]) + MergePass(cmp, s[qe..], k) == all
  {
    PassUnfolds(cmp, s, k, pos);
    NothingToMerge(cmp);
    hide MergePass, Merge;
    var pe, qe := pos + Upto(s[pos..], k), pos + Upto(s[pos..], 2 * k);
    assert s[pos..pos] == [];
    NothingBetween(done, Merge(cmp, s[pos..pe], s[pe..qe]), MergePass(cmp, s[qe..], k));
  }

  lemma NothingBetween<T>(done: seq<T>, a: seq<T>, b: seq<T>)
    ensures done + [] + (a + b) == done + a + b
  {
  }

  lemma NothingToMerge(cmp: Compare<User>)
    ensures Merge<User>(cmp, [], []) == []
  {
  }

  lemma PassUnfolds(cmp: Compare<User>, s: seq<User>, k: nat, pos: nat)
    requires k >= 1 && pos < |s|
    ensures var pe, qe := pos + Upto(s[pos..], k), pos + Upto(s[pos..], 2 * k);
            MergePass(cmp, s[pos..], k) == Merge(cmp, s[pos..pe], s[pe..qe]) + MergePass(cmp, s[qe..], k)
  {
    var t := s[pos..];
    var a, b := Upto(t, k), Upto(t, 2 * k);
    assert t[..a] == s[pos..pos + a];
    assert t[a..b] == s[pos + a..pos + b];
    assert t[b..] == s[pos + b..];
  }

  /** Steps q over at most insize elements from p; psize is the number of elements passed. */
  method FindRunEnd(p: User, insize: nat, ghost s: seq<User>, ghost pos: nat) returns (q: User?, psize: nat)
    requires insize >= 1 && pos < |s| && p == s[pos] && StillLinked(s, pos, |s|)
    ensures psize == Upto(s[pos..], insize)
    ensures q == if pos + psize < |s| then s[pos + psize] else null
  {
    q := p;
    psize := 0;
    var i := 0;
    while i < insize
      invariant i <= insize && psize == i && pos + psize < |s|
      invariant q == s[pos + psize]
    {
      psize := psize + 1;
      q := q.next;
      if q == null {
        return;
      }
      i := i + 1;
    }
  }

  lemma PassStarts(cmp: Compare<User>, s: seq<User>, k: nat)
    requires k >= 1 && AppLinked(s) && Distinct(s)
    ensures MergeState(cmp, s, k, 0, 0, 0, 0, [])
  {
    assert s[0..] == s && s[0..0] == [];
    assert Merge<User>(cmp, [], []) == [];
  }

  lemma PassEnds(cmp: Compare<User>, s: seq<User>, k: nat, done: seq<User>)
    requires MergeState(cmp, s, k, |s|, |s|, |s|, |s|, done)
    ensures done == MergePass(cmp, s, k) && Emitted(done)
    ensures forall u :: u in done ==> u in s
  {
    assert s[|s|..] == [] && s[|s|..|s|] == [];
    assert done + [] + [] == done;
  }

  /** One pass over the whole list, which becomes the list of merged runs. */
  method Pass(cmp: Compare<User>, list0: User, insize: nat, ghost s: seq<User>)
    returns (list: User?, tail: User?, nmerges: nat, ghost done: seq<User>)
    requires insize >= 1 && s != [] && list0 == s[0] && AppLinked(s) && Distinct(s)
    modifies s`prev, s`next
    ensures done == MergePass(cmp, s, insize)
    ensures AppLinked(done) && Distinct(done) && list == First(done) && tail == Last(done)
    ensures nmerges <= 1 <==> |s| <= 2 * insize
  {
    hide MergeState, MergePass, Merge;
    var p: User? := list0;
    list, tail, nmerges, done := null, null, 0, [];
    ghost var pos := 0;
    PassStarts(cmp, s, insize);
    while p != null
      invariant pos <= |s| && p == if pos < |s| then s[pos] else null
      invariant MergeState(cmp, s, insize, pos, pos, pos, pos, done)
      invariant tail == Last(done) && list == First(done) && (pos > 0 ==> done != [])
      invariant nmerges == 0 ==> pos == 0
      invariant nmerges == 1 ==> pos == Upto(s, 2 * insize)
      invariant nmerges >= 2 ==> |s| > 2 * insize && pos > 0
      decreases |s| - pos
    {
      nmerges := nmerges + 1;
      MergeStarts(cmp, s, insize, pos, done);
      StandsAt(cmp, s, insize, pos, done);
      var q, psize := FindRunEnd(p, insize, s, pos);
      assert pos == 0 ==> s[pos..] == s;
      list, tail, p, done := MergeRuns(cmp, p, q, psize, insize, list, tail, s, pos, done);
      pos := pos + Upto(s[pos..], 2 * insize);
    }
    PassEnds(cmp, s, insize, done);
    assert tail in done;
    Terminate(tail, done);
  }

  method Terminate(tail: User?, ghost done: seq<User>)
    requires Emitted(done) && tail == Last(done)
    modifies LastOf(done)`next
    ensures AppLinked(done)
  {
    if tail != null {
      tail.next := null;
    }
  }

  lemma StandsAt(cmp: Compare<User>, s: seq<User>, k: nat, pos: nat, done: seq<User>)
    requires MergeState(cmp, s, k, pos, pos, pos, pos, done)
    ensures StillLinked(s, pos, |s|)
  {
  }

  /** The outer loop of HASH_SRT: passes over runs of doubling length until a pass needs at most one merge. */
  method RunPasses(cmp: Compare<User>, list0: User, ghost orig: seq<User>) returns (list: User, tail: User?, ghost s: seq<User>)
    requires orig != [] && list0 == orig[0] && AppLinked(orig) && Distinct(orig)
    requires TotalPreorder(cmp, set u | u in orig)
    modifies orig`prev, orig`next
    ensures s != [] && list == s[0] && tail == Last(s) && AppLinked(s) && Distinct(s)
    ensures Sorted(cmp, s) && StablePermutation(cmp, orig, s)
  {
    hide RunsSorted, Sorted, StablePermutation, TotalPreorder, MergePass;
    var insize: nat := 1;
    var looping := true;
    list, tail, s := list0, null, orig;
    RunsOfOne(cmp, s);
    StableStart(cmp, s);
    while looping
      invariant insize >= 1 && s != [] && list == s[0]
      invariant AppLinked(s) && Distinct(s)
      invariant StablePermutation(cmp, orig, s)
      invariant forall u :: u in s ==> u in orig
      invariant if looping then RunsSorted(cmp, s, insize) else Sorted(cmp, s) && tail == Last(s)
      decreases looping, |s| - insize
    {
      NextPass(cmp, orig, s, insize);
      StableElements(cmp, orig, MergePass(cmp, s, insize));
      StableElements(cmp, orig, s);
      var nmerges;
      forall i | 0 <= i < |s| ensures s[i] in orig { assert s[i] in s; }
      list, tail, nmerges, s := Pass(cmp, list, insize, s);
      if nmerges <= 1 {
        looping := false;
      }
      insize := insize * 2;
    }
  }

  /**
   * HASH_SRT. The comparison ranks elements by anything that the sort itself leaves alone. Afterwards the
   * insertion-order list is a sorted, stable permutation of what it was, and the table is as sound as before.
   */
  method Sort(t: HashTable, cmp: Compare<User>)
    requires t.Valid() && TotalPreorder(cmp, set u | u in t.items)
    modifies t`head, t`tail, t`items, t.items`prev, t.items`next
    ensures t.Valid()
    ensures Sorted(cmp, t.items) && StablePermutation(cmp, old(t.items), t.items)
    ensures multiset(t.items) == multiset(old(t.items))
    ensures forall i, j :: 0 <= i < j < |t.items| ==> cmp(t.items[i], t.items[j]) <= 0
    ensures forall i, j :: 0 <= i < j < |t.items| && cmp(t.items[j], t.items[i]) <= 0 ==> Before(old(t.items), t.items[i], t.items[j])
  {
    hide Sorted, StablePermutation, TotalPreorder, SumExcess, BucketsMatch;
    if t.head != null {
      var list, tail;
      ghost var s;
      list, tail, s := Relink(t, cmp);
      Adopt(t, list, tail, s);
    } else {
      StableStart(cmp, t.items);
    }
    OrderAfter(cmp, old(t.items), t.items);
  }

  lemma OrderAfter(cmp: Compare<User>, s: seq<User>, r: seq<User>)
    requires Sorted(cmp, r) && StablePermutation(cmp, s, r) && TotalPreorder(cmp, set u | u in s)
    ensures multiset(r) == multiset(s)
    ensures forall i, j :: 0 <= i < j < |r| ==> cmp(r[i], r[j]) <= 0
    ensures forall i, j :: 0 <= i < j < |r| && cmp(r[j], r[i]) <= 0 ==> Before(s, r[i], r[j])
  {
    forall i, j | 0 <= i < j < |r| && cmp(r[j], r[i]) <= 0 ensures Before(s, r[i], r[j]) {
      StableOrder(cmp, s, r, i, j);
    }
  }

  /** The passes, seen from the table: its buckets are not touched. */
  method Relink(t: HashTable, cmp: Compare<User>) returns (list: User?, tail: User?, ghost s: seq<User>)
    requires t.Valid() && t.head != null && TotalPreorder(cmp, set u | u in t.items)
    modifies t.items`prev, t.items`next
    ensures t.UniqueIds() && t.BucketsOk() && t.HashesOk() && t.Partition(t.items, t.chains, t.numBuckets)
    ensures t.numItems == |t.items| == TotalExcess(t.chains, 0)
    ensures s != [] && list == s[0] && tail == Last(s) && AppLinked(s) && Distinct(s)
    ensures |s| == |t.items| && (forall u :: u in t.items ==> u in s) && (forall u :: u in s ==> u in t.items)
    ensures Sorted(cmp, s) && StablePermutation(cmp, t.items, s)
  {
    hide Sorted, StablePermutation, TotalPreorder, SumExcess;
    list, tail, s := RunPasses(cmp, t.head, t.items);
    StableElements(cmp, t.items, s);
    forall b | 0 <= b < |t.chains| ensures t.buckets[b] == old(t.buckets[..])[b] && BucketOk(t.buckets[b], t.chains[b]) {
      assert old(BucketOk(t.buckets[..][b], t.chains[b]));
    }
  }

  lemma StableStart(cmp: Compare<User>, s: seq<User>)
    ensures StablePermutation(cmp, s, s)
    ensures s == [] ==> Sorted(cmp, s)
  {
  }

  lemma StableElements(cmp: Compare<User>, s: seq<User>, r: seq<User>)
    requires StablePermutation(cmp, s, r)
    ensures |r| == |s| && (forall x :: x in s ==> x in r) && (forall x :: x in r ==> x in s)
  {
    SameElements(s, r);
  }

  lemma PartitionPermuted(t: HashTable, s: seq<User>, r: seq<User>, cs: seq<seq<User>>, n: nat)
    requires n >= 1 && t.Partition(s, cs, n)
    requires (forall u :: u in s ==> u in r) && (forall u :: u in r ==> u in s)
    ensures t.Partition(r, cs, n)
  {
  }

  /** The sorted list becomes the insertion order of the table. */
  method Adopt(t: HashTable, list: User?, tail: User?, ghost s: seq<User>)
    requires list == First(s) && tail == Last(s) && s != [] && |s| == |t.items|
    requires AppLinked(s) && Distinct(s)
    requires (forall u :: u in t.items ==> u in s) && (forall u :: u in s ==> u in t.items)
    requires t.UniqueIds() && t.BucketsOk() && t.HashesOk() && t.Partition(t.items, t.chains, t.numBuckets)
    requires t.numItems == |t.items| == TotalExcess(t.chains, 0)
    modifies t`items, t`head, t`tail
    ensures t.Valid() && t.items == s
  {
    hide SumExcess;
    PartitionPermuted(t, t.items, s, t.chains, t.numBuckets);
    forall i, j | 0 <= i < j < |s| ensures s[i].id != s[j].id {
      assert s[i] in t.items && s[j] in t.items;
    }
    t.tail := tail;
    t.head := list;
    t.items := s;
  }
}
