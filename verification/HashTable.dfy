/** The linked hash table of uthash: an insertion-order list and bucket chains over the same elements. */
module HashTables {
  import opened Bits
  import opened Users
  import opened Sequences

  const INITIAL_NUM_BUCKETS := 32
  const INITIAL_NUM_BUCKETS_LOG2 := 5
  const BKT_CAPACITY_THRESH := 10

  datatype Bucket = Bucket(head: User?, count: nat, expandMult: nat)

  const EMPTY_BUCKET := Bucket(null, 0, 0)

  // ----- sequences of elements -----

  ghost function First(s: seq<User>): User?
  {
    if s == [] then null else s[0]
  }

  /** The prev and next pointers spell out s. */
  ghost predicate AppLinked(s: seq<User>)
    reads s`prev, s`next
  {
    && (forall i {:trigger s[i].prev} :: 0 <= i < |s| ==> s[i].prev == if i == 0 then null else s[i - 1])
    && (forall i {:trigger s[i].next} :: 0 <= i < |s| ==> s[i].next == if i + 1 == |s| then null else s[i + 1])
  }

  /** The hh_prev and hh_next pointers spell out c. */
  ghost predicate ChainLinked(c: seq<User>)
    reads c`hhPrev, c`hhNext
  {
    && (forall i {:trigger c[i].hhPrev} :: 0 <= i < |c| ==> c[i].hhPrev == if i == 0 then null else c[i - 1])
    && (forall i {:trigger c[i].hhNext} :: 0 <= i < |c| ==> c[i].hhNext == if i + 1 == |c| then null else c[i + 1])
  }

  ghost function Nodes(cs: seq<seq<User>>): set<User>
  {
    set b, j | 0 <= b < |cs| && 0 <= j < |cs[b]| :: cs[b][j]
  }

  /** The bucket array bs has exactly the chains cs hanging off it. */
  ghost predicate BucketsMatch(bs: seq<Bucket>, cs: seq<seq<User>>)
    reads Nodes(cs)`hhPrev, Nodes(cs)`hhNext
  {
    && |bs| == |cs|
    && forall b {:trigger cs[b]} {:trigger bs[b]} :: 0 <= b < |cs| ==> BucketOk(bs[b], cs[b])
  }

  ghost predicate BucketOk(bucket: Bucket, c: seq<User>)
    reads c`hhPrev, c`hhNext
  {
    bucket.head == First(c) && bucket.count == |c| && ChainLinked(c) && Distinct(c)
  }

  ghost function FirstOf(c: seq<User>): set<User>
  {
    if c == [] then {} else {c[0]}
  }

  /** The pointer moves that put addhh in front of the chain c. */
  method LinkInFront(addhh: User, hhHead: User?, ghost c: seq<User>)
    requires hhHead == First(c) && ChainLinked(c) && Distinct(c) && addhh !in c
    modifies addhh`hhNext, addhh`hhPrev, FirstOf(c)`hhPrev
    ensures ChainLinked([addhh] + c) && Distinct([addhh] + c)
  {
    addhh.hhNext := hhHead;
    addhh.hhPrev := null;
    if hhHead != null {
      hhHead.hhPrev := addhh;
    }
  }

  /** The pointer moves that take element k out of the chain c. */
  method UnlinkFromChain(delhh: User, ghost c: seq<User>, ghost k: nat)
    requires k < |c| && c[k] == delhh && ChainLinked(c) && Distinct(c)
    modifies c`hhPrev, c`hhNext
    ensures ChainLinked(c[..k] + c[k + 1..])
    ensures delhh.hhNext == old(delhh.hhNext)
  {
    if delhh.hhPrev != null {
      delhh.hhPrev.hhNext := delhh.hhNext;
    }
    if delhh.hhNext != null {
      delhh.hhNext.hhPrev := delhh.hhPrev;
    }
  }

  /** The pointer moves that take element k out of the insertion-order list s. */
  method UnlinkFromList(del: User, ghost s: seq<User>, ghost k: nat)
    requires k < |s| && s[k] == del && AppLinked(s) && Distinct(s)
    modifies s`prev, s`next
    ensures AppLinked(s[..k] + s[k + 1..])
    ensures del.prev == old(del.prev) && del.next == old(del.next)
  {
    if del.prev != null {
      del.prev.next := del.next;
    }
    if del.next != null {
      del.next.prev := del.prev;
    }
  }

  ghost function Excess(n: nat, k: nat): nat { if n > k then n - k else 0 }

  /** Sum over the first n chains of what exceeds length k; with k = 0, their number of elements. */
  ghost function SumExcess(chains: seq<seq<User>>, n: nat, k: nat): nat
    requires n <= |chains|
  {
    if n == 0 then 0 else SumExcess(chains, n - 1, k) + Excess(|chains[n - 1]|, k)
  }

  ghost function TotalExcess(chains: seq<seq<User>>, k: nat): nat
  {
    SumExcess(chains, |chains|, k)
  }

  lemma {:induction false} SumExcessUpdate(chains: seq<seq<User>>, n: nat, b: nat, c: seq<User>, k: nat)
    requires b < |chains| && n <= |chains|
    ensures SumExcess(chains[b := c], n, k) ==
            SumExcess(chains, n, k) + if b < n then Excess(|c|, k) - Excess(|chains[b]|, k) else 0
  {
    if n > 0 { SumExcessUpdate(chains, n - 1, b, c, k); }
  }

  /** The places on the first n chains behind the first k of each chain. */
  ghost function PlacesBeyond(cs: seq<seq<User>>, n: nat, k: nat): set<(int, int)>
    requires n <= |cs|
  {
    set b, j | 0 <= b < n && k <= j < |cs[b]| :: (b, j)
  }

  ghost function PlacesOn(b: int, k: int, m: int): set<(int, int)>
  {
    set j | k <= j < m :: (b, j)
  }

  lemma {:induction false} CountPlacesOn(b: int, k: nat, m: nat)
    ensures |PlacesOn(b, k, m)| == Excess(m, k)
  {
    if m <= k {
      assert PlacesOn(b, k, m) == {};
    } else {
      CountPlacesOn(b, k, m - 1);
      assert PlacesOn(b, k, m) == PlacesOn(b, k, m - 1) + {(b, m - 1)};
    }
  }

  /** The total excess over k is the number of places behind the first k of their chains. */
  lemma {:induction false} ExcessCountsPlaces(cs: seq<seq<User>>, n: nat, k: nat)
    requires n <= |cs|
    ensures SumExcess(cs, n, k) == |PlacesBeyond(cs, n, k)|
  {
    if n == 0 {
      assert PlacesBeyond(cs, 0, k) == {};
    } else {
      ExcessCountsPlaces(cs, n - 1, k);
      CountPlacesOn(n - 1, k, |cs[n - 1]|);
      assert PlacesBeyond(cs, n, k) == PlacesBeyond(cs, n - 1, k) + PlacesOn(n - 1, k, |cs[n - 1]|);
      assert PlacesBeyond(cs, n - 1, k) !! PlacesOn(n - 1, k, |cs[n - 1]|);
    }
  }

  class HashTable {
    const hash: int -> word

    var head: User?
    // the table that the head element points to, meaningful while there is a head
    var buckets: array<Bucket>
    var numBuckets: nat
    var log2NumBuckets: nat
    var numItems: nat
    var tail: User?
    var idealChainMaxlen: nat
    var nonidealItems: nat
    var ineffExpands: nat
    var noexpand: bool

    ghost var items: seq<User>          // in insertion order
    ghost var chains: seq<seq<User>>    // one per bucket

    ghost function Slot(u: User, n: nat): nat
      requires n >= 1
    {
      BitAnd(hash(u.id), n - 1)
    }

    ghost predicate ListOk()
      reads this, items`prev, items`next
    {
      && items != [] && head == items[0] && tail == items[|items| - 1]
      && AppLinked(items) && Distinct(items)
      && numItems == |items|
    }

    ghost predicate BucketsOk()
      reads this, buckets, Nodes(chains)`hhPrev, Nodes(chains)`hhNext
    {
      && numBuckets == Pow2(log2NumBuckets) == buckets.Length
      && BucketsMatch(buckets[..], chains)
    }

    /** Every element sits in the bucket its hash value selects. */
    ghost predicate Homes(cs: seq<seq<User>>, n: nat)
      requires n >= 1
    {
      forall b, u {:trigger u in cs[b]} :: 0 <= b < |cs| && u in cs[b] ==> Slot(u, n) == b
    }

    /** The chains hold exactly the elements s, each in its home bucket. */
    ghost predicate Partition(s: seq<User>, cs: seq<seq<User>>, n: nat)
      requires n >= 1
    {
      && |cs| == n && Homes(cs, n)
      && (forall b, u {:trigger u in cs[b]} :: 0 <= b < n && u in cs[b] ==> u in s)
      && (forall u {:trigger u in s} :: u in s ==> Slot(u, n) < n && u in cs[Slot(u, n)])
    }

    lemma NodesAreItems(s: seq<User>, cs: seq<seq<User>>, n: nat)
      requires n >= 1 && Partition(s, cs, n)
      ensures forall u :: u in Nodes(cs) ==> u in s
    {
      forall b, j | 0 <= b < |cs| && 0 <= j < |cs[b]| ensures cs[b][j] in s {
        assert cs[b][j] in cs[b];
      }
    }

    ghost predicate HashesOk()
      reads this`items, items`hashv
    {
      forall u :: u in items ==> u.hashv == hash(u.id)
    }

    /** Adds the element to the front of its bucket chain, without growing. */
    method PushOnBucket(b: nat, addhh: User)
      requires BucketsOk() && b < numBuckets
      requires forall i {:trigger chains[i]} :: 0 <= i < |chains| ==> addhh !in chains[i]
      requires forall i {:trigger chains[i]} :: 0 <= i < |chains| && i != b ==> FirstOf(chains[b]) !! set u | u in chains[i]
      modifies buckets, addhh`hhNext, addhh`hhPrev, this`chains, FirstOf(chains[b])`hhPrev
      ensures BucketsOk()
      ensures chains == old(chains)[b := [addhh] + old(chains)[b]]
      ensures forall i :: 0 <= i < |chains| ==> buckets[i].expandMult == old(buckets[i].expandMult)
    {
      assert BucketOk(buckets[..][b], chains[b]);
      buckets[b] := buckets[b].(count := buckets[b].count + 1);
      LinkInFront(addhh, buckets[b].head, chains[b]);
      buckets[b] := buckets[b].(head := addhh);
      chains := chains[b := [addhh] + chains[b]];
      forall i | 0 <= i < |chains| && i != b ensures buckets[i] == old(buckets[..])[i] && BucketOk(buckets[i], chains[i]) {
        assert chains[i] == old(chains)[i];
        assert old(BucketOk(buckets[..][i], chains[i]));
      }
    }

    // ----- doubling the number of buckets -----

    /** Where a bucket of the doubled table takes its elements from. */
    ghost function Source(b: nat, n: nat): nat
      requires b < 2 * n
    {
      if b < n then b else b - n
    }

    /** The elements of c that belong in bucket b of n, last one first. */
    ghost function Chosen(c: seq<User>, b: nat, n: nat): (r: seq<User>)
      requires n >= 1
      ensures forall u :: u in r ==> u in c && Slot(u, n) == b
      ensures forall u :: u in c && Slot(u, n) == b ==> u in r
    {
      if c == [] then []
      else
        var r := Chosen(c[..|c| - 1], b, n);
        var u := c[|c| - 1];
        if Slot(u, n) == b then [u] + r else r
    }

    /** The bucket pressure that HASH_EXPAND_BUCKETS counts up while a chain grows to length c. */
    ghost function ExpandMult(c: nat, k: nat): nat
    {
      if c == 0 then 0
      else
        var m := ExpandMult(c - 1, k);
        if c > k && c > m * k then m + 1 else m
    }

    /** The elements of c that belong in bucket b of n, in the order of c. */
    ghost function Selected(c: seq<User>, b: nat, n: nat): seq<User>
      requires n >= 1
    {
      if c == [] then []
      else Selected(c[..|c| - 1], b, n) + (if Slot(c[|c| - 1], n) == b then [c[|c| - 1]] else [])
    }

    /** A chain after doubling is the reverse of the part of its source chain that it selects. */
    lemma {:induction false} ChosenIsReversed(c: seq<User>, b: nat, n: nat)
      requires n >= 1
      ensures |Chosen(c, b, n)| == |Selected(c, b, n)|
      ensures forall k :: 0 <= k < |Chosen(c, b, n)| ==> Chosen(c, b, n)[k] == Selected(c, b, n)[|Chosen(c, b, n)| - 1 - k]
    {
      if c != [] { ChosenIsReversed(c[..|c| - 1], b, n); }
    }

    /** The pressure of a chain of length c is the smaller of its excess and of c / k rounded up. */
    lemma {:induction false} ExpandMultIsPressure(c: nat, k: nat, m: nat)
      requires k >= 1 && IsCeil(c, k, m)
      ensures ExpandMult(c, k) == if c <= k then 0 else if c - k < m then c - k else m
      decreases c
    {
      if c > 0 {
        CeilStep(c, k, m);
        ExpandMultIsPressure(c - 1, k, if (m - 1) * k == c - 1 then m - 1 else m);
        PressureGrows(c, k, m, ExpandMult(c - 1, k));
      }
    }

    /** Of two elements on a new chain, the one in front was behind the other on the old chain. */
    lemma {:induction false} ChosenReverses(c: seq<User>, b: nat, n: nat, i: nat, j: nat)
      requires n >= 1 && i < j < |Chosen(c, b, n)|
      ensures exists p, q {:trigger c[p], c[q]} :: 0 <= p < q < |c| && c[p] == Chosen(c, b, n)[j] && c[q] == Chosen(c, b, n)[i]
    {
      var d, m := c[..|c| - 1], |c| - 1;
      var shift := if Slot(c[m], n) == b then 1 else 0;
      if i < shift {
        assert Chosen(c, b, n)[j] in Chosen(d, b, n);
        var p :| 0 <= p < |d| && d[p] == Chosen(c, b, n)[j];
        assert c[p] == Chosen(c, b, n)[j] && c[m] == Chosen(c, b, n)[i];
      } else {
        ChosenReverses(d, b, n, i - shift, j - shift);
        var p, q :| 0 <= p < q < |d| && d[p] == Chosen(d, b, n)[j - shift] && d[q] == Chosen(d, b, n)[i - shift];
        assert c[p] == Chosen(c, b, n)[j] && c[q] == Chosen(c, b, n)[i];
      }
    }

    ghost predicate MultsOk(bs: seq<Bucket>, k: nat)
    {
      forall b {:trigger bs[b]} :: 0 <= b < |bs| ==> bs[b].expandMult == ExpandMult(bs[b].count, k)
    }

    /** Moves one element to the front of its new bucket; over tells whether it lies beyond the ideal length. */
    method MoveToBucket(newBuckets: array<Bucket>, b: nat, thh: User, k: nat, ghost nc: seq<seq<User>>)
      returns (over: bool)
      requires BucketsMatch(newBuckets[..], nc) && MultsOk(newBuckets[..], k) && b < |nc|
      requires forall i {:trigger nc[i]} :: 0 <= i < |nc| ==> thh !in nc[i]
      requires forall i {:trigger nc[i]} :: 0 <= i < |nc| && i != b ==> FirstOf(nc[b]) !! set u | u in nc[i]
      modifies newBuckets, thh`hhNext, thh`hhPrev, FirstOf(nc[b])`hhPrev
      ensures BucketsMatch(newBuckets[..], nc[b := [thh] + nc[b]]) && MultsOk(newBuckets[..], k)
      ensures over == (|nc[b]| + 1 > k)
    {
      assert BucketOk(newBuckets[..][b], nc[b]);
      newBuckets[b] := newBuckets[b].(count := newBuckets[b].count + 1);
      over := newBuckets[b].count > k;
      if over && newBuckets[b].count > newBuckets[b].expandMult * k {
        newBuckets[b] := newBuckets[b].(expandMult := newBuckets[b].expandMult + 1);
      }
      LinkInFront(thh, newBuckets[b].head, nc[b]);
      newBuckets[b] := newBuckets[b].(head := thh);
      forall i | 0 <= i < |nc| && i != b ensures newBuckets[i] == old(newBuckets[..])[i] && BucketOk(newBuckets[i], nc[i]) {
        assert old(BucketOk(newBuckets[..][i], nc[i]));
      }
    }

    /** What the walk has taken out of old bucket r once it stands before element j of bucket i. */
    ghost function Taken(cs: seq<seq<User>>, r: nat, i: nat, j: nat): seq<User>
      requires r < |cs| && (r == i ==> j <= |cs[r]|)
    {
      if r < i then cs[r] else if r == i then cs[r][..j] else []
    }

    ghost predicate Redistributed(cs: seq<seq<User>>, nc: seq<seq<User>>, i: nat, j: nat)
      requires i < |cs| ==> j <= |cs[i]|
    {
      && |nc| == 2 * |cs|
      && forall b {:trigger nc[b]} :: 0 <= b < |nc| ==>
           nc[b] == Chosen(Taken(cs, Source(b, |cs|), i, j), b, |nc|)
    }

    lemma SlotDoubles(u: User, k: nat)
      ensures Slot(u, Pow2(k)) < Pow2(k) && Slot(u, Pow2(k + 1)) < 2 * Pow2(k)
      ensures Source(Slot(u, Pow2(k + 1)), Pow2(k)) == Slot(u, Pow2(k))
    {
      var h := hash(u.id);
      MaskIsLowBits(h, k);
      MaskIsLowBits(h, k + 1);
      ShiftAndLowBitsSplit(h, k);
      ShiftAndLowBitsSplit(h, k + 1);
      OneMoreBit(h, k);
    }

    /** The home bucket of an element is the remainder of its hash value. */
    lemma SlotIsRemainder(u: User, k: nat)
      ensures Slot(u, Pow2(k)) == hash(u.id) % Pow2(k)
    {
      MaskIsLowBits(hash(u.id), k);
      ShiftIsDivision(hash(u.id), k);
    }

    /** One more element taken: it goes to the front of exactly one new chain. */
    lemma TakeOne(cs: seq<seq<User>>, nc: seq<seq<User>>, i: nat, j: nat, b: nat)
      requires i < |cs| && j < |cs[i]| && Redistributed(cs, nc, i, j)
      requires b < |nc| && b == Slot(cs[i][j], |nc|) && Source(b, |cs|) == i
      ensures Redistributed(cs, nc[b := [cs[i][j]] + nc[b]], i, j + 1)
    {
      var nc' := nc[b := [cs[i][j]] + nc[b]];
      assert cs[i][..j + 1][..j] == cs[i][..j];
      forall b' | 0 <= b' < |nc'| ensures nc'[b'] == Chosen(Taken(cs, Source(b', |cs|), i, j + 1), b', |nc'|) {
        assert nc[b'] == Chosen(Taken(cs, Source(b', |cs|), i, j), b', |nc|);
      }
    }

    /** The element about to be moved is in no new chain yet, and new chains share no elements. */
    lemma NotYetTaken(cs: seq<seq<User>>, nc: seq<seq<User>>, i: nat, j: nat)
      requires i < |cs| && j < |cs[i]| && Redistributed(cs, nc, i, j)
      requires Homes(cs, |cs|) && Distinct(cs[i])
      ensures forall b {:trigger nc[b]} :: 0 <= b < |nc| ==> cs[i][j] !in nc[b]
    {
      forall b | 0 <= b < |nc| ensures cs[i][j] !in nc[b] {
        assert nc[b] == Chosen(Taken(cs, Source(b, |cs|), i, j), b, |nc|);
        assert cs[i][j] in cs[i];
      }
    }

    /** Elements not taken yet still point along their old chain. */
    ghost predicate RestLinked(cs: seq<seq<User>>, i: nat, j: nat)
      reads Nodes(cs)`hhNext
    {
      forall r, l {:trigger cs[r][l]} :: i <= r < |cs| && 0 <= l < |cs[r]| && (r == i ==> j <= l) ==>
        cs[r][l].hhNext == if l + 1 == |cs[r]| then null else cs[r][l + 1]
    }

    /** State of the walk of HASH_EXPAND_BUCKETS before element j of old bucket i. */
    ghost predicate WalkOk(bs: seq<Bucket>, cs: seq<seq<User>>, nc: seq<seq<User>>, i: nat, j: nat, k: nat)
      reads Nodes(nc)`hhPrev, Nodes(nc)`hhNext, Nodes(cs)`hhNext
    {
      && (i < |cs| ==> j <= |cs[i]|)
      && Redistributed(cs, nc, i, j)
      && BucketsMatch(bs, nc) && MultsOk(bs, k)
      && RestLinked(cs, i, j)
    }

    ghost predicate OldChainsOk(cs: seq<seq<User>>)
      reads this`items
    {
      && |cs| >= 1 && Partition(items, cs, |cs|)
      && (forall r {:trigger cs[r]} :: 0 <= r < |cs| ==> Distinct(cs[r]))
    }

    /** One turn of the inner loop: take element j of old bucket i over to its new bucket. */
    method MoveOne(thh: User, newBuckets: array<Bucket>, b: nat, i: nat, ghost j: nat, k: nat,
                   ghost cs: seq<seq<User>>, ghost nc: seq<seq<User>>)
      returns (over: bool, ghost nc': seq<seq<User>>)
      requires OldChainsOk(cs) && WalkOk(newBuckets[..], cs, nc, i, j, k)
      requires i < |cs| && j < |cs[i]| && thh == cs[i][j]
      requires b == Slot(thh, |nc|) < |nc| && Source(b, |cs|) == i
      modifies newBuckets, items`hhPrev, items`hhNext
      ensures nc' == nc[b := [thh] + nc[b]] && over == (|nc[b]| + 1 > k)
      ensures WalkOk(newBuckets[..], cs, nc', i, j + 1, k)
    {
      NotYetTaken(cs, nc, i, j);
      assert thh in cs[i];
      TakeOne(cs, nc, i, j, b);
      assert nc[b] == Chosen(Taken(cs, Source(b, |cs|), i, j), b, |nc|);
      if nc[b] != [] {
        assert nc[b][0] in nc[b];
        assert nc[b][0] in cs[i];
      }
      over := MoveToBucket(newBuckets, b, thh, k, nc);
      nc' := nc[b := [thh] + nc[b]];
      forall r, l | i <= r < |cs| && 0 <= l < |cs[r]| && (r == i ==> j < l) ensures cs[r][l] != thh {
        assert cs[r][l] in cs[r];
      }
    }

    /** The whole body of the inner loop: remember the next element, pick the new bucket, move, count. */
    method Turn(thh: User, newBuckets: array<Bucket>, i: nat, ghost j: nat, k: nat, ghost log2: nat,
                ghost cs: seq<seq<User>>, ghost nc: seq<seq<User>>)
      returns (hhNxt: User?, over: bool, ghost nc': seq<seq<User>>)
      requires OldChainsOk(cs) && HashesOk() && |cs| == numBuckets == Pow2(log2)
      requires i < |cs| && j < |cs[i]| && thh == cs[i][j]
      requires WalkOk(newBuckets[..], cs, nc, i, j, k)
      modifies newBuckets, items`hhPrev, items`hhNext
      ensures hhNxt == if j + 1 < |cs[i]| then cs[i][j + 1] else null
      ensures WalkOk(newBuckets[..], cs, nc', i, j + 1, k)
      ensures TotalExcess(nc', k) == TotalExcess(nc, k) + (if over then 1 else 0)
      ensures TotalExcess(nc', 0) == TotalExcess(nc, 0) + 1
    {
      assert thh in cs[i];
      hhNxt := thh.hhNext;
      var bkt := BitAnd(thh.hashv, numBuckets * 2 - 1);
      SlotDoubles(thh, log2);
      SumExcessUpdate(nc, |nc|, bkt, [thh] + nc[bkt], k);
      SumExcessUpdate(nc, |nc|, bkt, [thh] + nc[bkt], 0);
      over, nc' := MoveOne(thh, newBuckets, bkt, i, j, k, cs, nc);
    }

    /** The end of one old bucket is the beginning of the next. */
    lemma BucketDrained(bs: seq<Bucket>, cs: seq<seq<User>>, nc: seq<seq<User>>, i: nat, k: nat)
      requires i < |cs| && WalkOk(bs, cs, nc, i, |cs[i]|, k)
      ensures WalkOk(bs, cs, nc, i + 1, 0, k)
    {
      assert cs[i][..|cs[i]|] == cs[i];
      forall b | 0 <= b < |nc| ensures nc[b] == Chosen(Taken(cs, Source(b, |cs|), i + 1, 0), b, |nc|) {
        assert nc[b] == Chosen(Taken(cs, Source(b, |cs|), i, |cs[i]|), b, |nc|);
      }
    }

    /** The inner loop of HASH_EXPAND_BUCKETS: empties old bucket i; over is added to nonideal_items. */
    method DrainBucket(hhHead: User?, newBuckets: array<Bucket>, i: nat, k: nat, ghost log2: nat,
                       ghost cs: seq<seq<User>>, ghost nc: seq<seq<User>>)
      returns (over: nat, ghost nc': seq<seq<User>>)
      requires OldChainsOk(cs) && HashesOk() && |cs| == numBuckets == Pow2(log2)
      requires i < |cs| && hhHead == First(cs[i])
      requires WalkOk(newBuckets[..], cs, nc, i, 0, k)
      modifies newBuckets, items`hhPrev, items`hhNext
      ensures WalkOk(newBuckets[..], cs, nc', i + 1, 0, k)
      ensures TotalExcess(nc', k) == TotalExcess(nc, k) + over
      ensures TotalExcess(nc', 0) == TotalExcess(nc, 0) + |cs[i]|
    {
      hide WalkOk;
      over := 0;
      nc' := nc;
      var thh := hhHead;
      ghost var j := 0;
      while thh != null
        invariant j <= |cs[i]| && thh == if j < |cs[i]| then cs[i][j] else null
        invariant WalkOk(newBuckets[..], cs, nc', i, j, k)
        invariant TotalExcess(nc', k) == TotalExcess(nc, k) + over
        invariant TotalExcess(nc', 0) == TotalExcess(nc, 0) + j
        decreases |cs[i]| - j
      {
        var isOver: bool;
        thh, isOver, nc' := Turn(thh, newBuckets, i, j, k, log2, cs, nc');
        if isOver {
          over := over + 1;
        }
        j := j + 1;
      }
      BucketDrained(newBuckets[..], cs, nc', i, k);
    }

    /** The outer loop of HASH_EXPAND_BUCKETS. */
    method Redistribute(newBuckets: array<Bucket>, k: nat, ghost log2: nat, ghost start: seq<seq<User>>)
      returns (nonideal: nat, ghost nc: seq<seq<User>>)
      requires OldChainsOk(chains) && HashesOk() && |chains| == numBuckets == buckets.Length == Pow2(log2)
      requires forall i :: 0 <= i < numBuckets ==> buckets[i].head == First(chains[i])
      requires newBuckets != buckets
      requires WalkOk(newBuckets[..], chains, start, 0, 0, k)
      requires TotalExcess(start, k) == TotalExcess(start, 0) == 0
      modifies newBuckets, items`hhPrev, items`hhNext
      ensures WalkOk(newBuckets[..], chains, nc, numBuckets, 0, k)
      ensures nonideal == TotalExcess(nc, k)
      ensures TotalExcess(nc, 0) == TotalExcess(chains, 0)
    {
      hide WalkOk;
      nc := start;
      nonideal := 0;
      var i := 0;
      while i < numBuckets
        invariant i <= numBuckets
        invariant WalkOk(newBuckets[..], chains, nc, i, 0, k)
        invariant nonideal == TotalExcess(nc, k)
        invariant TotalExcess(nc, 0) == SumExcess(chains, i, 0)
      {
        var over: nat;
        over, nc := DrainBucket(buckets[i].head, newBuckets, i, k, log2, chains, nc);
        nonideal := nonideal + over;
        i := i + 1;
      }
    }

    lemma WalkStarts(bs: seq<Bucket>, nb: seq<Bucket>, nc: seq<seq<User>>, k: nat)
      requires |chains| == numBuckets && |nb| == |nc| == 2 * numBuckets && BucketsMatch(bs, chains)
      requires forall b :: 0 <= b < |nc| ==> nb[b] == EMPTY_BUCKET && nc[b] == []
      ensures WalkOk(nb, chains, nc, 0, 0, k)
      ensures TotalExcess(nc, k) == TotalExcess(nc, 0) == 0
      ensures forall r :: 0 <= r < |chains| ==> Distinct(chains[r]) && bs[r].head == First(chains[r])
    {
      forall r | 0 <= r < |chains| ensures ChainLinked(chains[r]) && Distinct(chains[r]) && bs[r].head == First(chains[r]) {
        assert BucketOk(bs[r], chains[r]);
      }
      NoExcessYet(nc, |nc|, k);
      NoExcessYet(nc, |nc|, 0);
    }

    /** New chains from old: each is the reverse of its source chain, restricted to the elements it hashes. */
    ghost predicate Doubling(cs: seq<seq<User>>, nc: seq<seq<User>>)
    {
      && |nc| == 2 * |cs|
      && forall b {:trigger nc[b]} :: 0 <= b < |nc| ==> nc[b] == Chosen(cs[Source(b, |cs|)], b, |nc|)
    }

    /** Allocates and fills the bucket array of twice the size. */
    method Rebuild(k: nat, ghost log2: nat) returns (newBuckets: array<Bucket>, nonideal: nat, ghost nc: seq<seq<User>>)
      requires numBuckets == Pow2(log2) == buckets.Length && BucketsMatch(buckets[..], chains)
      requires Partition(items, chains, numBuckets) && HashesOk()
      modifies items`hhPrev, items`hhNext
      ensures fresh(newBuckets) && newBuckets.Length == 2 * numBuckets
      ensures BucketsMatch(newBuckets[..], nc) && MultsOk(newBuckets[..], k) && Partition(items, nc, 2 * numBuckets)
      ensures Doubling(chains, nc)
      ensures nonideal == TotalExcess(nc, k) && TotalExcess(nc, 0) == TotalExcess(chains, 0)
    {
      newBuckets := new Bucket[2 * numBuckets](_ => EMPTY_BUCKET);
      ghost var start: seq<seq<User>> := seq(2 * numBuckets, _ => []);
      WalkStarts(buckets[..], newBuckets[..], start, k);
      nonideal, nc := Redistribute(newBuckets, k, log2, start);
      PartitionDoubled(items, chains, nc, log2);
    }

    /** The figures that an expansion leaves behind: ideal chain length, items beyond it, pressure of every bucket. */
    ghost predicate Rebalanced()
      reads this, buckets
    {
      && IsCeil(numItems, numBuckets, idealChainMaxlen)
      && nonidealItems == TotalExcess(chains, idealChainMaxlen)
      && MultsOk(buckets[..], idealChainMaxlen)
    }

    /** HASH_EXPAND_BUCKETS */
    method ExpandBuckets()
      requires BucketsOk() && Partition(items, chains, numBuckets) && HashesOk()
      requires numItems == |items| == TotalExcess(chains, 0)
      modifies this, items`hhPrev, items`hhNext
      ensures BucketsOk() && Partition(items, chains, numBuckets) && HashesOk()
      ensures unchanged(`head, `tail, `numItems, `items)
      ensures numBuckets == 2 * old(numBuckets) && log2NumBuckets == old(log2NumBuckets) + 1 && fresh(buckets)
      ensures Doubling(old(chains), chains)
      ensures Rebalanced()
      ensures TotalExcess(chains, 0) == TotalExcess(old(chains), 0)
      ensures ineffExpands == if nonidealItems > numItems / 2 then old(ineffExpands) + 1 else 0
      ensures noexpand == (old(noexpand) || ineffExpands > 1)
    {
      var k := IdealLength();
      var newBuckets, nonideal;
      ghost var nc;
      newBuckets, nonideal, nc := Rebuild(k, log2NumBuckets);
      Install(newBuckets, k, nonideal, nc);
    }

    /** The ideal chain length after doubling, by shift and mask. */
    method IdealLength() returns (k: nat)
      requires numBuckets == Pow2(log2NumBuckets)
      ensures IsCeil(numItems, 2 * numBuckets, k)
    {
      k := ShiftRight(numItems, log2NumBuckets + 1) + (if BitAnd(numItems, numBuckets * 2 - 1) != 0 then 1 else 0);
      CeilByShiftAndMask(numItems, log2NumBuckets + 1);
    }

    method Install(newBuckets: array<Bucket>, k: nat, nonideal: nat, ghost nc: seq<seq<User>>)
      requires HashesOk() && numBuckets == Pow2(log2NumBuckets) && newBuckets.Length == 2 * numBuckets
      requires BucketsMatch(newBuckets[..], nc) && MultsOk(newBuckets[..], k) && Partition(items, nc, 2 * numBuckets)
      modifies this`numBuckets, this`log2NumBuckets, this`buckets, this`chains
      modifies this`idealChainMaxlen, this`nonidealItems, this`ineffExpands, this`noexpand
      ensures BucketsOk() && Partition(items, chains, numBuckets) && HashesOk() && MultsOk(buckets[..], k)
      ensures numBuckets == 2 * old(numBuckets) && log2NumBuckets == old(log2NumBuckets) + 1
      ensures buckets == newBuckets && chains == nc && idealChainMaxlen == k && nonidealItems == nonideal
      ensures ineffExpands == if nonideal > numItems / 2 then old(ineffExpands) + 1 else 0
      ensures noexpand == (old(noexpand) || ineffExpands > 1)
    {
      hide BucketsMatch, Partition, MultsOk;
      idealChainMaxlen := k;
      nonidealItems := nonideal;
      numBuckets := numBuckets * 2;
      log2NumBuckets := log2NumBuckets + 1;
      buckets := newBuckets;
      chains := nc;
      assert ShiftRight(numItems, 1) == ShiftRight(numItems / 2, 0);
      ineffExpands := if nonidealItems > ShiftRight(numItems, 1) then ineffExpands + 1 else 0;
      if ineffExpands > 1 {
        noexpand := true;
      }
    }

    lemma PartitionDoubled(s: seq<User>, cs: seq<seq<User>>, nc: seq<seq<User>>, log2: nat)
      requires Partition(s, cs, Pow2(log2)) && Redistributed(cs, nc, |cs|, 0)
      ensures Partition(s, nc, |nc|) && Doubling(cs, nc)
    {
      forall b | 0 <= b < |nc| ensures nc[b] == Chosen(cs[Source(b, |cs|)], b, |nc|) {
        assert Taken(cs, Source(b, |cs|), |cs|, 0) == cs[Source(b, |cs|)];
      }
      forall u | u in s ensures Slot(u, |nc|) < |nc| && u in nc[Slot(u, |nc|)] {
        SlotDoubles(u, log2);
      }
      forall b, u | 0 <= b < |nc| && u in nc[b] ensures u in s {
        assert u in cs[Source(b, |cs|)];
      }
    }

    // ----- the table as a whole -----

    ghost predicate UniqueIds()
      reads this
    {
      forall i, j :: 0 <= i < j < |items| ==> items[i].id != items[j].id
    }

    ghost predicate Valid()
      reads this, buckets, items`hhPrev, items`hhNext, items`prev, items`next, items`hashv
    {
      && UniqueIds()
      && if head == null then items == []
         else
           && numBuckets >= 1 && Partition(items, chains, numBuckets)
           && ListOk() && HashesOk() && (NodesAreItems(items, chains, numBuckets); BucketsOk())
           && numItems == TotalExcess(chains, 0)
    }

    constructor (hash: int -> word)
      ensures Valid() && items == [] && this.hash == hash
      ensures fresh(buckets)
    {
      this.hash := hash;
      head, tail := null, null;
      buckets := new Bucket[0];
      numBuckets, log2NumBuckets, numItems, idealChainMaxlen, nonidealItems, ineffExpands := 0, 0, 0, 0, 0, 0;
      noexpand := false;
      items, chains := [], [];
    }

    /** HASH_FIND: walk the chain that the hash value of the key selects. */
    method Find(id: int) returns (out: User?)
      requires Valid()
      ensures out != null ==> out in items && out.id == id
      ensures out == null ==> forall u :: u in items ==> u.id != id
    {
      out := null;
      if head != null {
        var hashv := hash(id);
        var bkt := BitAnd(hashv, numBuckets - 1);
        MaskIsLowBits(hashv, log2NumBuckets);
        ShiftAndLowBitsSplit(hashv, log2NumBuckets);
        assert BucketOk(buckets[..][bkt], chains[bkt]);
        ghost var j := 0;
        out := buckets[bkt].head;
        while out != null
          invariant j <= |chains[bkt]|
          invariant out == if j < |chains[bkt]| then chains[bkt][j] else null
          invariant forall l :: 0 <= l < j ==> chains[bkt][l].id != id
          decreases |chains[bkt]| - j
        {
          assert out in chains[bkt];
          if out.hashv == hashv && out.id == id {
            return;
          }
          out := out.hhNext;
          j := j + 1;
        }
      }
    }

    ghost function EmptyChains(n: nat): seq<seq<User>>
    {
      seq(n, _ => [])
    }

    lemma AllEmpty(n: nat)
      ensures |EmptyChains(n)| == n && forall b :: 0 <= b < n ==> EmptyChains(n)[b] == []
    {
    }

    lemma EmptyTableOk(bs: seq<Bucket>, cs: seq<seq<User>>)
      requires |bs| == |cs| >= 1
      requires forall b :: 0 <= b < |cs| ==> bs[b] == EMPTY_BUCKET && cs[b] == []
      ensures BucketsMatch(bs, cs) && TotalExcess(cs, 0) == 0 && Partition([], cs, |cs|)
      ensures Pow2(INITIAL_NUM_BUCKETS_LOG2) == INITIAL_NUM_BUCKETS
    {
      NoExcessYet(cs, |cs|, 0);
      assert Pow2(2) == 4;
    }

    /** HASH_MAKE_TABLE with the first element. */
    method MakeTable(add: User)
      modifies this
      ensures head == tail == add && numItems == 0 && !noexpand
      ensures numBuckets == 32 && log2NumBuckets == 5 && fresh(buckets)
      ensures idealChainMaxlen == nonidealItems == ineffExpands == 0
      ensures chains == EmptyChains(numBuckets) && items == [add]
      ensures BucketsOk() && TotalExcess(chains, 0) == 0 && Partition([], chains, numBuckets)
      ensures forall b :: 0 <= b < buckets.Length ==> buckets[b].expandMult == 0
    {
      hide BucketsMatch, Partition, SumExcess, Pow2, TotalExcess, EmptyChains;
      tail := add;
      numBuckets, log2NumBuckets := INITIAL_NUM_BUCKETS, INITIAL_NUM_BUCKETS_LOG2;
      numItems, idealChainMaxlen, nonidealItems, ineffExpands := 0, 0, 0, 0;
      noexpand := false;
      buckets := new Bucket[INITIAL_NUM_BUCKETS](_ => EMPTY_BUCKET);
      head := add;
      chains, items := EmptyChains(numBuckets), [add];
      AllEmpty(numBuckets);
      EmptyTableOk(buckets[..], chains);
    }

    /** HASH_APPEND_LIST */
    method AppendList(add: User)
      requires ListOk() && BucketsOk() && add !in items
      modifies this`tail, this`items, add`next, add`prev, items`next
      ensures items == old(items) + [add]
      ensures BucketsOk()
      ensures head == items[0] && tail == add && AppLinked(items) && Distinct(items)
    {
      add.next := null;
      add.prev := tail;
      tail.next := add;
      tail := add;
      items := items + [add];
      forall b | 0 <= b < |chains| ensures buckets[b] == old(buckets[..])[b] && BucketOk(buckets[b], chains[b]) {
        assert old(BucketOk(buckets[..][b], chains[b]));
      }
    }

    /** A new element at the front of its home chain. */
    ghost function Pushed(cs: seq<seq<User>>, u: User, n: nat): seq<seq<User>>
      requires n >= 1 && Slot(u, n) < |cs|
    {
      cs[Slot(u, n) := [u] + cs[Slot(u, n)]]
    }

    lemma PartitionPushed(s: seq<User>, u: User, cs: seq<seq<User>>, n: nat)
      requires n >= 1 && Partition(s, cs, n) && u !in s && Slot(u, n) < n
      ensures Partition(s + [u], Pushed(cs, u, n), n)
      ensures TotalExcess(Pushed(cs, u, n), 0) == TotalExcess(cs, 0) + 1
      ensures forall i {:trigger cs[i]} :: 0 <= i < n ==> u !in cs[i]
      ensures forall i {:trigger cs[i]} :: 0 <= i < n && i != Slot(u, n) ==> FirstOf(cs[Slot(u, n)]) !! set v | v in cs[i]
    {
      var b := Slot(u, n);
      SumExcessUpdate(cs, n, b, [u] + cs[b], 0);
      if cs[b] != [] { assert cs[b][0] in cs[b]; }
    }

    /** Whether this addition is one that doubles the table. */
    ghost predicate Grows(u: User)
      requires numBuckets == buckets.Length >= 1 && |chains| == numBuckets && Slot(u, numBuckets) < numBuckets
      reads this, buckets
    {
      var b := Slot(u, numBuckets);
      |chains[b]| + 1 >= (buckets[b].expandMult + 1) * BKT_CAPACITY_THRESH && !noexpand
    }

    /** When an addition doubles the table: its chain would have ten elements for each unit of pressure, counted from one. */
    lemma AdditionDoubles(u: User)
      requires Valid() && head != null
      ensures var b := hash(u.id) % numBuckets;
              && b < |chains| == buckets.Length == numBuckets && Slot(u, numBuckets) == b
              && (Grows(u) <==> !noexpand && |chains[b]| + 1 >= 10 * (buckets[b].expandMult + 1))
              && Pushed(chains, u, numBuckets) == chains[b := [u] + chains[b]]
    {
      SlotIsRemainder(u, log2NumBuckets);
      SlotDoubles(u, log2NumBuckets);
    }

    /** HASH_ADD_TO_BKT: push, and double the table when the chain has become too long. */
    method AddToBkt(b: nat, addhh: User)
      requires BucketsOk() && HashesOk() && items != [] && b == Slot(addhh, numBuckets) < numBuckets && head != null
      requires Partition(items[..|items| - 1], chains, numBuckets)
      requires addhh == items[|items| - 1] && Distinct(items)
      requires numItems == |items| == TotalExcess(chains, 0) + 1
      modifies this, buckets, items`hhPrev, items`hhNext
      ensures BucketsOk() && Partition(items, chains, numBuckets) && HashesOk()
      ensures numItems == TotalExcess(chains, 0)
      ensures unchanged(`head, `tail, `numItems, `items)
      ensures buckets == old(buckets) || fresh(buckets)
      ensures if old(Grows(addhh)) then Doubling(Pushed(old(chains), addhh, old(numBuckets)), chains) && Rebalanced()
              else chains == Pushed(old(chains), addhh, old(numBuckets)) && unchanged(`buckets, `numBuckets, `noexpand)
    {
      assert items == items[..|items| - 1] + [addhh];
      PartitionPushed(items[..|items| - 1], addhh, chains, numBuckets);
      assert chains[b] != [] ==> chains[b][0] in chains[b];
      ghost var grows := Grows(addhh);
      PushOnBucket(b, addhh);
      assert BucketOk(buckets[..][b], chains[b]);
      if buckets[b].count >= (buckets[b].expandMult + 1) * BKT_CAPACITY_THRESH && !noexpand {
        ExpandBuckets();
      }
    }

    /** The chains an addition starts from: those of the table, or a new table's. */
    ghost function ChainsBefore(): seq<seq<User>>
      reads this
    {
      if head == null then EmptyChains(INITIAL_NUM_BUCKETS) else chains
    }

    lemma SlotInRange(u: User, k: nat)
      ensures Slot(u, Pow2(k)) < Pow2(k)
    {
      SlotDoubles(u, k);
    }

    /** Listed last in insertion order, but neither counted nor in a bucket yet. */
    ghost predicate Listed(add: User)
      reads this, buckets, Nodes(chains)`hhPrev, Nodes(chains)`hhNext, items`prev, items`next, items`hashv
    {
      && UniqueIds() && items != [] && items[|items| - 1] == add
      && head == items[0] && tail == add && AppLinked(items) && Distinct(items)
      && BucketsOk() && HashesOk() && Partition(items[..|items| - 1], chains, numBuckets)
      && numItems + 1 == |items| && numItems == TotalExcess(chains, 0)
    }

    /** The first element of an empty table. */
    method EnlistFirst(add: User)
      requires head == null && items == [] && add.hashv == hash(add.id)
      modifies this, add`prev, add`next
      ensures Listed(add) && items == [add] && fresh(buckets)
      ensures chains == EmptyChains(INITIAL_NUM_BUCKETS) && |chains| == numBuckets == buckets.Length
      ensures forall b :: 0 <= b < buckets.Length ==> buckets[b].expandMult == 0
    {
      add.next := null;
      add.prev := null;
      MakeTable(add);
      assert items[..|items| - 1] == [];
    }

    /** One more element in a table that has some. */
    method EnlistLast(add: User)
      requires Valid() && head != null && add !in items && add.hashv == hash(add.id) && forall u :: u in items ==> u.id != add.id
      modifies this`tail, this`items, add`next, add`prev, items`next
      ensures Listed(add) && items == old(items) + [add] && |chains| == numBuckets == buckets.Length
    {
      AppendList(add);
      assert items[..|items| - 1] == old(items);
    }

    method Enlist(add: User)
      requires Valid() && add !in items && forall u :: u in items ==> u.id != add.id
      modifies this, add, items`next
      ensures Listed(add) && items == old(items) + [add]
      ensures add.room == old(add.room) && add.name == old(add.name)
      ensures chains == old(ChainsBefore()) && |chains| == numBuckets == buckets.Length
      ensures old(head) == null ==> fresh(buckets) && numBuckets == INITIAL_NUM_BUCKETS && (forall b :: 0 <= b < buckets.Length ==> buckets[b].expandMult == 0)
      ensures old(head) != null ==> unchanged(`numBuckets, `buckets, `noexpand)
    {
      add.hashv := hash(add.id);
      if head == null {
        EnlistFirst(add);
      } else {
        EnlistLast(add);
      }
    }

    /** HASH_ADD_KEYPTR_BYHASHVALUE, with the key already in the element. */
    method Add(add: User)
      requires Valid() && add !in items && forall u :: u in items ==> u.id != add.id
      modifies this, buckets, items, add
      ensures Valid() && items == old(items) + [add]
      ensures forall u :: u in items ==> u.room == old(u.room) && u.name == old(u.name)
      ensures buckets == old(buckets) || fresh(buckets)
      ensures var cs, n := old(ChainsBefore()), |old(ChainsBefore())|;
              Slot(add, n) < n &&
              if old(head != null && Grows(add)) then Doubling(Pushed(cs, add, n), chains) && Rebalanced()
              else chains == Pushed(cs, add, n) && numBuckets == n
    {
      hide BucketsMatch, Partition, SumExcess, Pow2, Doubling, Listed, Valid;
      Enlist(add);
      AddToTable(add);
    }

    /** HASH_ADD_TO_TABLE */
    method AddToTable(add: User)
      requires Listed(add)
      modifies this, buckets, items`hhPrev, items`hhNext
      ensures Valid() && unchanged(`items)
      ensures buckets == old(buckets) || fresh(buckets)
      ensures Slot(add, old(numBuckets)) < old(numBuckets)
      ensures if old(Grows(add)) then Doubling(Pushed(old(chains), add, old(numBuckets)), chains) && Rebalanced()
              else chains == Pushed(old(chains), add, old(numBuckets)) && unchanged(`buckets, `numBuckets, `noexpand)
    {
      hide SumExcess, Pow2, Partition, BucketsMatch;
      numItems := numItems + 1;
      SlotInRange(add, log2NumBuckets);
      var bkt := BitAnd(add.hashv, numBuckets - 1);
      AddToBkt(bkt, add);
    }

    // ----- deletion -----

    /** HASH_DEL_IN_BKT for element j of chain b. */
    method DelInBkt(b: nat, delhh: User, ghost j: nat)
      requires BucketsOk() && b < |chains| && j < |chains[b]| && chains[b][j] == delhh
      requires Homes(chains, numBuckets)
      modifies buckets, this`chains, chains[b]`hhPrev, chains[b]`hhNext
      ensures BucketsOk() && chains == old(chains)[b := Without(old(chains)[b], j)]
      ensures forall i :: 0 <= i < |chains| ==> buckets[i].expandMult == old(buckets[i].expandMult)
    {
      assert BucketOk(buckets[..][b], chains[b]);
      buckets[b] := buckets[b].(count := buckets[b].count - 1);
      if buckets[b].head == delhh {
        buckets[b] := buckets[b].(head := delhh.hhNext);
      }
      UnlinkFromChain(delhh, chains[b], j);
      chains := chains[b := Without(chains[b], j)];
      WithoutMembers(old(chains)[b], j);
      forall i | 0 <= i < |chains| && i != b ensures buckets[i] == old(buckets[..])[i] && BucketOk(buckets[i], chains[i]) {
        assert chains[i] == old(chains)[i];
        assert old(BucketOk(buckets[..][i], chains[i]));
        forall l | 0 <= l < |chains[i]| ensures chains[i][l] !in old(chains)[b] {
          assert chains[i][l] in old(chains)[i];
        }
      }
    }

    lemma PartitionWithout(s: seq<User>, k: nat, cs: seq<seq<User>>, b: nat, j: nat)
      requires k < |s| && Distinct(s) && b < |cs| && j < |cs[b]| && s[k] == cs[b][j] && Distinct(cs[b])
      requires Partition(s, cs, |cs|)
      ensures Partition(Without(s, k), cs[b := Without(cs[b], j)], |cs|)
      ensures TotalExcess(cs[b := Without(cs[b], j)], 0) == TotalExcess(cs, 0) - 1
    {
      SumExcessUpdate(cs, |cs|, b, Without(cs[b], j), 0);
      WithoutMembers(s, k);
      WithoutMembers(cs[b], j);
      var cs' := cs[b := Without(cs[b], j)];
      forall i, u | 0 <= i < |cs'| && u in cs'[i] ensures u in Without(s, k) && Slot(u, |cs|) == i {
        assert u in cs[i] && s[k] in cs[b];
      }
    }

    /** The insertion-order half of HASH_DELETE_HH, for an element that is not alone. */
    method DelFromList(del: User, ghost k: nat)
      requires ListOk() && k < |items| && items[k] == del && |items| > 1
      modifies this`head, this`tail, this`items, items`prev, items`next
      ensures items == Without(old(items), k)
      ensures head == items[0] && tail == items[|items| - 1] && AppLinked(items) && Distinct(items)
    {
      if del == tail {
        tail := del.prev;
      }
      if del.prev == null {
        head := del.next;
      }
      WithoutMembers(items, k);
      UnlinkFromList(del, items, k);
      items := Without(items, k);
    }

    /** The same, seen from the buckets: their chains stay as they are. */
    method DelFromListOnly(del: User, ghost k: nat)
      requires ListOk() && BucketsOk() && k < |items| && items[k] == del && |items| > 1
      modifies this`head, this`tail, this`items, items`prev, items`next
      ensures items == Without(old(items), k)
      ensures head == items[0] && tail == items[|items| - 1] && AppLinked(items) && Distinct(items)
      ensures BucketsOk()
    {
      DelFromList(del, k);
      forall b | 0 <= b < |chains| ensures buckets[b] == old(buckets[..])[b] && BucketOk(buckets[b], chains[b]) {
        assert old(BucketOk(buckets[..][b], chains[b]));
      }
    }

    /** Only the home chain of u changes, and it loses u. */
    ghost predicate DroppedFromHome(cs: seq<seq<User>>, u: User, cs': seq<seq<User>>)
    {
      && |cs| == |cs'| >= 1 && Slot(u, |cs|) < |cs|
      && var b := Slot(u, |cs|);
         cs' == cs[b := cs'[b]] && Dropped(cs[b], u, cs'[b])
    }

    /** The bucket half of HASH_DELETE_HH. */
    method DelFromBuckets(del: User, ghost was: seq<User>, ghost k: nat)
      requires k < |was| && was[k] == del && items == Without(was, k) && Distinct(was)
      requires BucketsOk() && Partition(was, chains, numBuckets) && numItems == |was| == TotalExcess(chains, 0)
      requires del.hashv == hash(del.id)
      modifies this`numItems, this`chains, buckets, was`hhPrev, was`hhNext
      ensures BucketsOk() && Partition(items, chains, numBuckets) && numItems == |items| == TotalExcess(chains, 0)
      ensures DroppedFromHome(old(chains), del, chains)
    {
      var bkt := BitAnd(del.hashv, numBuckets - 1);
      assert del in was;
      ghost var j :| 0 <= j < |chains[bkt]| && chains[bkt][j] == del;
      assert BucketOk(buckets[..][bkt], chains[bkt]);
      PartitionWithout(was, k, chains, bkt, j);
      forall l | 0 <= l < |chains[bkt]| ensures chains[bkt][l] in was {
        assert chains[bkt][l] in chains[bkt];
      }
      DelInBkt(bkt, del, j);
      numItems := numItems - 1;
    }

    ghost predicate ElementsOk(s: seq<User>)
      reads s`hashv
    {
      && (forall i, j :: 0 <= i < j < |s| ==> s[i].id != s[j].id)
      && (forall u :: u in s ==> u.hashv == hash(u.id))
    }

    lemma ElementsWithout(was: seq<User>, k: nat)
      requires k < |was| && ElementsOk(was)
      requires items == Without(was, k)
      ensures UniqueIds() && HashesOk()
    {
    }

    lemma AloneIffUnlinked(k: nat)
      requires ListOk() && k < |items|
      ensures items[k].prev == null && items[k].next == null <==> |items| == 1
      ensures |items| == 1 ==> Without(items, k) == []
    {
    }

    /** The pieces that deletion leaves behind make up a sound table. */
    lemma StillValid(was: seq<User>, k: nat)
      requires k < |was| && |was| > 1 && items == Without(was, k) && ElementsOk(was)
      requires head == items[0] && tail == items[|items| - 1] && AppLinked(items) && Distinct(items)
      requires numBuckets >= 1 && Partition(items, chains, numBuckets) && BucketsOk()
      requires numItems == |items| == TotalExcess(chains, 0)
      ensures Valid()
    {
      hide Partition, BucketsMatch, SumExcess, Pow2, AppLinked, Distinct;
      ElementsWithout(was, k);
    }

    /** HASH_DELETE_HH */
    method Delete(del: User)
      requires Valid() && del in items
      modifies this, buckets, items`prev, items`next, items`hhPrev, items`hhNext
      ensures Valid() && buckets == old(buckets)
      ensures Dropped(old(items), del, items)
      ensures exists k {:trigger old(items)[k]} :: 0 <= k < |old(items)| && old(items)[k] == del && items == old(items)[..k] + old(items)[k + 1..]
      ensures items != [] ==> numBuckets == old(numBuckets) && DroppedFromHome(old(chains), del, chains)
    {
      hide Partition, BucketsMatch, SumExcess, Pow2, DroppedFromHome, AppLinked, Distinct;
      ghost var k :| 0 <= k < |items| && items[k] == del;
      AloneIffUnlinked(k);
      if del.prev == null && del.next == null {
        head := null;
        items, chains := [], [];
      } else {
        ghost var was := items;
        DelFromListOnly(del, k);
        DelFromBuckets(del, was, k);
        StillValid(was, k);
      }
      assert old(items)[k] == del && items == old(items)[..k] + old(items)[k + 1..];
    }

    // ----- the integrity check -----

    /** Following next and hh_next from the heads spells out items and chains; nothing else is taken for granted. */
    ghost predicate ForwardShape()
      reads this, buckets, Nodes(chains)`hhNext, items`next
    {
      && |chains| == numBuckets == buckets.Length
      && (forall b {:trigger chains[b]} :: 0 <= b < |chains| ==> buckets[b].head == First(chains[b]) && ChainForward(chains[b]))
      && items != [] && head == items[0]
      && (forall i {:trigger items[i].next} :: 0 <= i < |items| ==> items[i].next == if i + 1 == |items| then null else items[i + 1])
    }

    static ghost predicate ChainForward(c: seq<User>)
      reads c`hhNext
    {
      forall i {:trigger c[i].hhNext} :: 0 <= i < |c| ==> c[i].hhNext == if i + 1 == |c| then null else c[i + 1]
    }

    static ghost predicate ChainBackward(c: seq<User>)
      reads c`hhPrev
    {
      forall i {:trigger c[i].hhPrev} :: 0 <= i < |c| ==> c[i].hhPrev == if i == 0 then null else c[i - 1]
    }

    ghost predicate BucketsIntact(n: nat)
      requires n <= |chains| <= buckets.Length
      reads this, buckets, Nodes(chains)`hhPrev
    {
      forall b {:trigger chains[b]} :: 0 <= b < n ==> ChainBackward(chains[b]) && buckets[b].count == |chains[b]|
    }

    ghost predicate ListIntact()
      reads this, items`prev
    {
      && (forall i {:trigger items[i].prev} :: 0 <= i < |items| ==> items[i].prev == if i == 0 then null else items[i - 1])
      && numItems == |items|
    }

    /** The part of HASH_FSCK that walks one bucket. */
    method FsckBucket(b: nat) returns (ok: bool, bktCount: nat)
      requires ForwardShape() && b < |chains|
      ensures ok <==> ChainBackward(chains[b]) && buckets[b].count == |chains[b]|
      ensures ok ==> bktCount == |chains[b]|
    {
      bktCount := 0;
      var thh := buckets[b].head;
      var prev: User? := null;
      while thh != null
        invariant bktCount <= |chains[b]|
        invariant thh == if bktCount < |chains[b]| then chains[b][bktCount] else null
        invariant prev == if bktCount == 0 then null else chains[b][bktCount - 1]
        invariant forall i {:trigger chains[b][i].hhPrev} :: 0 <= i < bktCount ==>
                    chains[b][i].hhPrev == if i == 0 then null else chains[b][i - 1]
        decreases |chains[b]| - bktCount
      {
        if prev != thh.hhPrev {
          assert chains[b][bktCount].hhPrev != prev;
          return false, bktCount;
        }
        bktCount := bktCount + 1;
        prev := thh;
        thh := thh.hhNext;
      }
      ok := buckets[b].count == bktCount;
    }

    /** The part of HASH_FSCK that walks the insertion-order list. */
    method FsckList() returns (ok: bool)
      requires ForwardShape()
      ensures ok <==> ListIntact()
    {
      var count := 0;
      var prev: User? := null;
      var thh := head;
      while thh != null
        invariant count <= |items|
        invariant thh == if count < |items| then items[count] else null
        invariant prev == if count == 0 then null else items[count - 1]
        invariant forall i {:trigger items[i].prev} :: 0 <= i < count ==> items[i].prev == if i == 0 then null else items[i - 1]
        decreases |items| - count
      {
        if prev != thh.prev {
          assert items[count].prev != prev;
          return false;
        }
        count := count + 1;
        prev := thh;
        thh := thh.next;
      }
      ok := count == numItems;
    }

    /**
     * HASH_FSCK returns without complaint exactly when all back links agree with the forward links, every bucket
     * count is the length of its chain, and both totals are num_items.
     */
    method Fsck() returns (ok: bool)
      requires head != null ==> ForwardShape()
      ensures ok <==> (head != null ==> BucketsIntact(|chains|) && numItems == TotalExcess(chains, 0) && ListIntact())
    {
      if head == null {
        return true;
      }
      var count := 0;
      var i := 0;
      while i < numBuckets
        invariant i <= numBuckets
        invariant BucketsIntact(i) && count == SumExcess(chains, i, 0)
      {
        var bktCount;
        ok, bktCount := FsckBucket(i);
        if !ok {
          assert !BucketsIntact(|chains|);
          return;
        }
        count := count + bktCount;
        i := i + 1;
      }
      if count != numItems {
        return false;
      }
      ok := FsckList();
    }

    /** What the integrity check establishes: the pointers spell out the list and the chains, with the right counts. */
    lemma IntactMeansLinked()
      requires head != null && ForwardShape()
      ensures BucketsIntact(|chains|) && ListIntact() <==>
                && AppLinked(items) && numItems == |items|
                && forall b {:trigger chains[b]} :: 0 <= b < |chains| ==> ChainLinked(chains[b]) && buckets[b].count == |chains[b]|
    {
    }

    /** A valid table passes the integrity check. */
    lemma ValidPassesFsck()
      requires Valid() && head != null
      ensures ForwardShape() && BucketsIntact(|chains|) && numItems == TotalExcess(chains, 0) && ListIntact()
    {
      forall b | 0 <= b < |chains|
        ensures buckets[b].head == First(chains[b]) && buckets[b].count == |chains[b]| && ChainForward(chains[b]) && ChainBackward(chains[b])
      {
        assert BucketOk(buckets[..][b], chains[b]);
      }
    }
  }

  lemma {:induction false} NoExcessYet(cs: seq<seq<User>>, n: nat, k: nat)
    requires n <= |cs| && forall b :: 0 <= b < |cs| ==> cs[b] == []
    ensures SumExcess(cs, n, k) == 0
  {
    if n > 0 { NoExcessYet(cs, n - 1, k); }
  }

  lemma CeilStep(c: nat, k: nat, m: nat)
    requires c > 0 && k >= 1 && IsCeil(c, k, m)
    ensures m > 0 && (if c <= k then m == 1 else m > 1)
    ensures IsCeil(c - 1, k, if (m - 1) * k == c - 1 then m - 1 else m)
  {
    if m > 1 { Multiples(1, m - 1, k); }
    StepFactor(m - 1, k);
  }

  lemma PressureGrows(c: nat, k: nat, m: nat, p: nat)
    requires c > 0 && m > 0 && IsCeil(c, k, m) && p <= m
    ensures c > p * k <==> p < m
  {
    if p < m { Multiples(p, m - 1, k); }
  }

  lemma Multiples(a: nat, b: nat, k: nat)
    requires a <= b
    ensures a * k <= b * k
  {
  }
}
