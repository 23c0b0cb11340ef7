/** The growing and shrinking array of polled descriptors. */
module PollfdArrays {
  import opened Bits
  import opened Sequences

  const INITIAL_CAPACITY: nat := 5
  const POLLIN: nat := 1
  const POLLHUP: nat := 16

  datatype PollFd = PollFd(fd: int, events: nat, revents: nat)

  const BLANK := PollFd(0, 0, 0)

  /** Capacities are the initial one doubled some number of times. */
  ghost predicate IsCapacity(c: nat)
  {
    exists k: nat :: c == INITIAL_CAPACITY * Pow2(k)
  }

  lemma CapacityDoubles(c: nat)
    requires IsCapacity(c)
    ensures IsCapacity(2 * c)
  {
    var k: nat :| c == INITIAL_CAPACITY * Pow2(k);
    assert 2 * c == INITIAL_CAPACITY * Pow2(k + 1);
  }

  lemma CapacityHalves(c: nat)
    requires IsCapacity(c) && c / 2 >= INITIAL_CAPACITY
    ensures IsCapacity(c / 2) && c / 2 * 2 == c
  {
    var k: nat :| c == INITIAL_CAPACITY * Pow2(k);
    assert Pow2(0) == 1;
    assert k > 0;
    assert c / 2 == INITIAL_CAPACITY * Pow2(k - 1);
  }

  /** The capacity that cannot be doubled in 32 bits. */
  const LAST_CAPACITY: nat := 0xA000_0000

  lemma DoublingFits(c: nat)
    requires IsCapacity(c)
    ensures c < LAST_CAPACITY ==> 2 * c < WORD
    ensures c >= LAST_CAPACITY ==> 2 * c >= WORD
  {
    hide Pow2;
    var k: nat :| c == INITIAL_CAPACITY * Pow2(k);
    Pow2Values();
    if k <= 28 { Pow2Grows(k, 28); } else { Pow2Grows(29, k); }
  }

  class PollfdArray {
    var fds: array<PollFd>
    var len: nat
    var capacity: nat

    ghost predicate Valid()
      reads this
    {
      fds.Length == capacity && len <= capacity < WORD && IsCapacity(capacity)
    }

    ghost function Contents(): seq<PollFd>
      requires Valid()
      reads this, fds
    {
      fds[..len]
    }

    /** Minimal capacity, or more than half full. */
    ghost predicate Tight()
      reads this
    {
      capacity == INITIAL_CAPACITY || len > capacity / 2
    }

    constructor ()
      ensures Valid() && Contents() == [] && Tight() && fresh(fds) && len == 0 && capacity == 5
    {
      fds := new PollFd[INITIAL_CAPACITY](_ => BLANK);
      len, capacity := 0, INITIAL_CAPACITY;
      new;
      assert Pow2(0) == 1;
      assert capacity == INITIAL_CAPACITY * Pow2(0);
    }

    /** reallocarray: a new block with the old entries as far as they fit, or failure. */
    method Resize(newCap: nat, allocOk: bool) returns (ok: bool)
      requires Valid() && len <= newCap < WORD && IsCapacity(newCap)
      modifies this`fds, this`capacity
      ensures Valid() && ok == allocOk
      ensures Contents() == old(Contents())
      ensures if ok then capacity == newCap && fresh(fds) else unchanged(this)
    {
      if !allocOk {
        return false;
      }
      var n := if newCap <= capacity then newCap else capacity;
      var block := new PollFd[newCap](_ => BLANK);
      forall i | 0 <= i < n {
        block[i] := fds[i];
      }
      fds := block;
      capacity := newCap;
      ok := true;
    }

    /** The uint32 product 2 * capacity must not wrap when the array is full. */
    method Append(fd: int, events: nat, allocOk: bool) returns (status: int)
      requires Valid() && (len < capacity || 2 * capacity < WORD)
      modifies this, fds
      ensures Valid() && (fds == old(fds) || fresh(fds))
      ensures status == if old(len < capacity) || allocOk then 0 else -1
      ensures Contents() == if status == 0 then old(Contents()) + [PollFd(fd, events, 0)] else old(Contents())
      ensures capacity == if status == 0 && old(len == capacity) then 2 * old(capacity) else old(capacity)
      ensures old(Tight()) ==> Tight()
    {
      if len + 1 > capacity {
        CapacityDoubles(capacity);
        var ok := Resize(2 * capacity, allocOk);
        if !ok {
          return -1;
        }
      }
      fds[len] := PollFd(fd, events, 0);
      len := len + 1;
      status := 0;
    }

    method Delete(i: nat, allocOk: bool) returns (status: int)
      requires Valid()
      modifies this, fds
      ensures Valid() && (fds == old(fds) || fresh(fds))
      ensures status == if i < old(len) then 0 else -1
      ensures Contents() == if i < old(len) then SwapRemove(old(Contents()), i) else old(Contents())
      ensures i < old(len) ==>
                && len == old(len) - 1
                && forall j :: 0 <= j < len ==> fds[j] == if j == i then old(fds[len - 1]) else old(fds[j])
      ensures old(Tight()) && allocOk ==> Tight()
      ensures capacity == if status == 0 && allocOk && len <= old(capacity) / 2 && old(capacity) / 2 >= INITIAL_CAPACITY
                          then old(capacity) / 2 else old(capacity)
    {
      if i >= len {
        return -1;
      }
      fds[i] := fds[len - 1];
      len := len - 1;
      assert Contents() == SwapRemove(old(Contents()), i);
      if len <= capacity / 2 && capacity / 2 >= INITIAL_CAPACITY {
        CapacityHalves(capacity);
        var _ := Resize(capacity / 2, allocOk);
      }
      status := 0;
    }

    /** poll(2) writes the returned events into every entry. */
    method Poll(revents: seq<nat>)
      requires Valid() && |revents| == len
      modifies fds
      ensures Contents() == Polled(old(Contents()), revents)
    {
      forall i | 0 <= i < len {
        fds[i] := fds[i].(revents := revents[i]);
      }
    }
  }

  function Polled(s: seq<PollFd>, revents: seq<nat>): (r: seq<PollFd>)
    requires |s| == |revents|
    ensures |r| == |s| && forall i :: 0 <= i < |s| ==> r[i] == s[i].(revents := revents[i])
  {
    seq(|s|, i requires 0 <= i < |s| => s[i].(revents := revents[i]))
  }

  // ----- histories -----

  datatype PollOp = AppendFd(fd: int, events: nat) | DeleteAt(i: nat)

  ghost function ContentsThen(s: seq<PollFd>, op: PollOp): seq<PollFd>
  {
    match op
    case AppendFd(fd, events) => s + [PollFd(fd, events, 0)]
    case DeleteAt(i) => if i < |s| then SwapRemove(s, i) else s
  }

  ghost function ContentsAfter(ops: seq<PollOp>): seq<PollFd>
  {
    if ops == [] then [] else ContentsThen(ContentsAfter(ops[..|ops| - 1]), ops[|ops| - 1])
  }

  /**
   * Any history without a failed allocation in which the array never grows beyond the last capacity of 32 bits: no
   * entry is lost by resizing, the capacity is the initial one doubled, and it is minimal or less than twice the
   * length.
   */
  method PlayPolls(ops: seq<PollOp>) returns (a: PollfdArray)
    requires forall n :: 0 <= n < |ops| && ops[n].AppendFd? ==> |ContentsAfter(ops[..n])| < LAST_CAPACITY
    ensures a.Valid() && a.Contents() == ContentsAfter(ops) && a.Tight()
    ensures (exists k: nat :: a.capacity == 5 * Pow2(k)) && (a.capacity == 5 || a.len > a.capacity / 2)
  {
    a := new PollfdArray();
    var n := 0;
    assert ops[..0] == [];
    while n < |ops|
      invariant n <= |ops| && fresh(a) && fresh(a.fds)
      invariant a.Valid() && a.Contents() == ContentsAfter(ops[..n]) && a.Tight()
    {
      assert ops[..n + 1][..n] == ops[..n];
      DoublingFits(a.capacity);
      match ops[n] {
        case AppendFd(fd, events) =>
          var _ := a.Append(fd, events, true);
        case DeleteAt(i) =>
          var _ := a.Delete(i, true);
      }
      n := n + 1;
    }
    assert ops[..|ops|] == ops;
  }
}
