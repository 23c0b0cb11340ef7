/** The user table: the hash table seen as a map from descriptor to user. */
module UserTables {
  import opened Bits
  import opened Sequences
  import opened Messages
  import opened Users
  import opened Jenkins
  import opened HashTables
  import Protocol

  /** The four bytes of an int key in the memory of a little-endian host, two's complement. */
  function KeyBytes(id: int): seq<byte>
    requires -0x8000_0000 <= id < 0x8000_0000
  {
    InMemory4(if id >= 0 then id else id + WORD)
  }

  lemma KeyBytesInjective(id: int, id': int)
    requires -0x8000_0000 <= id < 0x8000_0000 && -0x8000_0000 <= id' < 0x8000_0000 && id != id'
    ensures KeyBytes(id) != KeyBytes(id')
  {
    hide InMemory4, FromMemory4;
    MemoryKeepsWord(if id >= 0 then id else id + WORD);
    MemoryKeepsWord(if id' >= 0 then id' else id' + WORD);
  }

  /** Different descriptors never leave HASH_JEN with the same three words. */
  lemma IdsEndApart(id: int, id': int)
    requires -0x8000_0000 <= id < 0x8000_0000 && -0x8000_0000 <= id' < 0x8000_0000 && id != id'
    ensures JenTriple(KeyBytes(id)) != JenTriple(KeyBytes(id'))
  {
    KeyBytesInjective(id, id');
    ShortKeysEndApart(KeyBytes(id), KeyBytes(id'));
  }

  /** HASH_FUNCTION on an int key. */
  function IdHash(id: int): word
  {
    if -0x8000_0000 <= id < 0x8000_0000 then JenTriple(KeyBytes(id)).c else 0
  }

  /** The bytes of a key in memory are its base-256 digits modulo 2^32, the lowest first. */
  lemma KeyDigits(id: int)
    requires -0x8000_0000 <= id < 0x8000_0000
    ensures var k := KeyBytes(id);
            |k| == 4 && k[0] as int + 0x100 * k[1] as int + 0x1_0000 * k[2] as int + 0x100_0000 * k[3] as int == id % 0x1_0000_0000
  {
    MemoryKeepsWord(if id >= 0 then id else id + WORD);
  }

  /** The hash value of an id: the last word of the mix of the start values, the id and the key length. */
  lemma IdHashIsMix(id: int)
    requires -0x8000_0000 <= id < 0x8000_0000
    ensures IdHash(id) == Mix(Triple((0x9e3779b9 + id) % 0x1_0000_0000, 0x9e3779b9, 0xfeedbef3)).c
  {
    hide Mix, KeyBytes, JenFrom;
    KeyDigits(id);
    var k := KeyBytes(id);
    var u := Triple((0x9e3779b9 + id) % 0x1_0000_0000, 0x9e3779b9, 0xfeedbef3);
    LastBlock(START, k, 4, k + [0, 0, 0, 0, 0, 0, 0, 0, 0, 0, 0, 0], u);
  }

  method UserTableFind(t: HashTable, id: int) returns (user: User?)
    requires t.Valid()
    ensures user != null ==> user in t.items && user.id == id
    ensures user == null ==> forall u :: u in t.items ==> u.id != id
  {
    user := t.Find(id);
  }

  method UserTableAdd(t: HashTable, id: int) returns (status: int, ghost added: User?)
    requires t.Valid()
    modifies t, t.buckets, t.items
    ensures t.Valid() && (t.buckets == old(t.buckets) || fresh(t.buckets))
    ensures status == if exists u :: u in old(t.items) && u.id == id then -1 else 0
    ensures status == -1 ==> t.items == old(t.items)
    ensures status == 0 ==> fresh(added) && added.id == id && t.items == old(t.items) + [added]
                            && added.room == INVALID_ROOM && added.name == Protocol.ANONYMOUS
    ensures forall u :: u in old(t.items) ==> u.room == old(u.room) && u.name == old(u.name)
  {
    hide HashTable.Valid;
    added := null;
    var found := UserTableFind(t, id);
    if found != null {
      return -1, null;
    }
    var user := new User(id);
    user.room := INVALID_ROOM;
    user.name := Protocol.ANONYMOUS;
    t.Add(user);
    return 0, user;
  }

  method UserTableDelete(t: HashTable, id: int) returns (status: int)
    requires t.Valid()
    modifies t, t.buckets, t.items`prev, t.items`next, t.items`hhPrev, t.items`hhNext
    ensures t.Valid() && t.buckets == old(t.buckets)
    ensures status == if exists u :: u in old(t.items) && u.id == id then 0 else -1
    ensures status == -1 ==> t.items == old(t.items)
    ensures status == 0 ==> exists u :: u in old(t.items) && u.id == id && Dropped(old(t.items), u, t.items)
  {
    hide HashTable.Valid;
    var user := UserTableFind(t, id);
    if user == null {
      return -1;
    }
    t.Delete(user);
    status := 0;
  }

  // ----- histories -----

  datatype Op = AddId(id: int) | DeleteId(id: int) | FindId(id: int)

  datatype Answer = Status(code: int) | Found(user: User?)

  /** The ids in the table after a history, in iteration order. */
  ghost function IdsAfter(ops: seq<Op>): seq<int>
  {
    if ops == [] then []
    else IdsThen(IdsAfter(ops[..|ops| - 1]), ops[|ops| - 1])
  }

  ghost function IdsThen(ids: seq<int>, op: Op): seq<int>
  {
    match op
    case AddId(id) => if id in ids then ids else ids + [id]
    case DeleteId(id) => if id in ids then Without(ids, IndexOf(ids, id)) else ids
    case FindId(_) => ids
  }

  /** The answer of a map from id to user: find gives the user itself. */
  ghost function AnswerTo(users: map<int, User>, op: Op): Answer
  {
    match op
    case AddId(id) => Status(if id in users then -1 else 0)
    case DeleteId(id) => Status(if id in users then 0 else -1)
    case FindId(id) => Found(if id in users then users[id] else null)
  }

  /** An addition maps a new id to a user that was nobody's before; a deletion forgets the id; nothing else changes. */
  ghost predicate MapStep(users: map<int, User>, op: Op, users': map<int, User>)
  {
    match op
    case AddId(id) =>
      if id in users then users' == users
      else id in users' && users' == users[id := users'[id]] && users'[id].id == id && forall i :: i in users ==> users[i] != users'[id]
    case DeleteId(id) => users' == users - {id}
    case FindId(_) => users' == users
  }

  /** Whether the last addition or deletion of the id is an addition. */
  ghost predicate LastAdded(ops: seq<Op>, id: int)
  {
    if ops == [] then false
    else if ops[|ops| - 1] == AddId(id) then true
    else if ops[|ops| - 1] == DeleteId(id) then false
    else LastAdded(ops[..|ops| - 1], id)
  }

  /** The operation that put the id where it is now. */
  ghost function AddedAt(ops: seq<Op>, id: int): nat
  {
    if ops == [] then 0
    else if ops[|ops| - 1] == AddId(id) && !LastAdded(ops[..|ops| - 1], id) then |ops| - 1
    else AddedAt(ops[..|ops| - 1], id)
  }

  /** The table holds an id exactly if its last addition is not followed by a deletion, and holds it once. */
  lemma {:induction false} HistoryIsMap(ops: seq<Op>)
    ensures Distinct(IdsAfter(ops))
    ensures forall id :: id in IdsAfter(ops) <==> LastAdded(ops, id)
  {
    if ops != [] {
      var n := |ops| - 1;
      HistoryIsMap(ops[..n]);
      var ids := IdsAfter(ops[..n]);
      if ops[n].DeleteId? && ops[n].id in ids { WithoutMembers(ids, IndexOf(ids, ops[n].id)); }
    }
  }

  /** An id is present exactly if some addition of it is not followed by a deletion of it. */
  lemma {:induction false} LastAddedMeans(ops: seq<Op>, id: int)
    ensures LastAdded(ops, id) <==> exists k :: 0 <= k < |ops| && ops[k] == AddId(id) && forall j :: k < j < |ops| ==> ops[j] != DeleteId(id)
  {
    if ops != [] {
      var n := |ops| - 1;
      LastAddedMeans(ops[..n], id);
      assert forall j :: 0 <= j < n ==> ops[..n][j] == ops[j];
      if ops[n] != AddId(id) && ops[n] != DeleteId(id) && LastAdded(ops[..n], id) {
        var k :| 0 <= k < n && ops[..n][k] == AddId(id) && forall j :: k < j < n ==> ops[..n][j] != DeleteId(id);
        forall j | k < j < |ops| ensures ops[j] != DeleteId(id) {
          if j < n { assert ops[..n][j] != DeleteId(id); }
        }
        assert ops[k] == AddId(id);
      }
    }
  }

  lemma {:induction false} AddedBefore(ops: seq<Op>, id: int)
    requires LastAdded(ops, id)
    ensures AddedAt(ops, id) < |ops|
  {
    var n := |ops| - 1;
    if ops[n] != AddId(id) || LastAdded(ops[..n], id) { AddedBefore(ops[..n], id); }
  }

  lemma AddedAtKept(ops: seq<Op>, id: int)
    requires ops != [] && (ops[|ops| - 1] == AddId(id) ==> LastAdded(ops[..|ops| - 1], id))
    ensures AddedAt(ops, id) == AddedAt(ops[..|ops| - 1], id)
  {
  }

  lemma AddedNow(ops: seq<Op>, id: int)
    requires ops != [] && ops[|ops| - 1] == AddId(id) && !LastAdded(ops[..|ops| - 1], id)
    ensures AddedAt(ops, id) == |ops| - 1
  {
  }

  /** Iteration order is the order of the additions that are still in effect. */
  lemma {:induction false} IterationIsInsertionOrder(ops: seq<Op>, i: nat, j: nat)
    requires i < j < |IdsAfter(ops)|
    ensures AddedAt(ops, IdsAfter(ops)[i]) < AddedAt(ops, IdsAfter(ops)[j])
  {
    var n := |ops| - 1;
    var op, ids, ids' := ops[n], IdsAfter(ops[..n]), IdsAfter(ops);
    var x, y := ids'[i], ids'[j];
    HistoryIsMap(ops[..n]);
    hide IndexOf, LastAdded, Distinct, AddedAt, IdsAfter;
    var k := if op.DeleteId? && op.id in ids then IndexOf(ids, op.id) else |ids|;
    var i', j' := if i < k then i else i + 1, if j < k then j else j + 1;
    if j' < |ids| {
      assert x == ids[i'] && y == ids[j'];
      assert x in ids && y in ids;
      AddedAtKept(ops, x);
      AddedAtKept(ops, y);
      IterationIsInsertionOrder(ops[..n], i', j');
    } else {
      assert ids' == ids + [op.id];
      assert x in ids && y !in ids;
      AddedNow(ops, y);
      AddedAtKept(ops, x);
      AddedBefore(ops[..n], x);
    }
  }

  ghost predicate HoldsIds(s: seq<User>, ids: seq<int>)
  {
    |s| == |ids| && forall i :: 0 <= i < |s| ==> s[i].id == ids[i]
  }

  lemma IdsOf(s: seq<User>, ids: seq<int>, id: int)
    requires HoldsIds(s, ids)
    ensures id in ids <==> exists u :: u in s && u.id == id
  {
    if id in ids {
      var i :| 0 <= i < |ids| && ids[i] == id;
      assert s[i] in s && s[i].id == id;
    }
  }

  lemma IdsDropped(s: seq<User>, ids: seq<int>, u: User, r: seq<User>)
    requires HoldsIds(s, ids) && Distinct(ids) && Dropped(s, u, r)
    ensures HoldsIds(r, IdsThen(ids, DeleteId(u.id)))
  {
    hide IndexOf;
    var k: nat :| k < |s| && s[k] == u && r == Without(s, k);
    assert ids[k] == u.id;
    IndexOfDistinct(ids, k);
    assert IdsThen(ids, DeleteId(u.id)) == Without(ids, k);
  }

  /** The table holds exactly the users of the map. */
  ghost predicate HoldsUsers(s: seq<User>, users: map<int, User>)
  {
    && (forall u :: u in s ==> u.id in users && users[u.id] == u)
    && (forall id :: id in users ==> users[id] in s && users[id].id == id)
  }

  lemma IdIsHeld(s: seq<User>, ids: seq<int>, users: map<int, User>, id: int)
    requires HoldsIds(s, ids) && HoldsUsers(s, users)
    ensures id in ids <==> id in users
    ensures id in users <==> exists u :: u in s && u.id == id
  {
    IdsOf(s, ids, id);
    if id in users { assert users[id] in s; }
  }

  lemma UserAdded(s: seq<User>, users: map<int, User>, u: User)
    requires HoldsUsers(s, users) && u !in s && u.id !in users
    ensures HoldsUsers(s + [u], users[u.id := u]) && MapStep(users, AddId(u.id), users[u.id := u])
  {
  }

  lemma UserDropped(s: seq<User>, users: map<int, User>, u: User, r: seq<User>)
    requires HoldsUsers(s, users) && Dropped(s, u, r) && forall i, j :: 0 <= i < j < |s| ==> s[i] != s[j]
    ensures HoldsUsers(r, users - {u.id})
  {
    var k: nat :| k < |s| && s[k] == u && r == Without(s, k);
    WithoutMembers(s, k);
  }

  lemma DistinctElements(s: seq<User>, ids: seq<int>)
    requires HoldsIds(s, ids) && Distinct(ids)
    ensures forall i, j :: 0 <= i < j < |s| ==> s[i] != s[j]
  {
    forall i, j | 0 <= i < j < |s| ensures s[i] != s[j] {
      assert ids[i] != ids[j];
    }
  }

  /** One operation on a table that holds the ids and users answers as they do; no user's name or room changes. */
  method Apply(t: HashTable, op: Op, ghost ids: seq<int>, ghost users: map<int, User>) returns (answer: Answer, ghost users': map<int, User>)
    requires t.Valid() && HoldsIds(t.items, ids) && Distinct(ids) && HoldsUsers(t.items, users)
    modifies t, t.buckets, t.items
    ensures t.Valid() && (t.buckets == old(t.buckets) || fresh(t.buckets))
    ensures fresh(set u | u in t.items && u !in old(t.items))
    ensures answer == AnswerTo(users, op) && MapStep(users, op, users')
    ensures HoldsIds(t.items, IdsThen(ids, op)) && HoldsUsers(t.items, users')
    ensures forall u :: u in old(t.items) ==> u.room == old(u.room) && u.name == old(u.name)
    ensures forall u :: u in t.items && u !in old(t.items) ==> u.room == INVALID_ROOM && u.name == Protocol.ANONYMOUS
  {
    hide HashTable.Valid, IndexOf, HoldsUsers;
    IdIsHeld(t.items, ids, users, op.id);
    users' := users;
    match op
    case AddId(id) =>
      var status; ghost var added;
      ghost var was := t.items;
      status, added := UserTableAdd(t, id);
      answer := Status(status);
      if status == 0 {
        UserAdded(was, users, added);
        users' := users[id := added];
      }
    case DeleteId(id) =>
      answer := ApplyDelete(t, id, ids, users);
      users' := users - {id};
    case FindId(id) =>
      var user := UserTableFind(t, id);
      answer := Found(user);
      FoundIsHeld(t.items, users, id, user);
  }

  lemma FoundIsHeld(s: seq<User>, users: map<int, User>, id: int, user: User?)
    requires HoldsUsers(s, users)
    requires if user != null then user in s && user.id == id else forall u :: u in s ==> u.id != id
    ensures user == if id in users then users[id] else null
  {
  }

  method ApplyDelete(t: HashTable, id: int, ghost ids: seq<int>, ghost users: map<int, User>) returns (answer: Answer)
    requires t.Valid() && HoldsIds(t.items, ids) && Distinct(ids) && HoldsUsers(t.items, users)
    modifies t, t.buckets, t.items`prev, t.items`next, t.items`hhPrev, t.items`hhNext
    ensures t.Valid() && t.buckets == old(t.buckets)
    ensures forall u :: u in t.items ==> u in old(t.items)
    ensures answer == AnswerTo(users, DeleteId(id))
    ensures HoldsIds(t.items, IdsThen(ids, DeleteId(id))) && HoldsUsers(t.items, users - {id})
  {
    hide HashTable.Valid, IndexOf, HoldsUsers;
    IdIsHeld(t.items, ids, users, id);
    DistinctElements(t.items, ids);
    ghost var was := t.items;
    var status := UserTableDelete(t, id);
    answer := Status(status);
    if status == 0 {
      ghost var u :| u in was && u.id == id && Dropped(was, u, t.items);
      IdsDropped(was, ids, u, t.items);
      UserDropped(was, users, u, t.items);
      ghost var k: nat :| k < |was| && was[k] == u && t.items == Without(was, k);
    } else {
      assert users - {id} == users;
    }
  }

  lemma IdsAfterNext(ops: seq<Op>, n: nat)
    requires n < |ops|
    ensures IdsAfter(ops[..n + 1]) == IdsThen(IdsAfter(ops[..n]), ops[n])
  {
    assert ops[..n + 1][..n] == ops[..n];
  }

  /** HASH_FSCK on a sound table finds nothing. */
  method CheckIntegrity(t: HashTable) returns (ok: bool)
    requires t.Valid()
    ensures ok
  {
    if t.head != null { t.ValidPassesFsck(); }
    hide HashTable.Valid;
    ok := t.Fsck();
  }

  /**
   * Any history, played on an empty table: before every operation the table is a map from id to user, the answer is
   * that of the map, and the operation takes the map to the next one. Users keep their names and rooms.
   */
  method Replay(ops: seq<Op>) returns (t: HashTable, answers: seq<Answer>, intact: bool, ghost maps: seq<map<int, User>>)
    ensures fresh(t) && t.Valid() && HoldsIds(t.items, IdsAfter(ops))
    ensures intact    // the integrity check found nothing after any of the operations
    ensures |answers| == |ops| && |maps| == |ops| + 1 && maps[0] == map[] && HoldsUsers(t.items, maps[|ops|])
    ensures forall i :: 0 <= i < |ops| ==> answers[i] == AnswerTo(maps[i], ops[i]) && MapStep(maps[i], ops[i], maps[i + 1])
    ensures forall i :: 0 <= i < |ops| ==>
              match ops[i]
              case AddId(id) => answers[i] == Status(if id in maps[i] then -1 else 0)
              case DeleteId(id) => answers[i] == Status(if id in maps[i] then 0 else -1)
              case FindId(id) => answers[i] == Found(if id in maps[i] then maps[i][id] else null)
    ensures forall i, j, id {:trigger id in maps[i], id in maps[j]} :: 0 <= i && j == i + 1 <= |ops| && id in maps[i] && id in maps[j] ==> maps[j][id] == maps[i][id]
    ensures forall i, id :: 0 <= i <= |ops| ==> (id in maps[i] <==> LastAdded(ops[..i], id))
    ensures forall u :: u in t.items ==> u.room == INVALID_ROOM && u.name == Protocol.ANONYMOUS
  {
    hide HashTable.Valid, IdsAfter, IdsThen, AnswerTo, MapStep, HoldsIds, HoldsUsers, Distinct;
    t := new HashTable(IdHash);
    answers, intact, maps := [], true, [map[]];
    NothingHeld(t.items);
    assert ops[..0] == [];
    while |answers| < |ops|
      invariant |answers| <= |ops| && intact && |maps| == |answers| + 1 && maps[0] == map[]
      invariant fresh(t) && fresh(t.buckets) && fresh(set u | u in t.items)
      invariant t.Valid() && HoldsIds(t.items, IdsAfter(ops[..|answers|])) && HoldsUsers(t.items, maps[|answers|])
      invariant forall i :: 0 <= i < |answers| ==> answers[i] == AnswerTo(maps[i], ops[i]) && MapStep(maps[i], ops[i], maps[i + 1])
      invariant forall u :: u in t.items ==> u.room == INVALID_ROOM && u.name == Protocol.ANONYMOUS
    {
      var n := |answers|;
      HistoryIsMap(ops[..n]);
      IdsAfterNext(ops, n);
      var answer; ghost var users;
      answer, users := Apply(t, ops[n], IdsAfter(ops[..n]), maps[n]);
      answers, maps := answers + [answer], maps + [users];
      var ok := CheckIntegrity(t);
      intact := intact && ok;
    }
    assert ops[..|ops|] == ops;
    AnswersSpelled(ops, answers, maps);
  }

  /** The answers of a map, and what its steps keep, written out. */
  lemma AnswersSpelled(ops: seq<Op>, answers: seq<Answer>, maps: seq<map<int, User>>)
    requires |answers| == |ops| && |maps| == |ops| + 1 && maps[0] == map[]
    requires forall i :: 0 <= i < |ops| ==> answers[i] == AnswerTo(maps[i], ops[i]) && MapStep(maps[i], ops[i], maps[i + 1])
    ensures forall i :: 0 <= i < |ops| ==>
              match ops[i]
              case AddId(id) => answers[i] == Status(if id in maps[i] then -1 else 0)
              case DeleteId(id) => answers[i] == Status(if id in maps[i] then 0 else -1)
              case FindId(id) => answers[i] == Found(if id in maps[i] then maps[i][id] else null)
    ensures forall i, j, id {:trigger id in maps[i], id in maps[j]} :: 0 <= i && j == i + 1 <= |ops| && id in maps[i] && id in maps[j] ==> maps[j][id] == maps[i][id]
    ensures forall i, id :: 0 <= i <= |ops| ==> (id in maps[i] <==> LastAdded(ops[..i], id))
  {
    forall i, id | 0 <= i <= |ops| ensures id in maps[i] <==> LastAdded(ops[..i], id) {
      MapIsHistory(ops, maps, i, id);
    }
  }

  lemma {:induction false} MapIsHistory(ops: seq<Op>, maps: seq<map<int, User>>, i: nat, id: int)
    requires i <= |ops| && |maps| == |ops| + 1 && maps[0] == map[]
    requires forall j :: 0 <= j < |ops| ==> MapStep(maps[j], ops[j], maps[j + 1])
    ensures id in maps[i] <==> LastAdded(ops[..i], id)
  {
    if i > 0 {
      MapIsHistory(ops, maps, i - 1, id);
      assert ops[..i][..i - 1] == ops[..i - 1];
      assert MapStep(maps[i - 1], ops[i - 1], maps[i - 1 + 1]);
    }
  }

  lemma NothingHeld(s: seq<User>)
    requires s == []
    ensures HoldsIds(s, IdsAfter([])) && HoldsUsers(s, map[])
  {
  }
}
