/** Chat rooms: fixed buffers of member ids, and the array that finds a room by its id. */
module Rooms {
  import opened Bits
  import opened Users
  import opened Sequences

  const MAX_USERS_PER_ROOM: nat := 25

  class Room {
    var id: byte
    const users: array<int>
    var numUsers: byte

    ghost predicate Valid()
      reads this
    {
      users.Length == MAX_USERS_PER_ROOM && numUsers <= MAX_USERS_PER_ROOM
    }

    ghost function Members(): seq<int>
      requires Valid()
      reads this, users
    {
      users[..numUsers]
    }

    /** calloc: all bytes zero. */
    constructor ()
      ensures Valid() && Members() == [] && fresh(users)
    {
      id, numUsers := 0, 0;
      users := new int[MAX_USERS_PER_ROOM](_ => 0);
    }

    method AddUser(user: User) returns (status: int)
      requires Valid()
      modifies this`numUsers, users, user`room
      ensures Valid()
      ensures status == if |old(Members())| == 25 then -1 else 0
      ensures Members() == if status == 0 then old(Members()) + [user.id] else old(Members())
      ensures user.room == if status == 0 then id else old(user.room)
    {
      if numUsers == MAX_USERS_PER_ROOM {
        return -1;
      }
      users[numUsers] := user.id;
      numUsers := numUsers + 1;
      user.room := id;
      status := 0;
    }

    /** The search relies on a user that names this room being one of its members. */
    method RemoveUser(user: User) returns (status: int)
      requires Valid() && (user.room == id ==> user.id in Members())
      modifies this`numUsers, users, user`room
      ensures Valid()
      ensures status == if old(user.room) == id then 0 else -1
      ensures status == 0 ==> Members() == Leave(old(Members()), user.id) && user.room == INVALID_ROOM
      ensures status == 0 ==>
                && numUsers == old(numUsers) - 1
                && var i := IndexOf(old(Members()), user.id);
                   && i < old(numUsers) && old(users[i]) == user.id
                   && forall j :: 0 <= j < numUsers ==> users[j] == if j == i then old(users[numUsers - 1]) else old(users[j])
      ensures status != 0 ==> Members() == old(Members()) && user.room == old(user.room)
    {
      hide IndexOf, Leave, SwapRemove;
      if id != user.room {
        return -1;
      }
      var i := 0;
      while i < numUsers
        invariant i <= numUsers && user.id !in users[..i]
      {
        if users[i] == user.id {
          break;
        }
        i := i + 1;
      }
      ghost var was := Members();
      assert i < numUsers;
      assert was[..i] == users[..i];
      LeaveAt(was, user.id, i);
      users[i] := users[numUsers - 1];
      numUsers := numUsers - 1;
      user.room := INVALID_ROOM;
      assert Members() == was[i := was[|was| - 1]][..|was| - 1];
      status := 0;
    }
  }

  class RoomArray {
    var rooms: seq<Room>
    var len: byte

    /** Room i + 1 sits at index i; no two rooms share storage. */
    ghost predicate Valid()
      reads this, rooms
    {
      && |rooms| >= len
      && (forall i {:trigger rooms[i]} :: 0 <= i < len ==> rooms[i].Valid() && rooms[i].id == i + 1)
      && (forall i, j {:trigger rooms[i], rooms[j]} :: 0 <= i < j < len ==> rooms[i] != rooms[j] && rooms[i].users != rooms[j].users)
    }

    /** The number of rooms is kept in one byte. */
    constructor (n: nat)
      ensures Valid() && len == n % 256
      ensures fresh(rooms) && forall r :: r in rooms ==> fresh(r.users)
      ensures forall i :: 0 <= i < len ==> rooms[i].Members() == []
    {
      new;
      rooms := AllocateRooms(n);
      len := n % 256;
      var i := 0;
      while i < len
        invariant i <= len == n % 256 && |rooms| == n
        invariant fresh(rooms) && forall r :: r in rooms ==> fresh(r.users)
        invariant forall j {:trigger rooms[j]} :: 0 <= j < |rooms| ==> rooms[j].Valid() && rooms[j].Members() == []
        invariant forall j {:trigger rooms[j]} :: 0 <= j < i ==> rooms[j].id == j + 1
        invariant forall i, j {:trigger rooms[i], rooms[j]} :: 0 <= i < j < |rooms| ==> rooms[i] != rooms[j] && rooms[i].users != rooms[j].users
      {
        rooms[i].id := i + 1;
        rooms[i].numUsers := 0;
        i := i + 1;
      }
    }

    /** calloc of n rooms. */
    static method AllocateRooms(n: nat) returns (s: seq<Room>)
      ensures |s| == n && fresh(s) && forall r :: r in s ==> fresh(r.users)
      ensures forall i {:trigger s[i]} :: 0 <= i < n ==> s[i].Valid() && s[i].Members() == []
      ensures forall i, j {:trigger s[i], s[j]} :: 0 <= i < j < n ==> s[i] != s[j] && s[i].users != s[j].users
    {
      s := [];
      while |s| < n
        invariant |s| <= n && fresh(s) && forall r :: r in s ==> fresh(r.users)
        invariant forall i {:trigger s[i]} :: 0 <= i < |s| ==> s[i].Valid() && s[i].Members() == []
        invariant forall i, j {:trigger s[i], s[j]} :: 0 <= i < j < |s| ==> s[i] != s[j] && s[i].users != s[j].users
      {
        var room := new Room();
        s := s + [room];
      }
    }

    /** null exactly for the ids that are not 1 to len; otherwise the room that carries the id. */
    method GetRoom(id: int) returns (room: Room?)
      requires Valid()
      ensures room == null <==> id < 1 || id > len
      ensures room != null ==> room == rooms[id - 1] && room.id == id
    {
      if id < 1 || id > len {
        return null;
      }
      room := rooms[id - 1];
    }
  }
}
