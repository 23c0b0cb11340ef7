/** The server as a state machine on values: one step per serviced poll event. */
module Protocol {
  import opened Bits
  import opened Users
  import opened Sequences
  import opened Rooms
  import opened Messages

  const FD_LIMIT: int := 0x8000_0000

  datatype Client = Client(name: cstring, room: byte)

  /** fds is the poll array, listener first; users the user table; rooms the member lists in slot order. */
  datatype State = State(fds: seq<int>, users: map<int, Client>, rooms: seq<seq<int>>)

  /** Why a client is disconnected: poll saw a hang-up, its stream has ended, or it has reset the connection. */
  datatype Cause = HangUp | EndOfStream | ConnReset

  datatype Event =
    | Connect(fd: int)
    | Disconnect(fd: int, why: Cause)
    | Receive(fd: int, msg: Message, now: int)

  datatype Delivery = Delivery(fd: int, msg: Message)

  // ----- reply texts -----

  /** A string constant of the program as the bytes of its characters. */
  function Ascii(s: string): (r: cstring)
    ensures |r| == |s| && forall i :: 0 <= i < |s| && 0 < s[i] as int < 256 ==> r[i] == s[i] as int
  {
    seq(|s|, i requires 0 <= i < |s| => var c := s[i] as int; if 0 < c < 256 then c else 63)
  }

  function Decimal(n: byte): (r: cstring)
    ensures |r| <= 3
  {
    (if n >= 100 then [48 + n / 100] else []) + (if n >= 10 then [48 + n / 10 % 10] else []) + [48 + n % 10]
  }

  /** The number that decimal digits spell. */
  function ValueOf(digits: seq<int>): int
  {
    if digits == [] then 0 else 10 * ValueOf(digits[..|digits| - 1]) + digits[|digits| - 1] - 48
  }

  /** A decimal reads back as its number, in digits only and without a leading zero. */
  lemma DecimalReadsBack(n: byte)
    ensures ValueOf(Decimal(n)) == n && forall d :: d in Decimal(n) ==> 48 <= d <= 57
    ensures Decimal(n) != [] && (Decimal(n)[0] == 48 ==> n == 0)
  {
    var a, b, c := 48 + n / 100, 48 + n / 10 % 10, 48 + n % 10;
    OneMoreDigit([], a);
    OneMoreDigit([], b);
    OneMoreDigit([], c);
    OneMoreDigit([b], c);
    OneMoreDigit([a], b);
    OneMoreDigit([a, b], c);
    assert n == 10 * (n / 10) + n % 10 && n / 10 == 10 * (n / 100) + n / 10 % 10;
  }

  lemma OneMoreDigit(digits: seq<int>, d: int)
    ensures ValueOf(digits + [d]) == 10 * ValueOf(digits) + d - 48
  {
    assert (digits + [d])[..|digits|] == digits;
  }

  lemma AnonymousSpelled()
    ensures ANONYMOUS == [97, 110, 111, 110, 121, 109, 111, 117, 115]
  {
  }

  const ANONYMOUS: cstring := Ascii("anonymous")

  function NotInRoom(): Message { Reply(Ascii("you are not in a chat room: type '/join [room number]' to join a room")) }

  function NameSet(name: cstring): Message { Reply(Ascii("set name to ") + name) }

  function NoSuchRoom(r: byte): Message { Reply(Ascii("room ") + Decimal(r) + Ascii(" does not exist")) }

  function AlreadyIn(r: byte): Message { Reply(Ascii("you are already in room ") + Decimal(r)) }

  function RoomFull(r: byte): Message { Reply(Ascii("room ") + Decimal(r) + Ascii(" is full")) }

  function Joined(r: byte): Message { Reply(Ascii("you have joined room ") + Decimal(r)) }

  // ----- steps -----

  /** A client sends chats, names and joins, never replies. */
  predicate FromClient(m: Message)
  {
    WellFormed(m) && !m.Reply?
  }

  predicate Legal(s: State, e: Event)
  {
    match e
    case Connect(fd) => 0 <= fd < FD_LIMIT && fd !in s.fds
    case Disconnect(fd, _) => fd in s.users
    case Receive(fd, msg, _) => fd in s.users && FromClient(msg)
  }

  function SetRoom(s: State, fd: int, r: byte): State
    requires fd in s.users
  {
    s.(users := s.users[fd := s.users[fd].(room := r)])
  }

  /** room_remove_user for the room the user is in, if any. */
  function LeaveRoom(s: State, fd: int): State
    requires Inv(s) && fd in s.users
  {
    var r := s.users[fd].room;
    if r == INVALID_ROOM then s
    else
      assert fd in s.rooms[r - 1];
      SetRoom(s, fd, INVALID_ROOM).(rooms := s.rooms[r - 1 := Leave(s.rooms[r - 1], fd)])
  }

  /** room_add_user for a room with a free slot. */
  function EnterRoom(s: State, fd: int, r: byte): State
    requires fd in s.users && 1 <= r <= |s.rooms|
  {
    SetRoom(s, fd, r).(rooms := s.rooms[r - 1 := s.rooms[r - 1] + [fd]])
  }

  function Join(s: State, fd: int, r: byte): (State, seq<Delivery>)
    requires Inv(s) && fd in s.users
  {
    if r < 1 || r > |s.rooms| then (s, [Delivery(fd, NoSuchRoom(r))])
    else if s.users[fd].room == r then (s, [Delivery(fd, AlreadyIn(r))])
    else
      var left := LeaveRoom(s, fd);
      if |left.rooms[r - 1]| == MAX_USERS_PER_ROOM then (left, [Delivery(fd, RoomFull(r))])
      else (EnterRoom(left, fd, r), [Delivery(fd, Joined(r))])
  }

  function Rename(s: State, fd: int, name: cstring): (State, seq<Delivery>)
    requires fd in s.users
  {
    (s.(users := s.users[fd := s.users[fd].(name := name)]), [Delivery(fd, NameSet(name))])
  }

  /** The same message to every slot of a room, in slot order. */
  function Broadcast(members: seq<int>, msg: Message): seq<Delivery>
  {
    if members == [] then [] else Broadcast(members[..|members| - 1], msg) + [Delivery(members[|members| - 1], msg)]
  }

  function Say(s: State, fd: int, text: cstring, now: int): seq<Delivery>
    requires Inv(s) && fd in s.users
  {
    var c := s.users[fd];
    if c.room == INVALID_ROOM then [Delivery(fd, NotInRoom())]
    else Broadcast(s.rooms[c.room - 1], Chat(now, c.name, text))
  }

  function Step(s: State, e: Event): (State, seq<Delivery>)
    requires Inv(s) && Legal(s, e)
  {
    match e
    case Connect(fd) => (State(s.fds + [fd], s.users[fd := Client(ANONYMOUS, INVALID_ROOM)], s.rooms), [])
    case Disconnect(fd, _) =>
      var left := LeaveRoom(s, fd);
      (State(Leave(s.fds, fd), left.users - {fd}, left.rooms), [])
    case Receive(fd, msg, now) =>
      match msg
      case Chat(_, _, text) => (s, Say(s, fd, text, now))
      case Name(name) => Rename(s, fd, name)
      case Join(r) => Join(s, fd, r)
      case Reply(_) => (s, [])
  }

  // ----- agreement of the three structures -----

  /** The poll array is the listener followed by every user once. */
  ghost predicate PollsAgree(s: State)
  {
    && |s.fds| >= 1 && Distinct(s.fds)
    && (forall fd :: fd in s.fds ==> 0 <= fd < FD_LIMIT)
    && (forall fd {:trigger fd in s.users} {:trigger fd in s.fds} :: fd in s.users <==> fd in s.fds && fd != s.fds[0])
  }

  /** Rooms hold at most 25 users, each once, and a user is in a member list exactly if its own room says so. */
  ghost predicate RoomsAgree(s: State)
  {
    && |s.rooms| < 256
    && (forall r {:trigger s.rooms[r]} :: 0 <= r < |s.rooms| ==> |s.rooms[r]| <= MAX_USERS_PER_ROOM && Distinct(s.rooms[r]))
    && (forall r, fd {:trigger fd in s.rooms[r]} :: 0 <= r < |s.rooms| && fd in s.rooms[r] ==> fd in s.users && s.users[fd].room == r + 1)
    && (forall fd {:trigger s.users[fd]} :: fd in s.users ==>
          var r := s.users[fd].room; r != INVALID_ROOM ==> r <= |s.rooms| && fd in s.rooms[r - 1])
    && (forall fd {:trigger s.users[fd]} :: fd in s.users ==> |s.users[fd].name| < NAME_SIZE_LIMIT)
  }

  ghost predicate Inv(s: State)
  {
    PollsAgree(s) && RoomsAgree(s)
  }

  // ----- every step keeps the agreement -----

  lemma LeaveRoomKeepsInv(s: State, fd: int)
    requires Inv(s) && fd in s.users
    ensures var t := LeaveRoom(s, fd);
            && Inv(t) && t.fds == s.fds && |t.rooms| == |s.rooms|
            && t.users == s.users[fd := s.users[fd].(room := INVALID_ROOM)]
            && (forall r {:trigger t.rooms[r]} :: 0 <= r < |t.rooms| ==> fd !in t.rooms[r])
  {
    var r := s.users[fd].room;
    if r != INVALID_ROOM {
      LeaveMembers(s.rooms[r - 1], fd);
      var t := LeaveRoom(s, fd);
      assert forall i {:trigger t.rooms[i]} :: 0 <= i < |t.rooms| && i != r - 1 ==> t.rooms[i] == s.rooms[i];
    }
  }

  lemma EnterRoomKeepsInv(s: State, fd: int, r: byte)
    requires Inv(s) && fd in s.users && 1 <= r <= |s.rooms|
    requires s.users[fd].room == INVALID_ROOM && |s.rooms[r - 1]| < MAX_USERS_PER_ROOM
    ensures Inv(EnterRoom(s, fd, r))
  {
    var t := EnterRoom(s, fd, r);
    assert forall i {:trigger t.rooms[i]} :: 0 <= i < |t.rooms| && i != r - 1 ==> t.rooms[i] == s.rooms[i];
    assert fd !in s.rooms[r - 1];
  }

  lemma DisconnectKeepsInv(s: State, fd: int, why: Cause)
    requires Inv(s) && fd in s.users
    ensures Inv(Step(s, Disconnect(fd, why)).0)
  {
    hide IndexOf, LeaveRoom;
    LeaveRoomKeepsInv(s, fd);
    LeaveMembers(s.fds, fd);
    var u := Step(s, Disconnect(fd, why)).0;
    assert u.fds[0] == s.fds[0];
  }

  lemma ConnectKeepsInv(s: State, fd: int)
    requires Inv(s) && Legal(s, Connect(fd))
    ensures Inv(Step(s, Connect(fd)).0)
  {
  }

  lemma RenameKeepsInv(s: State, fd: int, name: cstring)
    requires Inv(s) && fd in s.users && |name| < NAME_SIZE_LIMIT
    ensures Inv(Rename(s, fd, name).0)
  {
  }

  lemma JoinKeepsInv(s: State, fd: int, r: byte)
    requires Inv(s) && fd in s.users
    ensures Inv(Join(s, fd, r).0)
  {
    LeaveRoomKeepsInv(s, fd);
    var left := LeaveRoom(s, fd);
    assert 1 <= r <= |s.rooms| ==> |left.rooms[r - 1]| <= MAX_USERS_PER_ROOM;
    hide Inv, LeaveRoom, EnterRoom;
    if 1 <= r <= |s.rooms| && s.users[fd].room != r && |left.rooms[r - 1]| != MAX_USERS_PER_ROOM {
      EnterRoomKeepsInv(left, fd, r);
    }
  }

  lemma StepKeepsInv(s: State, e: Event)
    requires Inv(s) && Legal(s, e)
    ensures Inv(Step(s, e).0)
  {
    hide Inv;
    match e
    case Connect(fd) =>
      ConnectKeepsInv(s, fd);
    case Disconnect(fd, why) =>
      DisconnectKeepsInv(s, fd, why);
    case Receive(fd, msg, now) =>
      match msg
      case Chat(_, _, _) =>
      case Name(name) =>
        RenameKeepsInv(s, fd, name);
      case Reply(_) =>
      case Join(r) =>
        JoinKeepsInv(s, fd, r);
  }
}
