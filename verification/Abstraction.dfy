/** The server seen as a map from users to names and rooms, without arrays or slots. */
module Abstraction {
  import opened Bits
  import opened Users
  import opened Sequences
  import opened Messages
  import opened Rooms
  import opened Protocol
  import opened Runs

  ghost function Occupants(m: map<int, Client>, r: byte): set<int>
  {
    set fd | fd in m && m[fd].room == r
  }

  ghost function Moved(m: map<int, Client>, fd: int, r: byte): map<int, Client>
    requires fd in m
  {
    m[fd := m[fd].(room := r)]
  }

  /** What a request means: only the requester changes, and a full room costs it the room it was in. */
  ghost function AbstractStep(m: map<int, Client>, nrooms: nat, e: Event): map<int, Client>
    requires e.Connect? || e.fd in m
  {
    match e
    case Connect(fd) => m[fd := Client(ANONYMOUS, INVALID_ROOM)]
    case Disconnect(fd, _) => m - {fd}
    case Receive(fd, msg, _) =>
      match msg
      case Name(name) => m[fd := m[fd].(name := name)]
      case Join(r) =>
        if r < 1 || r > nrooms || m[fd].room == r then m
        else if |Occupants(m, r)| == MAX_USERS_PER_ROOM then Moved(m, fd, INVALID_ROOM)
        else Moved(m, fd, r)
      case _ => m
  }

  /** A room's slots hold exactly its occupants, one slot each. */
  lemma SlotsAreOccupants(s: State, r: byte)
    requires Inv(s) && 1 <= r <= |s.rooms|
    ensures Elements(s.rooms[r - 1]) == Occupants(s.users, r)
    ensures |s.rooms[r - 1]| == |Occupants(s.users, r)| <= MAX_USERS_PER_ROOM
  {
    DistinctCount(s.rooms[r - 1]);
    assert forall fd :: fd in s.rooms[r - 1] <==> fd in Occupants(s.users, r);
  }

  /** A join of another existing room: out of the old room, and into the new one unless it is full. */
  lemma JoinRefines(s: State, fd: int, r: byte)
    requires Inv(s) && fd in s.users && 1 <= r <= |s.rooms| && s.users[fd].room != r
    ensures Protocol.Join(s, fd, r).0.users ==
              if |Occupants(s.users, r)| == MAX_USERS_PER_ROOM then Moved(s.users, fd, INVALID_ROOM) else Moved(s.users, fd, r)
    ensures |Protocol.Join(s, fd, r).0.rooms| == |s.rooms|
  {
    assert LeaveRoom(s, fd).rooms[r - 1] == s.rooms[r - 1];
    hide Inv, LeaveRoom, Occupants, Leave;
    LeaveRoomKeepsInv(s, fd);
    SlotsAreOccupants(s, r);
  }

  lemma DisconnectRefines(s: State, fd: int, why: Cause)
    requires Inv(s) && fd in s.users
    ensures Step(s, Disconnect(fd, why)).0.users == s.users - {fd} && |Step(s, Disconnect(fd, why)).0.rooms| == |s.rooms|
  {
    hide Inv, LeaveRoom, Leave;
    LeaveRoomKeepsInv(s, fd);
  }

  /** Every step of the arrays and slots is the abstract step of the map. */
  lemma StepRefines(s: State, e: Event)
    requires Inv(s) && Legal(s, e)
    ensures Step(s, e).0.users == AbstractStep(s.users, |s.rooms|, e)
    ensures |Step(s, e).0.rooms| == |s.rooms|
  {
    hide Inv, LeaveRoom, Leave, Broadcast, Moved, Occupants;
    match e
    case Connect(fd) =>
    case Disconnect(fd, why) =>
      DisconnectRefines(s, fd, why);
    case Receive(fd, msg, now) =>
      match msg
      case Chat(_, _, _) =>
      case Name(name) =>
      case Reply(_) =>
      case Join(r) =>
        if 1 <= r <= |s.rooms| && s.users[fd].room != r { JoinRefines(s, fd, r); }
  }

  ghost function AbstractRun(m: map<int, Client>, nrooms: nat, es: seq<Event>): map<int, Client>
    decreases |es|
  {
    if es == [] then m
    else
      var t := AbstractRun(m, nrooms, Front(es));
      if Last(es).Connect? || Last(es).fd in t then AbstractStep(t, nrooms, Last(es)) else t
  }

  lemma {:induction false} RunRefines(s: State, es: seq<Event>)
    requires Inv(s) && LegalRun(s, es)
    ensures Run(s, es).users == AbstractRun(s.users, |s.rooms|, es) && |Run(s, es).rooms| == |s.rooms|
    decreases |es|
  {
    if es != [] {
      RunRefines(s, Front(es));
      StepRefines(Run(s, Front(es)), Last(es));
    }
  }

  /** A join leaves every other user, and the membership of every room in every other user, as it was. */
  lemma JoinTouchesOnlyRequester(s: State, fd: int, r: byte, now: int, other: int)
    requires Inv(s) && Legal(s, Receive(fd, Message.Join(r), now)) && other in s.users && other != fd
    ensures var t := Step(s, Receive(fd, Message.Join(r), now)).0;
            && other in t.users && t.users[other] == s.users[other] && |t.rooms| == |s.rooms|
            && forall i {:trigger t.rooms[i]} :: 0 <= i < |s.rooms| ==> (other in t.rooms[i] <==> other in s.rooms[i])
  {
    var e := Receive(fd, Message.Join(r), now);
    StepRefines(s, e);
    StepKeepsInv(s, e);
    var t := Step(s, e).0;
    forall i | 0 <= i < |s.rooms| ensures other in t.rooms[i] <==> other in s.rooms[i] {
      MemberIffInRoom(s, other, i + 1);
      MemberIffInRoom(t, other, i + 1);
    }
  }

  /**
   * Where a join leaves the requester. A refused join does not always keep the old room: the room stays the same
   * exactly if the target does not exist, is the requester's own, or is full and the requester was in no room.
   */
  lemma JoinOutcome(s: State, fd: int, r: byte, now: int)
    requires Inv(s) && fd in s.users
    ensures var before, exist, full := s.users[fd].room, 1 <= r <= |s.rooms|, 1 <= r <= |s.rooms| && |s.rooms[r - 1]| == 25;
            var t := Step(s, Receive(fd, Message.Join(r), now)).0;
            var after := t.users;
            && fd in after && after[fd].name == s.users[fd].name
            && (!exist ==> t == s)
            && (exist && (before == r || !full) ==> after[fd].room == r && fd in t.rooms[r - 1])
            && (exist && before != r && full ==> after[fd].room == INVALID_ROOM && forall i {:trigger t.rooms[i]} :: 0 <= i < |t.rooms| ==> fd !in t.rooms[i])
            && (after[fd].room == before <==> !exist || before == r || (full && before == INVALID_ROOM))
  {
    var e := Receive(fd, Message.Join(r), now);
    StepKeepsInv(s, e);
    StepRefines(s, e);
    var t := Step(s, e).0;
    if 1 <= r <= |s.rooms| {
      SlotsAreOccupants(s, r);
      MemberIffInRoom(t, fd, r);
    }
    forall i | 0 <= i < |t.rooms| ensures fd in t.rooms[i] <==> fd in t.users && t.users[fd].room == i + 1 {
      MemberIffInRoom(t, fd, i + 1);
    }
  }

  lemma JoinTexts(d: cstring)
    ensures Ascii("you have joined room ") + d != Ascii("you are already in room ") + d
    ensures Ascii("room ") + d + Ascii(" is full") != Ascii("room ") + d + Ascii(" does not exist")
    ensures forall x: cstring, y: cstring :: Ascii("you have joined room ") + x != Ascii("room ") + y
    ensures forall x: cstring, y: cstring :: Ascii("you are already in room ") + x != Ascii("room ") + y
  {
    var have, are, room := Ascii("you have joined room "), Ascii("you are already in room "), Ascii("room ");
    assert (have + d)[4] == 104 && (are + d)[4] == 97;
    forall x: cstring, y: cstring ensures have + x != room + y && are + x != room + y {
      assert (have + x)[0] == 121 && (are + x)[0] == 121 && (room + y)[0] == 114;
    }
  }

  /** A join is answered by one reply to the requester; its text says where the join has led. */
  lemma JoinAnswer(s: State, fd: int, r: byte, now: int)
    requires Inv(s) && Legal(s, Receive(fd, Message.Join(r), now)) && fd in s.users
    ensures var t, ds := Step(s, Receive(fd, Message.Join(r), now)).0, Step(s, Receive(fd, Message.Join(r), now)).1;
            && fd in t.users && |ds| == 1 && ds[0].fd == fd && ds[0].msg.Reply?
            && var text, before, after, exist := ds[0].msg.reply, s.users[fd].room, t.users[fd].room, 1 <= r <= |s.rooms|;
               && (text == Ascii("you have joined room ") + Decimal(r) <==> before != r && after == r)
               && (text == Ascii("room ") + Decimal(r) + Ascii(" is full") <==> exist && before != r && after == 0)
               && (text == Ascii("you are already in room ") + Decimal(r) <==> exist && before == r)
               && (text == Ascii("room ") + Decimal(r) + Ascii(" does not exist") <==> !exist)
  {
    hide Inv, LeaveRoom, Leave, Ascii, Decimal, MAX_USERS_PER_ROOM;
    JoinTexts(Decimal(r));
    LeaveRoomKeepsInv(s, fd);
    RoomExists(s, fd);
  }

  lemma RoomExists(s: State, fd: int)
    requires Inv(s) && fd in s.users
    ensures s.users[fd].room <= |s.rooms|
  {
  }

  /** Setting a name changes the name and nothing else, and is answered to the requester. */
  lemma NameOutcome(s: State, fd: int, name: cstring, now: int)
    requires Inv(s) && Legal(s, Receive(fd, Name(name), now)) && fd in s.users
    ensures Step(s, Receive(fd, Name(name), now)) ==
              (State(s.fds, s.users[fd := Client(name, s.users[fd].room)], s.rooms), [Delivery(fd, Reply(Ascii("set name to ") + name))])
  {
    hide Inv, Ascii;
  }

  /** A new client is polled last, listed as "anonymous" in no room, and told nothing. */
  lemma ConnectOutcome(s: State, fd: int)
    requires Inv(s) && Legal(s, Connect(fd))
    ensures Step(s, Connect(fd)) ==
              (State(s.fds + [fd], s.users[fd := Client([97, 110, 111, 110, 121, 109, 111, 117, 115], 0)], s.rooms), [])
  {
    hide Inv;
    AnonymousSpelled();
  }

  /** A client that leaves is nowhere afterwards; everybody else stays polled, listed and in their rooms. */
  lemma DisconnectOutcome(s: State, fd: int, why: Cause, t: State, ds: seq<Delivery>)
    requires Inv(s) && Legal(s, Disconnect(fd, why)) && Step(s, Disconnect(fd, why)) == (t, ds)
    ensures ds == [] && t.users == s.users - {fd} && |t.rooms| == |s.rooms| && |t.fds| == |s.fds| - 1
    ensures forall id :: id in t.fds <==> id in s.fds && id != fd
    ensures forall r, id {:trigger id in t.rooms[r]} :: 0 <= r < |s.rooms| ==> (id in t.rooms[r] <==> id in s.rooms[r] && id != fd)
  {
    hide LeaveRoom, Leave;
    DisconnectRefines(s, fd, why);
    StepKeepsInv(s, Disconnect(fd, why));
    LeaveMembers(s.fds, fd);
    hide Step;
    forall r, id | 0 <= r < |s.rooms| ensures id in t.rooms[r] <==> id in s.rooms[r] && id != fd {
      MemberIffInRoom(s, id, r + 1);
      MemberIffInRoom(t, id, r + 1);
    }
  }

  /** A chat from a client in no room is answered to that client only. */
  lemma RoomlessAnswer(s: State, fd: int, msg: Message, now: int)
    requires Inv(s) && Legal(s, Receive(fd, msg, now)) && fd in s.users
    requires msg.Chat? && s.users[fd].room == 0
    ensures Step(s, Receive(fd, msg, now)).1 ==
              [Delivery(fd, Reply(Ascii("you are not in a chat room: type '/join [room number]' to join a room")))]
  {
    hide Inv, Ascii;
  }

  // ----- conservation -----

  ghost function SlotsUsed(rooms: seq<seq<int>>, n: nat): nat
    requires n <= |rooms|
  {
    if n == 0 then 0 else SlotsUsed(rooms, n - 1) + |rooms[n - 1]|
  }

  ghost function UsersUpTo(m: map<int, Client>, n: nat): set<int>
  {
    set fd | fd in m && 1 <= m[fd].room <= n
  }

  lemma {:induction false} SlotsMatchUsers(s: State, n: nat)
    requires Inv(s) && n <= |s.rooms|
    ensures SlotsUsed(s.rooms, n) == |UsersUpTo(s.users, n)|
  {
    if n == 0 {
      assert UsersUpTo(s.users, 0) == {};
    } else {
      SlotsMatchUsers(s, n - 1);
      SlotsAreOccupants(s, n);
      assert UsersUpTo(s.users, n) == UsersUpTo(s.users, n - 1) + Occupants(s.users, n);
      assert UsersUpTo(s.users, n - 1) !! Occupants(s.users, n);
    }
  }

  ghost function InSomeRoom(m: map<int, Client>): set<int>
  {
    set fd | fd in m && m[fd].room != INVALID_ROOM
  }

  lemma SlotsConserved(s: State)
    requires Inv(s)
    ensures SlotsUsed(s.rooms, |s.rooms|) == |InSomeRoom(s.users)|
  {
    SlotsMatchUsers(s, |s.rooms|);
    forall fd ensures fd in UsersUpTo(s.users, |s.rooms|) <==> fd in InSomeRoom(s.users) {
      if fd in s.users { var c := s.users[fd]; }
    }
    assert UsersUpTo(s.users, |s.rooms|) == InSomeRoom(s.users);
  }

  lemma PollsConserved(s: State)
    requires Inv(s)
    ensures |s.fds| == 1 + |s.users|
  {
    DistinctCount(s.fds);
    var listener := s.fds[0];
    assert listener in s.fds && listener !in s.users;
    forall fd ensures fd in Elements(s.fds) <==> fd in s.users.Keys + {listener} {
      assert fd in s.users <==> fd in s.fds && fd != listener;
    }
    assert Elements(s.fds) == s.users.Keys + {listener};
  }

  /** In every reachable state the slots in use number the users in rooms, and the polled sockets the users plus one. */
  lemma Conservation(s: State, es: seq<Event>)
    requires Inv(s) && LegalRun(s, es)
    ensures var t := Run(s, es);
            SlotsUsed(t.rooms, |t.rooms|) == |InSomeRoom(t.users)| && |t.fds| == 1 + |t.users|
  {
    SlotsConserved(Run(s, es));
    PollsConserved(Run(s, es));
  }

  // ----- names -----

  /** The last name set on a descriptor since it was connected. */
  ghost function NameSince(fd: int, es: seq<Event>, before: cstring): cstring
    decreases |es|
  {
    if es == [] then before
    else
      var e := Last(es);
      if e == Connect(fd) then ANONYMOUS
      else if e.Receive? && e.fd == fd && e.msg.Name? then e.msg.name
      else NameSince(fd, Front(es), before)
  }

  /** A name changes only by being set, and starts as "anonymous". */
  lemma NameAfterStep(s: State, e: Event, fd: int)
    requires Inv(s) && Legal(s, e) && fd in Step(s, e).0.users
    ensures e != Connect(fd) ==> fd in s.users
    ensures Step(s, e).0.users[fd].name ==
              if e == Connect(fd) then ANONYMOUS
              else if e.Receive? && e.fd == fd && e.msg.Name? then e.msg.name
              else s.users[fd].name
  {
    hide Step, Inv, WellFormed, Occupants;
    StepRefines(s, e);
  }

  lemma {:induction false} NameIsLastSet(s: State, es: seq<Event>, fd: int, before: cstring)
    requires Inv(s) && LegalRun(s, es)
    requires fd in s.users ==> s.users[fd].name == before
    ensures fd in Run(s, es).users ==> Run(s, es).users[fd].name == NameSince(fd, es, before)
    decreases |es|
  {
    hide Step, Inv, Legal;
    if es != [] {
      NameIsLastSet(s, Front(es), fd, before);
      if fd in Run(s, es).users { NameAfterStep(Run(s, Front(es)), Last(es), fd); }
    }
  }

  /** A descriptor has the name of its last name message, or "anonymous" if it has sent none since it was connected. */
  lemma {:induction false} LastNameWins(fd: int, es: seq<Event>, before: cstring, k: nat)
    requires k < |es| && (es[k] == Connect(fd) || (es[k].Receive? && es[k].fd == fd && es[k].msg.Name?))
    requires forall j :: k < j < |es| ==> es[j] != Connect(fd) && !(es[j].Receive? && es[j].fd == fd && es[j].msg.Name?)
    ensures NameSince(fd, es, before) == if es[k].Receive? then es[k].msg.name else [97, 110, 111, 110, 121, 109, 111, 117, 115]
    decreases |es|
  {
    AnonymousSpelled();
    if k < |es| - 1 { LastNameWins(fd, Front(es), before, k); }
  }

  // ----- branches that are never taken -----

  /**
   * Wherever a client is served or closed, the user lookup succeeds, the room it names exists and lists it, and
   * the poll array has it away from index 0; and there is room to double the poll array for a new descriptor.
   */
  ghost predicate NoDeadEnd(s: State, fd: int)
  {
    && (fd in s.fds && fd != s.fds[0] ==>
          && fd in s.users && 0 < IndexOf(s.fds, fd) < |s.fds|
          && var r := s.users[fd].room;
             r != INVALID_ROOM ==> 1 <= r <= |s.rooms| && IndexOf(s.rooms[r - 1], fd) < |s.rooms[r - 1]|)
    && (Legal(s, Connect(fd)) ==> 2 * |s.fds| < WORD)
  }

  lemma ClientIsFound(s: State, fd: int)
    requires Inv(s) && fd in s.fds && fd != s.fds[0]
    ensures fd in s.users && 0 < IndexOf(s.fds, fd) < |s.fds|
    ensures var r := s.users[fd].room;
            r != INVALID_ROOM ==> 1 <= r <= |s.rooms| && IndexOf(s.rooms[r - 1], fd) < |s.rooms[r - 1]|
  {
  }

  lemma PollsCanDouble(s: State, fd: int)
    requires Inv(s) && Legal(s, Connect(fd))
    ensures 2 * |s.fds| < WORD
  {
    Pigeonhole(s.fds + [fd], FD_LIMIT);
  }

  /** No reachable state has a dead end. */
  lemma NoConsistencyFailure(s: State, es: seq<Event>, fd: int)
    requires Inv(s) && LegalRun(s, es)
    ensures NoDeadEnd(Run(s, es), fd)
  {
    var t := Run(s, es);
    hide Inv, IndexOf, Run, LegalRun;
    if fd in t.fds && t.fds != [] && fd != t.fds[0] { ClientIsFound(t, fd); }
    if Legal(t, Connect(fd)) { PollsCanDouble(t, fd); }
  }
}
