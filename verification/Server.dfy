/** The chat server: handlers that update the poll array, the user table, the rooms and the sockets in place. */
module Servers {
  import opened Bits
  import opened Sequences
  import opened Users
  import opened Messages
  import opened Net
  import opened HashTables
  import opened UserTables
  import opened PollfdArrays
  import opened Rooms
  import P = Protocol
  import R = Runs
  import opened Worlds
  import opened Passes
  import Rounds
  import E = EndToEnd

  const NUM_ROOMS := 5

  /** The table's elements are the users of the state, with the names and rooms they have there. */
  ghost predicate UsersMatch(items: seq<User>, objs: map<int, User>, users: map<int, P.Client>)
    reads items`name, items`room
  {
    && objs.Keys == users.Keys
    && (forall u {:trigger u in items} :: u in items ==> u.id in objs && objs[u.id] == u)
    && (forall id {:trigger objs[id]} :: id in objs ==> objs[id] in items && objs[id].id == id)
    && (forall u {:trigger u.name} {:trigger u.room} :: u in items ==> P.Client(u.name, u.room) == users[u.id])
  }

  class Server {
    const listener: int
    const pollfds: PollfdArray
    const userTable: HashTable
    const rooms: RoomArray
    const net: Network

    ghost var st: P.State
    ghost var objs: map<int, User>
    ghost var links: map<int, Link>

    /** Every socket is polled for input. */
    ghost predicate PollsOk(fds: seq<int>)
      reads pollfds, pollfds.fds
    {
      && pollfds.Valid() && |fds| == pollfds.len
      && forall i :: 0 <= i < pollfds.len ==> pollfds.fds[i].fd == fds[i] && pollfds.fds[i].events == POLLIN
    }

    ghost predicate TableOk(objs: map<int, User>, users: map<int, P.Client>)
      reads userTable, userTable.buckets, userTable.items
    {
      userTable.Valid() && UsersMatch(userTable.items, objs, users)
    }

    ghost predicate RoomsOk(members: seq<seq<int>>)
      reads rooms, rooms.rooms, set r | r in rooms.rooms :: r.users
    {
      && rooms.Valid() && rooms.len == |members|
      && forall i {:trigger members[i]} {:trigger rooms.rooms[i]} :: 0 <= i < rooms.len ==> rooms.rooms[i].Members() == members[i]
    }

    ghost predicate Valid()
      reads this, pollfds, pollfds.fds, userTable, userTable.buckets, userTable.items
      reads rooms, rooms.rooms, set r | r in rooms.rooms :: r.users
      reads net
    {
      && P.Inv(st) && st.fds[0] == listener
      && PollsOk(st.fds) && TableOk(objs, st.users) && RoomsOk(st.rooms)
      && net.conns.Keys == st.users.Keys && StreamsOk(links, net.conns)
    }

    /** main, up to the poll loop: the listener is polled, nobody is connected, five rooms are empty. */
    constructor (listener: int)
      requires 0 <= listener < P.FD_LIMIT
      ensures Valid() && World(st, links) == E.Fresh(listener, NUM_ROOMS) && net.errors == NO_ERRORS
      ensures this.listener == listener
      ensures st.fds == [listener] && st.users == map[] && links == map[] && net.conns == map[]
      ensures |st.rooms| == 5 && forall r :: 0 <= r < 5 ==> st.rooms[r] == []
    {
      hide Valid, HashTable.Valid, P.Inv, RoomArray.Valid, PollfdArray.Valid, PollfdArray.Contents, PollfdArray.Tight, PollsOk, TableOk, RoomsOk, StreamsOk;
      this.listener := listener;
      pollfds := new PollfdArray();
      rooms := new RoomArray(NUM_ROOMS);
      userTable := new HashTable(IdHash);
      net := new Network();
      objs, links := map[], map[];
      st := R.Initial(listener, NUM_ROOMS);
      new;
      RoomsAreEmpty();
      NobodyIsListed();
      NewArrayHasSpace();
      var status := pollfds.Append(listener, POLLIN, true);
      ListenerIsPolled();
      NothingToRead();
      assert PollsOk(st.fds) && TableOk(objs, st.users) && RoomsOk(st.rooms) && StreamsOk(links, net.conns);
      Assembled();
    }

    lemma NothingToRead()
      ensures StreamsOk(map[], map[])
    {
    }

    lemma NewArrayHasSpace()
      requires pollfds.Valid() && pollfds.Contents() == []
      ensures pollfds.len < pollfds.capacity
    {
    }

    lemma ListenerIsPolled()
      requires pollfds.Valid() && pollfds.Contents() == [PollFd(listener, POLLIN, 0)]
      ensures PollsOk([listener])
    {
      assert forall i :: 0 <= i < pollfds.len ==> pollfds.fds[i] == pollfds.Contents()[i];
    }

    lemma NobodyIsListed()
      requires userTable.Valid() && userTable.items == []
      ensures TableOk(map[], map[])
    {
      hide HashTable.Valid;
    }

    lemma RoomsAreEmpty()
      requires rooms.Valid() && rooms.len == NUM_ROOMS && forall i :: 0 <= i < rooms.len ==> rooms.rooms[i].Members() == []
      ensures RoomsOk(seq(NUM_ROOMS, _ => []))
    {
    }

    lemma Parts()
      requires Valid()
      ensures P.Inv(st) && st.fds != [] && st.fds[0] == listener
      ensures PollsOk(st.fds) && TableOk(objs, st.users) && RoomsOk(st.rooms)
      ensures net.conns.Keys == st.users.Keys && StreamsOk(links, net.conns)
    {
    }

    lemma ListenerIsFirst()
      requires Valid()
      ensures st.fds != [] && st.fds[0] == listener
    {
    }

    lemma Assembled()
      requires P.Inv(st) && st.fds != [] && st.fds[0] == listener
      requires PollsOk(st.fds) && TableOk(objs, st.users) && RoomsOk(st.rooms)
      requires net.conns.Keys == st.users.Keys && StreamsOk(links, net.conns)
      ensures Valid()
    {
    }

    /** sendall of one frame, as the links tell it: the client was told the message, or its connection is broken. */
    method SendFrame(client: int, buf: array<byte>, ghost msg: Message) returns (sent: int)
      requires StreamsOk(links, net.conns) && client in net.conns && WellFormed(msg) && buf[..] == Encode(msg)
      modifies net, this`links
      ensures StreamsOk(links, net.conns) && net.conns.Keys == old(net.conns).Keys
      ensures links == Told(old(links), [P.Delivery(client, msg)])
      ensures sent != -1 ==> net.errors == old(net.errors) && client in net.conns
                             && net.conns[client].outgoing == old(net.conns)[client].outgoing + Encode(msg)
      ensures sent == -1 ==> net.errors == SendFailed(old(net.errors), client) && net.conns[client].broken
      ensures Since(old(net.conns), old(net.errors), net.conns, net.errors)
    {
      hide StreamsOk, Encode, WellFormed, Told, Since;
      sent := SendAll(net, client, buf, buf.Length);
      StreamTold(links, old(net.conns), client, msg);
      links := Told(links, [P.Delivery(client, msg)]);
    }

    /** send_reply_message: errors are logged and otherwise ignored; a failed send breaks only this connection. */
    method SendReplyMessage(client: int, reply: Message)
      requires Valid() && reply.Reply? && WellFormed(reply) && client in net.conns
      modifies net, this`links
      ensures Valid() && links == Told(old(links), [P.Delivery(client, reply)])
      ensures net.errors == old(net.errors) || net.errors == SendFailed(old(net.errors), client)
      ensures Since(old(net.conns), old(net.errors), net.conns, net.errors)
    {
      hide Valid, P.Inv, StreamsOk, TableOk, RoomsOk, PollsOk, Encode, Told, Since;
      Parts();
      var buf, _ := ReplySerialize(reply);
      var _ := SendFrame(client, buf, reply);
      Assembled();
    }

    /** strcpy(user->name, name) */
    method SetName(user: User, name: cstring, ghost users: map<int, P.Client>)
      requires TableOk(objs, users) && user in userTable.items
      modifies user`name
      ensures user.id in users && TableOk(objs, users[user.id := P.Client(name, users[user.id].room)])
    {
      hide HashTable.Valid;
      user.name := name;
    }

    /** The part of handle_join_message that changes rooms: out of the current one, if any, and into the new one. */
    method MoveToRoom(newRoom: Room, user: User, r: byte) returns (status: int)
      requires Valid() && user in userTable.items && user.room != r
      requires 1 <= r <= rooms.len && newRoom == rooms.rooms[r - 1]
      modifies user`room, rooms.rooms, set r | r in rooms.rooms :: r.users
      modifies this`st
      ensures Valid() && rooms.len == |old(st).rooms| && user.id in old(st).users && old(st).users[user.id].room != r
      ensures var left := P.LeaveRoom(old(st), user.id);
              && |left.rooms| == |old(st).rooms|
              && status == (if |left.rooms[r - 1]| == MAX_USERS_PER_ROOM then -1 else 0)
              && st == if status == 0 then P.EnterRoom(left, user.id, r) else left
    {
      hide TableOk, PollsOk, P.Inv;
      UserIsClient(user);
      if user.room != INVALID_ROOM {
        UserIsMember(user);
        var currentRoom := rooms.GetRoom(user.room);
        var _ := RemoveFromRoom(currentRoom, user);
      }
      status := AddToRoom(newRoom, user, r);
    }

    lemma RoomCount()
      requires Valid()
      ensures |st.rooms| == rooms.len && rooms.Valid()
    {
    }

    /** What handle_join_message does to the rooms, and the reply it sends at the end of the branch it takes. */
    method JoinRoom(user: User, r: byte) returns (reply: Message)
      requires Valid() && user in userTable.items
      modifies user`room, rooms.rooms, set r | r in rooms.rooms :: r.users
      modifies this`st
      ensures Valid() && reply.Reply? && WellFormed(reply)
      ensures user.id in old(st).users && (st, [P.Delivery(user.id, reply)]) == P.Join(old(st), user.id, r)
    {
      hide PollsOk, TableOk, RoomsOk, StreamsOk, RoomArray.Valid, P.Inv, P.LeaveRoom, P.EnterRoom, WellFormed;
      hide P.NoSuchRoom, P.AlreadyIn, P.RoomFull, P.Joined;
      JoinRepliesFit(r);
      UserIsClient(user);
      RoomCount();
      var newRoom := rooms.GetRoom(r);
      if newRoom == null {
        return P.NoSuchRoom(r);
      }
      if user.room == newRoom.id {
        return P.AlreadyIn(newRoom.id);
      }
      var status := MoveToRoom(newRoom, user, r);
      reply := if status != 0 then P.RoomFull(r) else P.Joined(r);
    }

    /** handle_join_message */
    method HandleJoinMessage(buf: array<byte>, user: User, ghost msg: Message, ghost now: int)
      requires Valid() && user in userTable.items
      requires msg.Join? && buf[..] == Encode(msg)
      modifies user`room, rooms.rooms, set r | r in rooms.rooms :: r.users
      modifies net, this`st, this`links
      ensures Valid() && Answered(old(st), old(links), P.Receive(user.id, msg, now))
      ensures net.errors == old(net.errors) || net.errors == SendFailed(old(net.errors), user.id)
      ensures Since(old(net.conns), old(net.errors), net.conns, net.errors)
    {
      hide Valid, Encode, Decode, Readable, TypeOf, PollsOk, TableOk, RoomsOk, StreamsOk, Told, Since, P.Inv, P.Step, P.Join, P.Legal;
      Parts();
      UserIsClient(user);
      JoinStep(st, user.id, msg, now);
      RoundTrip(msg);
      var m, _ := JoinDeserialize(buf);
      var reply := JoinRoom(user, m.room);
      UserIsClient(user);
      SendReplyMessage(user.id, reply);
    }

    /** handle_name_message */
    method HandleNameMessage(buf: array<byte>, user: User, ghost msg: Message, ghost now: int)
      requires Valid() && user in userTable.items
      requires msg.Name? && P.FromClient(msg) && buf[..] == Encode(msg)
      modifies user`name, net, this`st, this`links
      ensures Valid() && Answered(old(st), old(links), P.Receive(user.id, msg, now))
      ensures net.errors == old(net.errors) || net.errors == SendFailed(old(net.errors), user.id)
      ensures Since(old(net.conns), old(net.errors), net.conns, net.errors)
    {
      hide Valid, Encode, Decode, Readable, TypeOf, PollsOk, RoomsOk, TableOk, StreamsOk, Told, P.Inv, P.Step;
      Parts();
      UserIsClient(user);
      RenameStep(st, user.id, msg, now);
      RoundTrip(msg);
      var m, _ := NameDeserialize(buf);
      SetName(user, m.name, st.users);
      st := P.Step(st, P.Receive(user.id, msg, now)).0;
      Assembled();
      SendReplyMessage(user.id, P.NameSet(m.name));
    }

    /** The member lists and the user table after room_remove_user. */
    method UnlinkMember(room: Room, user: User, ghost r: nat, ghost members: seq<seq<int>>, ghost users: map<int, P.Client>)
      returns (status: int)
      requires RoomsOk(members) && 1 <= r <= |members| && room == rooms.rooms[r - 1]
      requires TableOk(objs, users) && user in userTable.items && user.room == r && user.id in members[r - 1]
      modifies room`numUsers, room.users, user`room
      ensures status == 0 && user.room == INVALID_ROOM
      ensures RoomsOk(members[r - 1 := Leave(members[r - 1], user.id)])
      ensures user.id in users && TableOk(objs, users[user.id := users[user.id].(room := INVALID_ROOM)])
    {
      hide HashTable.Valid, Leave;
      status := room.RemoveUser(user);
    }

    /** The member lists and the user table after room_add_user. */
    method LinkMember(room: Room, user: User, ghost r: byte, ghost members: seq<seq<int>>, ghost users: map<int, P.Client>)
      returns (status: int)
      requires RoomsOk(members) && 1 <= r <= |members| && room == rooms.rooms[r - 1]
      requires TableOk(objs, users) && user in userTable.items
      modifies room`numUsers, room.users, user`room
      ensures status == if |members[r - 1]| == MAX_USERS_PER_ROOM then -1 else 0
      ensures status != 0 ==> RoomsOk(members) && TableOk(objs, users)
      ensures status == 0 ==>
                && RoomsOk(members[r - 1 := members[r - 1] + [user.id]])
                && user.id in users && TableOk(objs, users[user.id := users[user.id].(room := r)])
    {
      hide HashTable.Valid;
      status := room.AddUser(user);
    }

    /** room_remove_user on the room the user is in. */
    method RemoveFromRoom(room: Room, user: User) returns (status: int)
      requires Valid() && user in userTable.items && user.room != INVALID_ROOM
      requires 1 <= user.room <= rooms.len && room == rooms.rooms[user.room - 1]
      modifies room`numUsers, room.users, user`room, this`st
      ensures Valid() && status == 0 && user.room == INVALID_ROOM
      ensures user.id in old(st).users && st == P.LeaveRoom(old(st), user.id)
    {
      hide TableOk, RoomsOk, PollsOk, StreamsOk, P.Inv, Leave, IsCapacity;
      UserIsClient(user);
      UserIsMember(user);
      P.LeaveRoomKeepsInv(st, user.id);
      ghost var t := P.LeaveRoom(st, user.id);
      status := UnlinkMember(room, user, user.room, st.rooms, st.users);
      st := t;
    }

    /** room_add_user for a user in no room. */
    method AddToRoom(room: Room, user: User, ghost r: byte) returns (status: int)
      requires Valid() && user in userTable.items && user.room == INVALID_ROOM
      requires 1 <= r <= rooms.len && room == rooms.rooms[r - 1]
      modifies room`numUsers, room.users, user`room, this`st
      ensures Valid() && rooms.len == |old(st).rooms| && status == if |old(st).rooms[r - 1]| == MAX_USERS_PER_ROOM then -1 else 0
      ensures user.id in old(st).users && st == if status == 0 then P.EnterRoom(old(st), user.id, r) else old(st)
    {
      hide TableOk, P.Inv;
      UserIsClient(user);
      assert |st.rooms| == rooms.len;
      hide RoomsOk;
      RoomHasSpace(st, user.id, r);
      status := LinkMember(room, user, r, st.rooms, st.users);
      if status == 0 {
        st := P.EnterRoom(st, user.id, r);
      }
    }

    lemma UserIsMember(user: User)
      requires Valid() && user in userTable.items && user.room != INVALID_ROOM
      ensures 1 <= user.room <= |st.rooms| == rooms.len && user.id in st.rooms[user.room - 1]
      ensures rooms.Valid() && rooms.rooms[user.room - 1].Valid() && rooms.rooms[user.room - 1].Members() == st.rooms[user.room - 1]
    {
      UserIsClient(user);
    }

    /** Serializes the stamped message once and sends it to every slot of the room, stopping at the first error. */
    method SendToRoom(room: Room, msg: Message, ghost members: seq<int>) returns (status: int)
      requires Valid() && msg.Chat? && WellFormed(msg) && room.Valid() && room.Members() == members
      requires forall fd :: fd in members ==> fd in net.conns
      modifies net, this`links
      ensures Valid() && (status == 0 || status == -1)
      ensures status == 0 ==> links == Told(old(links), P.Broadcast(members, msg)) && net.errors == old(net.errors)
      ensures status == -1 ==> StoppedIn(members, msg, old(links), old(net.errors))
      ensures Since(old(net.conns), old(net.errors), net.conns, net.errors)
    {
      hide Valid, P.Inv, StreamsOk, TableOk, RoomsOk, PollsOk, Encode, WellFormed, Told, StoppedIn, P.Broadcast, Since;
      Parts();
      var buf, _ := ChatSerialize(msg);
      NobodyToldYet(links, members, msg);
      SinceNow(net.conns, net.errors);
      var i := 0;
      while i < room.numUsers
        invariant i <= room.numUsers && buf[..] == Encode(msg)
        invariant net.conns.Keys == old(net.conns).Keys && StreamsOk(links, net.conns)
        invariant links == Told(old(links), P.Broadcast(members[..i], msg)) && net.errors == old(net.errors)
        invariant Since(old(net.conns), old(net.errors), net.conns, net.errors)
      {
        var receiver := room.users[i];
        assert receiver == members[i];
        ghost var conns := net.conns;
        var sent := SendFrame(receiver, buf, msg);
        SinceThen(old(net.conns), old(net.errors), conns, old(net.errors), net.conns, net.errors);
        ToldNext(old(links), members, i, msg);
        if sent == -1 {
          Stopped(members, msg, old(links), old(net.errors), i);
          Assembled();
          return -1;
        }
        i := i + 1;
      }
      assert members[..|members|] == members;
      Assembled();
      status := 0;
    }

    /** A broadcast went as far as some member, to whom sending has failed. */
    ghost predicate StoppedIn(members: seq<int>, msg: Message, before: map<int, Link>, errors: Errors)
      reads this, net
    {
      exists i {:trigger members[i]} :: 0 <= i < |members| && links == Told(before, P.Broadcast(members[..i + 1], msg))
                                        && net.errors == SendFailed(errors, members[i]) && members[i] in net.conns && net.conns[members[i]].broken
    }

    lemma Stopped(members: seq<int>, msg: Message, before: map<int, Link>, errors: Errors, i: nat)
      requires i < |members| && links == Told(before, P.Broadcast(members[..i + 1], msg))
      requires net.errors == SendFailed(errors, members[i]) && members[i] in net.conns && net.conns[members[i]].broken
      ensures StoppedIn(members, msg, before, errors)
    {
    }

    /** The part of handle_chat_message for a sender in a room: decode, stamp, and send to every member. */
    method SayInRoom(buf: array<byte>, user: User, now: int, ghost msg: Message) returns (status: int)
      requires Valid() && user in userTable.items && user.room != INVALID_ROOM
      requires msg.Chat? && P.FromClient(msg) && buf[..] == Encode(msg)
      modifies net, this`links
      ensures Valid() && (status == 0 || status == -1) && user.room <= |st.rooms|
      ensures WellFormed(Chat(now, user.name, msg.text))
      ensures status == 0 ==>
                && links == Told(old(links), P.Broadcast(st.rooms[user.room - 1], Chat(now, user.name, msg.text)))
                && net.errors == old(net.errors)
      ensures status == -1 ==> StoppedIn(st.rooms[user.room - 1], Chat(now, user.name, msg.text), old(links), old(net.errors))
      ensures Since(old(net.conns), old(net.errors), net.conns, net.errors)
    {
      hide Valid, Encode, Decode, Readable, TypeOf, PollsOk, TableOk, RoomsOk, RoomArray.Valid, Told, P.Inv, StreamsOk, StoppedIn, Since, P.Step, P.Broadcast;
      Parts();
      UserIsClient(user);
      ChatStep(st, user.id, msg, now);
      RoundTrip(msg);
      var m, _ := ChatDeserialize(buf);
      var stamped := Chat(now, user.name, m.text);
      UserIsMember(user);
      var room := rooms.GetRoom(user.room);
      status := SendToRoom(room, stamped, st.rooms[user.room - 1]);
    }

    lemma BroadcastHalts(w: World, client: int, members: seq<int>, msg: Message, errors: Errors)
      requires client in w.links && client in w.server.users && LinkOk(w.links[client]) && w.server.users[client].room != INVALID_ROOM
      requires Unread(w.links[client]) != [] && Unread(w.links[client])[0].Chat?
      requires exists before :: StoppedIn(members, msg, before, errors)
      ensures Halting(w, client, errors, net.errors)
    {
      var before :| StoppedIn(members, msg, before, errors);
      var i :| 0 <= i < |members| && net.errors == SendFailed(errors, members[i]);
    }

    /** handle_chat_message */
    method HandleChatMessage(buf: array<byte>, user: User, now: int, ghost msg: Message) returns (status: int)
      requires Valid() && user in userTable.items
      requires msg.Chat? && P.FromClient(msg) && buf[..] == Encode(msg)
      modifies net, this`links
      ensures Valid() && (status == 0 || status == -1)
      ensures status == 0 ==>
                && Answered(old(st), old(links), P.Receive(user.id, msg, now))
                && (net.errors == old(net.errors) || (user.room == INVALID_ROOM && net.errors == SendFailed(old(net.errors), user.id)))
      ensures status == -1 ==>
                && user.room != INVALID_ROOM && user.room <= |st.rooms|
                && StoppedIn(st.rooms[user.room - 1], Chat(now, user.name, msg.text), old(links), old(net.errors))
      ensures Since(old(net.conns), old(net.errors), net.conns, net.errors)
    {
      hide Valid, Encode, PollsOk, TableOk, RoomsOk, Told, P.Inv, StreamsOk, StoppedIn, Since, P.Step, P.Broadcast, P.Legal;
      Parts();
      UserIsClient(user);
      ChatStep(st, user.id, msg, now);
      if user.room == INVALID_ROOM {
        SendReplyMessage(user.id, P.NotInRoom());
        return 0;
      }
      status := SayInRoom(buf, user, now, msg);
    }

    lemma HasStream(client: int)
      requires Valid() && client in st.users
      ensures client in links && client in net.conns && LinkOk(links[client])
      ensures P.Inv(st) && forall why :: P.Legal(st, P.Disconnect(client, why))
    {
      hide P.Inv, HashTable.Valid;
    }

    /**
     * recvall and the lookup: the first frame of the client's stream, and the client's entry in the table. 0 tells
     * that the stream has ended with everything handled, or that the client has reset the connection; -1 that this
     * receive has met another error.
     */
    method ReceiveFrame(client: int) returns (status: int, buf: array?<byte>, user: User?)
      requires Valid() && client in st.users
      modifies net, this`links
      ensures status >= -1 && client in old(links) && LinkOk(old(links)[client])
      ensures Since(old(net.conns), old(net.errors), net.conns, net.errors)
      ensures status >= 0 ==> Valid()
      ensures status == -1 ==> net.errors == RecvFailed(old(net.errors))
      ensures status == 0 ==>
                && links == CutOff(old(links), client)
                && (net.errors == WasReset(old(net.errors)) || (net.errors == old(net.errors) && Unread(old(links)[client]) == []))
      ensures status > 0 ==>
                && Unread(old(links)[client]) != [] && P.FromClient(Unread(old(links)[client])[0])
                && links == HandledOne(old(links), client) && net.errors == old(net.errors)
                && buf != null && buf[..] == Encode(Unread(old(links)[client])[0])
                && user != null && user in userTable.items && user.id == client
    {
      hide Valid, Encode, PollsOk, RoomsOk, TableOk, StreamsOk, P.Inv, WellFormed, StartsFrame, FrameLength, Since;
      Parts();
      StreamHead(links, net.conns, client);
      user := null;
      status, buf := RecvAll(net, client);
      if status == -1 {
        return;
      }
      if status == 0 {
        StreamCut(links, old(net.conns), client);
        links := CutOff(links, client);
        Assembled();
        return;
      }
      links := HandledOne(links, client);
      Assembled();
      user := FindUser(client, st.users);
    }

    /**
     * handle_client_message: 1 when a message was handled, 0 when the client is gone, for the reason told, and -1
     * when this call has failed to receive or to send.
     */
    method HandleClientMessage(client: int, now: int) returns (status: int, ghost why: P.Cause)
      requires Valid() && client in st.users
      modifies net, this`links, this`st
      modifies userTable.items`name, userTable.items`room, rooms.rooms, set r | r in rooms.rooms :: r.users
      ensures client in old(links) && LinkOk(old(links)[client]) && P.Inv(old(st))
      ensures Since(old(net.conns), old(net.errors), net.conns, net.errors)
      ensures status == 1 || status == 0 || status == -1
      ensures status == -1 ==> Halting(World(old(st), old(links)), client, old(net.errors), net.errors)
      ensures status >= 0 ==> Valid()
      ensures status == 0 ==> st == old(st) && links == CutOff(old(links), client)
      ensures status == 0 ==>
                || (why == P.ConnReset && net.errors == WasReset(old(net.errors)))
                || (why == P.EndOfStream && net.errors == old(net.errors) && Unread(old(links)[client]) == [])
      ensures status == 1 ==>
                && NextAnswered(old(st), old(links), client, now)
                && (net.errors == old(net.errors) || net.errors == SendFailed(old(net.errors), client))
    {
      hide Encode, Told, P.Step, P.Inv, PollsOk, TableOk, RoomsOk, StreamsOk, Valid, Answered, WellFormed, Since, StoppedIn;
      HasStream(client);
      why := P.EndOfStream;
      var recvd, buf, user := ReceiveFrame(client);
      ghost var conns := net.conns;
      if recvd <= 0 {
        why := if net.errors == old(net.errors) then P.EndOfStream else P.ConnReset;
        return recvd, why;
      }
      ghost var m := Unread(old(links)[client])[0];
      RoundTripKind(m);
      var kind := GetMessageType(buf);
      match kind {
        case ChatType =>
          var ok := HandleChatMessage(buf, user, now, m);
          SinceThen(old(net.conns), old(net.errors), conns, old(net.errors), net.conns, net.errors);
          if ok != 0 {
            UserIsClient(user);
            BroadcastHalts(World(old(st), old(links)), client, st.rooms[user.room - 1], Chat(now, user.name, m.text), old(net.errors));
            return -1, why;
          }
        case JoinType =>
          HandleJoinMessage(buf, user, m, now);
          SinceThen(old(net.conns), old(net.errors), conns, old(net.errors), net.conns, net.errors);
        case NameType =>
          HandleNameMessage(buf, user, m, now);
          SinceThen(old(net.conns), old(net.errors), conns, old(net.errors), net.conns, net.errors);
        case _ => assert false;
      }
      status := 1;
    }

    // ----- connecting and disconnecting -----

    /** The user table after user_table_add for a new descriptor. */
    method LinkUser(fd: int, ghost users: map<int, P.Client>) returns (status: int, ghost added: User?)
      requires TableOk(objs, users) && fd !in users
      modifies userTable, userTable.buckets, userTable.items
      ensures status == 0 && added != null && fresh(added)
      ensures TableOk(objs[fd := added], users[fd := P.Client(P.ANONYMOUS, INVALID_ROOM)])
      ensures userTable.items == old(userTable.items) + [added]
      ensures userTable.buckets == old(userTable.buckets) || fresh(userTable.buckets)
    {
      hide HashTable.Valid;
      assert forall u :: u in userTable.items ==> u.id != fd;
      status, added := UserTableAdd(userTable, fd);
    }

    /** The user table after user_table_delete for a connected descriptor. */
    method UnlinkUser(fd: int, ghost users: map<int, P.Client>) returns (status: int)
      requires TableOk(objs, users) && fd in users
      modifies userTable, userTable.buckets, userTable.items
      ensures status == 0 && TableOk(objs - {fd}, users - {fd})
      ensures forall u :: u in userTable.items ==> u in old(userTable.items)
      ensures userTable.buckets == old(userTable.buckets)
    {
      hide HashTable.Valid;
      ghost var was, user := userTable.items, objs[fd];
      assert user in was && user.id == fd;
      assert userTable.UniqueIds() by { TableIsUnique(); }
      status := UserTableDelete(userTable, fd);
      ghost var u :| u in was && u.id == fd && Dropped(was, u, userTable.items);
      DroppedElements(was, u, userTable.items);
    }

    lemma TableIsUnique()
      requires userTable.Valid()
      ensures userTable.UniqueIds()
    {
    }

    lemma DroppedElements(was: seq<User>, u: User, now: seq<User>)
      requires Dropped(was, u, now) && forall i, j :: 0 <= i < j < |was| ==> was[i].id != was[j].id
      ensures forall v :: v in now <==> v in was && v.id != u.id
    {
      var k: nat :| k < |was| && was[k] == u && now == Without(was, k);
      WithoutMembers(was, k);
    }

    /** The poll array after pollfd_array_append. */
    method LinkPoll(fd: int, allocOk: bool, ghost fds: seq<int>) returns (status: int)
      requires PollsOk(fds) && 2 * |fds| < WORD
      modifies pollfds, pollfds.fds
      ensures (status == 0 || (status == -1 && !allocOk)) && pollfds.Valid()
      ensures PollsOk(if status == 0 then fds + [fd] else fds)
      ensures status == 0 ==> pollfds.Contents() == old(pollfds.Contents()) + [PollFd(fd, POLLIN, 0)]
      ensures pollfds.fds == old(pollfds.fds) || fresh(pollfds.fds)
    {
      ghost var was := pollfds.Contents();
      status := pollfds.Append(fd, POLLIN, allocOk);
      assert forall i :: 0 <= i < pollfds.len ==> pollfds.fds[i] == pollfds.Contents()[i];
    }

    /** The poll array after pollfd_array_delete. */
    method UnlinkPoll(i: nat, allocOk: bool, ghost fds: seq<int>) returns (status: int)
      requires PollsOk(fds) && i < |fds|
      modifies pollfds, pollfds.fds
      ensures status == 0 && PollsOk(SwapRemove(fds, i)) && pollfds.Valid()
      ensures pollfds.Contents() == SwapRemove(old(pollfds.Contents()), i)
      ensures pollfds.fds == old(pollfds.fds) || fresh(pollfds.fds)
    {
      ghost var was := pollfds.Contents();
      status := pollfds.Delete(i, allocOk);
      assert forall j :: 0 <= j < pollfds.len ==> pollfds.fds[j] == pollfds.Contents()[j];
    }

    /** handle_new_client for a descriptor that accept has just returned, or -1. */
    method HandleNewClient(sockfd: int, allocOk: bool) returns (status: int)
      requires Valid() && (sockfd == -1 || P.Legal(st, P.Connect(sockfd)))
      modifies pollfds, pollfds.fds, userTable, userTable.buckets, userTable.items, net, this`st, this`objs, this`links
      ensures Valid() && net.errors == old(net.errors) && Since(old(net.conns), old(net.errors), net.conns, net.errors)
      ensures status == 0 || (status == -1 && (sockfd == -1 || !allocOk))
      ensures status == -1 ==> st == old(st) && net.conns == old(net.conns) && links == old(links)
      ensures status == 0 ==>
                && P.Legal(old(st), P.Connect(sockfd)) && st == P.Step(old(st), P.Connect(sockfd)).0
                && net.conns == old(net.conns)[sockfd := FRESH] && links == old(links)[sockfd := NEW_LINK]
                && pollfds.Valid() && pollfds.Contents() == old(pollfds.Contents()) + [PollFd(sockfd, POLLIN, 0)]
      ensures pollfds.fds == old(pollfds.fds) || fresh(pollfds.fds)
      ensures userTable.buckets == old(userTable.buckets) || fresh(userTable.buckets)
      ensures forall u :: u in userTable.items ==> u in old(userTable.items) || fresh(u)
    {
      hide Valid, P.Inv, TableOk, RoomsOk, StreamsOk, PollsOk, P.Step, P.Legal, PollfdArray.Contents, IsCapacity, Since;
      SinceNow(net.conns, net.errors);
      SinceOpened(net.conns, net.errors, sockfd);
      if sockfd == -1 {
        return -1;
      }
      Parts();
      ConnectStep(st, sockfd);
      PollCount();
      ghost var next := P.Step(st, P.Connect(sockfd)).0;
      net.Open(sockfd);
      status := LinkPoll(sockfd, allocOk, st.fds);
      if status != 0 {
        net.Close(sockfd);
        Reopened(old(net.conns), sockfd);
        Assembled();
        return -1;
      }
      ghost var polled := pollfds.Contents();
      ghost var added;
      status, added := LinkUser(sockfd, st.users);
      assert pollfds.Valid() && pollfds.Contents() == polled;
      AdmitClient(sockfd, added, next, old(net.conns));
    }

    /** From here on the new client counts. */
    ghost method AdmitClient(sockfd: int, added: User, next: P.State, conns: map<int, Conn>)
      requires P.Inv(next) && next.fds != [] && next.fds[0] == listener
      requires next.users == st.users[sockfd := P.Client(P.ANONYMOUS, INVALID_ROOM)]
      requires PollsOk(next.fds) && TableOk(objs[sockfd := added], next.users) && RoomsOk(next.rooms)
      requires conns.Keys == st.users.Keys && StreamsOk(links, conns) && net.conns == conns[sockfd := FRESH]
      modifies this`st, this`objs, this`links
      ensures Valid() && st == next && links == old(links)[sockfd := NEW_LINK]
    {
      hide P.Inv, StreamsOk, TableOk, RoomsOk, PollsOk;
      StreamOpened(links, conns, sockfd);
      objs := objs[sockfd := added];
      links := links[sockfd := NEW_LINK];
      st := next;
    }

    lemma PollCount()
      requires Valid()
      ensures pollfds.Valid() && |st.fds| == pollfds.len == |pollfds.Contents()|
    {
    }

    /** user_table_find for a connected descriptor. */
    method FindUser(fd: int, ghost users: map<int, P.Client>) returns (user: User?)
      requires TableOk(objs, users) && fd in users
      ensures user != null && user in userTable.items && user.id == fd && users[fd] == P.Client(user.name, user.room)
    {
      hide HashTable.Valid;
      user := UserTableFind(userTable, fd);
      assert objs[fd] in userTable.items;
    }

    lemma RoomsAreValid(members: seq<seq<int>>)
      requires RoomsOk(members)
      ensures rooms.Valid() && rooms.len == |members|
    {
    }

    /** The part of handle_client_termination that takes the client out of its room and out of the table. */
    method UnlinkClient(client: int, ghost members: seq<seq<int>>, ghost users: map<int, P.Client>) returns (status: int)
      requires RoomsOk(members) && TableOk(objs, users) && client in users
      requires var r := users[client].room; r == INVALID_ROOM || (1 <= r <= |members| && client in members[r - 1])
      modifies userTable, userTable.buckets, userTable.items, rooms.rooms, set r | r in rooms.rooms :: r.users
      ensures status == 0 && TableOk(objs - {client}, users - {client})
      ensures var r := users[client].room;
              RoomsOk(if r == INVALID_ROOM then members else members[r - 1 := Leave(members[r - 1], client)])
      ensures userTable.buckets == old(userTable.buckets)
      ensures forall u :: u in userTable.items ==> u in old(userTable.items)
    {
      hide TableOk, RoomsOk, RoomArray.Valid, Leave;
      RoomsAreValid(members);
      var user := FindUser(client, users);
      var room := rooms.GetRoom(user.room);
      ghost var left := users[client := P.Client(user.name, INVALID_ROOM)];
      if room != null {
        status := UnlinkMember(room, user, user.room, members, users);
      } else {
        assert users == left;
      }
      status := UnlinkUser(client, left);
      assert left - {client} == users - {client};
    }

    /** close(2), when the other structures no longer know the client. */
    method CloseClient(client: int, ghost left: P.State)
      requires P.Inv(left) && left.fds[0] == listener && left.users == st.users - {client}
      requires PollsOk(left.fds) && TableOk(objs - {client}, left.users) && RoomsOk(left.rooms)
      requires net.conns.Keys == st.users.Keys && StreamsOk(links, net.conns)
      modifies net`conns, this`st, this`objs, this`links
      ensures Valid() && st == left && net.conns == old(net.conns) - {client} && links == old(links) - {client}
    {
      hide P.Inv, StreamsOk, TableOk, RoomsOk, PollsOk;
      net.Close(client);
      StreamClosed(links, old(net.conns), client);
      objs := objs - {client};
      links := links - {client};
      st := left;
    }

    /** handle_client_termination for the client at index i of the poll array. */
    method HandleClientTermination(client: int, i: nat, allocOk: bool, ghost why: P.Cause) returns (status: int)
      requires Valid() && client in st.users && i < |st.fds| && st.fds[i] == client
      modifies pollfds, pollfds.fds, userTable, userTable.buckets, userTable.items, rooms.rooms, set r | r in rooms.rooms :: r.users
      modifies net, this`st, this`objs, this`links
      ensures Valid() && net.errors == old(net.errors) && Since(old(net.conns), old(net.errors), net.conns, net.errors) && status == 0
      ensures P.Legal(old(st), P.Disconnect(client, why)) && st == P.Step(old(st), P.Disconnect(client, why)).0
      ensures net.conns == old(net.conns) - {client} && links == old(links) - {client}
      ensures pollfds.Valid() && i < |old(pollfds.Contents())| && pollfds.Contents() == SwapRemove(old(pollfds.Contents()), i)
      ensures pollfds.fds == old(pollfds.fds) || fresh(pollfds.fds)
      ensures userTable.buckets == old(userTable.buckets)
      ensures forall u :: u in userTable.items ==> u in old(userTable.items)
    {
      hide Valid, P.Inv, StreamsOk, TableOk, RoomsOk, PollsOk, P.Step, P.Legal, P.LeaveRoom, Leave, PollfdArray.Contents, IsCapacity, Since;
      Parts();
      DisconnectStep(st, client, why, i);
      SinceClosed(net.conns, net.errors, client);
      PollCount();
      ghost var left := P.Step(st, P.Disconnect(client, why)).0;
      status := UnlinkPoll(i, allocOk, st.fds);
      assert PollsOk(left.fds);
      ghost var polled := pollfds.Contents();
      status := UnlinkClient(client, st.rooms, st.users);
      assert pollfds.Valid() && pollfds.Contents() == polled;
      assert PollsOk(left.fds) && TableOk(objs - {client}, left.users) && RoomsOk(left.rooms);
      CloseClient(client, left);
    }

    // ----- the poll loop -----

    lemma EntryIsPolled(i: nat)
      requires Valid() && i < pollfds.len
      ensures i < pollfds.fds.Length && pollfds.fds[i].fd == st.fds[i] && (i == 0 ==> st.fds[i] == listener)
      ensures i > 0 ==> st.fds[i] in st.users && st.fds[i] != listener
      ensures |st.fds| == pollfds.len && pollfds.Valid() && pollfds.Contents()[i] == pollfds.fds[i]
    {
      hide HashTable.Valid;
      if i > 0 {
        var fd := st.fds[i];
        assert fd in st.fds && st.fds[0] != st.fds[i];
      }
    }

    lemma WorldIsOk()
      requires Valid()
      ensures WorldInv(World(st, links))
    {
      hide P.Inv, HashTable.Valid, LinkOk;
    }

    /** The body of the poll loop for index i; removed tells that another entry, or none, stands at i now. */
    method ServeEntry(i: nat, accepted: int, clock: int -> int, memory: int -> bool)
      returns (ok: bool, removed: bool, ghost visit: Visit)
      requires Valid() && i < pollfds.len
      requires i == 0 ==> !HungUp(pollfds.fds[0]) && (accepted == -1 || P.Legal(st, P.Connect(accepted)))
      modifies pollfds, pollfds.fds, userTable, userTable.buckets, userTable.items, rooms.rooms, set r | r in rooms.rooms :: r.users
      modifies net, this`st, this`objs, this`links
      ensures ok ==> Valid() && visit.entry == old(pollfds.fds[i]) && Proper(listener, accepted, clock, visit)
      ensures WorldInv(World(old(st), old(links)))
      ensures ok ==>
                && (visit.Served? ==> Possible(World(old(st), old(links)), Serves(visit.event)))
                && World(st, links) == NextVisit(World(old(st), old(links)), visit)
      ensures ok ==> net.errors.recvs == old(net.errors.recvs) && net.errors.resets == old(net.errors.resets) + CutIn(visit)
      ensures !ok ==>
                || (i > 0 && Halting(World(old(st), old(links)), old(pollfds.fds[i].fd), old(net.errors), net.errors))
                || (i == 0 && HasInput(old(pollfds.fds[i])) && (accepted == -1 || !memory(listener)))
      ensures Since(old(net.conns), old(net.errors), net.conns, net.errors)
      ensures ok ==> pollfds.Valid() && (if removed then i > 0 && i < |old(pollfds.Contents())| && pollfds.Contents() == SwapRemove(old(pollfds.Contents()), i)
                     else pollfds.Contents() == old(pollfds.Contents()) + Added(visit))
      ensures ok && visit.Served? && visit.event.Connect? ==> i == 0
      ensures ok ==> removed == Removes(visit)
      ensures pollfds.fds == old(pollfds.fds) || fresh(pollfds.fds)
      ensures userTable.buckets == old(userTable.buckets) || fresh(userTable.buckets)
      ensures forall u :: u in userTable.items ==> u in old(userTable.items) || fresh(u)
    {
      hide Valid, P.Inv, P.Step, P.Legal, PollfdArray.Contents, PollfdArray.Valid, BitAnd, Possible, WorldInv, Next, Since, Told, Halting;
      EntryIsPolled(i);
      WorldIsOk();
      SinceNow(net.conns, net.errors);
      ghost var w := World(st, links);
      var pfd := pollfds.fds[i];
      visit := Idle(pfd);
      removed := false;
      if BitAnd(pfd.revents, POLLHUP) != 0 {
        HasStream(pfd.fd);
        DisconnectNext(w, pfd.fd, P.HangUp);
        var status := HandleClientTermination(pfd.fd, i, memory(pfd.fd), P.HangUp);
        return true, true, Served(pfd, P.Disconnect(pfd.fd, P.HangUp));
      }
      if BitAnd(pfd.revents, POLLIN) != 0 {
        if pfd.fd == listener {
          var status := HandleNewClient(accepted, memory(pfd.fd));
          if status == 0 { ConnectNext(w, accepted); }
          return status == 0, false, Served(pfd, P.Connect(accepted));
        } else {
          ok, removed, visit := ServeClient(i, pfd, clock(pfd.fd), memory(pfd.fd));
          return;
        }
      }
      ok := true;
    }

    /** The branch of the poll loop for input on a client. */
    method ServeClient(i: nat, pfd: PollFd, now: int, allocOk: bool) returns (ok: bool, removed: bool, ghost visit: Visit)
      requires Valid() && 0 < i < |st.fds| && st.fds[i] == pfd.fd && pfd.fd in st.users
      modifies pollfds, pollfds.fds, userTable, userTable.buckets, userTable.items, rooms.rooms, set r | r in rooms.rooms :: r.users
      modifies net, this`st, this`objs, this`links
      ensures ok ==> Valid() && visit.Served? && visit.entry == pfd && visit.event.fd == pfd.fd
      ensures WorldInv(World(old(st), old(links)))
      ensures ok ==>
                && Possible(World(old(st), old(links)), Serves(visit.event))
                && World(st, links) == Next(World(old(st), old(links)), Serves(visit.event))
      ensures ok ==>
                if removed then visit.event.Disconnect? && visit.event.why != P.HangUp
                else visit.event.Receive? && visit.event.now == now
      ensures ok ==> net.errors.recvs == old(net.errors.recvs) && net.errors.resets == old(net.errors.resets) + CutIn(visit)
      ensures !ok ==> Halting(World(old(st), old(links)), pfd.fd, old(net.errors), net.errors)
      ensures Since(old(net.conns), old(net.errors), net.conns, net.errors)
      ensures pollfds.Valid() && old(pollfds.Valid()) && i < |old(pollfds.Contents())|
      ensures pollfds.Contents() == if ok && removed then SwapRemove(old(pollfds.Contents()), i) else old(pollfds.Contents())
      ensures pollfds.fds == old(pollfds.fds) || fresh(pollfds.fds)
      ensures userTable.buckets == old(userTable.buckets) || fresh(userTable.buckets)
      ensures forall u :: u in userTable.items ==> u in old(userTable.items) || fresh(u)
    {
      hide Valid, P.Inv, P.Step, P.Legal, PollfdArray.Contents, PollfdArray.Valid, Possible, WorldInv, Next, Since, Told, Halting;
      WorldIsOk();
      PollCount();
      HasStream(pfd.fd);
      ghost var w := World(st, links);
      var status; ghost var why;
      status, why := HandleClientMessage(pfd.fd, now);
      ok, removed, visit := status != -1, status == 0, Served(pfd, P.Disconnect(pfd.fd, why));
      if status == 0 {
        DisconnectNext(w, pfd.fd, why);
        ghost var conns, errors := net.conns, net.errors;
        CutThenClosed(old(links), pfd.fd);
        var closed := HandleClientTermination(pfd.fd, i, allocOk, why);
        SinceThen(old(net.conns), old(net.errors), conns, errors, net.conns, net.errors);
      } else if status == 1 {
        ghost var m := Unread(old(links)[pfd.fd])[0];
        ReceiveNext(w, pfd.fd, m, now);
        visit := Served(pfd, P.Receive(pfd.fd, m, now));
      }
    }

    /** A message that a client has sent is there to be read. */
    method Arrive(a: Arrival)
      requires Valid() && P.FromClient(a.msg)
      modifies net`conns, this`links
      ensures Valid() && WorldInv(World(old(st), old(links)))
      ensures Possible(World(old(st), old(links)), Arrives(a)) && World(st, links) == Next(World(old(st), old(links)), Arrives(a))
      ensures Since(old(net.conns), old(net.errors), net.conns, net.errors)
    {
      hide Valid, P.Inv, TableOk, RoomsOk, PollsOk, StreamsOk, Encode, WellFormed, WorldInv, Arrived, Since, P.Step, P.Legal;
      WorldIsOk();
      Parts();
      StreamArrives(links, net.conns, a);
      SinceArrived(net.conns, net.errors, a.fd, Encode(a.msg));
      net.Arrive(a.fd, Encode(a.msg));
      links := Arrived(links, a);
      Assembled();
    }

    method ArriveAll(arrivals: seq<Arrival>)
      requires Valid() && forall a :: a in arrivals ==> P.FromClient(a.msg)
      modifies net`conns, this`links
      ensures Valid() && WorldInv(World(old(st), old(links))) && PossibleRun(World(old(st), old(links)), Sendings(arrivals))
      ensures World(st, links) == WorldRun(World(old(st), old(links)), Sendings(arrivals))
      ensures Since(old(net.conns), old(net.errors), net.conns, net.errors)
    {
      hide Valid, WorldInv, Possible, Next, PossibleRun, WorldRun, Since;
      WorldIsOk();
      SinceNow(net.conns, net.errors);
      ghost var w := World(st, links);
      NothingHappened(w);
      assert Sendings(arrivals[..0]) == [];
      var i := 0;
      while i < |arrivals|
        invariant i <= |arrivals| && Valid() && st == old(st) && PossibleRun(w, Sendings(arrivals[..i]))
        invariant World(st, links) == WorldRun(w, Sendings(arrivals[..i]))
        invariant Since(old(net.conns), old(net.errors), net.conns, net.errors)
      {
        ghost var conns := net.conns;
        Arrive(arrivals[i]);
        SinceThen(old(net.conns), old(net.errors), conns, old(net.errors), net.conns, net.errors);
        OneMore(w, Sendings(arrivals[..i]), Arrives(arrivals[i]));
        assert Sendings(arrivals[..i + 1]) == Sendings(arrivals[..i]) + [Arrives(arrivals[i])];
        i := i + 1;
      }
      assert arrivals[..|arrivals|] == arrivals;
    }

    /** poll(2), seen from the server: only the returned events change. */
    method PollEntries(revents: seq<nat>) returns (ghost snapshot: seq<PollFd>)
      requires Valid() && |revents| == pollfds.len && BitAnd(revents[0], POLLHUP) == 0
      modifies pollfds.fds
      ensures Valid() && pollfds.Valid() && snapshot == Polled(old(pollfds.Contents()), revents) == pollfds.Contents()
      ensures snapshot != [] && !HungUp(snapshot[0]) && snapshot[0].revents == revents[0]
      ensures P.Inv(st) && DistinctFds(snapshot)
    {
      hide StreamsOk, TableOk, RoomsOk, BitAnd, P.RoomsAgree;
      snapshot := Polled(pollfds.Contents(), revents);
      pollfds.Poll(revents);
    }

    /**
     * Where a pass over the snapshot stands that began in the world start with the given sockets and errors: the
     * visits so far were proper, what they served has led here, and what is left to visit lies at index i and behind.
     */
    ghost predicate PassOk(snapshot: seq<PollFd>, start: World, conns: map<int, Conn>, errors: Errors,
                           accepted: int, clock: int -> int, log: seq<Visit>, i: nat)
      requires WorldInv(start) && pollfds.Valid()
      reads this, pollfds, pollfds.fds, net
    {
      && (i == 0 ==> log == [] && World(st, links) == start && pollfds.Contents() == snapshot)
      && AllProper(listener, accepted, clock, log)
      && PassAt(snapshot, log, pollfds.Contents(), i)
      && PossibleRun(start, Happenings(log)) && World(st, links) == WorldRun(start, Happenings(log))
      && Since(conns, errors, net.conns, net.errors)
      && net.errors.recvs == errors.recvs && net.errors.resets == errors.resets + Cuts(log)
    }

    lemma PassBegins(snapshot: seq<PollFd>, accepted: int, clock: int -> int)
      requires WorldInv(World(st, links)) && pollfds.Valid() && pollfds.Contents() == snapshot
      ensures PassOk(snapshot, World(st, links), net.conns, net.errors, accepted, clock, [], 0)
    {
      hide WorldInv, PassAt, PossibleRun, WorldRun, Since;
      PassStarts(snapshot);
      NothingHappened(World(st, links));
      SinceNow(net.conns, net.errors);
    }

    /** A pass that has made one more visit, from the world was with the given sockets and errors. */
    lemma PassGoesOn(snapshot: seq<PollFd>, start: World, conns: map<int, Conn>, errors: Errors, accepted: int, clock: int -> int,
                     log: seq<Visit>, i: nat, before: seq<PollFd>, was: World, conns': map<int, Conn>, errors': Errors,
                     visit: Visit, removed: bool)
      requires WorldInv(start) && PossibleRun(start, Happenings(log)) && was == WorldRun(start, Happenings(log))
      requires AllProper(listener, accepted, clock, log) && PassAt(snapshot, log, before, i)
      requires Since(conns, errors, conns', errors') && errors'.recvs == errors.recvs && errors'.resets == errors.resets + Cuts(log)
      requires i < |before| && visit.entry == before[i] && Proper(listener, accepted, clock, visit)
      requires (visit.Served? ==> Possible(was, Serves(visit.event))) && World(st, links) == NextVisit(was, visit)
      requires Since(conns', errors', net.conns, net.errors)
      requires net.errors.recvs == errors'.recvs && net.errors.resets == errors'.resets + CutIn(visit)
      requires pollfds.Valid() && removed == Removes(visit) && (removed ==> i > 0)
      requires pollfds.Contents() == if removed then SwapRemove(before, i)
               else before + Added(visit)
      ensures PassOk(snapshot, start, conns, errors, accepted, clock, log + [visit], if removed then i else i + 1)
    {
      hide WorldInv, PossibleRun, WorldRun, PassAt, Since, Possible, NextVisit, Proper, PollfdArray.Valid, PollfdArray.Contents, SwapRemove;
      SinceThen(conns, errors, conns', errors', net.conns, net.errors);
      PassAdvances(snapshot, log, before, i, visit, pollfds.Contents(), removed);
      LogGrows(start, log, visit);
      LogSnoc(log, visit);
    }

    /** One turn of the poll loop: one more visit, of the entry at index i; i' is where the next turn looks. */
    method PollTurn(i: nat, accepted: int, clock: int -> int, memory: int -> bool, ghost snapshot: seq<PollFd>,
                    ghost start: World, ghost conns: map<int, Conn>, ghost errors: Errors, ghost log: seq<Visit>)
      returns (ok: bool, i': nat, ghost log': seq<Visit>)
      requires Valid() && pollfds.Valid() && i < pollfds.len && WorldInv(start)
      requires PassOk(snapshot, start, conns, errors, accepted, clock, log, i)
      requires i == 0 ==> snapshot != [] && !HungUp(snapshot[0]) && (accepted == -1 || P.Legal(start.server, P.Connect(accepted)))
      modifies pollfds, pollfds.fds, userTable, userTable.buckets, userTable.items, rooms.rooms, set r | r in rooms.rooms :: r.users
      modifies net, this`st, this`objs, this`links
      ensures ok ==> Valid() && pollfds.Valid() && PassOk(snapshot, start, conns, errors, accepted, clock, log', i')
      ensures ok ==> |log'| == |log| + 1 && log'[..|log|] == log && i < |old(pollfds.Contents())| && log'[|log|].entry == old(pollfds.Contents())[i]
      ensures ok ==> 0 < i' <= pollfds.len && (i > 0 ==> pollfds.len - i' < old(pollfds.len) - i)
      ensures !ok ==> Failed(errors, net.errors) || (snapshot != [] && HasInput(snapshot[0]) && (accepted == -1 || !memory(listener)))
      ensures pollfds.fds == old(pollfds.fds) || fresh(pollfds.fds)
      ensures userTable.buckets == old(userTable.buckets) || fresh(userTable.buckets)
      ensures forall u :: u in userTable.items ==> u in old(userTable.items) || fresh(u)
    {
      hide Valid, WorldInv, PossibleRun, WorldRun, PassAt, Since, Possible, Next, NextVisit, Proper, Halting, Failed, SwapRemove, P.Inv, P.Legal, BitAnd;
      hide PollfdArray.Valid, PollfdArray.Contents;
      EntryIsPolled(i);
      PollCount();
      ghost var before, was, conns', errors' := pollfds.Contents(), World(st, links), net.conns, net.errors;
      var removed;
      ghost var visit;
      ok, removed, visit := ServeEntry(i, accepted, clock, memory);
      i', log' := i, log + [visit];
      if !ok {
        if i > 0 { HaltingFails(was, before[i].fd, errors', net.errors); }
        FailedThen(conns, errors, conns', errors', net.errors);
        return;
      }
      if removed {
        i' := i' - 1;
      }
      i' := i' + 1;
      PollCount();
      PassGoesOn(snapshot, start, conns, errors, accepted, clock, log, i, before, was, conns', errors', visit, removed);
      hide PassOk;
    }

    /**
     * One pass of the poll loop over the events that poll returned. Every entry of the snapshot is visited exactly
     * once, with the events it had in the snapshot, wherever deletions have moved it; entries appended during the
     * pass are visited with no events. A pass that does not finish has met a failed send or receive, or a client
     * waits that cannot be accepted.
     */
    method PollPass(revents: seq<nat>, accepted: int, clock: int -> int, memory: int -> bool) returns (ok: bool, ghost log: seq<Visit>)
      requires Valid() && |revents| == pollfds.len && BitAnd(revents[0], POLLHUP) == 0
      requires accepted == -1 || P.Legal(st, P.Connect(accepted))
      modifies pollfds, pollfds.fds, userTable, userTable.buckets, userTable.items, rooms.rooms, set r | r in rooms.rooms :: r.users
      modifies net, this`st, this`objs, this`links
      ensures ok ==> Valid() && Complete(listener, accepted, clock, Polled(old(pollfds.Contents()), revents), log)
      ensures WorldInv(World(old(st), old(links)))
      ensures ok ==>
                && PossibleRun(World(old(st), old(links)), Happenings(log))
                && World(st, links) == WorldRun(World(old(st), old(links)), Happenings(log))
      ensures ok ==> Since(old(net.conns), old(net.errors), net.conns, net.errors)
      ensures ok ==> net.errors.recvs == old(net.errors.recvs) && net.errors.resets == old(net.errors.resets) + Cuts(log)
      ensures !ok ==> Failed(old(net.errors), net.errors) || (BitAnd(revents[0], POLLIN) != 0 && (accepted == -1 || !memory(listener)))
      ensures pollfds.fds == old(pollfds.fds) || fresh(pollfds.fds)
      ensures userTable.buckets == old(userTable.buckets) || fresh(userTable.buckets)
      ensures forall u :: u in userTable.items ==> u in old(userTable.items) || fresh(u)
    {
      hide Valid, P.Inv, P.Step, P.Legal, BitAnd, PassAt, PossibleRun, WorldRun, WorldInv, PollfdArray.Valid, PollfdArray.Contents, Complete, Since, DistinctFds;
      WorldIsOk();
      ghost var start, conns, errors := World(st, links), net.conns, net.errors;
      ghost var snapshot;
      snapshot := PollEntries(revents);
      var i: nat := 0;
      log := [];
      PassBegins(snapshot, accepted, clock);
      PollCount();
      hide PassOk, HungUp;
      while i < pollfds.len
        invariant Valid() && pollfds.Valid() && i <= pollfds.len
        invariant PassOk(snapshot, start, conns, errors, accepted, clock, log, i)
        invariant pollfds.fds == old(pollfds.fds) || fresh(pollfds.fds)
        invariant userTable.buckets == old(userTable.buckets) || fresh(userTable.buckets)
        invariant forall u :: u in userTable.items ==> u in old(userTable.items) || fresh(u)
        decreases i == 0, pollfds.len - i
      {
        forall j | 0 <= j < |userTable.items| ensures userTable.items[j] in old(userTable.items) || fresh(userTable.items[j]) {
          assert userTable.items[j] in userTable.items;
        }
        ok, i, log := PollTurn(i, accepted, clock, memory, snapshot, start, conns, errors, log);
        if !ok {
          return;
        }
      }
      PassIsOver(snapshot, start, conns, errors, accepted, clock, log, i);
      ok := true;
    }

    lemma PassIsOver(snapshot: seq<PollFd>, start: World, conns: map<int, Conn>, errors: Errors,
                     accepted: int, clock: int -> int, log: seq<Visit>, i: nat)
      requires Valid() && WorldInv(start) && pollfds.Valid() && i == pollfds.len && DistinctFds(snapshot)
      requires PassOk(snapshot, start, conns, errors, accepted, clock, log, i)
      ensures Complete(listener, accepted, clock, snapshot, log)
      ensures PossibleRun(start, Happenings(log)) && World(st, links) == WorldRun(start, Happenings(log))
      ensures Since(conns, errors, net.conns, net.errors)
      ensures net.errors.recvs == errors.recvs && net.errors.resets == errors.resets + Cuts(log)
    {
      hide Valid, WorldInv, PossibleRun, WorldRun, PassAt, DistinctFds, ServedOnce, VisitedOnce, AllProper, Since;
      PollCount();
      PassEnds(snapshot, log, pollfds.Contents(), i);
      PassServesOnce(snapshot, log, listener, accepted, clock);
    }

    lemma UserIsClient(user: User)
      requires Valid() && user in userTable.items
      ensures user.id in st.users && st.users[user.id] == P.Client(user.name, user.room) && user.id in net.conns
    {
      hide HashTable.Valid, P.Inv;
    }

    /** What can be told of a descriptor from the sockets: whether it can be that of a new client. */
    lemma NewDescriptor(fd: int)
      requires Valid()
      ensures P.Legal(st, P.Connect(fd)) <==> fd !in net.conns && fd != listener && 0 <= fd < P.FD_LIMIT
    {
      hide HashTable.Valid, TableOk, RoomsOk, PollsOk, StreamsOk;
    }

    /** The returned events in the order of the poll array; the listener, at index 0, has not hung up. */
    lemma EventsReturned(input: Input)
      requires Valid() && InputOk(listener, input)
      ensures pollfds.Valid() && pollfds.Contents() == pollfds.fds[..pollfds.len] && EntriesOf(st, pollfds.Contents())
      ensures 0 < pollfds.len <= pollfds.fds.Length && pollfds.fds[0].fd == listener
      ensures BitAnd(ReadyOf(input.ready, listener), POLLHUP) == 0
    {
      hide HashTable.Valid, TableOk, RoomsOk, StreamsOk, P.RoomsAgree;
    }

    /** One poll(2) and the pass over what it returned, after what the clients have sent meanwhile. */
    method Round(input: Input) returns (ok: bool, ghost pass: Pass)
      requires Valid() && InputOk(listener, input)
      modifies pollfds, pollfds.fds, userTable, userTable.buckets, userTable.items, rooms.rooms, set r | r in rooms.rooms :: r.users
      modifies net, this`st, this`objs, this`links
      ensures WorldInv(World(old(st), old(links))) && pass.input == input
      ensures ok ==>
                && Valid() && PassFits(listener, World(old(st), old(links)), pass)
                && World(st, links) == PassEnd(listener, World(old(st), old(links)), pass)
      ensures ok ==> Since(old(net.conns), old(net.errors), net.conns, net.errors)
      ensures ok ==> net.errors.recvs == old(net.errors.recvs) && net.errors.resets == old(net.errors.resets) + Cuts(pass.log)
      ensures !ok ==> Failed(old(net.errors), net.errors) || CannotAccept(listener, old(st), input)
      ensures pollfds.fds == old(pollfds.fds) || fresh(pollfds.fds)
      ensures userTable.buckets == old(userTable.buckets) || fresh(userTable.buckets)
      ensures forall u :: u in userTable.items ==> u in old(userTable.items) || fresh(u)
    {
      hide Valid, P.Inv, P.Legal, WorldInv, PossibleRun, WorldRun, BitAnd, Complete, EntriesOf, Since, Failed, PollfdArray.Valid, PollfdArray.Contents;
      ArriveAll(input.arrivals);
      ListenerIsFirst();
      ghost var conns := net.conns;
      EventsReturned(input);
      var revents := Returned(pollfds.fds[..pollfds.len], input.ready);
      NewDescriptor(input.accepted);
      var accepted := if input.accepted in net.conns || input.accepted == listener || !(0 <= input.accepted < P.FD_LIMIT) then -1 else input.accepted;
      ghost var entries, log := pollfds.Contents(), [];
      ok, log := PollPass(revents, accepted, input.clock, input.memory);
      pass := Pass(input, entries, log);
      if ok { SinceThen(old(net.conns), old(net.errors), conns, old(net.errors), net.conns, net.errors); }
    }

    /**
     * The poll loop over the rounds of a script. There is one finished pass for every round, each fitting its own
     * input and starting where the one before has ended; together they have led from the first world to the last.
     * A server that halts earlier has met a failed send or receive, or a client that cannot be accepted, in the first
     * round that is missing.
     */
    method Serve(script: seq<Input>) returns (ok: bool, ghost passes: seq<Pass>)
      requires Valid() && forall input :: input in script ==> InputOk(listener, input)
      modifies pollfds, pollfds.fds, userTable, userTable.buckets, userTable.items, rooms.rooms, set r | r in rooms.rooms :: r.users
      modifies net, this`st, this`objs, this`links
      ensures WorldInv(World(old(st), old(links))) && TraceOk(listener, World(old(st), old(links)), passes)
      ensures |passes| <= |script| && forall i :: 0 <= i < |passes| ==> passes[i].input == script[i]
      ensures ok ==>
                && |passes| == |script| && Valid() && links.Keys == net.conns.Keys
                && (forall fd :: fd in net.conns ==>
                      && links[fd].handled <= |links[fd].said|
                      && AllWellFormed(links[fd].said[links[fd].handled..]) && AllWellFormed(links[fd].told)
                      && net.conns[fd].incoming == EncodeAll(links[fd].said[links[fd].handled..])
                      && (net.conns[fd].broken || net.conns[fd].outgoing == EncodeAll(links[fd].told)))
                && World(st, links) == TraceEnd(listener, World(old(st), old(links)), passes)
                && PossibleRun(World(old(st), old(links)), History(passes))
                && World(st, links) == WorldRun(World(old(st), old(links)), History(passes))
      ensures ok ==> Since(old(net.conns), old(net.errors), net.conns, net.errors)
      ensures ok ==> net.errors.recvs == old(net.errors.recvs) && net.errors.resets == old(net.errors.resets) + AllCuts(passes)
      ensures !ok ==> |passes| < |script|
      ensures !ok ==>
                || Failed(old(net.errors), net.errors)
                || CannotAccept(listener, TraceEnd(listener, World(old(st), old(links)), passes).server, script[|passes|])
      ensures !ok ==>
                || old(net.errors).sends < net.errors.sends || old(net.errors).recvs < net.errors.recvs
                || var input, fds := script[|passes|], TraceEnd(listener, World(old(st), old(links)), passes).server.fds;
                   && listener in input.ready && input.ready[listener] % 2 == 1
                   && (input.accepted < 0 || input.accepted >= 0x8000_0000 || input.accepted in fds || !input.memory(listener))
    {
      hide Valid, WorldInv, PossibleRun, WorldRun, TraceOk, TraceEnd, PassFits, PassEnd, Since, Failed, InputOk, CannotAccept;
      WorldIsOk();
      ghost var w := World(st, links);
      NoPassYet(listener, w);
      SinceNow(net.conns, net.errors);
      passes := [];
      var n := 0;
      while n < |script|
        invariant n == |passes| <= |script| && Valid() && TraceOk(listener, w, passes) && World(st, links) == TraceEnd(listener, w, passes)
        invariant forall i :: 0 <= i < n ==> passes[i].input == script[i]
        invariant Since(old(net.conns), old(net.errors), net.conns, net.errors)
        invariant net.errors.recvs == old(net.errors.recvs) && net.errors.resets == old(net.errors.resets) + AllCuts(passes)
        invariant pollfds.fds == old(pollfds.fds) || fresh(pollfds.fds)
        invariant userTable.buckets == old(userTable.buckets) || fresh(userTable.buckets)
        invariant forall u :: u in userTable.items ==> u in old(userTable.items) || fresh(u)
      {
        forall j | 0 <= j < |userTable.items| ensures userTable.items[j] in old(userTable.items) || fresh(userTable.items[j]) {
          assert userTable.items[j] in userTable.items;
        }
        ghost var conns, errors := net.conns, net.errors;
        ghost var pass;
        ok, pass := Round(script[n]);
        if !ok {
          FailedThen(old(net.conns), old(net.errors), conns, errors, net.errors);
          HaltSpelled(old(net.errors), net.errors, TraceEnd(listener, w, passes).server, script[n]);
          return;
        }
        SinceThen(old(net.conns), old(net.errors), conns, errors, net.conns, net.errors);
        TraceSnoc(listener, w, passes, pass);
        passes := passes + [pass];
        n := n + 1;
      }
      TraceIsRun(listener, w, passes);
      Parts();
      assert links.Keys == net.conns.Keys;
      forall fd | fd in net.conns
        ensures links[fd].handled <= |links[fd].said|
        ensures AllWellFormed(links[fd].said[links[fd].handled..]) && AllWellFormed(links[fd].told)
        ensures net.conns[fd].incoming == EncodeAll(links[fd].said[links[fd].handled..])
        ensures net.conns[fd].broken || net.conns[fd].outgoing == EncodeAll(links[fd].told)
      {
        StreamsSpelled(links, net.conns, fd);
      }
      ok := true;
    }

    /** Why the server halts, written out. */
    lemma HaltSpelled(errors: Errors, errors': Errors, s: P.State, input: Input)
      requires Failed(errors, errors') || CannotAccept(listener, s, input)
      ensures || errors.sends < errors'.sends || errors.recvs < errors'.recvs
              || (&& listener in input.ready && input.ready[listener] % 2 == 1
                  && (input.accepted < 0 || input.accepted >= 0x8000_0000 || input.accepted in s.fds || !input.memory(listener)))
    {
      hide CannotAccept;
      Rounds.CannotAcceptWhen(listener, s, input, if listener in input.ready then input.ready[listener] else 0);
    }

    /** The next message of the client was handled. */
    ghost predicate NextAnswered(s: P.State, before: map<int, Link>, client: int, now: int)
      requires P.Inv(s) && client in before && LinkOk(before[client])
      reads this
    {
      && Unread(before[client]) != []
      && Answered(s, HandledOne(before, client), P.Receive(client, Unread(before[client])[0], now))
    }

    /** The state is that after the event, and the deliveries of the event were told. */
    ghost predicate Answered(s: P.State, before: map<int, Link>, e: P.Event)
      requires P.Inv(s)
      reads this
    {
      P.Legal(s, e) && st == P.Step(s, e).0 && links == Told(before, P.Step(s, e).1)
    }
  }

  lemma JoinRepliesFit(r: byte)
    ensures P.NoSuchRoom(r).Reply? && WellFormed(P.NoSuchRoom(r)) && P.AlreadyIn(r).Reply? && WellFormed(P.AlreadyIn(r))
    ensures P.RoomFull(r).Reply? && WellFormed(P.RoomFull(r)) && P.Joined(r).Reply? && WellFormed(P.Joined(r))
  {
  }

  lemma JoinStep(s: P.State, fd: int, msg: Message, now: int)
    requires P.Inv(s) && fd in s.users && msg.Join?
    ensures P.Legal(s, P.Receive(fd, msg, now)) && P.Inv(P.Step(s, P.Receive(fd, msg, now)).0)
    ensures P.Step(s, P.Receive(fd, msg, now)) == P.Join(s, fd, msg.room)
  {
    hide P.Inv, P.Join, P.Rename, P.Say;
    P.StepKeepsInv(s, P.Receive(fd, msg, now));
  }

  lemma RoomHasSpace(s: P.State, fd: int, r: byte)
    requires P.Inv(s) && fd in s.users && s.users[fd].room == INVALID_ROOM && 1 <= r <= |s.rooms|
    ensures |s.rooms[r - 1]| < MAX_USERS_PER_ROOM ==> P.Inv(P.EnterRoom(s, fd, r)) && P.EnterRoom(s, fd, r).fds == s.fds
    ensures |s.rooms[r - 1]| <= MAX_USERS_PER_ROOM
  {
    if |s.rooms[r - 1]| < MAX_USERS_PER_ROOM { P.EnterRoomKeepsInv(s, fd, r); }
  }

  lemma NobodyToldYet(links: map<int, Link>, members: seq<int>, msg: Message)
    ensures members[..0] == [] && Told(links, P.Broadcast(members[..0], msg)) == links
  {
    ToldNothing(links);
  }

  lemma ToldNext(links: map<int, Link>, members: seq<int>, i: nat, msg: Message)
    requires i < |members|
    ensures Told(Told(links, P.Broadcast(members[..i], msg)), [P.Delivery(members[i], msg)]) == Told(links, P.Broadcast(members[..i + 1], msg))
  {
    hide Told;
    assert members[..i + 1][..i] == members[..i];
    ToldConcat(links, P.Broadcast(members[..i], msg), [P.Delivery(members[i], msg)]);
  }

  /**
   * What halts the server when it serves a client: the receive fails, or the client's next message is a chat, the
   * client is in a room, and sending the chat to someone fails.
   */
  ghost predicate Halting(w: World, fd: int, errors: Errors, errors': Errors)
  {
    || errors' == RecvFailed(errors)
    || (&& fd in w.links && LinkOk(w.links[fd]) && Unread(w.links[fd]) != [] && Unread(w.links[fd])[0].Chat?
        && fd in w.server.users && w.server.users[fd].room != INVALID_ROOM
        && exists id :: errors' == SendFailed(errors, id))
  }

  lemma HaltingFails(w: World, fd: int, errors: Errors, errors': Errors)
    requires Halting(w, fd, errors, errors')
    ensures Failed(errors, errors')
  {
    if errors' != RecvFailed(errors) {
      var id :| errors' == SendFailed(errors, id);
      assert errors'.sends[id] > errors.sends[id];
    }
  }

  lemma FailedThen(conns: map<int, Conn>, errors: Errors, conns': map<int, Conn>, errors': Errors, errors'': Errors)
    requires Since(conns, errors, conns', errors')
    ensures Failed(errors', errors'') ==> Failed(errors, errors'')
  {
  }

  lemma NoPassYet(listener: int, w: World)
    requires WorldInv(w)
    ensures TraceOk(listener, w, []) && TraceEnd(listener, w, []) == w && AllCuts([]) == 0
  {
  }

  lemma ConnectNext(w: World, fd: int)
    requires WorldInv(w) && P.Legal(w.server, P.Connect(fd))
    ensures Possible(w, Serves(P.Connect(fd)))
    ensures Next(w, Serves(P.Connect(fd))) == World(P.Step(w.server, P.Connect(fd)).0, w.links[fd := NEW_LINK])
  {
    hide P.Inv, P.Step, P.Legal;
  }

  lemma DisconnectNext(w: World, fd: int, why: P.Cause)
    requires P.Inv(w.server) && fd in w.server.users && P.Legal(w.server, P.Disconnect(fd, why))
    requires WorldInv(w) && fd in w.links && LinkOk(w.links[fd])
    requires why == P.EndOfStream ==> Unread(w.links[fd]) == []
    ensures Possible(w, Serves(P.Disconnect(fd, why)))
    ensures Next(w, Serves(P.Disconnect(fd, why))) == World(P.Step(w.server, P.Disconnect(fd, why)).0, w.links - {fd})
  {
    hide P.Inv, P.Step;
  }

  lemma ReceiveNext(w: World, fd: int, msg: Message, now: int)
    requires P.Inv(w.server) && P.Legal(w.server, P.Receive(fd, msg, now))
    requires WorldInv(w) && fd in w.links && LinkOk(w.links[fd]) && Unread(w.links[fd]) != [] && Unread(w.links[fd])[0] == msg
    ensures Possible(w, Serves(P.Receive(fd, msg, now)))
    ensures var (s, ds) := P.Step(w.server, P.Receive(fd, msg, now));
            Next(w, Serves(P.Receive(fd, msg, now))) == World(s, Told(HandledOne(w.links, fd), ds))
  {
    hide P.Inv, P.Step, P.Legal, Told;
  }

  lemma CutThenClosed(links: map<int, Link>, fd: int)
    requires fd in links && LinkOk(links[fd])
    ensures CutOff(links, fd) - {fd} == links - {fd}
  {
  }

  lemma SinceNow(conns: map<int, Conn>, errors: Errors)
    ensures Since(conns, errors, conns, errors)
  {
  }

  lemma SinceArrived(conns: map<int, Conn>, errors: Errors, fd: int, bytes: seq<byte>)
    ensures Since(conns, errors, if fd in conns then conns[fd := conns[fd].(incoming := conns[fd].incoming + bytes)] else conns, errors)
  {
  }

  lemma SinceOpened(conns: map<int, Conn>, errors: Errors, fd: int)
    ensures Since(conns, errors, conns[fd := FRESH], errors)
  {
  }

  lemma SinceClosed(conns: map<int, Conn>, errors: Errors, fd: int)
    ensures Since(conns, errors, conns - {fd}, errors)
  {
  }

  /** A frame of a client is of one of the three kinds that clients send. */
  lemma RoundTripKind(m: Message)
    requires P.FromClient(m)
    ensures |Encode(m)| >= 5 && KindOf(m) in {ChatType, NameType, JoinType}
  {
    EncodeHeader(m);
  }

  lemma ChatStep(s: P.State, fd: int, msg: Message, now: int)
    requires P.Inv(s) && fd in s.users && msg.Chat? && P.FromClient(msg)
    ensures P.Legal(s, P.Receive(fd, msg, now)) && P.Step(s, P.Receive(fd, msg, now)).0 == s
    ensures P.Step(s, P.Receive(fd, msg, now)).1 ==
              if s.users[fd].room == INVALID_ROOM then [P.Delivery(fd, P.NotInRoom())]
              else P.Broadcast(s.rooms[s.users[fd].room - 1], Chat(now, s.users[fd].name, msg.text))
    ensures s.users[fd].room != INVALID_ROOM ==>
              WellFormed(Chat(now, s.users[fd].name, msg.text)) && forall id :: id in s.rooms[s.users[fd].room - 1] ==> id in s.users
  {
    hide P.Broadcast, P.PollsAgree, P.LeaveRoom, P.Join, P.Rename, P.NotInRoom;
  }

  lemma ConnectStep(s: P.State, fd: int)
    requires P.Inv(s) && P.Legal(s, P.Connect(fd))
    ensures fd !in s.users && 2 * |s.fds| < WORD && s.fds != []
    ensures P.Step(s, P.Connect(fd)).0 == P.State(s.fds + [fd], s.users[fd := P.Client(P.ANONYMOUS, INVALID_ROOM)], s.rooms)
    ensures P.Inv(P.Step(s, P.Connect(fd)).0)
  {
    P.StepKeepsInv(s, P.Connect(fd));
    Pigeonhole(s.fds + [fd], P.FD_LIMIT);
  }

  lemma Reopened(conns: map<int, Conn>, fd: int)
    requires fd !in conns
    ensures conns[fd := FRESH] - {fd} == conns
  {
  }

  lemma DisconnectStep(s: P.State, fd: int, why: P.Cause, i: nat)
    requires P.Inv(s) && fd in s.users && i < |s.fds| && s.fds[i] == fd
    ensures P.Legal(s, P.Disconnect(fd, why)) && P.Inv(P.Step(s, P.Disconnect(fd, why)).0)
    ensures var r, left := s.users[fd].room, P.LeaveRoom(s, fd);
            && left.users == s.users[fd := P.Client(s.users[fd].name, INVALID_ROOM)]
            && (if r == INVALID_ROOM then left.rooms == s.rooms
                else 1 <= r <= |s.rooms| && fd in s.rooms[r - 1] && left.rooms == s.rooms[r - 1 := Leave(s.rooms[r - 1], fd)])
            && P.Step(s, P.Disconnect(fd, why)).0 == P.State(SwapRemove(s.fds, i), s.users - {fd}, left.rooms)
            && |s.fds| > 1 && SwapRemove(s.fds, i)[0] == s.fds[0]
  {
    ClientPlaces(s, fd, i);
    hide IndexOf, P.Inv, SwapRemove;
    P.DisconnectKeepsInv(s, fd, why);
    P.LeaveRoomKeepsInv(s, fd);
    Forgotten(s.users, fd, P.Client(s.users[fd].name, INVALID_ROOM));
    assert SwapRemove(s.fds, i)[0] == s.fds[0] by { FirstStays(s.fds, i); }
  }

  lemma Forgotten(users: map<int, P.Client>, fd: int, c: P.Client)
    ensures users[fd := c] - {fd} == users - {fd}
  {
  }

  lemma FirstStays(s: seq<int>, i: nat)
    requires 0 < i < |s|
    ensures SwapRemove(s, i)[0] == s[0]
  {
  }

  lemma ClientPlaces(s: P.State, fd: int, i: nat)
    requires P.Inv(s) && fd in s.users && i < |s.fds| && s.fds[i] == fd
    ensures i > 0 && IndexOf(s.fds, fd) == i
    ensures var r := s.users[fd].room; r == INVALID_ROOM || (1 <= r <= |s.rooms| && fd in s.rooms[r - 1])
  {
    hide IndexOf;
    IndexOfDistinct(s.fds, i);
  }

  lemma RenameStep(s: P.State, fd: int, msg: Message, now: int)
    requires P.Inv(s) && fd in s.users && msg.Name? && P.FromClient(msg)
    ensures P.Legal(s, P.Receive(fd, msg, now)) && P.Inv(P.Step(s, P.Receive(fd, msg, now)).0)
    ensures P.Step(s, P.Receive(fd, msg, now)) == (s.(users := s.users[fd := P.Client(msg.name, s.users[fd].room)]), [P.Delivery(fd, P.NameSet(msg.name))])
  {
    P.StepKeepsInv(s, P.Receive(fd, msg, now));
  }
}
