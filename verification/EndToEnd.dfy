/** From what the clients send to what arrives at them: connections, chats and their order over whole runs. */
module EndToEnd {
  import opened Bits
  import opened Users
  import opened Sequences
  import opened Messages
  import opened Protocol
  import opened Runs
  import opened Abstraction
  import opened Worlds

  /** A server that has just started. */
  ghost function Fresh(listener: int, n: byte): (w: World)
    requires 0 <= listener < FD_LIMIT
    ensures WorldInv(w)
  {
    World(Initial(listener, n), map[])
  }

  // ----- one connection -----

  ghost predicate ConnectsTo(fd: int, h: Happening)
  {
    h.Serves? && h.event == Connect(fd)
  }

  ghost predicate Disconnects(fd: int, h: Happening)
  {
    h.Serves? && h.event.Disconnect? && h.event.fd == fd
  }

  /** The descriptor is neither connected nor disconnected. */
  ghost predicate Stays(fd: int, hs: seq<Happening>)
  {
    forall h :: h in hs ==> !ConnectsTo(fd, h) && !Disconnects(fd, h)
  }

  ghost function SaidIn(fd: int, h: Happening): seq<Message>
  {
    if h.Arrives? && h.arrival.fd == fd then [h.arrival.msg] else []
  }

  ghost function ReceivedIn(fd: int, h: Happening): seq<Message>
  {
    if h.Serves? && h.event.Receive? && h.event.fd == fd then [h.event.msg] else []
  }

  /** The messages that a client sends. */
  ghost function SaidBy(fd: int, hs: seq<Happening>): seq<Message>
  {
    if hs == [] then [] else SaidBy(fd, Front(hs)) + SaidIn(fd, Last(hs))
  }

  /** The messages that the server receives from a client. */
  ghost function ReceivedFrom(fd: int, hs: seq<Happening>): seq<Message>
  {
    if hs == [] then [] else ReceivedFrom(fd, Front(hs)) + ReceivedIn(fd, Last(hs))
  }

  ghost function DeliveriesOf(w: World, h: Happening): seq<Delivery>
    requires WorldInv(w) && Possible(w, h)
  {
    if h.Serves? then Step(w.server, h.event).1 else []
  }

  ghost function Deliveries(w: World, hs: seq<Happening>): seq<Delivery>
    requires WorldInv(w) && PossibleRun(w, hs)
    decreases |hs|
  {
    if hs == [] then [] else Deliveries(w, Front(hs)) + DeliveriesOf(WorldRun(w, Front(hs)), Last(hs))
  }

  lemma {:induction false} DeliveriesAreOutputs(w: World, hs: seq<Happening>)
    requires WorldInv(w) && PossibleRun(w, hs)
    ensures LegalRun(w.server, EventsIn(hs)) && Deliveries(w, hs) == Outputs(w.server, EventsIn(hs))
    decreases |hs|
  {
    hide WorldInv, Possible, Next, Inv, Legal, Step;
    ServerRuns(w, hs);
    if hs != [] {
      ServerRuns(w, Front(hs));
      DeliveriesAreOutputs(w, Front(hs));
      if Last(hs).Serves? {
        assert Front(EventsIn(hs)) == EventsIn(Front(hs)) && Last(EventsIn(hs)) == Last(hs).event;
      } else {
        assert EventsIn(hs) == EventsIn(Front(hs));
        assert Deliveries(w, Front(hs)) + [] == Deliveries(w, Front(hs));
      }
    }
  }

  ghost function Grown(link: Link, said: seq<Message>, received: seq<Message>, told: seq<Message>): Link
  {
    Link(link.said + said, link.handled + |received|, link.told + told)
  }

  /** What one happening adds to a link, and what it adds to the handled messages is what was next. */
  lemma LinkStep(w: World, h: Happening, fd: int)
    requires WorldInv(w) && Possible(w, h) && fd in w.links && !ConnectsTo(fd, h) && !Disconnects(fd, h)
    ensures var l, l' := w.links[fd], Grown(w.links[fd], SaidIn(fd, h), ReceivedIn(fd, h), MessagesTo(fd, DeliveriesOf(w, h)));
            && fd in Next(w, h).links && Next(w, h).links[fd] == l'
            && l.handled <= l'.handled <= |l'.said| && l'.said[l.handled..l'.handled] == ReceivedIn(fd, h)
  {
    hide Inv, Step, MessagesTo;
    var l := w.links[fd];
    assert LinkOk(l);
    NoMessages(fd);
    if h.Serves? && !h.event.Receive? { NothingDelivered(w.server, h.event); }
    assert l.told + [] == l.told && l.said + [] == l.said;
    if ReceivedIn(fd, h) != [] {
      assert l.said[l.handled..l.handled + 1] == [l.said[l.handled]];
    } else {
      assert (l.said + SaidIn(fd, h))[l.handled..l.handled] == [];
    }
  }

  lemma NothingDelivered(s: State, e: Event)
    requires Inv(s) && Legal(s, e) && !e.Receive?
    ensures Step(s, e).1 == []
  {
  }

  lemma NoMessages(fd: int)
    ensures MessagesTo(fd, []) == []
  {
  }

  /** While a client stays, its link grows by what it says, what is received from it and what is delivered to it. */
  lemma {:induction false} LinkGrows(w: World, hs: seq<Happening>, fd: int)
    requires WorldInv(w) && PossibleRun(w, hs) && fd in w.links && Stays(fd, hs)
    ensures var l, l' := w.links[fd], Grown(w.links[fd], SaidBy(fd, hs), ReceivedFrom(fd, hs), MessagesTo(fd, Deliveries(w, hs)));
            && fd in WorldRun(w, hs).links && WorldRun(w, hs).links[fd] == l'
            && l.handled <= l'.handled <= |l'.said| && l'.said[l.handled..l'.handled] == ReceivedFrom(fd, hs)
    decreases |hs|
  {
    hide WorldInv, Possible, Next, MessagesTo, DeliveriesOf, ConnectsTo, Disconnects, Grown;
    if hs == [] {
      NothingGrown(w, fd);
    } else {
      var v, h := WorldRun(w, Front(hs)), Last(hs);
      assert h in hs && forall g :: g in Front(hs) ==> g in hs;
      LinkGrows(w, Front(hs), fd);
      LinkStep(v, h, fd);
      MessagesToConcat(fd, Deliveries(w, Front(hs)), DeliveriesOf(v, h));
      GrownTwice(w.links[fd], SaidBy(fd, Front(hs)), ReceivedFrom(fd, Front(hs)), MessagesTo(fd, Deliveries(w, Front(hs))),
                 SaidIn(fd, h), ReceivedIn(fd, h), MessagesTo(fd, DeliveriesOf(v, h)));
    }
  }

  lemma NothingGrown(w: World, fd: int)
    requires WorldInv(w) && fd in w.links
    ensures var l := w.links[fd]; Grown(l, [], [], MessagesTo(fd, [])) == l && l.handled <= |l.said| && l.said[l.handled..l.handled] == []
  {
    hide Inv;
    var l := w.links[fd];
    assert LinkOk(l) && l.said + [] == l.said && l.told + [] == l.told;
  }

  /** Growing twice is growing once by both. */
  lemma GrownTwice(l: Link, a: seq<Message>, b: seq<Message>, c: seq<Message>, a': seq<Message>, b': seq<Message>, c': seq<Message>)
    requires var m := Grown(l, a, b, c); l.handled <= m.handled <= |m.said| && m.said[l.handled..m.handled] == b
    requires var m := Grown(l, a, b, c); var n := Grown(m, a', b', c'); m.handled <= n.handled <= |n.said| && n.said[m.handled..n.handled] == b'
    ensures var n := Grown(l, a + a', b + b', c + c');
            && Grown(Grown(l, a, b, c), a', b', c') == n
            && l.handled <= n.handled <= |n.said| && n.said[l.handled..n.handled] == b + b'
  {
    var m, n := Grown(l, a, b, c), Grown(l, a + a', b + b', c + c');
    assert (l.said + a) + a' == l.said + (a + a') && (l.told + c) + c' == l.told + (c + c');
    assert n.said[l.handled..m.handled] == m.said[l.handled..m.handled];
    assert n.said[l.handled..n.handled] == n.said[l.handled..m.handled] + n.said[m.handled..n.handled];
  }

  /** The number of happenings up to and including the last one that connected fd. */
  ghost function ConnectedAt(fd: int, hs: seq<Happening>): (k: nat)
    ensures k <= |hs|
    ensures k > 0 ==> ConnectsTo(fd, hs[k - 1])
  {
    if hs == [] then 0 else if ConnectsTo(fd, Last(hs)) then |hs| else ConnectedAt(fd, Front(hs))
  }

  lemma LinkIsNew(w: World, h: Happening, fd: int)
    requires WorldInv(w) && Possible(w, h) && fd in Next(w, h).links
    ensures ConnectsTo(fd, h) ==> Next(w, h).links[fd] == NEW_LINK
    ensures !ConnectsTo(fd, h) ==> fd in w.links && !Disconnects(fd, h)
  {
    hide Inv, Step;
  }

  /** A client that is connected now has stayed since it connected. */
  lemma {:induction false} StaysSinceConnect(w: World, hs: seq<Happening>, fd: int)
    requires WorldInv(w) && PossibleRun(w, hs) && fd !in w.links && fd in WorldRun(w, hs).links
    ensures var k := ConnectedAt(fd, hs);
            && k > 0 && Stays(fd, hs[k..]) && PossibleRun(w, hs[..k]) && PossibleRun(WorldRun(w, hs[..k]), hs[k..])
            && fd in WorldRun(w, hs[..k]).links && WorldRun(w, hs[..k]).links[fd] == NEW_LINK
            && WorldRun(WorldRun(w, hs[..k]), hs[k..]) == WorldRun(w, hs)
    decreases |hs|
  {
    hide WorldInv, Possible, Next, ConnectsTo, Disconnects;
    var k, h := ConnectedAt(fd, hs), Last(hs);
    LinkIsNew(WorldRun(w, Front(hs)), h, fd);
    WorldSplits(w, hs, k);
    if ConnectsTo(fd, h) {
      assert hs[..k] == hs && hs[k..] == [];
    } else {
      StaysSinceConnect(w, Front(hs), fd);
      FrontOfSuffix(hs, k);
      assert hs[k..] == Front(hs[k..]) + [h];
    }
  }

  /**
   * Since a client connected: it has said exactly what has arrived from it; the messages received from it are, in
   * order, the first of these, and the others wait unread; it was told exactly what was delivered to it.
   */
  lemma SinceConnected(w: World, hs: seq<Happening>, fd: int)
    requires WorldInv(w) && PossibleRun(w, hs) && w.links == map[] && fd in WorldRun(w, hs).links
    ensures var k, link := ConnectedAt(fd, hs), WorldRun(w, hs).links[fd];
            && k > 0 && PossibleRun(w, hs[..k]) && PossibleRun(WorldRun(w, hs[..k]), hs[k..])
            && link.said == SaidBy(fd, hs[k..])
            && link.handled <= |link.said| && ReceivedFrom(fd, hs[k..]) == link.said[..link.handled]
            && ReceivedFrom(fd, hs[k..]) + Unread(link) == SaidBy(fd, hs[k..])
            && link.told == MessagesTo(fd, Deliveries(WorldRun(w, hs[..k]), hs[k..]))
  {
    hide WorldInv, Possible, Next, MessagesTo, Deliveries, WorldRun, PossibleRun, Stays, SaidBy, ReceivedFrom, ConnectedAt;
    StaysSinceConnect(w, hs, fd);
    var k := ConnectedAt(fd, hs);
    var v := WorldRun(w, hs[..k]);
    LinkGrows(v, hs[k..], fd);
    GrownFromNew(SaidBy(fd, hs[k..]), ReceivedFrom(fd, hs[k..]), MessagesTo(fd, Deliveries(v, hs[k..])));
  }

  lemma GrownFromNew(said: seq<Message>, received: seq<Message>, told: seq<Message>)
    ensures var l := Grown(NEW_LINK, said, received, told);
            && l == Link(said, |received|, told)
            && (l.handled <= |l.said| && l.said[0..l.handled] == received ==> received == said[..l.handled] && received + Unread(l) == said)
  {
    assert [] + said == said && [] + told == told;
    if |received| <= |said| { assert said[0..|received|] == said[..|received|] && said[..|received|] + said[|received|..] == said; }
  }

  // ----- chats -----

  ghost function ChatsAmong(ms: seq<Message>): seq<Message>
  {
    if ms == [] then [] else ChatsAmong(Front(ms)) + if Last(ms).Chat? then [Last(ms)] else []
  }

  lemma {:induction false} ChatsAmongMessages(fd: int, ds: seq<Delivery>)
    ensures ChatsAmong(MessagesTo(fd, ds)) == ChatsTo(fd, ds)
  {
    if ds != [] {
      ChatsAmongMessages(fd, Front(ds));
      var ms := MessagesTo(fd, Front(ds));
      if Last(ds).fd == fd {
        assert Front(ms + [Last(ds).msg]) == ms;
      } else {
        assert ms + [] == ms;
      }
    }
  }

  lemma {:induction false} EventsConcat(a: seq<Happening>, b: seq<Happening>)
    ensures EventsIn(a + b) == EventsIn(a) + EventsIn(b)
  {
    if b == [] {
      assert a + b == a;
    } else {
      assert Front(a + b) == a + Front(b) && Last(a + b) == Last(b);
      EventsConcat(a, Front(b));
    }
  }

  lemma {:induction false} LogConcat(s: State, a: seq<Event>, b: seq<Event>)
    requires Inv(s) && LegalRun(s, a) && LegalRun(Run(s, a), b)
    ensures LegalRun(s, a + b) && Run(s, a + b) == Run(Run(s, a), b)
    ensures ChatLog(s, a + b) == ChatLog(s, a) + ChatLog(Run(s, a), b)
    decreases |b|
  {
    hide Step, Inv, Legal, Logged;
    if b == [] {
      assert a + b == a;
    } else {
      LogConcat(s, a, Front(b));
      assert Front(a + b) == a + Front(b) && Last(a + b) == Last(b);
    }
  }

  /** The server's chat log over a run of the world. */
  ghost function WorldLog(w: World, hs: seq<Happening>): seq<LogEntry>
    requires WorldInv(w) && PossibleRun(w, hs)
  {
    ServerRuns(w, hs);
    ChatLog(w.server, EventsIn(hs))
  }

  lemma WorldLogSplits(w: World, hs: seq<Happening>, k: nat)
    requires WorldInv(w) && PossibleRun(w, hs) && k <= |hs|
    ensures PossibleRun(w, hs[..k]) && PossibleRun(WorldRun(w, hs[..k]), hs[k..])
    ensures WorldLog(w, hs) == WorldLog(w, hs[..k]) + WorldLog(WorldRun(w, hs[..k]), hs[k..])
  {
    hide Inv, Legal, Step, Possible, Next, ChatLog, WorldRun, PossibleRun, EventsIn, Run, LegalRun;
    WorldSplits(w, hs, k);
    var v := WorldRun(w, hs[..k]);
    ServerRuns(w, hs[..k]);
    ServerRuns(v, hs[k..]);
    EventsConcat(hs[..k], hs[k..]);
    assert hs[..k] + hs[k..] == hs;
    LogConcat(w.server, EventsIn(hs[..k]), EventsIn(hs[k..]));
  }

  /** Where in the log the time since a client connected begins. */
  ghost function HeardFrom(w: World, hs: seq<Happening>, fd: int): (n: nat)
    requires WorldInv(w) && PossibleRun(w, hs)
    ensures n <= |WorldLog(w, hs)|
  {
    WorldLogSplits(w, hs, ConnectedAt(fd, hs));
    |WorldLog(w, hs[..ConnectedAt(fd, hs)])|
  }

  /**
   * The chats that a client was told are exactly the entries that the server has logged since the client connected
   * and whose room was the client's room at that moment, in log order.
   */
  lemma ChatsReceived(w: World, hs: seq<Happening>, fd: int)
    requires WorldInv(w) && PossibleRun(w, hs) && w.links == map[] && fd in WorldRun(w, hs).links
    ensures ChatsAmong(WorldRun(w, hs).links[fd].told) == Heard(fd, WorldLog(w, hs)[HeardFrom(w, hs, fd)..])
  {
    hide WorldInv, Inv, Legal, Step, Possible, Next, ChatLog, MessagesTo, Deliveries, ChatsAmong, Heard, ChatsTo, Run, LegalRun, WorldRun, PossibleRun;
    SinceConnected(w, hs, fd);
    var k := ConnectedAt(fd, hs);
    var v, rest := WorldRun(w, hs[..k]), hs[k..];
    WorldLogSplits(w, hs, k);
    DeliveriesAreOutputs(v, rest);
    ChatsAmongMessages(fd, Deliveries(v, rest));
    ServerInv(v);
    DeliveredIsHeard(v.server, EventsIn(rest), fd);
    assert WorldLog(w, hs)[HeardFrom(w, hs, fd)..] == WorldLog(v, rest);
  }

  lemma ServerInv(w: World)
    requires WorldInv(w)
    ensures Inv(w.server)
  {
  }

  // ----- the order of chats -----

  ghost function Shifted(p: seq<nat>, n: nat): seq<nat>
  {
    seq(|p|, i requires 0 <= i < |p| => p[i] + n)
  }

  /** The positions in the server's log of the chats that a client was told. */
  ghost function ToldAt(w: World, hs: seq<Happening>, fd: int): (p: seq<nat>)
    requires WorldInv(w) && PossibleRun(w, hs)
    ensures forall i :: 0 <= i < |p| ==> p[i] < |WorldLog(w, hs)|
    ensures forall i, j :: 0 <= i < j < |p| ==> p[i] < p[j]
  {
    var n := HeardFrom(w, hs, fd);
    Shifted(HeardAt(fd, WorldLog(w, hs)[n..]), n)
  }

  lemma InShifted(q: seq<nat>, n: nat, k: nat)
    requires n <= k
    ensures k in Shifted(q, n) <==> k - n in q
  {
    var p := Shifted(q, n);
    if k in p {
      var i :| 0 <= i < |p| && p[i] == k;
      assert q[i] == k - n;
    }
    if k - n in q {
      var i :| 0 <= i < |q| && q[i] == k - n;
      assert p[i] == k;
    }
  }

  /** The positions of the entries heard in a suffix of the log. */
  lemma HeardInSuffix(fd: int, log: seq<LogEntry>, n: nat)
    requires n <= |log|
    ensures var p := Shifted(HeardAt(fd, log[n..]), n);
            && |Heard(fd, log[n..])| == |p| && (forall i :: 0 <= i < |p| ==> p[i] < |log| && Heard(fd, log[n..])[i] == log[p[i]].msg)
            && forall k :: n <= k < |log| ==> (k in p <==> InRoom(fd, log[k]))
  {
    hide Heard, InRoom, HeardAt;
    HeardIsAt(fd, log[n..]);
    forall k | n <= k < |log| ensures k in Shifted(HeardAt(fd, log[n..]), n) <==> InRoom(fd, log[k]) {
      InShifted(HeardAt(fd, log[n..]), n, k);
      assert log[n..][k - n] == log[k];
    }
  }

  lemma ToldAtIsTold(w: World, hs: seq<Happening>, fd: int)
    requires WorldInv(w) && PossibleRun(w, hs) && w.links == map[] && fd in WorldRun(w, hs).links
    ensures var chats, log, p := ChatsAmong(WorldRun(w, hs).links[fd].told), WorldLog(w, hs), ToldAt(w, hs, fd);
            && |chats| == |p| && (forall i :: 0 <= i < |p| ==> chats[i] == log[p[i]].msg)
            && forall k :: HeardFrom(w, hs, fd) <= k < |log| ==> (k in p <==> InRoom(fd, log[k]))
  {
    hide WorldInv, PossibleRun, WorldRun, ChatsAmong, Heard, WorldLog, HeardFrom, InRoom;
    ChatsReceived(w, hs, fd);
    HeardInSuffix(fd, WorldLog(w, hs), HeardFrom(w, hs, fd));
    hide Shifted;
  }

  ghost predicate Increasing(p: seq<nat>)
  {
    forall i, j :: 0 <= i < j < |p| ==> p[i] < p[j]
  }

  /** Where p and q meet, they meet in the same order. */
  ghost predicate SameOrder(p: seq<nat>, q: seq<nat>)
  {
    forall i, j, k, l :: 0 <= i < |p| && 0 <= j < |p| && 0 <= k < |q| && 0 <= l < |q| && p[i] == q[k] && p[j] == q[l] ==> (i < j <==> k < l)
  }

  lemma IncreasingMeet(p: seq<nat>, q: seq<nat>)
    requires Increasing(p) && Increasing(q)
    ensures SameOrder(p, q)
  {
    forall i, j, k, l | 0 <= i < |p| && 0 <= j < |p| && 0 <= k < |q| && 0 <= l < |q| && p[i] == q[k] && p[j] == q[l]
      ensures i < j <==> k < l
    {
      if i < j { assert p[i] < p[j]; }
      if j < i { assert p[j] < p[i]; }
      if k < l { assert q[k] < q[l]; }
      if l < k { assert q[l] < q[k]; }
    }
  }

  /**
   * Two clients, each connected at a time of its own: the chats on either stream are entries of the one log, in log
   * order; entries that are on both streams come in the same order on both; and an entry logged after both had
   * connected, for a room that both were in, is on both.
   */
  lemma CommonOrder(w: World, hs: seq<Happening>, a: int, b: int)
    requires WorldInv(w) && PossibleRun(w, hs) && w.links == map[]
    requires a in WorldRun(w, hs).links && b in WorldRun(w, hs).links
    ensures var log, p, q := WorldLog(w, hs), ToldAt(w, hs, a), ToldAt(w, hs, b);
            var x, y := ChatsAmong(WorldRun(w, hs).links[a].told), ChatsAmong(WorldRun(w, hs).links[b].told);
            && |x| == |p| && (forall i :: 0 <= i < |p| ==> x[i] == log[p[i]].msg)
            && |y| == |q| && (forall i :: 0 <= i < |q| ==> y[i] == log[q[i]].msg)
            && Increasing(p) && Increasing(q) && SameOrder(p, q)
            && (forall n :: HeardFrom(w, hs, a) <= n < |log| && HeardFrom(w, hs, b) <= n && InRoom(a, log[n]) && InRoom(b, log[n]) ==> n in p && n in q)
  {
    hide WorldInv, PossibleRun, WorldRun, ChatsAmong, WorldLog, HeardFrom, InRoom;
    ToldAtIsTold(w, hs, a);
    ToldAtIsTold(w, hs, b);
    hide SameOrder;
    IncreasingMeet(ToldAt(w, hs, a), ToldAt(w, hs, b));
    hide ToldAt, Increasing;
  }

  // ----- one chat -----

  lemma {:induction false} BroadcastOnceInAll(members: seq<int>, msg: Message, fd: int)
    requires Distinct(members)
    ensures MessagesTo(fd, Broadcast(members, msg)) == if fd in members then [msg] else []
  {
    if members != [] {
      BroadcastOnceInAll(Front(members), msg, fd);
      assert Front(Broadcast(members, msg)) == Broadcast(Front(members), msg);
      assert members == Front(members) + [Last(members)];
    }
  }

  lemma ChatIsBroadcast(s: State, fd: int, msg: Message, now: int)
    requires Inv(s) && Legal(s, Receive(fd, msg, now)) && msg.Chat? && s.users[fd].room != INVALID_ROOM
    ensures var r, frame := s.users[fd].room, Chat(now, s.users[fd].name, msg.text);
            && WellFormed(frame) && 1 <= r <= |s.rooms| && Distinct(s.rooms[r - 1])
            && Step(s, Receive(fd, msg, now)).1 == Broadcast(s.rooms[r - 1], frame)
  {
  }

  lemma FrameDecodes(frame: Message)
    requires frame.Chat? && WellFormed(frame)
    ensures Readable(Encode(frame)) && Decode(Encode(frame)).0 == frame.(timestamp := frame.timestamp % WORD)
  {
    hide Encode, Decode, Readable;
    RoundTrip(frame);
  }

  /**
   * A chat from a client in a room is told once to every member, the sender included, and to nobody else. Its frame
   * decodes to the sender's name, the text as sent, and the low 32 bits of the time.
   */
  lemma ChatReachesMembers(w: World, fd: int, msg: Message, now: int, id: int)
    requires WorldInv(w) && Possible(w, Serves(Receive(fd, msg, now))) && id in w.links
    requires msg.Chat? && fd in w.server.users && id in w.server.users && w.server.users[fd].room != INVALID_ROOM
    ensures var users, w', frame := w.server.users, Next(w, Serves(Receive(fd, msg, now))), Chat(now, w.server.users[fd].name, msg.text);
            && WellFormed(frame) && id in w'.links
            && w'.links[id].told == w.links[id].told + (if users[id].room == users[fd].room then [frame] else [])
            && Readable(Encode(frame)) && Decode(Encode(frame)).0 == frame.(timestamp := now % 0x1_0000_0000)
  {
    hide Inv, Step, Encode, Decode, Readable, WellFormed, Broadcast, Distinct, MessagesTo;
    var s := w.server;
    var r, frame := s.users[fd].room, Chat(now, s.users[fd].name, msg.text);
    ChatIsBroadcast(s, fd, msg, now);
    MemberIffInRoom(s, id, r);
    FrameDecodes(frame);
    BroadcastOnceInAll(s.rooms[r - 1], frame, id);
  }

  ghost predicate IsPrefix<T>(a: seq<T>, b: seq<T>) { |a| <= |b| && b[..|a|] == a }

  /**
   * From the sender's connection to the members' streams, over any run of a fresh server: the chat that is served as
   * happening p is the next message that its sender has put on its connection. Every client that was in the sender's
   * room then and has stayed since was told, right behind what it had been told before, the name that the sender had
   * set last (or "anonymous"), the text as sent, and the time; nobody else was told anything.
   */
  lemma ChatEndToEnd(listener: int, n: byte, hs: seq<Happening>, p: nat, id: int)
    requires 0 <= listener < FD_LIMIT && PossibleRun(Fresh(listener, n), hs)
    requires p < |hs| && hs[p].Serves? && hs[p].event.Receive? && hs[p].event.msg.Chat?
    ensures var w0, fd, msg, now := Fresh(listener, n), hs[p].event.fd, hs[p].event.msg, hs[p].event.now;
            && PossibleRun(w0, hs[..p]) && PossibleRun(w0, hs[..p + 1])
            && var before, after, end := WorldRun(w0, hs[..p]), WorldRun(w0, hs[..p + 1]), WorldRun(w0, hs);
               && fd in before.links && fd in before.server.users
               && before.links[fd].handled < |before.links[fd].said| && before.links[fd].said[before.links[fd].handled] == msg
               && var r, frame := before.server.users[fd].room, Chat(now, NameSince(fd, EventsIn(hs[..p]), ANONYMOUS), msg.text);
                  id in before.links && r != INVALID_ROOM ==>
                    && id in before.server.users && id in after.links && WellFormed(frame)
                    && after.links[id].told == before.links[id].told + (if before.server.users[id].room == r then [frame] else [])
                    && (Stays(id, hs[p..]) ==> id in end.links && IsPrefix(after.links[id].told, end.links[id].told))
                    && Readable(Encode(frame)) && Decode(Encode(frame)).0 == frame.(timestamp := now % 0x1_0000_0000)
  {
    hide Inv, Step, Next, Encode, Decode, Readable, WellFormed, NameSince, WorldRun, PossibleRun, WorldInv, Stays;
    var w0, fd, msg, now := Fresh(listener, n), hs[p].event.fd, hs[p].event.msg, hs[p].event.now;
    WorldPrefix(w0, hs, p);
    var before := WorldRun(w0, hs[..p]);
    NextUnread(before, fd, msg, now);
    if id in before.links && before.server.users[fd].room != INVALID_ROOM {
      SameKeys(before);
      ChatReachesMembers(before, fd, msg, now, id);
      NameInWorld(listener, n, hs[..p], fd);
      if Stays(id, hs[p..]) { ToldKept(w0, hs, p + 1, id); }
    }
  }

  lemma OneReply(s: State, fd: int, msg: Message, now: int)
    requires Inv(s) && Legal(s, Receive(fd, msg, now)) && fd in s.users && !(msg.Chat? && s.users[fd].room != INVALID_ROOM)
    ensures var ds := Step(s, Receive(fd, msg, now)).1; |ds| == 1 && ds[0].fd == fd && ds[0].msg.Reply?
  {
    hide Inv, Step, WellFormed, Ascii, Decimal;
    match msg
    case Chat(_, _, _) => RoomlessAnswer(s, fd, msg, now);
    case Name(name) => NameOutcome(s, fd, name, now);
    case Join(r) => JoinAnswer(s, fd, r, now);
    case Reply(_) =>
  }

  /** Whatever is not a chat in a room is answered by one reply, on the stream of the requester and on no other. */
  lemma ReplyReachesRequester(w: World, fd: int, msg: Message, now: int, id: int)
    requires WorldInv(w) && Possible(w, Serves(Receive(fd, msg, now))) && id in w.links
    requires Inv(w.server) && Legal(w.server, Receive(fd, msg, now)) && fd in w.server.users
    requires !(msg.Chat? && w.server.users[fd].room != INVALID_ROOM)
    ensures var ds, after := Step(w.server, Receive(fd, msg, now)).1, Next(w, Serves(Receive(fd, msg, now)));
            && |ds| == 1 && ds[0].fd == fd && ds[0].msg.Reply? && id in after.links
            && after.links[id].told == w.links[id].told + if id == fd then [ds[0].msg] else []
  {
    hide Inv, Step, WellFormed, Told, MessagesTo;
    OneReply(w.server, fd, msg, now);
    var ds := Step(w.server, Receive(fd, msg, now)).1;
    assert ds == [Delivery(fd, ds[0].msg)];
    ToldOne(HandledOne(w.links, fd), fd, ds[0].msg);
    assert w.links[id].told + [] == w.links[id].told;
  }

  lemma SameKeys(w: World)
    requires WorldInv(w)
    ensures w.links.Keys == w.server.users.Keys
  {
  }

  lemma WorldPrefix(w: World, hs: seq<Happening>, p: nat)
    requires WorldInv(w) && PossibleRun(w, hs) && p < |hs|
    ensures PossibleRun(w, hs[..p]) && PossibleRun(w, hs[..p + 1]) && Possible(WorldRun(w, hs[..p]), hs[p])
    ensures WorldRun(w, hs[..p + 1]) == Next(WorldRun(w, hs[..p]), hs[p])
  {
    hide WorldInv, Possible, Next;
    WorldSplits(w, hs, p + 1);
    assert Front(hs[..p + 1]) == hs[..p] && Last(hs[..p + 1]) == hs[p];
  }

  lemma NextUnread(w: World, fd: int, msg: Message, now: int)
    requires WorldInv(w) && Possible(w, Serves(Receive(fd, msg, now)))
    ensures fd in w.links && fd in w.server.users && w.links.Keys == w.server.users.Keys
    ensures w.links[fd].handled < |w.links[fd].said| && w.links[fd].said[w.links[fd].handled] == msg
  {
    hide Inv;
    assert LinkOk(w.links[fd]);
  }

  lemma NameInWorld(listener: int, n: byte, hs: seq<Happening>, fd: int)
    requires 0 <= listener < FD_LIMIT && PossibleRun(Fresh(listener, n), hs) && fd in WorldRun(Fresh(listener, n), hs).server.users
    ensures WorldRun(Fresh(listener, n), hs).server.users[fd].name == NameSince(fd, EventsIn(hs), ANONYMOUS)
  {
    hide Inv, WorldInv, PossibleRun, WorldRun, Run, LegalRun, NameSince;
    ServerRuns(Fresh(listener, n), hs);
    NameIsLastSet(Initial(listener, n), EventsIn(hs), fd, ANONYMOUS);
  }

  /** What a client that stays was told by some happening, it has still been told at the end. */
  lemma ToldKept(w: World, hs: seq<Happening>, k: nat, fd: int)
    requires WorldInv(w) && PossibleRun(w, hs) && 0 < k <= |hs| && Stays(fd, hs[k - 1..])
    requires PossibleRun(w, hs[..k]) && fd in WorldRun(w, hs[..k]).links
    ensures fd in WorldRun(w, hs).links && IsPrefix(WorldRun(w, hs[..k]).links[fd].told, WorldRun(w, hs).links[fd].told)
  {
    hide WorldInv, PossibleRun, WorldRun, MessagesTo, Deliveries;
    WorldSplits(w, hs, k);
    assert forall h :: h in hs[k..] ==> h in hs[k - 1..];
    LinkGrows(WorldRun(w, hs[..k]), hs[k..], fd);
  }
}
