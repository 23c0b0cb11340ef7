/** The server together with its clients: what each client has sent, how much of it is handled, what it was told. */
module Worlds {
  import opened Bits
  import opened Users
  import opened Sequences
  import opened Messages
  import opened Net
  import opened Protocol
  import opened Runs
  import opened Abstraction

  predicate FromClients(ms: seq<Message>): (ok: bool)
    ensures ok ==> AllWellFormed(ms)
  {
    forall m :: m in ms ==> FromClient(m)
  }

  /**
   * One connection since it was opened: said is everything the client has sent, of which the first messages are
   * handled; told is everything the server has sent to the client.
   */
  datatype Link = Link(said: seq<Message>, handled: nat, told: seq<Message>)

  const NEW_LINK := Link([], 0, [])

  ghost predicate LinkOk(link: Link)
  {
    link.handled <= |link.said| && FromClients(link.said) && AllWellFormed(link.told)
  }

  ghost function Unread(link: Link): seq<Message>
    requires link.handled <= |link.said|
  {
    link.said[link.handled..]
  }

  datatype World = World(server: State, links: map<int, Link>)

  datatype Arrival = Arrival(fd: int, msg: Message)

  /** A client sends a message, or the server serves an event. */
  datatype Happening = Arrives(arrival: Arrival) | Serves(event: Event)

  ghost predicate WorldInv(w: World)
  {
    && Inv(w.server) && w.links.Keys == w.server.users.Keys
    && forall fd {:trigger w.links[fd]} :: fd in w.links ==> LinkOk(w.links[fd])
  }

  /**
   * The message that the server receives is the next one that the client has sent; a client is disconnected at the
   * end of its stream only when all that it has sent is handled.
   */
  ghost predicate Possible(w: World, h: Happening)
    requires WorldInv(w)
  {
    match h
    case Arrives(a) => FromClient(a.msg)
    case Serves(Connect(fd)) => Legal(w.server, Connect(fd))
    case Serves(Disconnect(fd, why)) => Legal(w.server, h.event) && (why == EndOfStream ==> Unread(w.links[fd]) == [])
    case Serves(Receive(fd, msg, _)) => Legal(w.server, h.event) && Unread(w.links[fd]) != [] && Unread(w.links[fd])[0] == msg
  }

  // ----- what is told -----

  ghost function MessageTo(fd: int, d: Delivery): seq<Message>
  {
    if d.fd == fd then [d.msg] else []
  }

  /** The messages among the deliveries to one descriptor. */
  ghost function MessagesTo(fd: int, ds: seq<Delivery>): seq<Message>
  {
    if ds == [] then [] else MessagesTo(fd, Front(ds)) + MessageTo(fd, Last(ds))
  }

  /** Every delivery has an open connection and fits its buffer. */
  ghost predicate Deliverable(ds: seq<Delivery>, open: set<int>)
  {
    forall d :: d in ds ==> d.fd in open && WellFormed(d.msg)
  }

  lemma {:induction false} BroadcastReceivers(members: seq<int>, msg: Message)
    ensures forall d :: d in Broadcast(members, msg) ==> d.fd in members && d.msg == msg
  {
    if members != [] { BroadcastReceivers(members[..|members| - 1], msg); }
  }

  /** Replies and broadcasts go to connected clients only, and fit their buffers. */
  lemma StepIsDeliverable(s: State, e: Event)
    requires Inv(s) && Legal(s, e)
    ensures Deliverable(Step(s, e).1, s.users.Keys)
  {
    hide Inv, Step, Legal, WellFormed, Broadcast;
    if Logged(s, e) != [] {
      var entry := Logged(s, e)[0];
      assert Logged(s, e) == [entry];
      LoudStep(s, e, entry);
      BroadcastReceivers(s.rooms[entry.room - 1], entry.msg);
    } else {
      QuietStep(s, e);
    }
  }

  lemma {:induction false} DeliverableMessages(fd: int, ds: seq<Delivery>, open: set<int>)
    requires Deliverable(ds, open)
    ensures AllWellFormed(MessagesTo(fd, ds)) && (fd !in open ==> MessagesTo(fd, ds) == [])
  {
    hide WellFormed;
    if ds != [] {
      assert Last(ds) in ds;
      DeliverableMessages(fd, Front(ds), open);
    }
  }

  lemma {:induction false} MessagesToConcat(fd: int, a: seq<Delivery>, b: seq<Delivery>)
    ensures MessagesTo(fd, a + b) == MessagesTo(fd, a) + MessagesTo(fd, b)
  {
    if b == [] {
      assert a + b == a;
    } else {
      assert Front(a + b) == a + Front(b) && Last(a + b) == Last(b);
      MessagesToConcat(fd, a, Front(b));
      var x, y, z := MessagesTo(fd, a), MessagesTo(fd, Front(b)), MessageTo(fd, Last(b));
      assert (x + y) + z == x + (y + z);
    }
  }

  /** The links after a list of deliveries. */
  ghost function Told(links: map<int, Link>, ds: seq<Delivery>): map<int, Link>
  {
    map fd | fd in links :: links[fd].(told := links[fd].told + MessagesTo(fd, ds))
  }

  lemma ToldConcat(links: map<int, Link>, a: seq<Delivery>, b: seq<Delivery>)
    ensures Told(Told(links, a), b) == Told(links, a + b)
  {
    hide MessagesTo;
    forall fd | fd in links ensures Told(Told(links, a), b)[fd] == Told(links, a + b)[fd] {
      MessagesToConcat(fd, a, b);
      var t := links[fd].told;
      assert (t + MessagesTo(fd, a)) + MessagesTo(fd, b) == t + (MessagesTo(fd, a) + MessagesTo(fd, b));
    }
  }

  lemma ToldNothing(links: map<int, Link>)
    ensures Told(links, []) == links
  {
    forall fd | fd in links ensures Told(links, [])[fd] == links[fd] {
      assert links[fd].told + [] == links[fd].told;
    }
  }

  lemma MessagesToOne(fd: int, d: Delivery)
    ensures MessagesTo(fd, [d]) == MessageTo(fd, d)
  {
    assert Front([d]) == [];
  }

  lemma ToldOne(links: map<int, Link>, fd: int, msg: Message)
    requires fd in links
    ensures Told(links, [Delivery(fd, msg)]) == links[fd := links[fd].(told := links[fd].told + [msg])]
  {
    hide MessagesTo;
    forall id | id in links
      ensures Told(links, [Delivery(fd, msg)])[id] == if id == fd then links[id].(told := links[id].told + [msg]) else links[id]
    {
      MessagesToOne(id, Delivery(fd, msg));
      assert links[id].told + [] == links[id].told;
    }
  }

  // ----- how the world goes on -----

  /** The next message of a client is handled. */
  ghost function HandledOne(links: map<int, Link>, fd: int): map<int, Link>
    requires fd in links
  {
    links[fd := links[fd].(handled := links[fd].handled + 1)]
  }

  /** What has arrived and is not handled yet is lost. */
  ghost function CutOff(links: map<int, Link>, fd: int): map<int, Link>
    requires fd in links && links[fd].handled <= |links[fd].said|
  {
    links[fd := links[fd].(said := links[fd].said[..links[fd].handled])]
  }

  ghost function Arrived(links: map<int, Link>, a: Arrival): map<int, Link>
  {
    if a.fd in links then links[a.fd := links[a.fd].(said := links[a.fd].said + [a.msg])] else links
  }

  ghost function Next(w: World, h: Happening): World
    requires WorldInv(w) && Possible(w, h)
  {
    match h
    case Arrives(a) => w.(links := Arrived(w.links, a))
    case Serves(e) =>
      var (s, ds) := Step(w.server, e);
      match e
      case Connect(fd) => World(s, w.links[fd := NEW_LINK])
      case Disconnect(fd, _) => World(s, w.links - {fd})
      case Receive(fd, _, _) => World(s, Told(HandledOne(w.links, fd), ds))
  }

  lemma StepKeys(s: State, e: Event)
    requires Inv(s) && Legal(s, e)
    ensures Step(s, e).0.users.Keys ==
              match e
              case Connect(fd) => s.users.Keys + {fd}
              case Disconnect(fd, _) => s.users.Keys - {fd}
              case Receive(_, _, _) => s.users.Keys
  {
    StepRefines(s, e);
    hide Step, Inv;
  }

  lemma ReceiveKeepsLinks(w: World, fd: int, msg: Message, now: int)
    requires WorldInv(w) && Possible(w, Serves(Receive(fd, msg, now)))
    ensures var links := Told(HandledOne(w.links, fd), Step(w.server, Receive(fd, msg, now)).1);
            links.Keys == w.links.Keys && forall id {:trigger links[id]} :: id in links ==> LinkOk(links[id])
  {
    hide Inv, Step, MessagesTo, FromClients, AllWellFormed, Deliverable;
    var ds := Step(w.server, Receive(fd, msg, now)).1;
    StepIsDeliverable(w.server, Receive(fd, msg, now));
    forall id | id in w.links ensures AllWellFormed(w.links[id].told + MessagesTo(id, ds)) {
      DeliverableMessages(id, ds, w.links.Keys);
      WellFormedConcat(w.links[id].told, MessagesTo(id, ds));
    }
  }

  lemma WellFormedConcat(a: seq<Message>, b: seq<Message>)
    requires AllWellFormed(a) && AllWellFormed(b)
    ensures AllWellFormed(a + b)
  {
  }

  lemma NextKeepsInv(w: World, h: Happening)
    requires WorldInv(w) && Possible(w, h)
    ensures WorldInv(Next(w, h))
  {
    hide Inv, Step, WellFormed, Legal, Told;
    match h
    case Arrives(_) =>
    case Serves(e) =>
      StepKeepsInv(w.server, e);
      StepKeys(w.server, e);
      if e.Receive? { ReceiveKeepsLinks(w, e.fd, e.msg, e.now); }
  }

  ghost predicate PossibleRun(w: World, hs: seq<Happening>)
    requires WorldInv(w)
    decreases |hs|, 0
  {
    hs == [] || (PossibleRun(w, Front(hs)) && Possible(WorldRun(w, Front(hs)), Last(hs)))
  }

  ghost function WorldRun(w: World, hs: seq<Happening>): (w': World)
    requires WorldInv(w) && PossibleRun(w, hs)
    ensures WorldInv(w')
    decreases |hs|, 1
  {
    if hs == [] then w
    else
      NextKeepsInv(WorldRun(w, Front(hs)), Last(hs));
      Next(WorldRun(w, Front(hs)), Last(hs))
  }

  ghost function EventsIn(hs: seq<Happening>): seq<Event>
  {
    if hs == [] then [] else EventsIn(Front(hs)) + if Last(hs).Serves? then [Last(hs).event] else []
  }

  lemma NothingHappened(w: World)
    requires WorldInv(w)
    ensures PossibleRun(w, []) && WorldRun(w, []) == w
  {
  }

  lemma OneMore(w: World, hs: seq<Happening>, h: Happening)
    requires WorldInv(w) && PossibleRun(w, hs) && Possible(WorldRun(w, hs), h)
    ensures PossibleRun(w, hs + [h]) && WorldRun(w, hs + [h]) == Next(WorldRun(w, hs), h)
  {
    hide WorldInv, Possible, Next;
    assert Front(hs + [h]) == hs;
  }

  lemma {:induction false} WorldConcat(w: World, a: seq<Happening>, b: seq<Happening>)
    requires WorldInv(w) && PossibleRun(w, a) && PossibleRun(WorldRun(w, a), b)
    ensures PossibleRun(w, a + b) && WorldRun(w, a + b) == WorldRun(WorldRun(w, a), b)
    decreases |b|
  {
    hide WorldInv, Possible, Next;
    if b == [] {
      assert a + b == a;
    } else {
      WorldConcat(w, a, Front(b));
      assert Front(a + b) == a + Front(b) && Last(a + b) == Last(b);
    }
  }

  lemma {:induction false} WorldSplits(w: World, hs: seq<Happening>, k: nat)
    requires WorldInv(w) && PossibleRun(w, hs) && k <= |hs|
    ensures PossibleRun(w, hs[..k]) && PossibleRun(WorldRun(w, hs[..k]), hs[k..])
    ensures WorldRun(WorldRun(w, hs[..k]), hs[k..]) == WorldRun(w, hs)
    decreases |hs|
  {
    hide WorldInv, Possible, Next;
    if k == |hs| {
      assert hs[..k] == hs && hs[k..] == [];
    } else {
      WorldSplits(w, Front(hs), k);
      FrontOfSuffix(hs, k);
    }
  }

  lemma FrontOfSuffix<T>(s: seq<T>, k: nat)
    requires k < |s|
    ensures Front(s)[..k] == s[..k] && Front(s)[k..] == Front(s[k..]) && Last(s[k..]) == Last(s)
  {
  }

  lemma PossibleIsLegal(w: World, h: Happening)
    requires WorldInv(w) && Possible(w, h)
    ensures if h.Serves? then Legal(w.server, h.event) && Next(w, h).server == Step(w.server, h.event).0
            else Next(w, h).server == w.server
  {
    hide Inv, Step, Legal;
  }

  /** Leaving the clients out, a run of the world is a run of the server. */
  lemma {:induction false} ServerRuns(w: World, hs: seq<Happening>)
    requires WorldInv(w) && PossibleRun(w, hs)
    ensures LegalRun(w.server, EventsIn(hs)) && WorldRun(w, hs).server == Run(w.server, EventsIn(hs))
    decreases |hs|
  {
    hide Inv, Step, Legal, Possible, Next;
    if hs != [] {
      var v, h := WorldRun(w, Front(hs)), Last(hs);
      ServerRuns(w, Front(hs));
      PossibleIsLegal(v, h);
      if h.Serves? {
        RunSnoc(w.server, EventsIn(Front(hs)), h.event);
      } else {
        assert EventsIn(hs) == EventsIn(Front(hs));
      }
    }
  }

  // ----- the bytes on the sockets -----

  /**
   * What waits to be read on a connection are the frames of what its client has sent and the server not handled;
   * what was written to it are the frames of what its client was told, unless a send to it has failed.
   */
  ghost predicate StreamsOk(links: map<int, Link>, conns: map<int, Conn>)
  {
    && links.Keys == conns.Keys
    && forall fd {:trigger links[fd]} {:trigger conns[fd]} :: fd in conns ==> StreamOk(links[fd], conns[fd])
  }

  ghost predicate StreamOk(link: Link, conn: Conn)
  {
    && LinkOk(link)
    && conn.incoming == EncodeAll(Unread(link))
    && (!conn.broken ==> conn.outgoing == EncodeAll(link.told))
  }

  /** The bytes on every connection, written out. */
  lemma StreamsSpelled(links: map<int, Link>, conns: map<int, Conn>, fd: int)
    requires StreamsOk(links, conns) && fd in conns
    ensures fd in links && links[fd].handled <= |links[fd].said|
    ensures AllWellFormed(links[fd].said[links[fd].handled..]) && AllWellFormed(links[fd].told)
    ensures conns[fd].incoming == EncodeAll(links[fd].said[links[fd].handled..])
    ensures conns[fd].broken || conns[fd].outgoing == EncodeAll(links[fd].told)
  {
    hide Encode, WellFormed, FromClient;
    assert StreamOk(links[fd], conns[fd]);
  }

  /** A frame was written to a connection, or its sending has failed somewhere. */
  lemma StreamTold(links: map<int, Link>, conns: map<int, Conn>, fd: int, msg: Message)
    requires StreamsOk(links, conns) && fd in conns && WellFormed(msg)
    ensures var told := Told(links, [Delivery(fd, msg)]);
            && StreamsOk(told, Sent(conns, fd, Encode(msg)))
            && forall bytes :: StreamsOk(told, Broken(Sent(conns, fd, bytes), fd))
  {
    hide Encode, WellFormed, FromClients;
    ToldOne(links, fd, msg);
    EncodeAllSnoc(links[fd].told, msg);
    hide Told, EncodeAll;
  }

  /** The head of what waits on a connection. */
  lemma StreamHead(links: map<int, Link>, conns: map<int, Conn>, fd: int)
    requires StreamsOk(links, conns) && fd in conns
    ensures fd in links && LinkOk(links[fd]) && StartsFrame(conns[fd].incoming)
    ensures conns[fd].incoming == [] <==> Unread(links[fd]) == []
    ensures Unread(links[fd]) != [] ==>
              && FromClient(Unread(links[fd])[0])
              && var n := |Encode(Unread(links[fd])[0])|;
                 && n <= |conns[fd].incoming| && FrameLength(conns[fd].incoming) == n
                 && conns[fd].incoming[..n] == Encode(Unread(links[fd])[0])
                 && StreamsOk(HandledOne(links, fd), Consumed(conns, fd, n))
  {
    hide Encode, WellFormed, FrameLength, StartsFrame;
    var link := links[fd];
    assert StreamOk(link, conns[fd]);
    FirstFrame(Unread(link));
    if Unread(link) != [] {
      assert Unread(link)[1..] == link.said[link.handled + 1..];
      assert Unread(link)[0] in link.said;
    }
  }

  lemma StreamCut(links: map<int, Link>, conns: map<int, Conn>, fd: int)
    requires StreamsOk(links, conns) && fd in conns
    ensures fd in links && links[fd].handled <= |links[fd].said|
    ensures StreamsOk(CutOff(links, fd), Consumed(conns, fd, |conns[fd].incoming|))
    ensures Unread(links[fd]) == [] ==> CutOff(links, fd) == links
  {
    hide Encode, WellFormed;
    var link := links[fd];
    assert StreamOk(link, conns[fd]);
    var said := link.said[..link.handled];
    assert said[link.handled..] == [];
    if Unread(link) == [] { assert |link.said| == link.handled && said == link.said; }
  }

  lemma StreamArrives(links: map<int, Link>, conns: map<int, Conn>, a: Arrival)
    requires StreamsOk(links, conns) && FromClient(a.msg)
    ensures StreamsOk(Arrived(links, a),
              if a.fd in conns then conns[a.fd := conns[a.fd].(incoming := conns[a.fd].incoming + Encode(a.msg))] else conns)
  {
    hide Encode, WellFormed;
    if a.fd in conns {
      var link := links[a.fd];
      assert StreamOk(link, conns[a.fd]);
      assert (link.said + [a.msg])[link.handled..] == Unread(link) + [a.msg];
      EncodeAllSnoc(Unread(link), a.msg);
    }
  }

  lemma StreamOpened(links: map<int, Link>, conns: map<int, Conn>, fd: int)
    requires StreamsOk(links, conns)
    ensures StreamsOk(links[fd := NEW_LINK], conns[fd := FRESH])
  {
  }

  lemma StreamClosed(links: map<int, Link>, conns: map<int, Conn>, fd: int)
    requires StreamsOk(links, conns)
    ensures StreamsOk(links - {fd}, conns - {fd})
  {
  }
}
