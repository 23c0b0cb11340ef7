/** What holds over whole runs of the server. */
module Runs {
  import opened Bits
  import opened Users
  import opened Sequences
  import opened Messages
  import opened Protocol

  ghost function Front<T>(s: seq<T>): seq<T>
    requires s != []
  {
    s[..|s| - 1]
  }

  ghost function Last<T>(s: seq<T>): T
    requires s != []
  {
    s[|s| - 1]
  }

  /** Every event is one that the environment can produce in the state it meets. */
  ghost predicate LegalRun(s: State, es: seq<Event>)
    requires Inv(s)
    decreases |es|, 0
  {
    es == [] || (LegalRun(s, Front(es)) && Legal(Run(s, Front(es)), Last(es)))
  }

  /** In every reachable state the poll array, the user table and the rooms agree. */
  ghost function Run(s: State, es: seq<Event>): (t: State)
    requires Inv(s) && LegalRun(s, es)
    ensures Inv(t)
    decreases |es|, 1
  {
    if es == [] then s
    else
      StepKeepsInv(Run(s, Front(es)), Last(es));
      Step(Run(s, Front(es)), Last(es)).0
  }

  /** The state before the first connection: the listener alone, and n empty rooms. */
  ghost function Initial(listener: int, n: byte): (s: State)
    requires 0 <= listener < FD_LIMIT
    ensures Inv(s) && s.fds == [listener] && s.users == map[]
    ensures |s.rooms| == n && forall i :: 0 <= i < n ==> s.rooms[i] == []
  {
    State([listener], map[], seq(n, _ => []))
  }

  lemma RunSnoc(s: State, es: seq<Event>, e: Event)
    requires Inv(s) && LegalRun(s, es) && Legal(Run(s, es), e)
    ensures LegalRun(s, es + [e]) && Run(s, es + [e]) == Step(Run(s, es), e).0
  {
    hide Inv, Legal, Step;
    assert Front(es + [e]) == es;
  }

  ghost function Outputs(s: State, es: seq<Event>): seq<Delivery>
    requires Inv(s) && LegalRun(s, es)
    decreases |es|
  {
    if es == [] then [] else Outputs(s, Front(es)) + Step(Run(s, Front(es)), Last(es)).1
  }

  // ----- who hears what -----

  /** One chat that the server accepted: its room, the stamped message, and everybody's room at that moment. */
  datatype LogEntry = LogEntry(room: byte, msg: Message, seen: map<int, Client>)

  ghost function Logged(s: State, e: Event): seq<LogEntry>
    requires Inv(s) && Legal(s, e)
  {
    if e.Receive? && e.msg.Chat? && s.users[e.fd].room != INVALID_ROOM
    then [LogEntry(s.users[e.fd].room, Chat(e.now, s.users[e.fd].name, e.msg.text), s.users)]
    else []
  }

  /** The global chat log of a run. */
  ghost function ChatLog(s: State, es: seq<Event>): seq<LogEntry>
    requires Inv(s) && LegalRun(s, es)
    decreases |es|
  {
    if es == [] then [] else ChatLog(s, Front(es)) + Logged(Run(s, Front(es)), Last(es))
  }

  ghost function ChatTo(fd: int, d: Delivery): seq<Message>
  {
    if d.fd == fd && d.msg.Chat? then [d.msg] else []
  }

  /** The chat frames among the deliveries to one descriptor. */
  ghost function ChatsTo(fd: int, ds: seq<Delivery>): seq<Message>
  {
    if ds == [] then [] else ChatsTo(fd, Front(ds)) + ChatTo(fd, Last(ds))
  }

  ghost predicate InRoom(fd: int, entry: LogEntry)
  {
    fd in entry.seen && entry.seen[fd].room == entry.room
  }

  /** The log entries whose room was the client's own room when they were handled. */
  ghost function Heard(fd: int, log: seq<LogEntry>): seq<Message>
  {
    if log == [] then [] else Heard(fd, Front(log)) + (if InRoom(fd, Last(log)) then [Last(log).msg] else [])
  }

  lemma {:induction false} ChatsToConcat(fd: int, a: seq<Delivery>, b: seq<Delivery>)
    ensures ChatsTo(fd, a + b) == ChatsTo(fd, a) + ChatsTo(fd, b)
  {
    if b == [] {
      assert a + b == a;
    } else {
      assert Front(a + b) == a + Front(b) && Last(a + b) == Last(b);
      ChatsToConcat(fd, a, Front(b));
      var x, y, z := ChatsTo(fd, a), ChatsTo(fd, Front(b)), ChatTo(fd, Last(b));
      assert (x + y) + z == x + (y + z);
    }
  }

  lemma {:induction false} HeardConcat(fd: int, a: seq<LogEntry>, b: seq<LogEntry>)
    ensures Heard(fd, a + b) == Heard(fd, a) + Heard(fd, b)
  {
    if b == [] {
      assert a + b == a;
    } else {
      assert Front(a + b) == a + Front(b);
      HeardConcat(fd, a, Front(b));
    }
  }

  /** A broadcast reaches every member exactly once, and nobody else. */
  lemma {:induction false} BroadcastOnce(members: seq<int>, msg: Message, fd: int)
    requires Distinct(members) && msg.Chat?
    ensures ChatsTo(fd, Broadcast(members, msg)) == if fd in members then [msg] else []
  {
    if members != [] {
      BroadcastOnce(Front(members), msg, fd);
      assert Front(Broadcast(members, msg)) == Broadcast(Front(members), msg);
      assert members == Front(members) + [Last(members)];
    }
  }

  /** A step that logs no chat sends at most one message, a reply. */
  lemma QuietStep(s: State, e: Event)
    requires Inv(s) && Legal(s, e) && Logged(s, e) == []
    ensures var ds := Step(s, e).1;
            ds == [] || (|ds| == 1 && ds[0].msg.Reply? && ds[0].fd in s.users && WellFormed(ds[0].msg))
  {
    hide Broadcast, LeaveRoom, PollsAgree;
  }

  lemma RepliesAreNoChats(ds: seq<Delivery>, fd: int)
    requires ds == [] || (|ds| == 1 && ds[0].msg.Reply?)
    ensures ChatsTo(fd, ds) == []
  {
    if ds != [] { assert Front(ds) == [] && ChatTo(fd, ds[0]) == []; }
  }

  lemma HeardOne(fd: int, entry: LogEntry)
    ensures Heard(fd, [entry]) == if InRoom(fd, entry) then [entry.msg] else []
  {
    assert Front([entry]) == [];
  }

  lemma MemberIffInRoom(s: State, fd: int, r: byte)
    requires Inv(s) && 1 <= r <= |s.rooms|
    ensures fd in s.rooms[r - 1] <==> fd in s.users && s.users[fd].room == r
  {
  }

  /** A step that logs a chat broadcasts it to the sender's room. */
  lemma LoudStep(s: State, e: Event, entry: LogEntry)
    requires Inv(s) && Legal(s, e) && Logged(s, e) == [entry]
    ensures 1 <= entry.room <= |s.rooms| && entry.seen == s.users && entry.msg.Chat?
    ensures Step(s, e).1 == Broadcast(s.rooms[entry.room - 1], entry.msg)
    ensures Distinct(s.rooms[entry.room - 1]) && WellFormed(entry.msg)
    ensures forall fd :: fd in s.rooms[entry.room - 1] ==> fd in s.users
  {
    hide Broadcast, LeaveRoom, Protocol.Join, Rename, PollsAgree;
    assert entry == Logged(s, e)[0];
  }

  lemma StepDeliversHeard(s: State, e: Event, fd: int)
    requires Inv(s) && Legal(s, e)
    ensures ChatsTo(fd, Step(s, e).1) == Heard(fd, Logged(s, e))
  {
    hide Step, Inv, Legal, ChatsTo, Heard, Broadcast, Distinct, WellFormed;
    if Logged(s, e) != [] {
      var entry := Logged(s, e)[0];
      assert Logged(s, e) == [entry];
      LoudStep(s, e, entry);
      hide Logged;
      BroadcastOnce(s.rooms[entry.room - 1], entry.msg, fd);
      HeardOne(fd, entry);
      MemberIffInRoom(s, fd, entry.room);
    } else {
      QuietStep(s, e);
      RepliesAreNoChats(Step(s, e).1, fd);
      NothingHeard(fd);
    }
  }

  lemma NothingHeard(fd: int)
    ensures Heard(fd, []) == []
  {
  }

  /**
   * Over any run, the chat frames delivered to a client are exactly the entries of the global log whose room was
   * that client's room when the chat was handled, in log order.
   */
  lemma {:induction false} DeliveredIsHeard(s: State, es: seq<Event>, fd: int)
    requires Inv(s) && LegalRun(s, es)
    ensures ChatsTo(fd, Outputs(s, es)) == Heard(fd, ChatLog(s, es))
    decreases |es|
  {
    if es != [] {
      var t := Run(s, Front(es));
      DeliveredIsHeard(s, Front(es), fd);
      StepDeliversHeard(t, Last(es), fd);
      ChatsToConcat(fd, Outputs(s, Front(es)), Step(t, Last(es)).1);
      HeardConcat(fd, ChatLog(s, Front(es)), Logged(t, Last(es)));
    }
  }

  /** The log positions of what a client hears. */
  ghost function HeardAt(fd: int, log: seq<LogEntry>): (p: seq<nat>)
    ensures forall i :: 0 <= i < |p| ==> p[i] < |log|
    ensures forall i, j :: 0 <= i < j < |p| ==> p[i] < p[j]
    ensures forall k :: 0 <= k < |log| ==> (k in p <==> InRoom(fd, log[k]))
  {
    if log == [] then []
    else
      var p := HeardAt(fd, Front(log));
      var n := |log| - 1;
      assert forall k :: 0 <= k < n ==> Front(log)[k] == log[k];
      if InRoom(fd, Last(log)) then p + [n] else p
  }

  lemma {:induction false} HeardIsAt(fd: int, log: seq<LogEntry>)
    ensures |Heard(fd, log)| == |HeardAt(fd, log)|
    ensures forall i :: 0 <= i < |HeardAt(fd, log)| ==> Heard(fd, log)[i] == log[HeardAt(fd, log)[i]].msg
  {
    if log != [] { HeardIsAt(fd, Front(log)); }
  }
}
