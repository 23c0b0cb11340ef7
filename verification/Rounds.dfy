/** What one round of the poll loop does to each connection, told by the events that poll returned. */
module Rounds {
  import opened Bits
  import opened Sequences
  import opened Messages
  import opened PollfdArrays
  import opened Protocol
  import opened Runs
  import opened Worlds
  import opened Passes

  lemma HangUpBit(x: nat)
    ensures BitAnd(x, POLLHUP) != 0 <==> x / 16 % 2 == 1
  {
    assert BitAnd(x / 16, 1) == if x / 16 % 2 == 1 then 1 else 0 by { InputBit(x / 16); }
    assert x / 2 / 2 / 2 / 2 == x / 16;
    assert BitAnd(x / 2 / 2 / 2, 2) == 2 * BitAnd(x / 16, 1);
    assert BitAnd(x / 2 / 2, 4) == 2 * BitAnd(x / 2 / 2 / 2, 2);
    assert BitAnd(x / 2, 8) == 2 * BitAnd(x / 2 / 2, 4);
  }

  lemma InputBit(x: nat)
    ensures BitAnd(x, 1) == x % 2
  {
    assert BitAnd(x / 2, 0) == 0;
  }

  // ----- what visits do to a link -----

  ghost predicate Touches(fd: int, v: Visit)
  {
    v.Served? && v.event.fd == fd
  }

  lemma OthersUntouched(w: World, e: Event, fd: int)
    requires WorldInv(w) && Possible(w, Serves(e)) && e.fd != fd
    ensures var links := Next(w, Serves(e)).links;
            && (fd in links <==> fd in w.links)
            && (fd in links ==> links[fd].said == w.links[fd].said && links[fd].handled == w.links[fd].handled)
  {
    hide Inv, Step;
  }

  lemma LastVisit(w: World, log: seq<Visit>)
    requires WorldInv(w) && PossibleRun(w, Happenings(log)) && log != []
    ensures PossibleRun(w, Happenings(Front(log)))
    ensures Last(log).Served? ==> Possible(WorldRun(w, Happenings(Front(log))), Serves(Last(log).event))
    ensures WorldRun(w, Happenings(log)) == NextVisit(WorldRun(w, Happenings(Front(log))), Last(log))
  {
    hide WorldInv, Possible, Next;
    var hs := Happenings(Front(log));
    if Last(log).Served? {
      assert Front(Happenings(log)) == hs;
    } else {
      assert Happenings(log) == hs;
    }
  }

  /** Visits that serve others leave a connection alone. */
  lemma {:induction false} Untouched(w: World, log: seq<Visit>, fd: int)
    requires WorldInv(w) && PossibleRun(w, Happenings(log)) && forall v :: v in log ==> !Touches(fd, v)
    ensures var links := WorldRun(w, Happenings(log)).links;
            && (fd in links <==> fd in w.links)
            && (fd in links ==> links[fd].said == w.links[fd].said && links[fd].handled == w.links[fd].handled)
    decreases |log|
  {
    hide WorldInv, PossibleRun, Possible, Next;
    if log == [] {
      NothingHappened(w);
    } else {
      LastVisit(w, log);
      assert Last(log) in log && forall v :: v in Front(log) ==> v in log;
      Untouched(w, Front(log), fd);
      if Last(log).Served? { OthersUntouched(WorldRun(w, Happenings(Front(log))), Last(log).event, fd); }
    }
  }

  lemma EventServed(w: World, e: Event)
    requires WorldInv(w) && Possible(w, Serves(e))
    ensures ServedLink(w.links, Next(w, Serves(e)).links, e)
  {
    hide Inv, Step;
  }

  /** What an event does to the link of its descriptor. */
  ghost predicate ServedLink(links: map<int, Link>, links': map<int, Link>, e: Event)
  {
    match e
    case Connect(fd) => fd in links' && links'[fd].said == [] && links'[fd].handled == 0
    case Disconnect(fd, why) => fd in links && fd !in links' && (why == EndOfStream ==> links[fd].handled >= |links[fd].said|)
    case Receive(fd, _, _) => fd in links && fd in links' && links'[fd].said == links[fd].said && links'[fd].handled == links[fd].handled + 1
  }

  /** The only visit that serves a connection decides what becomes of it. */
  lemma {:induction false} TouchedOnce(w: World, log: seq<Visit>, fd: int, i: nat)
    requires WorldInv(w) && PossibleRun(w, Happenings(log)) && i < |log| && Touches(fd, log[i])
    requires forall j :: 0 <= j < |log| && j != i ==> !Touches(fd, log[j])
    ensures ServedLink(w.links, WorldRun(w, Happenings(log)).links, log[i].event)
    decreases |log|
  {
    hide WorldInv, PossibleRun, Possible, Next;
    LastVisit(w, log);
    var v := WorldRun(w, Happenings(Front(log)));
    if i == |log| - 1 {
      Untouched(w, Front(log), fd);
      EventServed(v, log[i].event);
    } else {
      TouchedOnce(w, Front(log), fd, i);
      if Last(log).Served? { OthersUntouched(v, Last(log).event, fd); }
    }
  }

  // ----- which visits a finished pass makes -----

  /** Every descriptor has its own events, those that poll returned for it. */
  lemma SnapshotEntries(s: State, entries: seq<PollFd>, ready: map<int, nat>)
    requires EntriesOf(s, entries) && Inv(s)
    ensures var snapshot := Polled(entries, Returned(entries, ready));
            && (forall e :: e in snapshot ==> e.fd in s.fds && e.revents == ReadyOf(ready, e.fd))
            && (forall fd :: fd in s.fds ==> PollFd(fd, POLLIN, ReadyOf(ready, fd)) in snapshot)
  {
    hide RoomsAgree;
    var snapshot := Polled(entries, Returned(entries, ready));
    forall fd | fd in s.fds ensures PollFd(fd, POLLIN, ReadyOf(ready, fd)) in snapshot {
      var i :| 0 <= i < |s.fds| && s.fds[i] == fd;
      assert snapshot[i] == PollFd(fd, POLLIN, ReadyOf(ready, fd));
    }
  }

  /** A visit that serves something serves an entry of the snapshot. */
  lemma ServedInSnapshot(listener: int, accepted: int, clock: int -> int, snapshot: seq<PollFd>, log: seq<Visit>, v: Visit)
    requires Complete(listener, accepted, clock, snapshot, log) && v in log && v.Served?
    ensures v.entry in snapshot && Proper(listener, accepted, clock, v)
  {
    hide Appended, BitAnd;
    AppendedAreQuiet(log);
    var i :| 0 <= i < |log| && log[i] == v;
    assert Entries(log)[i] == v.entry;
    ServedHasEvents(listener, accepted, clock, v);
    NotAppended(v.entry, Entries(log), snapshot, Appended(log));
  }

  /** An entry with a hang-up or input is served. */
  lemma ReadyIsServed(listener: int, accepted: int, clock: int -> int, snapshot: seq<PollFd>, log: seq<Visit>, e: PollFd)
    requires Complete(listener, accepted, clock, snapshot, log) && e in snapshot && (HungUp(e) || HasInput(e))
    ensures exists i :: 0 <= i < |log| && log[i].Served? && log[i].entry == e
  {
    hide Appended;
    assert VisitedOnce(log, e);
    var i :| 0 <= i < |log| && log[i].entry == e;
    assert log[i] in log && Proper(listener, accepted, clock, log[i]);
  }

  lemma VisitFacts(listener: int, w: World, pass: Pass, v: Visit)
    requires WorldInv(w) && PassFits(listener, w, pass) && v in pass.log && v.Served?
    ensures var s := PassStart(listener, w, pass).server;
            && v.entry.fd in s.fds && v.entry.revents == ReadyOf(pass.input.ready, v.entry.fd)
            && Proper(listener, Accepting(s, pass.input.accepted), pass.input.clock, v)
  {
    hide Inv, Possible, Next, PossibleRun, WorldRun, Complete, Proper, Returned, Polled;
    var s := PassStart(listener, w, pass).server;
    SnapshotEntries(s, pass.entries, pass.input.ready);
    ServedInSnapshot(listener, Accepting(s, pass.input.accepted), pass.input.clock,
                     Polled(pass.entries, Returned(pass.entries, pass.input.ready)), pass.log, v);
  }

  lemma StartFacts(listener: int, w: World, pass: Pass)
    requires WorldInv(w) && PassFits(listener, w, pass)
    ensures var v := PassStart(listener, w, pass);
            && v.links.Keys == v.server.users.Keys && Inv(v.server) && listener in v.server.fds
            && (forall fd {:trigger fd in v.server.fds} :: fd in v.server.fds ==> fd >= 0)
            && (forall fd {:trigger fd in v.links} {:trigger fd in v.server.fds} :: fd in v.links <==> fd in v.server.fds && fd != listener)
            && ServedOnce(pass.log) && PossibleRun(v, Happenings(pass.log))
            && Accepting(v.server, pass.input.accepted) !in v.server.fds
  {
    hide Possible, Next, PossibleRun, WorldRun, AllProper, VisitedOnce, EntriesOf, Happenings;
  }

  /** Nothing is served twice in a round. */
  lemma OneTouch(listener: int, w: World, pass: Pass, fd: int, i: nat)
    requires WorldInv(w) && PassFits(listener, w, pass) && i < |pass.log| && Touches(fd, pass.log[i])
    ensures forall j :: 0 <= j < |pass.log| && j != i ==> !Touches(fd, pass.log[j])
  {
    hide WorldInv, PassFits, Inv, PassStart, BitAnd;
    StartFacts(listener, w, pass);
    VisitFacts(listener, w, pass, pass.log[i]);
    forall j | 0 <= j < |pass.log| && j != i ensures !Touches(fd, pass.log[j]) {
      if Touches(fd, pass.log[j]) { VisitFacts(listener, w, pass, pass.log[j]); }
    }
  }

  /** A client that has reset its connection is among those cut off. */
  lemma {:induction false} ResetIsCounted(log: seq<Visit>, i: nat, fd: int)
    requires i < |log| && log[i].Served? && log[i].event == Disconnect(fd, ConnReset)
    ensures Cuts(log) > 0 && Serves(Disconnect(fd, ConnReset)) in Happenings(log)
  {
    if i < |log| - 1 { ResetIsCounted(Front(log), i, fd); }
  }

  lemma ReadyVisit(listener: int, w: World, pass: Pass, fd: int) returns (i: nat)
    requires WorldInv(w) && PassFits(listener, w, pass) && fd in PassStart(listener, w, pass).server.fds
    requires ReadyOf(pass.input.ready, fd) / 16 % 2 == 1 || ReadyOf(pass.input.ready, fd) % 2 == 1
    ensures i < |pass.log| && pass.log[i].Served? && pass.log[i].entry.fd == fd
  {
    hide Inv, Possible, Next, PossibleRun, WorldRun, Complete, Returned, Polled, BitAnd;
    var s, ready := PassStart(listener, w, pass).server, pass.input.ready;
    var entry := PollFd(fd, POLLIN, ReadyOf(ready, fd));
    HangUpBit(entry.revents);
    InputBit(entry.revents);
    SnapshotEntries(s, pass.entries, ready);
    ReadyIsServed(listener, Accepting(s, pass.input.accepted), pass.input.clock,
                  Polled(pass.entries, Returned(pass.entries, ready)), pass.log, entry);
    i :| 0 <= i < |pass.log| && pass.log[i].Served? && pass.log[i].entry == entry;
  }

  /** A visit that serves a client: its own events have asked for it. */
  lemma ClientVisit(listener: int, w: World, pass: Pass, fd: int, v: Visit)
    requires WorldInv(w) && PassFits(listener, w, pass) && fd in PassStart(listener, w, pass).links
    requires v in pass.log && v.Served? && (v.entry.fd == fd || v.event.fd == fd)
    ensures v.event.fd == fd && !v.event.Connect? && (v.event.Receive? ==> v.event.now == pass.input.clock(fd))
    ensures var e := ReadyOf(pass.input.ready, fd);
            if e / 16 % 2 == 1 then v.event == Disconnect(fd, HangUp)
            else e % 2 == 1 && v.event != Disconnect(fd, HangUp)
  {
    hide WorldInv, PassFits, PassStart, Inv, BitAnd, Accepting;
    StartFacts(listener, w, pass);
    VisitFacts(listener, w, pass, v);
    HangUpBit(v.entry.revents);
    InputBit(v.entry.revents);
  }

  /**
   * What a round does to a client that is connected when poll returns, told by the events that poll returned for it:
   * a hang-up ends the connection; with input alone, the next message is handled, or the connection ends because its
   * client has sent no more or has reset it; with neither, it is left alone.
   */
  lemma RoundOfClient(listener: int, w: World, pass: Pass, fd: int, e: nat)
    requires WorldInv(w) && PassFits(listener, w, pass) && fd in PassStart(listener, w, pass).links
    requires e == if fd in pass.input.ready then pass.input.ready[fd] else 0
    ensures var before, after := PassStart(listener, w, pass).links, PassEnd(listener, w, pass).links;
            && (e / 16 % 2 == 1 ==> fd !in after)
            && (e / 16 % 2 == 0 && e % 2 == 1 ==>
                  if fd in after then after[fd].handled == before[fd].handled + 1
                  else || before[fd].handled >= |before[fd].said|
                       || (Serves(Disconnect(fd, ConnReset)) in Happenings(pass.log) && Cuts(pass.log) > 0))
            && (e / 16 % 2 == 0 && e % 2 == 0 ==> fd in after && after[fd].handled == before[fd].handled)
            && (fd in after ==> after[fd].said == before[fd].said)
  {
    hide WorldInv, PossibleRun, WorldRun, Complete, EntriesOf, Happenings, Cuts;
    StartFacts(listener, w, pass);
    var start, log := PassStart(listener, w, pass), pass.log;
    if e / 16 % 2 == 1 || e % 2 == 1 {
      var i := ReadyVisit(listener, w, pass, fd);
      ClientVisit(listener, w, pass, fd, log[i]);
      OneTouch(listener, w, pass, fd, i);
      TouchedOnce(start, log, fd, i);
      if log[i].event.Disconnect? && log[i].event.why == ConnReset { ResetIsCounted(log, i, fd); }
    } else {
      forall v | v in log ensures !Touches(fd, v) {
        if Touches(fd, v) { ClientVisit(listener, w, pass, fd, v); }
      }
      Untouched(start, log, fd);
    }
  }

  /** A visit that serves somebody who is not connected: a client that was accepted. */
  lemma NewcomerVisit(listener: int, w: World, pass: Pass, v: Visit)
    requires WorldInv(w) && PassFits(listener, w, pass) && v in pass.log && v.Served?
    requires v.entry.fd == listener || v.event.fd !in PassStart(listener, w, pass).links
    ensures v.event == Connect(Accepting(PassStart(listener, w, pass).server, pass.input.accepted))
    ensures v.entry.fd == listener && ReadyOf(pass.input.ready, listener) % 2 == 1
  {
    hide WorldInv, PassFits, PassStart, Inv, BitAnd, Accepting;
    StartFacts(listener, w, pass);
    VisitFacts(listener, w, pass, v);
    InputBit(v.entry.revents);
  }

  lemma {:induction false} ConnectsAreLegal(w: World, log: seq<Visit>, v: Visit)
    requires WorldInv(w) && PossibleRun(w, Happenings(log)) && v in log && v.Served? && v.event.Connect?
    ensures v.event.fd >= 0
    decreases |log|
  {
    hide WorldInv, PossibleRun, WorldRun, NextVisit;
    LastVisit(w, log);
    if v != Last(log) {
      assert v in Front(log);
      ConnectsAreLegal(w, Front(log), v);
    }
  }

  /**
   * Who joins in a round: if poll returned input for the listener, the client that accept returned, as a new
   * connection, and nobody else ever.
   */
  lemma RoundOfListener(listener: int, w: World, pass: Pass, fd: int, e: nat)
    requires WorldInv(w) && PassFits(listener, w, pass) && fd !in PassStart(listener, w, pass).links
    requires e == if listener in pass.input.ready then pass.input.ready[listener] else 0
    ensures var after := PassEnd(listener, w, pass).links;
            && (fd in after <==> e % 2 == 1 && fd == pass.input.accepted)
            && (fd in after ==> after[fd].said == [] && after[fd].handled == 0)
  {
    hide WorldInv, PossibleRun, WorldRun, Complete, EntriesOf, Happenings, Possible;
    StartFacts(listener, w, pass);
    var start, log := PassStart(listener, w, pass), pass.log;
    if e % 2 == 1 && fd == pass.input.accepted {
      var i := ReadyVisit(listener, w, pass, listener);
      NewcomerVisit(listener, w, pass, log[i]);
      ConnectsAreLegal(start, log, log[i]);
      assert Touches(fd, log[i]);
    }
    if exists i :: 0 <= i < |log| && Touches(fd, log[i]) {
      var i :| 0 <= i < |log| && Touches(fd, log[i]);
      NewcomerVisit(listener, w, pass, log[i]);
      ConnectsAreLegal(start, log, log[i]);
      OneTouch(listener, w, pass, fd, i);
      TouchedOnce(start, log, fd, i);
    } else {
      Untouched(start, log, fd);
    }
  }

  /** When a waiting client cannot be accepted: accept returned no new descriptor, or there is no memory. */
  lemma CannotAcceptWhen(listener: int, s: State, input: Input, e: nat)
    requires e == if listener in input.ready then input.ready[listener] else 0
    ensures CannotAccept(listener, s, input) <==>
              e % 2 == 1 && (input.accepted < 0 || input.accepted >= 0x8000_0000 || input.accepted in s.fds || !input.memory(listener))
  {
    InputBit(e);
  }

  lemma {:induction false} HappeningsAreVisits(log: seq<Visit>, h: Happening)
    requires h in Happenings(log)
    ensures exists v :: v in log && v.Served? && h == Serves(v.event)
  {
    if Last(log).Served? && h == Serves(Last(log).event) {
      assert Last(log) in log;
    } else {
      HappeningsAreVisits(Front(log), h);
      var v :| v in Front(log) && v.Served? && h == Serves(v.event);
      assert v in log;
    }
  }

  /** Every message is handled at the time at which its client was served. */
  lemma RoundTimes(listener: int, w: World, pass: Pass, fd: int, msg: Message, now: int)
    requires WorldInv(w) && PassFits(listener, w, pass) && Serves(Receive(fd, msg, now)) in Happenings(pass.log)
    ensures now == pass.input.clock(fd)
  {
    hide WorldInv, PassFits, PassStart, Happenings;
    HappeningsAreVisits(pass.log, Serves(Receive(fd, msg, now)));
    var v :| v in pass.log && v.Served? && v.event == Receive(fd, msg, now);
    VisitFacts(listener, w, pass, v);
  }

  // ----- the order of the visits -----

  lemma {:induction false} PrefixInOrder(snapshot: seq<PollFd>, log: seq<Visit>, k: nat)
    requires InOrder(snapshot, log) && k < |log|
    ensures InOrder(snapshot, log[..k])
    ensures var c := WalkTo(snapshot, log[..k]); c.at < |c.contents| && log[k].entry == c.contents[c.at]
    ensures WalkTo(snapshot, log[..k + 1]) == Past(WalkTo(snapshot, log[..k]), log[k])
  {
    hide Past;
    assert Front(log[..k + 1]) == log[..k];
    if k < |log| - 1 {
      PrefixInOrder(snapshot, Front(log), k);
      assert Front(log)[..k] == log[..k];
    } else {
      assert Front(log) == log[..k];
    }
  }

  lemma {:induction false} UndisturbedWalk(snapshot: seq<PollFd>, log: seq<Visit>, k: nat)
    requires InOrder(snapshot, log) && k <= |log| && forall j :: 0 <= j < k ==> !Removes(log[j])
    ensures WalkTo(snapshot, log[..k]) == Cursor(snapshot + Appended(log[..k]), k)
  {
    hide Added, Removes, InOrder;
    if k == 0 {
      assert snapshot + [] == snapshot;
    } else {
      UndisturbedWalk(snapshot, log, k - 1);
      PrefixInOrder(snapshot, log, k - 1);
      assert Front(log[..k]) == log[..k - 1];
      assert snapshot + Appended(log[..k - 1]) + Added(log[k - 1]) == snapshot + (Appended(log[..k - 1]) + Added(log[k - 1]));
    }
  }

  /**
   * Until a client is disconnected the entries are visited as they lie in the poll array, behind them those of the
   * clients accepted meanwhile. Right after the first disconnect the entry that was the last one is visited.
   */
  lemma VisitOrder(snapshot: seq<PollFd>, log: seq<Visit>, k: nat)
    requires InOrder(snapshot, log) && k < |log|
    requires forall j :: 0 <= j < k ==> !(log[j].Served? && log[j].event.Disconnect?)
    ensures var contents := snapshot + Appended(log[..k]);
            && k < |contents| && log[k].entry == contents[k]
            && (k + 1 < |log| && log[k].Served? && log[k].event.Disconnect? ==> log[k + 1].entry == contents[|contents| - 1])
  {
    UndisturbedWalk(snapshot, log, k);
    PrefixInOrder(snapshot, log, k);
    if k + 1 < |log| { PrefixInOrder(snapshot, log, k + 1); }
  }

  /**
   * The order in which a round serves: that of the poll array until the first disconnect at index k; the visit right
   * after it is of the last descriptor, or of the client accepted in this round.
   */
  lemma RoundOrder(listener: int, w: World, pass: Pass, k: nat)
    requires WorldInv(w) && PassFits(listener, w, pass) && k < |pass.log|
    requires forall j :: 0 <= j < k ==> !(pass.log[j].Served? && pass.log[j].event.Disconnect?)
    ensures var fds, log := PassStart(listener, w, pass).server.fds, pass.log;
            && (k < |fds| ==> log[k].entry.fd == fds[k])
            && (k + 1 < |log| && log[k].Served? && log[k].event.Disconnect? ==>
                  log[k + 1].entry.fd == fds[|fds| - 1] || log[k + 1].entry.fd == pass.input.accepted)
  {
    hide Inv, Possible, Next, PossibleRun, WorldRun, Proper, VisitedOnce, ServedOnce, Entries, WalkTo, InOrder, Appended;
    var s, log := PassStart(listener, w, pass).server, pass.log;
    var snapshot := Polled(pass.entries, Returned(pass.entries, pass.input.ready));
    VisitOrder(snapshot, log, k);
    AppendedFds(listener, w, pass, k);
  }

  lemma {:induction false} AppendedFds(listener: int, w: World, pass: Pass, k: nat)
    requires WorldInv(w) && PassFits(listener, w, pass) && k <= |pass.log|
    ensures forall e :: e in Appended(pass.log[..k]) ==> e.fd == pass.input.accepted
    decreases k
  {
    hide WorldInv, PassFits, PassStart, Inv, Accepting, BitAnd;
    if k > 0 {
      var v := pass.log[k - 1];
      AppendedFds(listener, w, pass, k - 1);
      assert Front(pass.log[..k]) == pass.log[..k - 1];
      if v.Served? && v.event.Connect? {
        StartFacts(listener, w, pass);
        VisitFacts(listener, w, pass, v);
        ConnectsAreLegal(PassStart(listener, w, pass), pass.log, v);
        AcceptedIsInput(PassStart(listener, w, pass).server, pass.input.accepted);
      }
    }
  }

  lemma AcceptedIsInput(s: State, fd: int)
    ensures Accepting(s, fd) >= 0 ==> Accepting(s, fd) == fd
  {
  }

  // ----- what arrives before a round -----

  /** The messages that a client has sent among the arrivals. */
  ghost function SentBy(fd: int, arrivals: seq<Arrival>): seq<Message>
  {
    if arrivals == [] then []
    else SentBy(fd, Front(arrivals)) + if Last(arrivals).fd == fd then [Last(arrivals).msg] else []
  }

  /** Arrivals join what their clients have said, in order, and change nothing else. */
  lemma {:induction false} ArrivalsAreSaid(w: World, arrivals: seq<Arrival>)
    requires WorldInv(w) && PossibleRun(w, Sendings(arrivals))
    ensures var v := WorldRun(w, Sendings(arrivals));
            && v.server == w.server && v.links.Keys == w.links.Keys
            && forall fd {:trigger v.links[fd]} :: fd in w.links ==>
                 && v.links[fd].said == w.links[fd].said + SentBy(fd, arrivals)
                 && v.links[fd].handled == w.links[fd].handled && v.links[fd].told == w.links[fd].told
    decreases |arrivals|
  {
    hide WorldInv, Possible;
    if arrivals == [] {
      assert Sendings(arrivals) == [];
      assert forall fd :: fd in w.links ==> w.links[fd].said + [] == w.links[fd].said;
    } else {
      assert Front(Sendings(arrivals)) == Sendings(Front(arrivals)) && Last(Sendings(arrivals)) == Arrives(Last(arrivals));
      ArrivalsAreSaid(w, Front(arrivals));
    }
  }

  /** Each pass of a trace starts where the one before has ended. */
  lemma {:induction false} EveryRound(listener: int, w: World, passes: seq<Pass>, k: nat)
    requires WorldInv(w) && TraceOk(listener, w, passes) && k < |passes|
    ensures TraceOk(listener, w, passes[..k]) && TraceOk(listener, w, passes[..k + 1])
    ensures PassFits(listener, TraceEnd(listener, w, passes[..k]), passes[k])
    ensures TraceEnd(listener, w, passes[..k + 1]) == PassEnd(listener, TraceEnd(listener, w, passes[..k]), passes[k])
    decreases |passes|
  {
    hide WorldInv, PassFits, PassEnd;
    if k == |passes| - 1 {
      assert passes[..k] == Front(passes) && passes[..k + 1] == passes;
    } else {
      EveryRound(listener, w, Front(passes), k);
      assert Front(passes)[..k] == passes[..k] && Front(passes)[..k + 1] == passes[..k + 1];
    }
  }
}
