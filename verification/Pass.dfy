/** What a pass of the poll loop serves, and what a sequence of passes does to the world. */
module Passes {
  import opened Bits
  import opened Sequences
  import opened Messages
  import opened PollfdArrays
  import opened Protocol
  import opened Runs
  import opened Worlds

  predicate HungUp(entry: PollFd) { BitAnd(entry.revents, POLLHUP) != 0 }

  predicate HasInput(entry: PollFd) { BitAnd(entry.revents, POLLIN) != 0 }

  /** One visit of the poll loop: nothing to do, or one event. */
  datatype Visit = Idle(entry: PollFd) | Served(entry: PollFd, event: Event)

  /**
   * A hung-up client is disconnected; input on the listener connects the client that accept returned; input on a
   * client is a message, handled at the time of the clock, or the end of the connection; anything else is left alone.
   */
  predicate Proper(listener: int, accepted: int, clock: int -> int, v: Visit)
  {
    match v
    case Idle(entry) => !HungUp(entry) && !HasInput(entry)
    case Served(entry, Connect(fd)) => !HungUp(entry) && HasInput(entry) && entry.fd == listener && fd == accepted
    case Served(entry, Disconnect(fd, why)) =>
      entry.fd == fd && fd != listener && if HungUp(entry) then why == HangUp else HasInput(entry) && why != HangUp
    case Served(entry, Receive(fd, _, now)) =>
      !HungUp(entry) && HasInput(entry) && entry.fd == fd && fd != listener && now == clock(fd)
  }

  ghost predicate AllProper(listener: int, accepted: int, clock: int -> int, log: seq<Visit>)
  {
    forall v :: v in log ==> Proper(listener, accepted, clock, v)
  }

  ghost function Entries(log: seq<Visit>): seq<PollFd>
  {
    seq(|log|, i requires 0 <= i < |log| => log[i].entry)
  }

  ghost function HappeningIn(v: Visit): seq<Happening>
  {
    if v.Served? then [Serves(v.event)] else []
  }

  /** What a pass serves, in order. */
  ghost function Happenings(log: seq<Visit>): seq<Happening>
  {
    if log == [] then [] else Happenings(Front(log)) + HappeningIn(Last(log))
  }

  /** How many clients a pass has cut off because they had reset their connections. */
  ghost function Cuts(log: seq<Visit>): nat
  {
    if log == [] then 0 else Cuts(Front(log)) + CutIn(Last(log))
  }

  ghost function CutIn(v: Visit): nat
  {
    if v.Served? && v.event.Disconnect? && v.event.why == ConnReset then 1 else 0
  }

  lemma LogSnoc(log: seq<Visit>, v: Visit)
    ensures Entries(log + [v]) == Entries(log) + [v.entry]
    ensures Happenings(log + [v]) == Happenings(log) + HappeningIn(v)
    ensures Cuts(log + [v]) == Cuts(log) + CutIn(v)
  {
    assert Front(log + [v]) == log;
  }

  ghost function NextVisit(w: World, v: Visit): World
    requires WorldInv(w) && (v.Served? ==> Possible(w, Serves(v.event)))
  {
    if v.Served? then Next(w, Serves(v.event)) else w
  }

  /** A visit that served something adds its event to the run; an idle one adds nothing. */
  lemma LogGrows(w: World, log: seq<Visit>, v: Visit)
    requires WorldInv(w) && PossibleRun(w, Happenings(log))
    requires v.Served? ==> Possible(WorldRun(w, Happenings(log)), Serves(v.event))
    ensures PossibleRun(w, Happenings(log + [v]))
    ensures WorldRun(w, Happenings(log + [v])) == NextVisit(WorldRun(w, Happenings(log)), v)
  {
    hide WorldInv, Possible, Next;
    LogSnoc(log, v);
    if v.Served? {
      OneMore(w, Happenings(log), Serves(v.event));
    } else {
      assert Happenings(log) + [] == Happenings(log);
    }
  }

  /** The entry of an accepted connection. */
  ghost function Added(v: Visit): seq<PollFd>
  {
    if v.Served? && v.event.Connect? then [PollFd(v.event.fd, POLLIN, 0)] else []
  }

  /** The entries a pass has appended: those of the connections it accepted. */
  ghost function Appended(log: seq<Visit>): seq<PollFd>
  {
    if log == [] then []
    else Appended(Front(log)) + Added(Last(log))
  }

  lemma AppendedSnoc(log: seq<Visit>, v: Visit)
    ensures Appended(log + [v]) == Appended(log) + Added(v)
  {
    assert Front(log + [v]) == log;
  }

  /** The poll array while a pass walks over it, and the index at which it looks. */
  datatype Cursor = Cursor(contents: seq<PollFd>, at: nat)

  ghost predicate Removes(v: Visit)
  {
    v.Served? && v.event.Disconnect?
  }

  /** Past one visit: the last entry moves to where a disconnected client was and is next; otherwise the walk goes on. */
  ghost function Past(c: Cursor, v: Visit): Cursor
  {
    if Removes(v) && c.at < |c.contents| then Cursor(SwapRemove(c.contents, c.at), c.at) else Cursor(c.contents + Added(v), c.at + 1)
  }

  ghost function WalkTo(snapshot: seq<PollFd>, log: seq<Visit>): Cursor
  {
    if log == [] then Cursor(snapshot, 0) else Past(WalkTo(snapshot, Front(log)), Last(log))
  }

  /** Every visit was of the entry at which the walk was looking. */
  ghost predicate InOrder(snapshot: seq<PollFd>, log: seq<Visit>)
  {
    log == [] ||
    (&& InOrder(snapshot, Front(log))
     && var c := WalkTo(snapshot, Front(log)); c.at < |c.contents| && Last(log).entry == c.contents[c.at])
  }

  lemma WalkSnoc(snapshot: seq<PollFd>, log: seq<Visit>, v: Visit, contents: seq<PollFd>, i: nat)
    requires InOrder(snapshot, log) && WalkTo(snapshot, log) == Cursor(contents, i) && i < |contents| && v.entry == contents[i]
    ensures InOrder(snapshot, log + [v])
    ensures WalkTo(snapshot, log + [v]) ==
              if Removes(v) then Cursor(SwapRemove(contents, i), i) else Cursor(contents + Added(v), i + 1)
  {
    hide SwapRemove, Removes, Added;
    assert Front(log + [v]) == log;
  }

  /**
   * Where a pass stands: every entry of the snapshot, and every entry appended since, was either visited once or
   * still lies at index i or behind it; and the visits were made in the order of the walk.
   */
  ghost predicate PassAt(snapshot: seq<PollFd>, log: seq<Visit>, contents: seq<PollFd>, i: nat)
  {
    i <= |contents| &&
    multiset(Entries(log)) + multiset(contents[i..]) == multiset(snapshot) + multiset(Appended(log)) &&
    InOrder(snapshot, log) && WalkTo(snapshot, log) == Cursor(contents, i)
  }

  lemma PassStarts(snapshot: seq<PollFd>)
    ensures PassAt(snapshot, [], snapshot, 0)
  {
    assert snapshot[0..] == snapshot && Entries([]) == [];
  }

  /** One element moves from the rest to the visited, and d new ones join the rest. */
  lemma Transfer<T>(visited: multiset<T>, rest: multiset<T>, x: T, rest': multiset<T>, snapshot: multiset<T>, appended: multiset<T>, d: multiset<T>)
    requires visited + rest == snapshot + appended && rest == multiset{x} + rest'
    ensures (visited + multiset{x}) + (rest' + d) == snapshot + (appended + d)
  {
    forall y ensures ((visited + multiset{x}) + (rest' + d))[y] == (snapshot + (appended + d))[y] {
      assert (visited + rest)[y] == (snapshot + appended)[y];
    }
  }

  lemma SwapRemoveTail<T>(s: seq<T>, i: nat)
    requires i < |s|
    ensures SwapRemove(s, i)[i..] == SwapRemove(s[i..], 0)
    ensures multiset(s[i..]) == multiset{s[i]} + multiset(SwapRemove(s[i..], 0))
  {
    SwapRemoveMultiset(s[i..], 0);
  }

  lemma EntriesSnoc(log: seq<Visit>, v: Visit)
    ensures multiset(Entries(log + [v])) == multiset(Entries(log)) + multiset{v.entry}
    ensures multiset(Appended(log + [v])) == multiset(Appended(log)) + multiset(Added(v))
  {
    hide Added;
    LogSnoc(log, v);
    AppendedSnoc(log, v);
  }

  /** The entry at i was removed: the last entry has moved into its place. */
  lemma PassRemoves(snapshot: seq<PollFd>, log: seq<Visit>, contents: seq<PollFd>, i: nat, v: Visit)
    requires PassAt(snapshot, log, contents, i) && i < |contents| && v.entry == contents[i]
    requires Removes(v)
    ensures PassAt(snapshot, log + [v], SwapRemove(contents, i), i)
  {
    WalkSnoc(snapshot, log, v, contents, i);
    EntriesSnoc(log, v);
    SwapRemoveTail(contents, i);
    hide Entries, Appended, SwapRemove, InOrder, WalkTo;
    var rest := contents[i..];
    Transfer(multiset(Entries(log)), multiset(rest), v.entry, multiset(SwapRemove(rest, 0)), multiset(snapshot), multiset(Appended(log)), multiset{});
  }

  /** The entry at i stays; entries for accepted connections may have been appended. */
  lemma PassKeeps(snapshot: seq<PollFd>, log: seq<Visit>, contents: seq<PollFd>, i: nat, v: Visit)
    requires PassAt(snapshot, log, contents, i) && i < |contents| && v.entry == contents[i]
    requires !Removes(v)
    ensures PassAt(snapshot, log + [v], contents + Added(v), i + 1)
  {
    hide Entries, Appended, InOrder, WalkTo, Removes, Added;
    WalkSnoc(snapshot, log, v, contents, i);
    EntriesSnoc(log, v);
    var rest, rest' := contents[i..], contents[i + 1..];
    assert rest == [v.entry] + rest';
    Transfer(multiset(Entries(log)), multiset(rest), v.entry, multiset(rest'), multiset(snapshot), multiset(Appended(log)), multiset(Added(v)));
    RestKept(contents, Added(v), i + 1);
  }

  lemma RestKept<T>(s: seq<T>, added: seq<T>, i: nat)
    requires i <= |s|
    ensures (s + added)[i..] == s[i..] + added && multiset((s + added)[i..]) == multiset(s[i..]) + multiset(added)
  {
    assert (s + added)[i..] == s[i..] + added;
  }

  /** A visit moves one entry from the rest to the log, whether the loop then moves on or the last entry moves in. */
  lemma PassAdvances(snapshot: seq<PollFd>, log: seq<Visit>, contents: seq<PollFd>, i: nat, v: Visit, after: seq<PollFd>, removed: bool)
    requires PassAt(snapshot, log, contents, i) && i < |contents| && v.entry == contents[i] && removed == Removes(v)
    requires after == if removed then SwapRemove(contents, i) else contents + Added(v)
    ensures PassAt(snapshot, log + [v], after, if removed then i else i + 1)
  {
    hide PassAt;
    if removed {
      PassRemoves(snapshot, log, contents, i, v);
    } else {
      PassKeeps(snapshot, log, contents, i, v);
    }
  }

  lemma PassEnds(snapshot: seq<PollFd>, log: seq<Visit>, contents: seq<PollFd>, i: nat)
    requires PassAt(snapshot, log, contents, i) && i == |contents|
    ensures multiset(Entries(log)) == multiset(snapshot) + multiset(Appended(log))
    ensures InOrder(snapshot, log) && WalkTo(snapshot, log) == Cursor(contents, |contents|)
  {
    assert contents[i..] == [];
  }

  // ----- what a finished pass means for single clients -----

  ghost predicate DistinctFds(s: seq<PollFd>)
  {
    forall i, j :: 0 <= i < j < |s| ==> s[i].fd != s[j].fd
  }

  /** No descriptor is served twice. */
  ghost predicate ServedOnce(log: seq<Visit>)
  {
    forall i, j :: 0 <= i < j < |log| && log[i].Served? && log[j].Served? ==> log[i].entry.fd != log[j].entry.fd
  }

  /** An entry for which poll returned something is visited once. */
  ghost predicate VisitedOnce(log: seq<Visit>, entry: PollFd)
  {
    exists i :: 0 <= i < |log| && log[i].entry == entry && forall j :: 0 <= j < |log| && j != i ==> log[j].entry != entry
  }

  lemma {:induction false} AppendedAreQuiet(log: seq<Visit>)
    ensures forall e :: e in Appended(log) ==> e.revents == 0
  {
    if log != [] { AppendedAreQuiet(Front(log)); }
  }

  lemma TwicePresent<T>(s: seq<T>, i: nat, j: nat)
    requires i < j < |s| && s[i] == s[j]
    ensures multiset(s)[s[i]] >= 2
  {
    assert s == s[..j] + s[j..];
    assert s[i] in s[..j] && s[j] == s[j..][0] && s[j] in s[j..];
  }

  lemma {:induction false} PresentOnce(s: seq<PollFd>, e: PollFd)
    requires DistinctFds(s)
    ensures multiset(s)[e] == if e in s then 1 else 0
  {
    if s != [] {
      var t := Front(s);
      assert forall i, j :: 0 <= i < j < |t| ==> t[i] == s[i] && t[j] == s[j];
      PresentOnce(t, e);
      assert s == t + [Last(s)];
      if e in t {
        var i :| 0 <= i < |t| && t[i] == e;
        assert s[i].fd != s[|s| - 1].fd;
      }
    }
  }

  /** Two visits with events, of one descriptor, would be two occurrences of one entry of the snapshot. */
  lemma PassServesOnce(snapshot: seq<PollFd>, log: seq<Visit>, listener: int, accepted: int, clock: int -> int)
    requires DistinctFds(snapshot) && AllProper(listener, accepted, clock, log)
    requires multiset(Entries(log)) == multiset(snapshot) + multiset(Appended(log))
    ensures ServedOnce(log)
    ensures forall e :: e in snapshot && e.revents != 0 ==> VisitedOnce(log, e)
  {
    hide Appended, BitAnd;
    AppendedAreQuiet(log);
    var es := Entries(log);
    forall i | 0 <= i < |log| && es[i].revents != 0 ensures es[i] in snapshot && multiset(es)[es[i]] == 1 {
      NotAppended(es[i], es, snapshot, Appended(log));
      PresentOnce(snapshot, es[i]);
    }
    forall i, j | 0 <= i < j < |log| && log[i].Served? && log[j].Served? ensures log[i].entry.fd != log[j].entry.fd {
      ServedHasEvents(listener, accepted, clock, log[i]);
      ServedHasEvents(listener, accepted, clock, log[j]);
      if es[i] == es[j] { TwicePresent(es, i, j); }
      if es[i].fd == es[j].fd { SameEntry(snapshot, es[i], es[j]); }
    }
    forall e | e in snapshot && e.revents != 0 ensures VisitedOnce(log, e) {
      PresentOnce(snapshot, e);
      assert e in multiset(es);
      var i :| 0 <= i < |es| && es[i] == e;
      forall j | 0 <= j < |log| && j != i ensures log[j].entry != e {
        if es[j] == e { TwicePresent(es, if i < j then i else j, if i < j then j else i); }
      }
      assert log[i].entry == e;
    }
  }

  lemma ServedHasEvents(listener: int, accepted: int, clock: int -> int, v: Visit)
    requires Proper(listener, accepted, clock, v) && v.Served?
    ensures v.entry.revents != 0
  {
  }

  lemma NotAppended(e: PollFd, es: seq<PollFd>, snapshot: seq<PollFd>, appended: seq<PollFd>)
    requires e in es && e !in appended && multiset(es) == multiset(snapshot) + multiset(appended)
    ensures e in snapshot && multiset(es)[e] == multiset(snapshot)[e]
  {
    assert e in multiset(es);
    assert e !in multiset(appended);
    assert e in multiset(snapshot);
  }

  lemma SameEntry(s: seq<PollFd>, a: PollFd, b: PollFd)
    requires DistinctFds(s) && a in s && b in s && a.fd == b.fd
    ensures a == b
  {
  }

  // ----- rounds -----

  /**
   * What the environment contributes to a round: what the clients have sent since the last one, the events that poll
   * returns for each descriptor, what accept returns, the time at which each client is served, and for which entries
   * there is memory.
   */
  datatype Input = Input(arrivals: seq<Arrival>, ready: map<int, nat>, accepted: int, clock: int -> int, memory: int -> bool)

  /** Clients send frames of clients, and the listener never hangs up. */
  predicate InputOk(listener: int, input: Input)
  {
    && (forall a :: a in input.arrivals ==> FromClient(a.msg))
    && (listener in input.ready ==> BitAnd(input.ready[listener], POLLHUP) == 0)
  }

  function ReadyOf(ready: map<int, nat>, fd: int): nat
  {
    if fd in ready then ready[fd] else 0
  }

  /** The returned events in the order of the poll array. */
  function Returned(entries: seq<PollFd>, ready: map<int, nat>): (r: seq<nat>)
    ensures |r| == |entries| && forall i :: 0 <= i < |r| ==> r[i] == ReadyOf(ready, entries[i].fd)
  {
    seq(|entries|, i requires 0 <= i < |entries| => ReadyOf(ready, entries[i].fd))
  }

  /** The descriptor that accept returns, or -1 if that cannot be the descriptor of a new socket. */
  ghost function Accepting(s: State, fd: int): int
  {
    if Legal(s, Connect(fd)) then fd else -1
  }

  /** A client waits to be accepted, but accept fails, or there is no memory for the client. */
  ghost predicate CannotAccept(listener: int, s: State, input: Input)
  {
    BitAnd(ReadyOf(input.ready, listener), POLLIN) != 0 && (!Legal(s, Connect(input.accepted)) || !input.memory(listener))
  }

  /** The record of a round: its input, the poll array when poll was called, and the visits of its pass. */
  datatype Pass = Pass(input: Input, entries: seq<PollFd>, log: seq<Visit>)

  /**
   * A finished pass: every entry of the snapshot was visited with its own events, those with events exactly once, no
   * descriptor was served twice, every visit served what its events ask for, and the walk has come to its end.
   */
  ghost predicate Complete(listener: int, accepted: int, clock: int -> int, snapshot: seq<PollFd>, log: seq<Visit>)
  {
    && AllProper(listener, accepted, clock, log)
    && multiset(Entries(log)) == multiset(snapshot) + multiset(Appended(log))
    && ServedOnce(log)
    && InOrder(snapshot, log) && WalkTo(snapshot, log).at == |WalkTo(snapshot, log).contents|
    && forall e :: e in snapshot && e.revents != 0 ==> VisitedOnce(log, e)
  }

  ghost function Sendings(arrivals: seq<Arrival>): seq<Happening>
  {
    seq(|arrivals|, i requires 0 <= i < |arrivals| => Arrives(arrivals[i]))
  }

  /** The poll array when poll was called is that of the state, and polls for input. */
  ghost predicate EntriesOf(s: State, entries: seq<PollFd>)
  {
    |entries| == |s.fds| && forall i :: 0 <= i < |entries| ==> entries[i].fd == s.fds[i] && entries[i].events == POLLIN
  }

  /** The pass is one that the world w allows, on exactly its own input. */
  ghost predicate PassFits(listener: int, w: World, pass: Pass)
    requires WorldInv(w)
  {
    && PossibleRun(w, Sendings(pass.input.arrivals))
    && var v := WorldRun(w, Sendings(pass.input.arrivals));
       && v.server.fds != [] && v.server.fds[0] == listener && EntriesOf(v.server, pass.entries)
       && Complete(listener, Accepting(v.server, pass.input.accepted), pass.input.clock,
                   Polled(pass.entries, Returned(pass.entries, pass.input.ready)), pass.log)
       && PossibleRun(v, Happenings(pass.log))
  }

  /** The world when poll returns. */
  ghost function PassStart(listener: int, w: World, pass: Pass): (w': World)
    requires WorldInv(w) && PassFits(listener, w, pass)
    ensures WorldInv(w')
  {
    WorldRun(w, Sendings(pass.input.arrivals))
  }

  ghost function PassEnd(listener: int, w: World, pass: Pass): (w': World)
    requires WorldInv(w) && PassFits(listener, w, pass)
    ensures WorldInv(w')
  {
    WorldRun(PassStart(listener, w, pass), Happenings(pass.log))
  }

  /** The passes follow one another, each from where the one before has ended. */
  ghost predicate TraceOk(listener: int, w: World, passes: seq<Pass>)
    requires WorldInv(w)
    decreases |passes|, 0
  {
    passes == [] || (TraceOk(listener, w, Front(passes)) && PassFits(listener, TraceEnd(listener, w, Front(passes)), Last(passes)))
  }

  ghost function TraceEnd(listener: int, w: World, passes: seq<Pass>): (w': World)
    requires WorldInv(w) && TraceOk(listener, w, passes)
    ensures WorldInv(w')
    decreases |passes|, 1
  {
    if passes == [] then w else PassEnd(listener, TraceEnd(listener, w, Front(passes)), Last(passes))
  }

  /** Everything that has happened in the passes, in order. */
  ghost function History(passes: seq<Pass>): seq<Happening>
  {
    if passes == [] then []
    else History(Front(passes)) + (Sendings(Last(passes).input.arrivals) + Happenings(Last(passes).log))
  }

  ghost function AllCuts(passes: seq<Pass>): nat
  {
    if passes == [] then 0 else AllCuts(Front(passes)) + Cuts(Last(passes).log)
  }

  lemma TraceSnoc(listener: int, w: World, passes: seq<Pass>, pass: Pass)
    requires WorldInv(w) && TraceOk(listener, w, passes) && PassFits(listener, TraceEnd(listener, w, passes), pass)
    ensures TraceOk(listener, w, passes + [pass])
    ensures TraceEnd(listener, w, passes + [pass]) == PassEnd(listener, TraceEnd(listener, w, passes), pass)
    ensures AllCuts(passes + [pass]) == AllCuts(passes) + Cuts(pass.log)
  {
    hide WorldInv, PassFits, PassEnd;
    assert Front(passes + [pass]) == passes;
  }

  /** A sequence of passes is a run of the world, on the history of the passes. */
  lemma {:induction false} TraceIsRun(listener: int, w: World, passes: seq<Pass>)
    requires WorldInv(w) && TraceOk(listener, w, passes)
    ensures PossibleRun(w, History(passes)) && WorldRun(w, History(passes)) == TraceEnd(listener, w, passes)
    decreases |passes|
  {
    hide WorldInv, PossibleRun, WorldRun, Complete, EntriesOf, Happenings, Sendings;
    if passes == [] {
      NothingHappened(w);
    } else {
      var v, pass := TraceEnd(listener, w, Front(passes)), Last(passes);
      var a, b := Sendings(pass.input.arrivals), Happenings(pass.log);
      TraceIsRun(listener, w, Front(passes));
      WorldConcat(v, a, b);
      WorldConcat(w, History(Front(passes)), a + b);
    }
  }
}
