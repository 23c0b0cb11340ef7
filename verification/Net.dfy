/** Sending and receiving whole frames over byte streams that move in arbitrary pieces. */
module Net {
  import opened Bits
  import opened Messages

  /**
   * A connection: bytes the peer has sent that are not read yet, bytes written to the peer, and whether a send to
   * the peer has failed, after which what was written need not be whole frames.
   */
  datatype Conn = Conn(incoming: seq<byte>, outgoing: seq<byte>, broken: bool)

  const FRESH := Conn([], [], false)

  /**
   * The errors that the kernel has reported: to whom sends have failed, and how many receives have failed or found
   * the connection reset by the peer, which is not counted as a failed receive.
   */
  datatype Errors = Errors(sends: multiset<int>, recvs: nat, resets: nat)

  const NO_ERRORS := Errors(multiset{}, 0, 0)

  function SendFailed(e: Errors, fd: int): Errors { e.(sends := e.sends + multiset{fd}) }

  function RecvFailed(e: Errors): Errors { e.(recvs := e.recvs + 1) }

  function WasReset(e: Errors): Errors { e.(resets := e.resets + 1) }

  /** Errors only add up, and a connection breaks only when a send to it fails. */
  ghost predicate Since(conns: map<int, Conn>, errors: Errors, conns': map<int, Conn>, errors': Errors)
  {
    && errors.sends <= errors'.sends && errors.recvs <= errors'.recvs && errors.resets <= errors'.resets
    && forall fd {:trigger conns'[fd]} :: fd in conns' && conns'[fd].broken ==>
         (fd in conns && conns[fd].broken) || errors.sends[fd] < errors'.sends[fd]
  }

  /** Reading from a connection breaks nothing. */
  lemma SinceRead(conns: map<int, Conn>, errors: Errors, fd: int, n: nat, errors': Errors)
    requires fd in conns && n <= |conns[fd].incoming|
    requires errors' == errors || errors' == RecvFailed(errors) || errors' == WasReset(errors)
    ensures Since(conns, errors, Consumed(conns, fd, n), errors')
  {
  }

  /** Some send or receive has failed. */
  ghost predicate Failed(errors: Errors, errors': Errors)
  {
    errors.sends < errors'.sends || errors.recvs < errors'.recvs
  }

  lemma SinceThen(a: map<int, Conn>, e: Errors, b: map<int, Conn>, f: Errors, c: map<int, Conn>, g: Errors)
    requires Since(a, e, b, f) && Since(b, f, c, g)
    ensures Since(a, e, c, g)
  {
    forall fd | fd in c && c[fd].broken ensures (fd in a && a[fd].broken) || e.sends[fd] < g.sends[fd] {
      assert e.sends[fd] <= f.sends[fd] <= g.sends[fd];
    }
  }

  datatype Received = Data(bytes: seq<byte>) | Closed | Reset | Error

  function Sent(conns: map<int, Conn>, fd: int, bytes: seq<byte>): map<int, Conn>
    requires fd in conns
  {
    conns[fd := conns[fd].(outgoing := conns[fd].outgoing + bytes)]
  }

  function Consumed(conns: map<int, Conn>, fd: int, n: nat): map<int, Conn>
    requires fd in conns && n <= |conns[fd].incoming|
  {
    conns[fd := conns[fd].(incoming := conns[fd].incoming[n..])]
  }

  function Broken(conns: map<int, Conn>, fd: int): map<int, Conn>
    requires fd in conns
  {
    conns[fd := conns[fd].(broken := true)]
  }

  /** The kernel's side of all open sockets. Whatever the peers and the network decide is left open. */
  class Network {
    var conns: map<int, Conn>
    var errors: Errors

    constructor ()
      ensures conns == map[] && errors == NO_ERRORS
    {
      conns, errors := map[], NO_ERRORS;
    }

    /** accept(2) brings a new socket into being, with nothing sent either way. */
    method Open(fd: int)
      requires fd !in conns
      modifies this`conns
      ensures conns == old(conns)[fd := FRESH]
    {
      conns := conns[fd := FRESH];
    }

    /** close(2) */
    method Close(fd: int)
      modifies this`conns
      ensures conns == old(conns) - {fd}
    {
      conns := conns - {fd};
    }

    /** Bytes from a peer; without a connection they go nowhere. */
    method Arrive(fd: int, bytes: seq<byte>)
      modifies this`conns
      ensures conns == if fd in old(conns) then old(conns)[fd := old(conns)[fd].(incoming := old(conns)[fd].incoming + bytes)] else old(conns)
    {
      if fd in conns {
        conns := conns[fd := conns[fd].(incoming := conns[fd].incoming + bytes)];
      }
    }

    /** send(2): takes at least one byte, or fails. */
    method Send(fd: int, bytes: seq<byte>) returns (sent: int)
      requires fd in conns && bytes != []
      modifies this
      ensures sent == -1 || 1 <= sent <= |bytes|
      ensures sent == -1 ==> errors == SendFailed(old(errors), fd) && conns == Broken(old(conns), fd)
      ensures sent != -1 ==> errors == old(errors) && conns == Sent(old(conns), fd, bytes[..sent])
    {
      sent := *;
      if !(1 <= sent <= |bytes|) {
        sent := -1;
        errors := SendFailed(errors, fd);
        conns := Broken(conns, fd);
      } else {
        conns := Sent(conns, fd, bytes[..sent]);
      }
    }

    /**
     * recv(2) of at most n bytes; at least wanted of them when the peer has sent that many. A stream that has
     * run dry was closed by the peer; a reset connection loses what was not read yet.
     */
    method Recv(fd: int, n: nat, wanted: nat) returns (r: Received)
      requires fd in conns && 1 <= wanted <= n
      modifies this
      ensures r.Data? ==> errors == old(errors) && 1 <= |r.bytes| <= n && r.bytes <= old(conns[fd].incoming)
                          && (|old(conns[fd].incoming)| >= wanted ==> |r.bytes| >= wanted)
                          && conns == Consumed(old(conns), fd, |r.bytes|)
      ensures r.Closed? ==> errors == old(errors) && conns == old(conns) && conns[fd].incoming == []
      ensures r.Reset? ==> errors == WasReset(old(errors)) && conns == Consumed(old(conns), fd, |old(conns)[fd].incoming|)
      ensures r.Error? ==> errors == RecvFailed(old(errors)) && conns == old(conns)
    {
      var trouble: bool, reset: bool := *, *;
      var incoming := conns[fd].incoming;
      if trouble {
        if reset {
          errors := WasReset(errors);
          conns := Consumed(conns, fd, |incoming|);
          return Reset;
        }
        errors := RecvFailed(errors);
        return Error;
      }
      if incoming == [] {
        return Closed;
      }
      var least := if |incoming| >= wanted then wanted else |incoming|;
      var k: int := *;
      if !(least <= k <= n && k <= |incoming|) {
        k := least;
      }
      conns := Consumed(conns, fd, k);
      r := Data(incoming[..k]);
    }
  }

  lemma SentInPieces(conns: map<int, Conn>, fd: int, a: seq<byte>, b: seq<byte>)
    requires fd in conns
    ensures Sent(conns, fd, []) == conns && Sent(Sent(conns, fd, a), fd, b) == Sent(conns, fd, a + b)
  {
    var o := conns[fd].outgoing;
    assert o + [] == o && o + a + b == o + (a + b);
  }

  lemma ConsumedInPieces(conns: map<int, Conn>, fd: int, a: nat, b: nat)
    requires fd in conns && a + b <= |conns[fd].incoming|
    ensures Consumed(conns, fd, 0) == conns && Consumed(Consumed(conns, fd, a), fd, b) == Consumed(conns, fd, a + b)
  {
    var i := conns[fd].incoming;
    assert i[0..] == i && i[a..][b..] == i[a + b..];
  }

  lemma Rest(conns: map<int, Conn>, fd: int, n: nat)
    requires fd in conns && n <= |conns[fd].incoming|
    ensures conns[fd].incoming == conns[fd].incoming[..n] + Consumed(conns, fd, n)[fd].incoming
  {
  }

  lemma PrefixGrows<T>(s: seq<T>, a: nat, b: nat)
    requires a + b <= |s|
    ensures s[..a] + s[a..a + b] == s[..a + b]
    ensures s[a..][..b] == s[a..a + b]
  {
    assert forall i :: 0 <= i < b ==> s[a..][..b][i] == s[a + i] == s[a..a + b][i];
  }

  /** sendall */
  method SendAll(net: Network, fd: int, buf: array<byte>, len: nat) returns (total: int)
    requires fd in net.conns && len == buf.Length
    modifies net
    ensures total == len || total == -1
    ensures Since(old(net.conns), old(net.errors), net.conns, net.errors)
    ensures total == len ==> net.errors == old(net.errors) && net.conns == Sent(old(net.conns), fd, buf[..])
    ensures total == len ==> fd in net.conns && net.conns[fd].outgoing == old(net.conns)[fd].outgoing + buf[..]
    ensures forall id :: id in old(net.conns) && id != fd ==> id in net.conns && net.conns[id] == old(net.conns)[id]
    ensures total == -1 ==>
              && net.errors == SendFailed(old(net.errors), fd)
              && exists k :: 0 <= k < len && net.conns == Broken(Sent(old(net.conns), fd, buf[..k]), fd)
  {
    var totalSent := 0;
    assert buf[..0] == [];
    SentInPieces(net.conns, fd, [], []);
    while totalSent < len
      invariant totalSent <= len && fd in net.conns
      invariant net.conns == Sent(old(net.conns), fd, buf[..totalSent])
      invariant net.errors == old(net.errors)
    {
      var sent := net.Send(fd, buf[totalSent..len]);
      if sent == -1 {
        assert net.conns == Broken(Sent(old(net.conns), fd, buf[..totalSent]), fd);
        return -1;
      }
      PrefixGrows(buf[..], totalSent, sent);
      assert buf[totalSent..len][..sent] == buf[..][totalSent..totalSent + sent];
      SentInPieces(old(net.conns), fd, buf[..totalSent], buf[totalSent..len][..sent]);
      assert buf[..totalSent + sent] == buf[..][..totalSent + sent] && buf[..totalSent] == buf[..][..totalSent];
      totalSent := totalSent + sent;
    }
    assert buf[..len] == buf[..];
    total := totalSent;
  }

  /** A stream the receiver can work on: empty, or starting with a length that covers the length field itself. */
  predicate StartsFrame(b: seq<byte>)
  {
    b == [] || (|b| >= 4 && FromBigEndian4(b[..4]) >= 4)
  }

  function FrameLength(b: seq<byte>): nat
    requires |b| >= 4
  {
    FromBigEndian4(b[..4])
  }

  /**
   * recvall, on a stream whose length fields arrive whole. It consumes and returns exactly the first frame; it
   * returns 0 when the stream ends before a frame does or the peer has reset the connection, and -1 when this call
   * has met another error. Other connections are not touched.
   */
  method RecvAll(net: Network, fd: int) returns (total: int, buf: array?<byte>)
    requires fd in net.conns && StartsFrame(net.conns[fd].incoming)
    modifies net
    ensures total >= -1 && (total > 0 <==> buf != null)
    ensures Since(old(net.conns), old(net.errors), net.conns, net.errors)
    ensures total > 0 ==>
              var stream := old(net.conns[fd].incoming);
              && |stream| >= 4 && total == FrameLength(stream) <= |stream|
              && fresh(buf) && buf[..] == stream[..total]
              && net.conns == Consumed(old(net.conns), fd, total) && net.errors == old(net.errors)
              && stream == buf[..] + net.conns[fd].incoming
    ensures total == 0 ==>
              var stream := old(net.conns[fd].incoming);
              && net.conns == Consumed(old(net.conns), fd, |stream|)
              && (net.errors == WasReset(old(net.errors)) ||
                  (net.errors == old(net.errors) && (stream == [] || FrameLength(stream) > |stream|)))
    ensures total == -1 ==>
              && net.errors == RecvFailed(old(net.errors))
              && exists k :: 0 <= k <= |old(net.conns)[fd].incoming| && net.conns == Consumed(old(net.conns), fd, k)
  {
    hide FromBigEndian4, SwapBytes4, FromMemory4, Since;
    ghost var stream, conns := net.conns[fd].incoming, net.conns;
    ConsumedInPieces(net.conns, fd, 0, 0);
    buf := null;
    var recvd := net.Recv(fd, 4, 4);
    if !recvd.Data? {
      SinceRead(conns, old(net.errors), fd, if recvd.Reset? then |stream| else 0, net.errors);
      return if recvd.Error? then -1 else 0, null;
    }
    assert stream[..4] == recvd.bytes;
    var totalLen := SwapBytes4(FromMemory4(recvd.bytes));
    NetworkRead4(recvd.bytes);
    var msg := new byte[totalLen](_ => 0);
    var totalRecvd := Put(msg, 0, recvd.bytes);
    while totalRecvd < totalLen
      invariant 4 <= totalRecvd <= totalLen && totalRecvd <= |stream|
      invariant msg[..totalRecvd] == stream[..totalRecvd]
      invariant fd in net.conns && net.conns == Consumed(conns, fd, totalRecvd)
      invariant net.errors == old(net.errors)
    {
      recvd := net.Recv(fd, totalLen - totalRecvd, 1);
      ConsumedInPieces(conns, fd, totalRecvd, |stream| - totalRecvd);
      if !recvd.Data? {
        SinceRead(conns, old(net.errors), fd, if recvd.Error? then totalRecvd else |stream|, net.errors);
        return if recvd.Error? then -1 else 0, null;
      }
      ghost var n := |recvd.bytes|;
      assert stream[totalRecvd..][..n] == recvd.bytes;
      PrefixGrows(stream, totalRecvd, n);
      ConsumedInPieces(conns, fd, totalRecvd, n);
      totalRecvd := Put(msg, totalRecvd, recvd.bytes);
    }
    assert msg[..] == msg[..totalRecvd];
    SinceRead(conns, old(net.errors), fd, totalRecvd, net.errors);
    Rest(conns, fd, totalRecvd);
    return totalRecvd, msg;
  }

  // ----- lists of messages -----

  predicate AllWellFormed(ms: seq<Message>)
  {
    forall m :: m in ms ==> WellFormed(m)
  }

  /** The frames of a list of messages, one after the other. */
  function EncodeAll(ms: seq<Message>): seq<byte>
    requires AllWellFormed(ms)
  {
    if ms == [] then [] else Encode(ms[0]) + EncodeAll(ms[1..])
  }

  lemma {:induction false} EncodeAllSnoc(ms: seq<Message>, m: Message)
    requires AllWellFormed(ms) && WellFormed(m)
    ensures AllWellFormed(ms + [m]) && EncodeAll(ms + [m]) == EncodeAll(ms) + Encode(m)
  {
    if ms == [] {
      assert ms + [m] == [m] && [m][1..] == [];
    } else {
      assert (ms + [m])[1..] == ms[1..] + [m];
      EncodeAllSnoc(ms[1..], m);
    }
  }

  lemma {:induction false} EncodeAllConcat(ms: seq<Message>, ms': seq<Message>)
    requires AllWellFormed(ms) && AllWellFormed(ms')
    ensures AllWellFormed(ms + ms') && EncodeAll(ms + ms') == EncodeAll(ms) + EncodeAll(ms')
  {
    hide Encode, WellFormed;
    if ms == [] {
      assert ms + ms' == ms';
    } else {
      EncodeAllConcat(ms[1..], ms');
      assert (ms + ms')[1..] == ms[1..] + ms';
      var x, y, z := Encode(ms[0]), EncodeAll(ms[1..]), EncodeAll(ms');
      assert x + (y + z) == (x + y) + z;
    }
  }

  /** Behind the first frame lies the rest of the list, and the header says where. */
  lemma FirstFrame(ms: seq<Message>)
    requires AllWellFormed(ms)
    ensures StartsFrame(EncodeAll(ms)) && (EncodeAll(ms) == [] <==> ms == [])
    ensures ms != [] ==>
              var b, n := EncodeAll(ms), |Encode(ms[0])|;
              FrameLength(b) == n <= |b| && b[..n] == Encode(ms[0]) && b[n..] == EncodeAll(ms[1..])
  {
    if ms != [] {
      RoundTrip(ms[0]);
      assert EncodeAll(ms)[..4] == Encode(ms[0])[..4];
      EncodeHeader(ms[0]);
    }
  }

  /** Receives one frame and decodes it with the decoder its kind byte selects. */
  method ReceiveMessage(net: Network, fd: int, ghost ms: seq<Message>) returns (status: int, msg: Message, frame: seq<byte>)
    requires fd in net.conns && AllWellFormed(ms) && net.conns[fd].incoming == EncodeAll(ms)
    modifies net
    ensures status > 0 ==> ms != [] && frame == Encode(ms[0]) && msg == OnWire(ms[0])
    ensures status > 0 ==>
              && |frame| <= |EncodeAll(ms)| && EncodeAll(ms)[|frame|..] == EncodeAll(ms[1..])
              && net.conns == Consumed(old(net.conns), fd, |frame|) && net.errors == old(net.errors)
    ensures status == 0 ==>
              && net.conns == Consumed(old(net.conns), fd, |EncodeAll(ms)|)
              && (net.errors == WasReset(old(net.errors)) || (net.errors == old(net.errors) && ms == []))
    ensures status == -1 ==> net.errors == RecvFailed(old(net.errors))
    ensures status >= -1
  {
    FirstFrame(ms);
    var buf;
    status, buf := RecvAll(net, fd);
    if status <= 0 {
      return status, Join(0), [];
    }
    RoundTrip(ms[0]);
    msg := DecodeFrame(buf);
    frame := buf[..];
  }

  /** A peer that reads until the stream ends. */
  method ReceiveAll(net: Network, fd: int, ghost ms: seq<Message>) returns (got: seq<Message>, frames: seq<seq<byte>>)
    requires fd in net.conns && AllWellFormed(ms) && net.conns[fd].incoming == EncodeAll(ms)
    modifies net
    ensures |got| == |frames| <= |ms|
    ensures forall i :: 0 <= i < |got| ==> frames[i] == Encode(ms[i]) && got[i] == OnWire(ms[i])
    ensures net.errors == old(net.errors) ==> |got| == |ms|
  {
    hide EncodeAll, Encode, OnWire;
    got, frames := [], [];
    var status := 1;
    while status > 0
      invariant |got| == |frames| <= |ms|
      invariant forall i :: 0 <= i < |got| ==> frames[i] == Encode(ms[i]) && got[i] == OnWire(ms[i])
      invariant status > 0 ==> fd in net.conns && net.conns[fd].incoming == EncodeAll(ms[|got|..]) && net.errors == old(net.errors)
      invariant status <= 0 && net.errors == old(net.errors) ==> |got| == |ms|
      decreases |ms| - |got|, status
    {
      var msg, frame;
      ghost var rest := ms[|got|..];
      status, msg, frame := ReceiveMessage(net, fd, rest);
      if status > 0 {
        assert rest[1..] == ms[|got| + 1..];
        got, frames := got + [msg], frames + [frame];
      }
    }
  }

  method DecodeFrame(buf: array<byte>) returns (msg: Message)
    requires Readable(buf[..])
    ensures msg == Decode(buf[..]).0
  {
    var kind := GetMessageType(buf);
    var end;
    match kind
    case ChatType => msg, end := ChatDeserialize(buf);
    case NameType => msg, end := NameDeserialize(buf);
    case JoinType => msg, end := JoinDeserialize(buf);
    case ReplyType => msg, end := ReplyDeserialize(buf);
  }

  /** A peer that sends a list of messages, stopping at the first error. */
  method SendEach(net: Network, fd: int, ms: seq<Message>) returns (ok: bool)
    requires fd in net.conns && AllWellFormed(ms)
    modifies net
    ensures ok ==> net.errors == old(net.errors) && net.conns == Sent(old(net.conns), fd, EncodeAll(ms))
    ensures !ok ==> net.errors == SendFailed(old(net.errors), fd)
  {
    hide Encode, WellFormed;
    var i := 0;
    SentInPieces(net.conns, fd, [], []);
    while i < |ms|
      invariant i <= |ms| && AllWellFormed(ms[..i]) && fd in net.conns
      invariant net.errors == old(net.errors) && net.conns == Sent(old(net.conns), fd, EncodeAll(ms[..i]))
    {
      var buf, len := Serialize(ms[i]);
      var sent := SendAll(net, fd, buf, len);
      if sent == -1 {
        return false;
      }
      EncodeAllSnoc(ms[..i], ms[i]);
      SentInPieces(old(net.conns), fd, EncodeAll(ms[..i]), Encode(ms[i]));
      assert ms[..i + 1] == ms[..i] + [ms[i]];
      i := i + 1;
    }
    assert ms[..|ms|] == ms;
    ok := true;
  }

  method Serialize(m: Message) returns (buf: array<byte>, len: nat)
    requires WellFormed(m)
    ensures fresh(buf) && len == buf.Length && buf[..] == Encode(m)
  {
    match m
    case Chat(_, _, _) => buf, len := ChatSerialize(m);
    case Name(_) => buf, len := NameSerialize(m);
    case Join(_) => buf, len := JoinSerialize(m);
    case Reply(_) => buf, len := ReplySerialize(m);
  }
}
