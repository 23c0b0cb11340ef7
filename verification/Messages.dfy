/** The four message kinds and their byte format, as a little-endian host writes and reads it. */
module Messages {
  import opened Bits

  const NAME_SIZE_LIMIT: nat := 50
  const TEXT_SIZE_LIMIT: nat := 1000
  const REPLY_SIZE_LIMIT: nat := 100

  const CHAT_MESSAGE: byte := 0
  const NAME_MESSAGE: byte := 1
  const JOIN_MESSAGE: byte := 3
  const REPLY_MESSAGE: byte := 4

  datatype MessageType = ChatType | NameType | InvalidType | JoinType | ReplyType

  datatype Message =
    | Chat(timestamp: int, name: cstring, text: cstring)
    | Name(name: cstring)
    | Join(room: byte)
    | Reply(reply: cstring)

  /** Strings fit their buffers, with room for the NUL. */
  predicate WellFormed(m: Message)
  {
    match m
    case Chat(_, name, text) => |name| < NAME_SIZE_LIMIT && |text| < TEXT_SIZE_LIMIT
    case Name(name) => |name| < NAME_SIZE_LIMIT
    case Join(_) => true
    case Reply(reply) => |reply| < REPLY_SIZE_LIMIT
  }

  // ----- byte order -----

  function BigEndian2(x: nat): (r: seq<byte>)
    requires x < 0x1_0000
    ensures |r| == 2
  {
    [x / 0x100, x % 0x100]
  }

  function BigEndian4(x: word): (r: seq<byte>)
    ensures |r| == 4
  {
    [x / 0x100 / 0x100 / 0x100, x / 0x100 / 0x100 % 0x100, x / 0x100 % 0x100, x % 0x100]
  }

  function FromBigEndian2(b: seq<byte>): nat
    requires |b| == 2
  {
    b[0] as int * 0x100 + b[1] as int
  }

  function FromBigEndian4(b: seq<byte>): word
    requires |b| == 4
  {
    b[0] as int * 0x100_0000 + b[1] as int * 0x1_0000 + b[2] as int * 0x100 + b[3] as int
  }

  /** A word as it lies in the memory of a little-endian host. */
  function InMemory4(x: word): (r: seq<byte>)
    ensures |r| == 4
  {
    [x % 0x100, x / 0x100 % 0x100, x / 0x100 / 0x100 % 0x100, x / 0x100 / 0x100 / 0x100]
  }

  function FromMemory4(b: seq<byte>): word
    requires |b| == 4
  {
    b[3] as int * 0x100_0000 + b[2] as int * 0x1_0000 + b[1] as int * 0x100 + b[0] as int
  }

  function InMemory2(x: nat): (r: seq<byte>)
    requires x < 0x1_0000
    ensures |r| == 2
  {
    [x % 0x100, x / 0x100]
  }

  function FromMemory2(b: seq<byte>): nat
    requires |b| == 2
  {
    b[1] as int * 0x100 + b[0] as int
  }

  /** htonl and ntohl on such a host: the four bytes swapped. */
  function SwapBytes4(x: word): word
  {
    x % 0x100 * 0x100_0000 + x / 0x100 % 0x100 * 0x1_0000 + x / 0x100 / 0x100 % 0x100 * 0x100 + x / 0x100 / 0x100 / 0x100
  }

  /** htons and ntohs */
  function SwapBytes2(x: nat): (r: nat)
    requires x < 0x1_0000
    ensures r < 0x1_0000
  {
    x % 0x100 * 0x100 + x / 0x100
  }

  lemma Digits(x: word, a: byte, b: byte, c: byte, d: byte)
    requires x == a as int * 0x100_0000 + b as int * 0x1_0000 + c as int * 0x100 + d as int
    ensures x / 0x100 / 0x100 / 0x100 == a && x / 0x100 / 0x100 % 0x100 == b && x / 0x100 % 0x100 == c && x % 0x100 == d
  {
    assert x / 0x100 == a as int * 0x1_0000 + b as int * 0x100 + c as int;
    assert x / 0x100 / 0x100 == a as int * 0x100 + b as int;
  }

  /** What htonl leaves in memory is network byte order, and ntohl undoes it. */
  lemma NetworkOrder4(x: word)
    ensures InMemory4(SwapBytes4(x)) == BigEndian4(x)
    ensures SwapBytes4(FromMemory4(BigEndian4(x))) == x
    ensures FromBigEndian4(BigEndian4(x)) == x
  {
    var a: byte, b: byte, c: byte, d: byte := x / 0x100 / 0x100 / 0x100, x / 0x100 / 0x100 % 0x100, x / 0x100 % 0x100, x % 0x100;
    assert x == a as int * 0x100_0000 + b as int * 0x1_0000 + c as int * 0x100 + d as int;
    Digits(SwapBytes4(x), d, c, b, a);
  }

  lemma MemoryKeepsWord(x: word)
    ensures FromMemory4(InMemory4(x)) == x
  {
    hide SwapBytes4;
    var a: byte, b: byte, c: byte, d: byte := x / 0x100 / 0x100 / 0x100, x / 0x100 / 0x100 % 0x100, x / 0x100 % 0x100, x % 0x100;
    assert x == a as int * 0x100_0000 + b as int * 0x1_0000 + c as int * 0x100 + d as int;
  }

  lemma NetworkOrder2(x: nat)
    requires x < 0x1_0000
    ensures InMemory2(SwapBytes2(x)) == BigEndian2(x)
    ensures SwapBytes2(FromMemory2(BigEndian2(x))) == x
  {
    var y := SwapBytes2(x);
    assert y / 0x100 == x % 0x100 && y % 0x100 == x / 0x100;
  }

  // ----- the format -----

  /** A string field: its bytes and the terminating NUL. */
  function Terminated(s: cstring): seq<byte> { s + [0] }

  /** Only the low 32 bits of the 64-bit timestamp go through htonl; they fill the first half of the field. */
  function StampField(t: int): seq<byte> { BigEndian4(t % WORD) + [0, 0, 0, 0] }

  function Body(m: Message): seq<byte>
    requires WellFormed(m)
  {
    match m
    case Chat(t, name, text) =>
      StampField(t) + ([|name| + 1] + Terminated(name) + (BigEndian2(|text| + 1) + Terminated(text)))
    case Name(name) => [|name| + 1] + Terminated(name)
    case Join(room) => [room]
    case Reply(reply) => [|reply| + 1] + Terminated(reply)
  }

  function TypeByte(m: Message): byte
  {
    match m
    case Chat(_, _, _) => CHAT_MESSAGE
    case Name(_) => NAME_MESSAGE
    case Join(_) => JOIN_MESSAGE
    case Reply(_) => REPLY_MESSAGE
  }

  function Encode(m: Message): seq<byte>
    requires WellFormed(m)
  {
    BigEndian4(5 + |Body(m)|) + [TypeByte(m)] + Body(m)
  }

  /** The bytes of a buffer up to its first NUL. */
  function CStr(b: seq<byte>): cstring
  {
    if b == [] || b[0] == 0 then [] else [b[0]] + CStr(b[1..])
  }

  function TypeOf(b: seq<byte>): MessageType
    requires |b| >= 5
  {
    if b[4] == CHAT_MESSAGE then ChatType
    else if b[4] == NAME_MESSAGE then NameType
    else if b[4] == JOIN_MESSAGE then JoinType
    else if b[4] == REPLY_MESSAGE then ReplyType
    else InvalidType
  }

  /** A length byte at position 5 and that many bytes, for a buffer of the given size. */
  predicate StringReadable(b: seq<byte>, limit: nat)
  {
    |b| >= 6 && b[5] <= limit && |b| >= 6 + b[5] as int
  }

  predicate ChatReadable(b: seq<byte>)
  {
    && |b| >= 14 && b[13] <= NAME_SIZE_LIMIT
    && var at := 14 + b[13] as int;
       |b| >= at + 2 && FromBigEndian2(b[at..at + 2]) <= TEXT_SIZE_LIMIT && |b| >= at + 2 + FromBigEndian2(b[at..at + 2])
  }

  /** The field lengths stay within the frame and within the buffers they are copied to. */
  predicate Readable(b: seq<byte>)
  {
    && |b| >= 5
    && match TypeOf(b)
       case ChatType => ChatReadable(b)
       case NameType => StringReadable(b, NAME_SIZE_LIMIT)
       case JoinType => |b| >= 6
       case ReplyType => StringReadable(b, REPLY_SIZE_LIMIT)
       case InvalidType => false
  }

  /** What the deserializer of the frame's kind fills in, and the position where it stops reading. */
  function Decode(b: seq<byte>): (r: (Message, nat))
    requires Readable(b)
  {
    match TypeOf(b)
    case ChatType =>
      var at := 14 + b[13] as int;
      var end := at + 2 + FromBigEndian2(b[at..at + 2]);
      (Chat(FromBigEndian4(b[5..9]), CStr(b[14..at]), CStr(b[at + 2..end])), end)
    case NameType => (Name(CStr(b[6..6 + b[5] as int])), 6 + b[5] as int)
    case JoinType => (Join(b[5]), 6)
    case ReplyType => (Reply(CStr(b[6..6 + b[5] as int])), 6 + b[5] as int)
  }

  function KindOf(m: Message): MessageType
  {
    match m
    case Chat(_, _, _) => ChatType
    case Name(_) => NameType
    case Join(_) => JoinType
    case Reply(_) => ReplyType
  }

  /** The message that survives the wire: timestamps lose all but their low 32 bits. */
  function OnWire(m: Message): Message
  {
    if m.Chat? then m.(timestamp := m.timestamp % WORD) else m
  }

  // ----- the format decodes to what was encoded -----

  lemma {:induction false} CStrOfTerminated(s: cstring)
    ensures CStr(Terminated(s)) == s
  {
    if s != [] {
      assert Terminated(s)[1..] == Terminated(s[1..]);
      CStrOfTerminated(s[1..]);
    }
  }

  lemma BigEndian2Inverse(x: nat)
    requires x < 0x1_0000
    ensures FromBigEndian2(BigEndian2(x)) == x
  {
  }

  lemma EncodeHeader(m: Message)
    requires WellFormed(m)
    ensures |Encode(m)| == 5 + |Body(m)| && FromBigEndian4(Encode(m)[..4]) == |Encode(m)|
    ensures Encode(m)[4] == TypeByte(m) && Encode(m)[5..] == Body(m)
  {
    NetworkOrder4(5 + |Body(m)|);
    assert Encode(m)[..4] == BigEndian4(5 + |Body(m)|);
  }

  lemma StringRoundTrip(b: seq<byte>, s: cstring, limit: nat)
    requires |s| < limit <= 255 && |b| >= 5 && b[5..] == [|s| + 1] + Terminated(s)
    ensures StringReadable(b, limit) && 6 + b[5] as int == |b| && CStr(b[6..6 + b[5] as int]) == s
  {
    CStrOfTerminated(s);
    assert b[5] == b[5..][0] && b[6..] == b[5..][1..];
    assert b[6..6 + b[5] as int] == Terminated(s);
  }

  lemma ChatRoundTrip(b: seq<byte>, stamp: seq<byte>, name: cstring, text: cstring)
    requires |name| < NAME_SIZE_LIMIT && |text| < TEXT_SIZE_LIMIT && |stamp| == 8 && |b| >= 5
    requires b[5..] == stamp + ([|name| + 1] + Terminated(name) + (BigEndian2(|text| + 1) + Terminated(text)))
    ensures ChatReadable(b) && b[5..9] == stamp[..4]
    ensures var at := 14 + b[13] as int;
            var end := at + 2 + FromBigEndian2(b[at..at + 2]);
            end == |b| && CStr(b[14..at]) == name && CStr(b[at + 2..end]) == text
  {
    CStrOfTerminated(name);
    CStrOfTerminated(text);
    BigEndian2Inverse(|text| + 1);
    var body := b[5..];
    var at := 14 + |name| + 1;
    assert b[5..9] == body[..4] == stamp[..4];
    assert b[13] == body[8] == |name| + 1;
    assert b[14..at] == body[9..at - 5] == Terminated(name);
    assert b[at..at + 2] == body[at - 5..at - 3] == BigEndian2(|text| + 1);
    assert b[at + 2..] == body[at - 3..] == Terminated(text);
    assert b[at + 2..at + 2 + |text| + 1] == b[at + 2..];
  }

  /**
   * Every frame decodes to the message it was made from, the kind byte selects the right decoder, the header is
   * the length of the frame, and the decoder stops exactly there.
   */
  lemma RoundTrip(m: Message)
    requires WellFormed(m)
    ensures Readable(Encode(m)) && TypeOf(Encode(m)) == KindOf(m)
    ensures Decode(Encode(m)) == (OnWire(m), |Encode(m)|)
    ensures FromBigEndian4(Encode(m)[..4]) == |Encode(m)|
  {
    EncodeHeader(m);
    hide Encode;
    if m.Chat? { RoundTripChat(m, Encode(m)); } else { RoundTripShort(m, Encode(m)); }
  }

  lemma RoundTripChat(m: Message, b: seq<byte>)
    requires m.Chat? && WellFormed(m) && |b| >= 5 && b[4] == TypeByte(m) && b[5..] == Body(m)
    ensures Readable(b) && TypeOf(b) == ChatType && Decode(b) == (OnWire(m), |b|)
  {
    NetworkOrder4(m.timestamp % WORD);
    ChatRoundTrip(b, StampField(m.timestamp), m.name, m.text);
    assert StampField(m.timestamp)[..4] == BigEndian4(m.timestamp % WORD);
  }

  lemma RoundTripShort(m: Message, b: seq<byte>)
    requires !m.Chat? && WellFormed(m) && |b| >= 5 && b[4] == TypeByte(m) && b[5..] == Body(m)
    ensures Readable(b) && TypeOf(b) == KindOf(m) && Decode(b) == (m, |b|)
  {
    match m
    case Name(name) =>
      StringRoundTrip(b, name, NAME_SIZE_LIMIT);
    case Join(room) =>
      assert b[5] == b[5..][0];
    case Reply(reply) =>
      StringRoundTrip(b, reply, REPLY_SIZE_LIMIT);
  }

  /** No frame is a proper prefix of another, and equal frames carry equal messages. */
  lemma PrefixFree(m: Message, m': Message)
    requires WellFormed(m) && WellFormed(m') && Encode(m) <= Encode(m')
    ensures Encode(m) == Encode(m') && OnWire(m) == OnWire(m')
  {
    EncodeHeader(m);
    EncodeHeader(m');
    assert Encode(m)[..4] == Encode(m')[..4];
    RoundTrip(m);
    RoundTrip(m');
  }

  // ----- the frames, byte by byte -----

  /** A client's join is six bytes. */
  lemma JoinFrame(r: byte)
    ensures Encode(Join(r)) == [0, 0, 0, 6, 3, r]
  {
  }

  lemma NameFrame(name: cstring)
    requires |name| <= 49
    ensures WellFormed(Name(name)) && Encode(Name(name)) == [0, 0, 0, 7 + |name|, 1, 1 + |name|] + name + [0]
  {
  }

  lemma ReplyFrame(reply: cstring)
    requires |reply| <= 99
    ensures WellFormed(Reply(reply)) && Encode(Reply(reply)) == [0, 0, 0, 7 + |reply|, 4, 1 + |reply|] + reply + [0]
  {
  }

  lemma BytesOfLength(n: nat)
    requires n < 0x1_0000
    ensures BigEndian4(n) == [0, 0, n / 0x100, n % 0x100] && BigEndian2(n) == [n / 0x100, n % 0x100]
  {
  }

  lemma BytesOfWord(x: word)
    ensures x / 0x1_0000 == x / 0x100 / 0x100 && x / 0x100_0000 == x / 0x100 / 0x100 / 0x100
    ensures BigEndian4(x) == [x / 0x100_0000, x / 0x1_0000 % 0x100, x / 0x100 % 0x100, x % 0x100]
  {
  }

  /**
   * The frame of a chat, n bytes long: l is the length of the text with its NUL, x the low 32 bits of the time; four
   * zero bytes follow it.
   */
  lemma ChatFrame(t: int, name: cstring, text: cstring, n: nat, l: nat, x: nat)
    requires |name| <= 49 && |text| <= 999
    requires n == 18 + |name| + |text| && l == 1 + |text| && x == t % 0x1_0000_0000
    ensures WellFormed(Chat(t, name, text))
    ensures Encode(Chat(t, name, text)) ==
            [0, 0, n / 0x100, n % 0x100, 0] + [x / 0x100_0000, x / 0x1_0000 % 0x100, x / 0x100 % 0x100, x % 0x100, 0, 0, 0, 0]
            + [1 + |name|] + name + [0] + [l / 0x100, l % 0x100] + text + [0]
  {
    BytesOfLength(n);
    BytesOfLength(l);
    BytesOfWord(x);
    var m := Chat(t, name, text);
    hide BigEndian4, BigEndian2;
    assert |Body(m)| == n - 5;
    ChatFields(m, BigEndian4(n) + [0], StampField(t));
    FlatFields([0, 0, n / 0x100, n % 0x100] + [0], BigEndian4(x) + [0, 0, 0, 0], [1 + |name|], name, [l / 0x100, l % 0x100], text, [0]);
  }

  lemma FlatFields<T>(h: seq<T>, a: seq<T>, b: seq<T>, c: seq<T>, d: seq<T>, e: seq<T>, z: seq<T>)
    ensures h + a + (b + (c + z)) + (d + (e + z)) == h + a + b + c + z + d + e + z
  {
  }

  lemma KindByte(m: Message)
    requires WellFormed(m)
    ensures |Encode(m)| >= 5
    ensures Encode(m)[4] == match m case Chat(_, _, _) => 0 case Name(_) => 1 case Join(_) => 3 case Reply(_) => 4
  {
  }

  // ----- the serializers: a cursor moves over the buffer, writing field by field -----

  /** memcpy to the cursor, and the cursor moved behind what was written. */
  method Put(buf: array<byte>, b: nat, bytes: seq<byte>) returns (b': nat)
    requires b + |bytes| <= buf.Length
    modifies buf
    ensures b' == b + |bytes| && buf[..b'] == old(buf[..b]) + bytes
  {
    forall i | 0 <= i < |bytes| {
      buf[b + i] := bytes[i];
    }
    b' := b + |bytes|;
    assert buf[..b] == old(buf[..b]) && buf[b..b'] == bytes;
  }

  /** The part that all four serializers share: total length and kind. */
  method PutHeader(totalLen: word, kind: byte) returns (buf: array<byte>, b: nat)
    requires totalLen >= 5
    ensures fresh(buf) && buf.Length == totalLen && b == 5 && buf[..5] == BigEndian4(totalLen) + [kind]
  {
    buf := new byte[totalLen](_ => 0);
    NetworkOrder4(totalLen);
    b := Put(buf, 0, InMemory4(SwapBytes4(totalLen)));
    b := Put(buf, b, [kind]);
  }

  /** A length field followed by the string it measures. */
  method PutString(buf: array<byte>, b: nat, lengthField: seq<byte>, s: cstring) returns (b': nat)
    requires b + |lengthField| + |s| + 1 <= buf.Length
    modifies buf
    ensures b' == b + |lengthField| + |s| + 1 && buf[..b'] == old(buf[..b]) + (lengthField + Terminated(s))
  {
    b' := Put(buf, b, lengthField);
    b' := Put(buf, b', Terminated(s));
  }

  method PutStamp(buf: array<byte>, b: nat, timestamp: int) returns (b': nat)
    requires b + 8 <= buf.Length
    modifies buf
    ensures b' == b + 8 && buf[..b'] == old(buf[..b]) + StampField(timestamp)
  {
    NetworkOrder4(timestamp % WORD);
    b' := Put(buf, b, InMemory4(SwapBytes4(timestamp % WORD)) + [0, 0, 0, 0]);
  }

  method ChatSerialize(msg: Message) returns (buf: array<byte>, len: nat)
    requires msg.Chat? && WellFormed(msg)
    ensures fresh(buf) && len == buf.Length && buf[..] == Encode(msg)
  {
    var nameLen, textLen := |msg.name| + 1, |msg.text| + 1;
    len := 4 + 1 + 8 + 1 + nameLen + 2 + textLen;
    var b;
    buf, b := PutHeader(len, CHAT_MESSAGE);
    b := PutStamp(buf, b, msg.timestamp);
    b := PutString(buf, b, [nameLen], msg.name);
    NetworkOrder2(textLen);
    b := PutString(buf, b, InMemory2(SwapBytes2(textLen)), msg.text);
    ChatFields(msg, BigEndian4(len) + [CHAT_MESSAGE], StampField(msg.timestamp));
    assert buf[..] == buf[..b];
  }

  lemma ChatFields(msg: Message, header: seq<byte>, stamp: seq<byte>)
    requires msg.Chat? && WellFormed(msg) && stamp == StampField(msg.timestamp)
    requires header == BigEndian4(5 + |Body(msg)|) + [CHAT_MESSAGE]
    ensures header + stamp + ([|msg.name| + 1] + Terminated(msg.name)) + (BigEndian2(|msg.text| + 1) + Terminated(msg.text)) == Encode(msg)
  {
    Regroup(header, stamp, [|msg.name| + 1], Terminated(msg.name), BigEndian2(|msg.text| + 1) + Terminated(msg.text));
  }

  lemma Regroup<T>(h: seq<T>, a: seq<T>, b: seq<T>, c: seq<T>, d: seq<T>)
    ensures h + a + (b + c) + d == h + (a + (b + c + d))
  {
  }

  method NameSerialize(msg: Message) returns (buf: array<byte>, len: nat)
    requires msg.Name? && WellFormed(msg)
    ensures fresh(buf) && len == buf.Length && buf[..] == Encode(msg)
    ensures |msg.name| <= 49 && buf[..] == [0, 0, 0, 7 + |msg.name|, 1, 1 + |msg.name|] + msg.name + [0]
  {
    var nameLen := |msg.name| + 1;
    len := 4 + 1 + 1 + nameLen;
    var b;
    buf, b := PutHeader(len, NAME_MESSAGE);
    b := PutString(buf, b, [nameLen], msg.name);
    assert buf[..] == buf[..b] == Encode(msg);
    NameFrame(msg.name);
  }

  method ReplySerialize(msg: Message) returns (buf: array<byte>, len: nat)
    requires msg.Reply? && WellFormed(msg)
    ensures fresh(buf) && len == buf.Length && buf[..] == Encode(msg)
    ensures |msg.reply| <= 99 && buf[..] == [0, 0, 0, 7 + |msg.reply|, 4, 1 + |msg.reply|] + msg.reply + [0]
  {
    var replyLen := |msg.reply| + 1;
    len := 4 + 1 + 1 + replyLen;
    var b;
    buf, b := PutHeader(len, REPLY_MESSAGE);
    b := PutString(buf, b, [replyLen], msg.reply);
    assert buf[..] == buf[..b] == Encode(msg);
    ReplyFrame(msg.reply);
  }

  method JoinSerialize(msg: Message) returns (buf: array<byte>, len: nat)
    requires msg.Join?
    ensures fresh(buf) && len == buf.Length && buf[..] == Encode(msg)
    ensures buf[..] == [0, 0, 0, 6, 3, msg.room]
  {
    len := 4 + 1 + 1;
    var b;
    buf, b := PutHeader(len, JOIN_MESSAGE);
    b := Put(buf, b, [msg.room]);
    assert buf[..] == buf[..b] == Encode(msg);
    JoinFrame(msg.room);
  }

  // ----- the deserializers: a cursor moves over the frame, reading field by field -----

  /** For a frame, the kind of the message in it. */
  method GetMessageType(buf: array<byte>) returns (kind: MessageType)
    requires buf.Length >= 5
    ensures kind == TypeOf(buf[..])
    ensures (kind.ChatType? <==> buf[4] == 0) && (kind.NameType? <==> buf[4] == 1)
    ensures (kind.JoinType? <==> buf[4] == 3) && (kind.ReplyType? <==> buf[4] == 4)
    ensures forall m :: WellFormed(m) && buf[..] == Encode(m) ==> kind == KindOf(m)
  {
    forall m | WellFormed(m) && buf[..] == Encode(m) ensures TypeOf(buf[..]) == KindOf(m) {
      RoundTrip(m);
    }
    var c := buf[4];
    kind := if c == CHAT_MESSAGE then ChatType
            else if c == NAME_MESSAGE then NameType
            else if c == JOIN_MESSAGE then JoinType
            else if c == REPLY_MESSAGE then ReplyType
            else InvalidType;
  }

  method ChatDeserialize(buf: array<byte>) returns (msg: Message, end: nat)
    requires Readable(buf[..]) && TypeOf(buf[..]) == ChatType
    ensures (msg, end) == Decode(buf[..])
  {
    end := 4 + 1;
    var stamp := SwapBytes4(FromMemory4(buf[end..end + 4]));
    end := end + 8;
    var nameLen := buf[end] as int;
    end := end + 1;
    var name := CStr(buf[end..end + nameLen]);
    end := end + nameLen;
    var textLen := SwapBytes2(FromMemory2(buf[end..end + 2]));
    NetworkRead2(buf[end..end + 2]);
    NetworkRead4(buf[5..9]);
    assert buf[end..end + 2] == buf[..][end..end + 2] && buf[5..9] == buf[..][5..9];
    end := end + 2;
    var text := CStr(buf[end..end + textLen]);
    end := end + textLen;
    msg := Chat(stamp, name, text);
  }

  lemma NetworkRead2(b: seq<byte>)
    requires |b| == 2
    ensures SwapBytes2(FromMemory2(b)) == FromBigEndian2(b)
  {
  }

  lemma NetworkRead4(b: seq<byte>)
    requires |b| == 4
    ensures SwapBytes4(FromMemory4(b)) == FromBigEndian4(b)
  {
    Digits(FromMemory4(b), b[3], b[2], b[1], b[0]);
  }

  method NameDeserialize(buf: array<byte>) returns (msg: Message, end: nat)
    requires Readable(buf[..]) && TypeOf(buf[..]) == NameType
    ensures (msg, end) == Decode(buf[..])
  {
    end := 4 + 1;
    var nameLen := buf[end] as int;
    end := end + 1;
    msg := Name(CStr(buf[end..end + nameLen]));
    end := end + nameLen;
  }

  method ReplyDeserialize(buf: array<byte>) returns (msg: Message, end: nat)
    requires Readable(buf[..]) && TypeOf(buf[..]) == ReplyType
    ensures (msg, end) == Decode(buf[..])
  {
    end := 4 + 1;
    var replyLen := buf[end] as int;
    end := end + 1;
    msg := Reply(CStr(buf[end..end + replyLen]));
    end := end + replyLen;
  }

  method JoinDeserialize(buf: array<byte>) returns (msg: Message, end: nat)
    requires Readable(buf[..]) && TypeOf(buf[..]) == JoinType
    ensures (msg, end) == Decode(buf[..])
  {
    end := 4 + 1;
    msg := Join(buf[end]);
    end := end + 1;
  }
}
