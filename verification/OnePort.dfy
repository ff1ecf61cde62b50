/** Two protocols on one port: the Magic decision (src/protocol/magic.go, src/edge/bootstrap.go) and the
    business first frame (src/edge/business.go). */
module OnePort {
  import opened ByteStreams
  import opened Common
  import opened Framing

  const MAGIC_LEN := 16
  const MAGIC_PREFIX_LEN := 4

  /** "ORTE", version 1, the DEADBEEF suffix, four reserved bytes and CRLF. */
  const MAGIC: seq<Byte> := [
    0x4F, 0x52, 0x54, 0x45,
    0x00, 0x01,
    0xDE, 0xAD, 0xBE, 0xEF,
    0x00, 0x00, 0x00, 0x00,
    0x0D, 0x0A
  ]

  predicate IsMagic(buf: seq<Byte>) {
    |buf| >= MAGIC_LEN && buf[..MAGIC_LEN] == MAGIC
  }

  predicate IsMagicPrefix(buf: seq<Byte>) {
    |buf| == MAGIC_PREFIX_LEN && buf == MAGIC[..MAGIC_PREFIX_LEN]
  }

  /** What the classification hands over: the bytes it has read stay part of the business stream. */
  datatype Classified = Bootstrap | Business(alreadyRead: seq<Byte>) | ReadError

  /** The same decision on the whole arriving stream, with the bytes left unread. */
  function Classify(s: seq<Byte>): (Classified, seq<Byte>) {
    if |s| < MAGIC_PREFIX_LEN then (ReadError, [])
    else if !IsMagicPrefix(s[..MAGIC_PREFIX_LEN]) then (Business(s[..MAGIC_PREFIX_LEN]), s[MAGIC_PREFIX_LEN..])
    else if |s| < MAGIC_LEN then (ReadError, [])
    else if IsMagic(s[..MAGIC_LEN]) then (Bootstrap, s[MAGIC_LEN..])
    else (Business(s[..MAGIC_LEN]), s[MAGIC_LEN..])
  }

  datatype FirstPacket =
    | Packet(bytes: seq<Byte>)
    | ShortPrefix
    | OverLimit(size: nat)
    | PrefixOverflow(got: nat, size: nat)
    | PacketReadError

  /** The first business frame from a prefix already read and the bytes still to come. */
  function FirstPacketOf(alreadyRead: seq<Byte>, s: seq<Byte>): (FirstPacket, seq<Byte>) {
    if |alreadyRead| < 4 then (ShortPrefix, s)
    else
      var size := Decode32(alreadyRead[..4]);
      var got := |alreadyRead| - 4;
      if size > MAX_FRAME_SIZE then (OverLimit(size), s)
      else if got > size then (PrefixOverflow(got, size), s)
      else if |s| < size - got then (PacketReadError, [])
      else (Packet(alreadyRead[4..] + s[..size - got]), s[size - got..])
  }

  method ClassifyConnection(conn: Conn) returns (c: Classified)
    modifies conn`chunks
    ensures (c, conn.Incoming()) == Classify(old(conn.Incoming()))
  {
    ghost var s := conn.Incoming();
    var ok, head := conn.ReadFull(MAGIC_PREFIX_LEN);
    if !ok {
      return ReadError;
    }
    if !IsMagicPrefix(head) {
      return Business(head);
    }
    var tail;
    ok, tail := conn.ReadFull(MAGIC_LEN - MAGIC_PREFIX_LEN);
    if !ok {
      return ReadError;
    }
    var buf := head + tail;
    assert buf == s[..MAGIC_LEN];
    assert s[MAGIC_PREFIX_LEN..][MAGIC_LEN - MAGIC_PREFIX_LEN..] == s[MAGIC_LEN..];
    if IsMagic(buf) {
      return Bootstrap;
    }
    c := Business(buf);
  }

  method ReadFirstPacketWithPrefix(conn: Conn, alreadyRead: seq<Byte>) returns (r: FirstPacket)
    modifies conn`chunks
    ensures (r, conn.Incoming()) == FirstPacketOf(alreadyRead, old(conn.Incoming()))
  {
    if |alreadyRead| < 4 {
      return ShortPrefix;
    }
    var frameLen := Decode32(alreadyRead[..4]);
    if frameLen > MAX_FRAME_SIZE {
      return OverLimit(frameLen);
    }
    var got := |alreadyRead| - 4;
    if got > frameLen {
      return PrefixOverflow(got, frameLen);
    }
    var remaining := frameLen - got;
    var buf := alreadyRead[4..];
    assert buf + conn.Incoming()[..0] == buf;
    if remaining > 0 {
      var ok, rest := conn.ReadFull(remaining);
      if !ok {
        return PacketReadError;
      }
      buf := buf + rest;
    }
    r := Packet(buf);
  }

  datatype Dispatched = ToBootstrap | ToBusiness(payload: seq<Byte>) | Closed

  /** One accepted connection. For every stream and every segmentation: it is a bootstrap exactly when the
      first 16 bytes are the Magic, and otherwise its first payload and the bytes left over are those of a
      plain frame read on the untouched stream. */
  method DispatchConnection(conn: Conn) returns (d: Dispatched)
    modifies conn`chunks
    ensures d.ToBootstrap? <==> MAGIC <= old(conn.Incoming())
    ensures d.ToBootstrap? ==> old(conn.Incoming()) == MAGIC + conn.Incoming()
    ensures d.ToBusiness? <==> ParseFrame(old(conn.Incoming())).Frame?
    ensures d.ToBusiness? ==> ParseFrame(old(conn.Incoming())) == Frame(d.payload, conn.Incoming())
  {
    ghost var s := conn.Incoming();
    BootstrapExactly(s);
    match Classify(s).0 {
      case ReadError => if |s| >= 4 { OrteExceedsTheCap(s); }
      case Bootstrap => BootstrapIsNoFrame(s);
      case Business(_) => BusinessIsAFrameRead(s);
    }
    var c := ClassifyConnection(conn);
    match c {
      case ReadError => d := Closed;
      case Bootstrap => d := ToBootstrap;
      case Business(prefix) =>
        var p := ReadFirstPacketWithPrefix(conn, prefix);
        d := if p.Packet? then ToBusiness(p.bytes) else Closed;
    }
  }

  lemma BootstrapExactly(s: seq<Byte>)
    ensures Classify(s).0.Bootstrap? <==> MAGIC <= s
    ensures Classify(s).0.Bootstrap? ==> s == MAGIC + Classify(s).1
  {
    if MAGIC <= s {
      assert s[..MAGIC_LEN] == MAGIC;
      assert s[..MAGIC_PREFIX_LEN] == MAGIC[..MAGIC_PREFIX_LEN];
      assert s == MAGIC + s[MAGIC_LEN..];
    }
    if Classify(s).0.Bootstrap? {
      assert s[..MAGIC_LEN][..MAGIC_LEN] == s[..MAGIC_LEN];
      assert s == MAGIC + s[MAGIC_LEN..];
    }
  }

  /** "ORTE" read as a length is far above the frame cap. */
  lemma OrteExceedsTheCap(s: seq<Byte>)
    requires |s| >= 4 && s[..4] == MAGIC[..4]
    ensures Decode32(s[..4]) == 0x4F52_5445 && ParseFrame(s) == TooLong(0x4F52_5445)
  {
  }

  /** A bootstrap stream is never a readable frame, so the two protocols cannot be confused. */
  lemma BootstrapIsNoFrame(s: seq<Byte>)
    requires Classify(s).0.Bootstrap?
    ensures ParseFrame(s).TooLong?
  {
    OrteExceedsTheCap(s);
  }

  /** For both shapes of prefix the classification hands over (4 or 16 bytes), reading the first packet
      equals a frame read on the original stream: same payload, same bytes left, same failures. In
      particular the prefix-overflow branch is unreachable, and an ORTE prefix that is not the Magic
      always fails the cap. */
  lemma BusinessIsAFrameRead(s: seq<Byte>)
    requires Classify(s).0.Business?
    ensures var (p, left) := FirstPacketOf(Classify(s).0.alreadyRead, Classify(s).1);
            match ParseFrame(s)
            case Frame(payload, rest) => p == Packet(payload) && left == rest
            case TooLong(size) => p == OverLimit(size)
            case Incomplete => p == PacketReadError
    ensures IsMagicPrefix(s[..4]) ==> FirstPacketOf(Classify(s).0.alreadyRead, Classify(s).1).0 == OverLimit(0x4F52_5445)
  {
    var (c, rest) := Classify(s);
    if IsMagicPrefix(s[..4]) {
      assert c.alreadyRead[..4] == s[..4];
      OrteExceedsTheCap(s);
    } else {
      assert c.alreadyRead[..4] == s[..4] && c.alreadyRead[4..] == [];
      var size := Decode32(s[..4]);
      if size <= MAX_FRAME_SIZE && |rest| >= size {
        assert [] + rest[..size] == s[4..4 + size];
        assert rest[size..] == s[4 + size..];
      }
    }
  }

  /** Whatever a sender writes as frames is dispatched as business; the first payload comes out and the
      remaining frames, plus anything behind them, stay on the connection. */
  lemma WrittenFramesAreBusiness(payloads: seq<seq<Byte>>, tail: seq<Byte>)
    requires AllBounded(payloads) && payloads != []
    ensures var s := EncodeAll(payloads) + tail;
            Classify(s).0.Business? &&
            FirstPacketOf(Classify(s).0.alreadyRead, Classify(s).1)
            == (Packet(payloads[0]), EncodeAll(payloads[1..]) + tail)
  {
    var s := EncodeAll(payloads) + tail;
    var more := EncodeAll(payloads[1..]) + tail;
    SeqAssoc(EncodeFrame(payloads[0]), EncodeAll(payloads[1..]), tail);
    ParseOfEncode(payloads[0], more);
    assert ParseFrame(s) == Frame(payloads[0], more);
    if s[..4] == MAGIC[..4] {
      OrteExceedsTheCap(s);
    }
    BusinessIsAFrameRead(s);
  }

  /** The first packet for a prefix of any length: a frame read on the prefix and the stream together, unless the
      prefix reaches beyond the frame. A prefix without a whole length is refused. */
  lemma FirstPacketExactly(prefix: seq<Byte>, s: seq<Byte>)
    ensures |prefix| < 4 ==> FirstPacketOf(prefix, s) == (ShortPrefix, s)
    ensures |prefix| >= 4 ==>
              var (p, left) := FirstPacketOf(prefix, s);
              match ParseFrame(prefix + s)
              case Frame(payload, rest) =>
                if |prefix| <= 4 + |payload| then p == Packet(payload) && left == rest
                else p == PrefixOverflow(|prefix| - 4, |payload|)
              case TooLong(size) => p == OverLimit(size)
              case Incomplete => p == PacketReadError
  {
    if |prefix| >= 4 {
      var all := prefix + s;
      assert all[..4] == prefix[..4];
      var size, got := Decode32(prefix[..4]), |prefix| - 4;
      if size <= MAX_FRAME_SIZE && got <= size && |s| >= size - got {
        AcrossTheSeam(prefix, s, 4, 4 + size);
      }
    }
  }

  lemma AcrossTheSeam<T>(a: seq<T>, b: seq<T>, i: nat, j: nat)
    requires i <= |a| <= j <= |a| + |b|
    ensures (a + b)[i..j] == a[i..] + b[..j - |a|] && (a + b)[j..] == b[j - |a|..]
  {
  }
}
