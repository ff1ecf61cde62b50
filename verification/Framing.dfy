/** Length-prefixed frames (src/util/framing.go). */
module Framing {
  import opened ByteStreams
  import opened Common

  const MAX_FRAME_SIZE := 0x10_0000

  datatype FrameResult =
    | Frame(payload: seq<Byte>, rest: seq<Byte>)
    | TooLong(size: nat)
    | Incomplete

  function EncodeFrame(payload: seq<Byte>): seq<Byte>
    requires |payload| <= MAX_FRAME_SIZE
  {
    Be32(|payload|) + payload
  }

  /** What one frame read makes of the bytes that arrive. */
  function ParseFrame(s: seq<Byte>): FrameResult {
    if |s| < 4 then Incomplete
    else
      var size := Decode32(s[..4]);
      if size > MAX_FRAME_SIZE then TooLong(size)
      else if |s| < 4 + size then Incomplete
      else Frame(s[4..4 + size], s[4 + size..])
  }

  ghost predicate AllBounded(payloads: seq<seq<Byte>>) {
    forall p :: p in payloads ==> |p| <= MAX_FRAME_SIZE
  }

  function EncodeAll(payloads: seq<seq<Byte>>): seq<Byte>
    requires AllBounded(payloads)
  {
    if payloads == [] then [] else EncodeFrame(payloads[0]) + EncodeAll(payloads[1..])
  }

  /** Reading frames until one read fails: the payloads, and the bytes the failing read started from. */
  function ParseAll(s: seq<Byte>): (seq<seq<Byte>>, seq<Byte>)
    decreases |s|
  {
    match ParseFrame(s)
    case Frame(p, rest) =>
      var (ps, left) := ParseAll(rest);
      ([p] + ps, left)
    case _ => ([], s)
  }

  /** Reading back a written frame gives the payload and leaves the following bytes in place. */
  lemma ParseOfEncode(payload: seq<Byte>, rest: seq<Byte>)
    requires |payload| <= MAX_FRAME_SIZE
    ensures ParseFrame(EncodeFrame(payload) + rest) == Frame(payload, rest)
  {
    var s := EncodeFrame(payload) + rest;
    assert s[..4] == Be32(|payload|);
    assert s[4..4 + |payload|] == payload;
    assert s[4 + |payload|..] == rest;
  }

  /** The converse: a frame read succeeds only on the bytes WriteFrame puts out for that payload. */
  lemma EncodeOfParse(s: seq<Byte>)
    requires ParseFrame(s).Frame?
    ensures var f := ParseFrame(s); |f.payload| <= MAX_FRAME_SIZE && s == EncodeFrame(f.payload) + f.rest
  {
    var n := Decode32(s[..4]);
    Be32Decode32(s[..4]);
    CutTwice(s, 4, 4 + n);
  }

  lemma CutTwice(s: seq<Byte>, i: nat, j: nat)
    requires i <= j <= |s|
    ensures s == (s[..i] + s[i..j]) + s[j..] && |s[i..j]| == j - i
  {
  }

  lemma EncodeAllStep(p: seq<Byte>, ps: seq<seq<Byte>>, tail: seq<Byte>)
    requires AllBounded([p] + ps) && AllBounded(ps) && |p| <= MAX_FRAME_SIZE
    ensures EncodeAll([p] + ps) + tail == EncodeFrame(p) + (EncodeAll(ps) + tail)
  {
    assert ([p] + ps)[1..] == ps;
    SeqAssoc(EncodeFrame(p), EncodeAll(ps), tail);
  }

  /** Repeated reads recover the whole written sequence and stop exactly at the bytes behind it. */
  lemma {:induction false} ParseAllOfEncodeAll(payloads: seq<seq<Byte>>, tail: seq<Byte>)
    requires AllBounded(payloads) && !ParseFrame(tail).Frame?
    ensures ParseAll(EncodeAll(payloads) + tail) == (payloads, tail)
  {
    if payloads == [] {
      assert EncodeAll(payloads) + tail == tail;
    } else {
      var p, ps := payloads[0], payloads[1..];
      assert payloads == [p] + ps;
      var more := EncodeAll(ps) + tail;
      ParseAllOfEncodeAll(ps, tail);
      EncodeAllStep(p, ps, tail);
      ParseOfEncode(p, more);
    }
  }

  /** The decoded frames account for every consumed byte, and what is left does not start with a
      readable frame, so no two payload sequences share an encoding. */
  lemma {:induction false} EncodeAllOfParseAll(s: seq<Byte>)
    ensures var (ps, left) := ParseAll(s);
            AllBounded(ps) && s == EncodeAll(ps) + left && !ParseFrame(left).Frame?
    decreases |s|
  {
    var f := ParseFrame(s);
    if f.Frame? {
      EncodeOfParse(s);
      EncodeAllOfParseAll(f.rest);
      EncodeAllStep(f.payload, ParseAll(f.rest).0, ParseAll(f.rest).1);
    } else {
      assert s == EncodeAll([]) + s;
    }
  }

  method WriteFrame(conn: Conn, data: seq<Byte>) returns (ok: bool)
    modifies conn`sent
    ensures |data| > 1_048_576 ==> !ok && conn.sent == old(conn.sent)
    ensures ok ==> conn.sent == old(conn.sent) + EncodeFrame(data)
    ensures |data| <= MAX_FRAME_SIZE ==> old(conn.sent) <= conn.sent <= old(conn.sent) + EncodeFrame(data)
  {
    if |data| > MAX_FRAME_SIZE {
      return false;
    }
    var hdr := Be32(|data|);
    var n;
    n, ok := conn.Write(hdr);
    assert hdr + data == EncodeFrame(data);
    assert hdr[..n] <= hdr + data;
    if !ok {
      return;
    }
    assert conn.sent == old(conn.sent) + hdr;
    n, ok := conn.Write(data);
    assert hdr + data[..n] <= hdr + data;
    assert conn.sent == old(conn.sent) + (hdr + data[..n]);
    if ok {
      assert data[..n] == data;
    }
  }

  /** Writes all of `data` over as many write calls as it takes; a write that moves nothing is an error. */
  method WriteWithDeadline(conn: Conn, data: seq<Byte>) returns (ok: bool)
    modifies conn`sent
    ensures ok ==> conn.sent == old(conn.sent) + data
    ensures old(conn.sent) <= conn.sent <= old(conn.sent) + data
  {
    var left := data;
    while |left| > 0
      invariant conn.sent + left == old(conn.sent) + data
      invariant old(conn.sent) <= conn.sent <= old(conn.sent) + data
    {
      var n, done := conn.WriteSome(left);
      assert left == left[..n] + left[n..];
      assert conn.sent + left[n..] == old(conn.sent) + data;
      if !done || n <= 0 {
        return false;
      }
      left := left[n..];
    }
    ok := true;
  }

  datatype ReadResult = Payload(bytes: seq<Byte>) | LengthExceeded(size: nat) | ShortRead

  /** Reads one frame; on success exactly the bytes behind it remain. The outcome is a function of the
      arriving bytes, however they are segmented. */
  method ReadFrame(conn: Conn) returns (r: ReadResult)
    modifies conn`chunks
    ensures match ParseFrame(old(conn.Incoming()))
            case Frame(p, rest) => r == Payload(p) && conn.Incoming() == rest
            case TooLong(size) => r == LengthExceeded(size) && conn.Incoming() == old(conn.Incoming())[4..]
            case Incomplete => r == ShortRead
  {
    ghost var s := conn.Incoming();
    var ok, hdr := conn.ReadFull(4);
    if !ok {
      return ShortRead;
    }
    var size := Decode32(hdr);
    if size > MAX_FRAME_SIZE {
      return LengthExceeded(size);
    }
    var buf;
    ok, buf := conn.ReadFull(size);
    if !ok {
      return ShortRead;
    }
    assert s[4..][..size] == s[4..4 + size];
    assert s[4..][size..] == s[4 + size..];
    r := Payload(buf);
  }
}
