/** Bytes, big-endian integers, and a connection that delivers its bytes in arbitrary chunks. */
module ByteStreams {

  type Byte = b: int | 0 <= b < 256

  const U32_LIMIT := 0x1_0000_0000
  const U16_LIMIT := 0x1_0000

  function Be32(n: nat): (s: seq<Byte>)
    requires n < U32_LIMIT
    ensures |s| == 4 && Decode32(s) == n
  {
    var high, low := n / 0x1_0000, n % 0x1_0000;
    [high / 0x100, high % 0x100, low / 0x100, low % 0x100]
  }

  function Decode32(s: seq<Byte>): (n: nat)
    requires |s| == 4
    ensures n < U32_LIMIT
  {
    (s[0] as int) * 0x100_0000 + (s[1] as int) * 0x1_0000 + (s[2] as int) * 0x100 + (s[3] as int)
  }

  function Be16(n: nat): (s: seq<Byte>)
    requires n < U16_LIMIT
    ensures |s| == 2 && Decode16(s) == n
  {
    [n / 0x100, n % 0x100]
  }

  function Decode16(s: seq<Byte>): (n: nat)
    requires |s| == 2
    ensures n < U16_LIMIT
  {
    (s[0] as int) * 0x100 + (s[1] as int)
  }

  lemma Be32Decode32(s: seq<Byte>)
    requires |s| == 4
    ensures Be32(Decode32(s)) == s
  {
    var n := Decode32(s);
    assert n / 0x1_0000 == (s[0] as int) * 0x100 + (s[1] as int);
    assert n % 0x1_0000 == (s[2] as int) * 0x100 + (s[3] as int);
  }

  lemma Be16Decode16(s: seq<Byte>)
    requires |s| == 2
    ensures Be16(Decode16(s)) == s
  {
  }

  function Flatten<T>(chunks: seq<seq<T>>): (s: seq<T>) {
    if chunks == [] then [] else chunks[0] + Flatten(chunks[1..])
  }

  /** One end of a TCP connection. `chunks` are the segments that arrive before the read deadline, and
      after them every read fails; a segment may be empty. `sent` is what has been written so far. */
  class Conn {
    var chunks: seq<seq<Byte>>
    var sent: seq<Byte>

    constructor (chunks: seq<seq<Byte>>)
      ensures this.chunks == chunks && sent == []
    {
      this.chunks := chunks;
      sent := [];
    }

    ghost function Incoming(): (s: seq<Byte>)
      reads this
    {
      Flatten(chunks)
    }

    /** One read call with a buffer of `max` bytes: at most one segment, and never more than the buffer. */
    method Read(max: nat) returns (data: seq<Byte>, eof: bool)
      modifies `chunks
      ensures eof ==> data == [] && old(Incoming()) == [] && chunks == []
      ensures !eof ==> |data| <= max && old(Incoming()) == data + Incoming()
      ensures !eof && max > 0 ==> |chunks| + |Incoming()| < old(|chunks| + |Incoming()|)
    {
      if chunks == [] {
        return [], true;
      }
      eof := false;
      var head := chunks[0];
      if |head| <= max {
        data := head;
        chunks := chunks[1..];
      } else {
        data := head[..max];
        chunks := [head[max..]] + chunks[1..];
        assert old(chunks)[1..] == chunks[1..];
        assert head == data + head[max..];
      }
    }

    /** Reads exactly `n` bytes. Whether it succeeds, and what it reads, depend on the bytes that arrive
        and not on how they are cut into segments. */
    method ReadFull(n: nat) returns (ok: bool, data: seq<Byte>)
      modifies `chunks
      ensures ok <==> |old(Incoming())| >= n
      ensures ok ==> data == old(Incoming())[..n] && Incoming() == old(Incoming())[n..]
      ensures !ok ==> data == [] && Incoming() == []
    {
      data := [];
      while |data| < n
        invariant |data| <= n
        invariant data + Incoming() == old(Incoming())
        decreases |chunks| + |Incoming()|
      {
        var part, eof := Read(n - |data|);
        if eof {
          assert data == old(Incoming());
          return false, [];
        }
        data := data + part;
      }
      ok := true;
    }

    /** One write call: it accepts all of `data`, or fails after an arbitrary prefix of it. */
    method Write(data: seq<Byte>) returns (n: nat, ok: bool)
      modifies `sent
      ensures n <= |data| && sent == old(sent) + data[..n]
      ensures ok ==> n == |data|
    {
      ok := *;
      if ok {
        n := |data|;
      } else {
        n :| 0 <= n <= |data|;
      }
      sent := sent + data[..n];
    }

    /** One write call on a connection that may also report a short write without an error. */
    method WriteSome(data: seq<Byte>) returns (n: nat, ok: bool)
      modifies `sent
      ensures n <= |data| && sent == old(sent) + data[..n]
    {
      ok := *;
      n :| 0 <= n <= |data|;
      sent := sent + data[..n];
    }
  }
}
