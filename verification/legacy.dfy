/** The first, unframed protocol (server/server.go, client/client.go): every control
    message is one fixed block of `Layer.Len` = 6 bytes. A registration or
    cancellation carries a 16-bit port big-endian in bytes 1-2; an exchange notice
    carries the tag followed by a 5-character connection id, and the client echoes
    that block back on a fresh connection to claim the pairing. */
module Legacy {
  import opened Wrappers
  import opened GoText
  import Layer

  /** Go's `byte(x)` conversion: the low eight bits, for negative `x` too. */
  function GoByte(x: int): (b: byte)
    ensures b as int == x % 256
  {
    (x % 256) as byte
  }

  /** `sendRegister` / `sendCancel`: `[tag, byte(port >> 8), byte(port), 0, 0, 0]`.
      Go's `>>` on a signed int is a floor division, which is what `/ 256` is here. */
  function PortBlock(tag: byte, port: int): (b: seq<byte>)
    ensures |b| == Layer.Len && b[0] == tag
    ensures b[1] as int == (port / 256) % 256 && b[2] as int == port % 256
    ensures b[3] == b[4] == b[5] == 0
  {
    [tag, GoByte(port / 256), GoByte(port), 0, 0, 0]
  }

  /** `parseRegisterPacket` / `parseCancelPacket`: `int(buf[1])<<8 + int(buf[2])`. */
  function ParsePort(buf: seq<byte>): (port: int)
    requires |buf| >= 3
    ensures 0 <= port <= 65535
    ensures port / 256 == buf[1] as int && port % 256 == buf[2] as int
  {
    (buf[1] as int) * 256 + (buf[2] as int)
  }

  /** `isInvaliedPort`. */
  predicate IsInvalidPort(port: int) {
    port < 0 || port > 65535
  }

  /** The two low bytes of a port survive the block: what the server reads back is the
      port modulo 2^16, and so the port itself for every valid port. */
  lemma PortRoundTrip(tag: byte, port: int)
    ensures ParsePort(PortBlock(tag, port)) == port % 65536
    ensures !IsInvalidPort(port) ==> ParsePort(PortBlock(tag, port)) == port
  {
    var q := port / 256;
    var r := port % 256;
    assert port == 256 * q + r;
    var qq := q / 256;
    assert q % 256 == q - 256 * qq;
    assert ParsePort(PortBlock(tag, port)) == port - 65536 * qq;
  }

  /** No port read off the wire is invalid: the server's range check never fires, and
      an out-of-range port sent by a client arrives silently wrapped. */
  lemma DecodedPortNeverInvalid(buf: seq<byte>)
    requires |buf| >= 3
    ensures !IsInvalidPort(ParsePort(buf))
  {
  }

  /** `parseExchangePacket`: the bytes after the tag, as a string. */
  function ParseExchange(buf: seq<byte>): (id: string)
    requires |buf| >= 1
    ensures |id| == |buf| - 1
    ensures forall i :: 0 <= i < |id| ==> id[i] as int == buf[i + 1] as int
  {
    BytesToString(buf[1..])
  }

  /** `genUuid(n)`: the first `n` characters of a freshly generated UUID string,
      here passed in as `u`. Slicing past its end would panic. */
  function GenUuid(u: string, n: nat): (id: string)
    requires n <= |u|
    ensures |id| == n && HasPrefix(u, id)
  {
    u[..n]
  }

  /** What `handle` does with a block it read from a fresh control connection. */
  datatype Action =
    | Ignore
    | Listen(port: int)
    | Relay(connId: string)
    | CancelNoop

  /** `handle` after `read`: a failed read or an unknown tag does nothing;
      a registration with a valid port opens a listener; an exchange pairs with the
      waiting user connection; a cancellation is an unimplemented no-op. */
  function Handle(s: seq<byte>): (a: Action)
    ensures |s| == 0 ==> a == Ignore
    ensures a.Listen? ==> 0 <= a.port <= 65535 && s[0] == Layer.RegisterForward
    ensures a.Relay? ==> |a.connId| == Layer.Len - 1 && s[0] == Layer.ExchangeMsg
    ensures |s| >= Layer.Len && s[0] == Layer.ExchangeMsg ==> a == Relay(ParseExchange(s[..Layer.Len]))
    ensures |s| > 0 && s[0] == Layer.RegisterForward ==> a == Listen(ParsePort(Layer.Read(s).buf.value))
    ensures |s| > 0 && s[0] == Layer.ExchangeMsg ==> a == Relay(ParseExchange(Layer.Read(s).buf.value))
    ensures |s| > 0 && s[0] == Layer.CancelForward ==> a == CancelNoop
    ensures |s| > 0 && s[0] !in {Layer.RegisterForward, Layer.ExchangeMsg, Layer.CancelForward} ==> a == Ignore
  {
    var b := Layer.Read(s);
    if b.err.Some? then Ignore
    else
      var buf := b.buf.value;
      if buf[0] == Layer.RegisterForward then
        var port := ParsePort(buf);
        if IsInvalidPort(port) then Ignore else Listen(port)
      else if buf[0] == Layer.ExchangeMsg then Relay(ParseExchange(buf))
      else if buf[0] == Layer.CancelForward then CancelNoop
      else Ignore
  }

  /** A client's registration is understood by the server as a listen request on
      the same port. */
  lemma RegisterReachesServer(port: int, tail: seq<byte>)
    requires !IsInvalidPort(port)
    ensures Handle(PortBlock(Layer.RegisterForward, port) + tail) == Listen(port)
  {
    var s := PortBlock(Layer.RegisterForward, port) + tail;
    assert s[..Layer.Len] == PortBlock(Layer.RegisterForward, port);
    PortRoundTrip(Layer.RegisterForward, port);
  }

  /** `readExchangeMsg` on the client: one read of `Len` bytes; anything short is
      fatal. */
  function ClientReadExchange(s: seq<byte>): (buf: Option<seq<byte>>)
    ensures buf.Some? <==> |s| >= Layer.Len
    ensures buf.Some? ==> buf.value == s[..Layer.Len]
  {
    if |s| >= Layer.Len then Some(s[..Layer.Len]) else None
  }

  /** `sendExchangeMsg` as written: `make([]byte, Len)` makes six zero bytes that the
      tag and the id are then appended after. */
  function ExchangeBlockAsWritten(id: string): (b: seq<byte>)
    requires IsAscii(id)
    ensures |b| == Layer.Len + 1 + |id|
    ensures forall i :: 0 <= i < Layer.Len ==> b[i] == 0
  {
    Layer.Zeros(Layer.Len) + [Layer.ExchangeMsg] + StringToBytes(id)
  }

  /** `sendExchangeMsg` as evidently intended (`make([]byte, 0, Len)`): the tag, then
      the id, exactly one block for a 5-character id. */
  function ExchangeBlock(id: string): (b: seq<byte>)
    requires IsAscii(id)
    ensures |b| == 1 + |id| && b[0] == Layer.ExchangeMsg
    ensures ParseExchange(b) == id
  {
    var b := [Layer.ExchangeMsg] + StringToBytes(id);
    assert b[1..] == StringToBytes(id);
    BytesStringRoundTrip(id);
    b
  }

  /** The pairing handshake from the client's side: its `run` loop takes one block
      at a time off the control connection with `readExchangeMsg`, until a read
      comes up short (which is fatal), and echoes each block to the server on a new
      connection, while also dialling the local service for it. The result is what
      the server does with each echo, in order. */
  function Handshake(notices: seq<byte>): (acts: seq<Action>)
    ensures |acts| == |notices| / Layer.Len
    decreases |notices|
  {
    match ClientReadExchange(notices)
    case None => []
    case Some(buf) => [Handle(buf)] + Handshake(notices[Layer.Len..])
  }

  /** The client reads whole blocks, so a stream cut at a block boundary is handled
      as its two parts one after the other. */
  lemma {:induction false} HandshakeConcat(a: seq<byte>, b: seq<byte>)
    requires |a| % Layer.Len == 0
    ensures Handshake(a + b) == Handshake(a) + Handshake(b)
    decreases |a|
  {
    if |a| == 0 {
      assert a + b == b;
    } else {
      assert (a + b)[..Layer.Len] == a[..Layer.Len];
      assert (a + b)[Layer.Len..] == a[Layer.Len..] + b;
      HandshakeConcat(a[Layer.Len..], b);
    }
  }

  /** A single block is echoed once. */
  lemma HandshakeOneBlock(b: seq<byte>)
    requires |b| == Layer.Len
    ensures Handshake(b) == [Handle(b)]
  {
    assert b[..Layer.Len] == b;
    assert Handshake(b[Layer.Len..]) == [];
  }

  /** The echo of a well-formed exchange block pairs with the id it carries. */
  lemma ExchangeBlockPairs(id: string)
    requires IsAscii(id) && |id| == Layer.Len - 1
    ensures Handle(ExchangeBlock(id)) == Relay(id)
  {
    var b := ExchangeBlock(id);
    assert b[..Layer.Len] == b;
  }

  /** As written, one notice is two blocks: the client echoes the zero block first,
      which the server ignores (leaving that connection and the local-service
      connection dialled for it idle and open), and then the tag and id, which pair. */
  lemma ExchangeAsWrittenEchoesTwice(id: string)
    requires IsAscii(id) && |id| == Layer.Len - 1
    ensures Handshake(ExchangeBlockAsWritten(id)) == [Ignore, Relay(id)]
  {
    var zeros, block := Layer.Zeros(Layer.Len), ExchangeBlock(id);
    assert ExchangeBlockAsWritten(id) == zeros + block;
    assert Handshake(zeros + block) == [Ignore, Relay(id)] by {
      HandshakeConcat(zeros, block);
      HandshakeOneBlock(zeros);
      HandshakeOneBlock(block);
      ExchangeBlockPairs(id);
    }
  }

  /** Corrected, each notice is one block carrying the tag and the id the server
      stored, so the handshake pairs with exactly that connection and nothing else. */
  lemma ExchangePairs(id: string)
    requires IsAscii(id) && |id| == Layer.Len - 1
    ensures Handshake(ExchangeBlock(id)) == [Relay(id)]
  {
    HandshakeOneBlock(ExchangeBlock(id));
    ExchangeBlockPairs(id);
  }

  predicate ValidIds(ids: seq<string>) {
    forall i :: 0 <= i < |ids| ==> IsAscii(ids[i]) && |ids[i]| == Layer.Len - 1
  }

  /** The notices the server writes, in order, for user connections with ids `ids`:
      as written or corrected. */
  function Notices(ids: seq<string>, asWritten: bool): (s: seq<byte>)
    requires ValidIds(ids)
    ensures |s| == |ids| * (if asWritten then 2 * Layer.Len else Layer.Len)
  {
    if |ids| == 0 then []
    else (if asWritten then ExchangeBlockAsWritten(ids[0]) else ExchangeBlock(ids[0])) + Notices(ids[1..], asWritten)
  }

  /** Over a whole session, as written, every user connection costs two echoes:
      the even ones are ignored and the odd ones pair, in order. */
  lemma {:induction false} AsWrittenDoublesEchoes(ids: seq<string>)
    requires ValidIds(ids)
    ensures var acts := Handshake(Notices(ids, true));
            && |acts| == 2 * |ids|
            && forall i :: 0 <= i < |ids| ==> acts[2 * i] == Ignore && acts[2 * i + 1] == Relay(ids[i])
  {
    if |ids| > 0 {
      var head := ExchangeBlockAsWritten(ids[0]);
      HandshakeConcat(head, Notices(ids[1..], true));
      ExchangeAsWrittenEchoesTwice(ids[0]);
      AsWrittenDoublesEchoes(ids[1..]);
      DoubledStep(ids, Handshake(Notices(ids[1..], true)));
    }
  }

  /** The inductive step of `AsWrittenDoublesEchoes`, on sequences alone. */
  lemma DoubledStep(ids: seq<string>, tail: seq<Action>)
    requires |ids| > 0 && |tail| == 2 * (|ids| - 1)
    requires forall i :: 0 <= i < |ids| - 1 ==> tail[2 * i] == Ignore && tail[2 * i + 1] == Relay(ids[i + 1])
    ensures var acts := [Ignore, Relay(ids[0])] + tail;
            forall i :: 0 <= i < |ids| ==> acts[2 * i] == Ignore && acts[2 * i + 1] == Relay(ids[i])
  {
    var acts := [Ignore, Relay(ids[0])] + tail;
    forall i | 0 < i < |ids| ensures acts[2 * i] == Ignore && acts[2 * i + 1] == Relay(ids[i]) {
      assert acts[2 * i] == tail[2 * (i - 1)];
      assert acts[2 * i + 1] == tail[2 * (i - 1) + 1];
    }
  }

  /** Corrected, the echoes pair one to one with the user connections, in order. */
  lemma {:induction false} CorrectedPairsEach(ids: seq<string>)
    requires ValidIds(ids)
    ensures var acts := Handshake(Notices(ids, false));
            && |acts| == |ids|
            && forall i :: 0 <= i < |ids| ==> acts[i] == Relay(ids[i])
  {
    if |ids| > 0 {
      HandshakeConcat(ExchangeBlock(ids[0]), Notices(ids[1..], false));
      ExchangePairs(ids[0]);
      CorrectedPairsEach(ids[1..]);
      var acts := Handshake(Notices(ids, false));
      var tail := Handshake(Notices(ids[1..], false));
      assert acts == [Relay(ids[0])] + tail;
      forall i | 0 < i < |ids| ensures acts[i] == Relay(ids[i]) {
        assert acts[i] == tail[i - 1];
        assert ids[1..][i - 1] == ids[i];
      }
    }
  }
}
