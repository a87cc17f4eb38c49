/** The newest wire protocol (proto/packet.go, proto/msg.go): seven message kinds,
    each travelling in a frame whose tag is fixed by the kind, with the message
    serialised as JSON inside.

    JSON itself is not modelled: a `Serializer` is a pair of functions passed in,
    and `Faithful` is what the model relies on from it. md5 and hex encoding are
    likewise one function `digest` passed in, and the clock reading and the build
    version are parameters. */
module Proto {
  import opened Wrappers
  import opened GoText
  import Frame

  const PacketUnknown: byte := 0x00
  const PacketLogin: byte := 0x01
  const PacketHeartbeat: byte := 0x02
  const PacketProxyReq: byte := 0x03
  const PacketProxyResp: byte := 0x04
  const PacketProxyCancel: byte := 0x05
  const PacketExchange: byte := 0x06
  const PacketUDPDatagram: byte := 0x07

  predicate KnownTag(t: byte) {
    PacketLogin <= t <= PacketUDPDatagram
  }

  /** `PacketType.String`, the short name used in log lines. */
  function Name(t: byte): (r: string)
    ensures r == "unknown" <==> !KnownTag(t)
  {
    if t == PacketLogin then "login"
    else if t == PacketHeartbeat then "hbeat"
    else if t == PacketProxyReq then "preq"
    else if t == PacketProxyResp then "presp"
    else if t == PacketProxyCancel then "pcancel"
    else if t == PacketExchange then "exchan"
    else if t == PacketUDPDatagram then "udpgram"
    else "unknown"
  }

  /** Every known tag has a name of its own. */
  lemma NamesDistinct(a: byte, b: byte)
    requires KnownTag(a) && KnownTag(b) && a != b
    ensures Name(a) != Name(b)
  {
  }

  datatype Msg =
    | Login(token: string, version: string, timestamp: int)
    | Heartbeat
    | ProxyReq(remotePort: int, proxyName: string, subdomain: string, proxyType: string)
    | ProxyResp(domain: string, status: string)
    | ProxyCancel(proxyName: string, remotePort: int)
    | Exchange(connId: string, proxyType: string)
    | UDPDatagram(payload: seq<byte>, addr: Option<string>)

  /** Two messages of the same Go type. */
  predicate SameKind(a: Msg, b: Msg) {
    && a.Login? == b.Login?
    && a.Heartbeat? == b.Heartbeat?
    && a.ProxyReq? == b.ProxyReq?
    && a.ProxyResp? == b.ProxyResp?
    && a.ProxyCancel? == b.ProxyCancel?
    && a.Exchange? == b.Exchange?
    && a.UDPDatagram? == b.UDPDatagram?
  }

  /** `Type()` of each message. */
  function Type(m: Msg): (t: byte)
    ensures KnownTag(t)
  {
    match m
    case Login(_, _, _) => PacketLogin
    case Heartbeat => PacketHeartbeat
    case ProxyReq(_, _, _, _) => PacketProxyReq
    case ProxyResp(_, _) => PacketProxyResp
    case ProxyCancel(_, _) => PacketProxyCancel
    case Exchange(_, _) => PacketExchange
    case UDPDatagram(_, _) => PacketUDPDatagram
  }

  /** The tag identifies the kind: seven kinds, seven distinct tags. */
  lemma TypeIdentifiesKind(a: Msg, b: Msg)
    ensures Type(a) == Type(b) <==> SameKind(a, b)
  {
  }

  /** `json.Marshal` and `json.Unmarshal(buf, into)`; either may fail. */
  datatype Serializer = Serializer(marshal: Msg -> Option<seq<byte>>, unmarshal: (seq<byte>, Msg) -> Option<Msg>)

  /** What the model assumes of the JSON codec: decoding into a message of some kind
      yields that kind, and decoding a message's own encoding into its kind gives the
      message back. */
  ghost predicate Faithful(j: Serializer) {
    && (forall b, into :: j.unmarshal(b, into).Some? ==> SameKind(j.unmarshal(b, into).value, into))
    && (forall m, into :: j.marshal(m).Some? && SameKind(m, into) ==> j.unmarshal(j.marshal(m).value, into) == Some(m))
  }

  /** `Send`: the bytes written are the frame tagged `m.Type()` around the serialised
      message. */
  function Send(m: Msg, j: Serializer): (r: Result<seq<byte>, Frame.Error>)
    ensures j.marshal(m).None? ==> r == Err(Frame.MarshalFailed)
    ensures j.marshal(m).Some? ==> r == Frame.Packet0(Type(m), j.marshal(m).value)
  {
    match j.marshal(m)
    case None => Err(Frame.MarshalFailed)
    case Some(payload) => Frame.Packet0(Type(m), payload)
  }

  /** `Recv(r, into)`: read one frame; a read error comes back unchanged, a tag other
      than `into.Type()` is `ErrInvalidMsg` whatever the payload, otherwise the payload
      is decoded into a message of `into`'s kind. */
  function Recv(s: seq<byte>, into: Msg, j: Serializer): (r: Result<(Msg, seq<byte>), Frame.Error>)
    ensures Frame.Read0AsWritten(s).Failed? ==> r == Err(Frame.Read0AsWritten(s).err)
    ensures Frame.Read0AsWritten(s).Got? && Frame.Read0AsWritten(s).typ != Type(into) ==> r == Err(Frame.ErrInvalidMsg)
    ensures r.Ok? ==> Frame.Read0AsWritten(s).Got? && Frame.Read0AsWritten(s).typ == Type(into)
                      && j.unmarshal(Frame.Read0AsWritten(s).payload, into) == Some(r.value.0)
                      && r.value.1 == Frame.Read0AsWritten(s).rest
    ensures Faithful(j) && r.Ok? ==> SameKind(r.value.0, into)
  {
    var p := Frame.Read(s);
    if p.err.Some? then Err(p.err.value)
    else if p.typ != Type(into) then Err(Frame.ErrInvalidMsg)
    else
      match j.unmarshal(p.payload.value, into)
      case None => Err(Frame.UnmarshalFailed)
      case Some(m) => Ok((m, p.rest))
  }

  /** Round trip: what `Send` writes, `Recv` into a message of the same kind reads
      back, leaving the stream right after the frame. */
  lemma SendRecvRoundTrip(m: Msg, into: Msg, j: Serializer, tail: seq<byte>)
    requires Faithful(j)
    requires Send(m, j).Ok? && SameKind(m, into)
    ensures Recv(Send(m, j).value + tail, into, j) == Ok((m, tail))
  {
    TypeIdentifiesKind(m, into);
    Frame.FrameRoundTrip(Type(m), j.marshal(m).value, tail);
  }

  /** Receiving into a message of another kind is `ErrInvalidMsg`. */
  lemma RecvRejectsOtherKind(m: Msg, into: Msg, j: Serializer, tail: seq<byte>)
    requires Send(m, j).Ok? && !SameKind(m, into)
    ensures Recv(Send(m, j).value + tail, into, j) == Err(Frame.ErrInvalidMsg)
  {
    TypeIdentifiesKind(m, into);
    Frame.FrameRoundTrip(Type(m), j.marshal(m).value, tail);
  }

  /** The login credential: hex(md5(secret ‖ decimal(ts))), with `digest` standing
      for hex∘md5. */
  function Credential(secret: string, ts: int, digest: string -> string): string {
    digest(secret + Itoa(ts))
  }

  /** `NewMsgLogin(token)` at clock reading `now` (Unix seconds), built by `version`. */
  function NewMsgLogin(token: string, now: int, version: string, digest: string -> string): (m: Msg)
    ensures m.Login? && m.timestamp == now && m.version == version
    ensures m.token == Credential(token, now, digest)
  {
    Login(Credential(token, now, digest), version, now)
  }

  function NewMsgHeartbeat(): (m: Msg)
    ensures Type(m) == PacketHeartbeat
  {
    Heartbeat
  }

  /** `NewMsgProxy(proxyName, subdomain, proxyType, remotePort)`. */
  function NewMsgProxy(proxyName: string, subdomain: string, proxyType: string, remotePort: int): (m: Msg)
    ensures m == ProxyReq(remotePort, proxyName, subdomain, proxyType)
  {
    ProxyReq(remotePort, proxyName, subdomain, proxyType)
  }

  function NewMsgProxyResp(domain: string, status: string): (m: Msg)
    ensures m.ProxyResp? && m.domain == domain && m.status == status
  {
    ProxyResp(domain, status)
  }

  /** `NewMsgCancel(token, proxyName, remotePort)`: the token is accepted and dropped. */
  function NewMsgCancel(token: string, proxyName: string, remotePort: int): (m: Msg)
    ensures m.ProxyCancel? && m.proxyName == proxyName && m.remotePort == remotePort
  {
    ProxyCancel(proxyName, remotePort)
  }

  /** The token handed to `NewMsgCancel` never reaches the message. */
  lemma CancelIgnoresToken(t1: string, t2: string, proxyName: string, remotePort: int)
    ensures NewMsgCancel(t1, proxyName, remotePort) == NewMsgCancel(t2, proxyName, remotePort)
  {
  }

  function NewMsgExchange(connId: string, proxyType: string): (m: Msg)
    ensures m.Exchange? && m.connId == connId && m.proxyType == proxyType
  {
    Exchange(connId, proxyType)
  }

  function NewMsgUDPDatagram(addr: Option<string>, payload: seq<byte>): (m: Msg)
    ensures m.UDPDatagram? && m.payload == payload && m.addr == addr
  {
    UDPDatagram(payload, addr)
  }

}
