/** The intermediate wire protocol (protocol/packet.go, protocol/msg.go). Every
    message carries a `MetaMsg` {token, version}; receiving a message checks its
    tag against the expected kind and its token against the process-wide
    `Authorizator`.

    protocol/msg.go names two tags, `ForwardResp` and `Heartbeat`, that
    protocol/packet.go does not declare, and calls a `read` that the package only
    has as `readMsg`. The model gives the two tags the next free values 0x05 and
    0x06 and reads with `readMsg`; nothing below depends on those values beyond
    their being distinct from the declared ones. */
module Protocol {
  import opened Wrappers
  import opened GoText
  import Frame

  const Unknown: byte := 0x00
  const Forward: byte := 0x01
  const Accept: byte := 0x02
  const Exchange: byte := 0x03
  const Cancel: byte := 0x04
  const ForwardResp: byte := 0x05
  const Heartbeat: byte := 0x06

  /** `PacketType.String`: the four declared tags have names, everything else is
      "unknown". */
  function Name(t: byte): (r: string)
    ensures r == "unknown" <==> !(Forward <= t <= Cancel)
  {
    if t == Forward then "forward"
    else if t == Accept then "accept"
    else if t == Exchange then "exchange"
    else if t == Cancel then "cancel"
    else "unknown"
  }

  lemma NamesDistinct(a: byte, b: byte)
    requires Forward <= a <= Cancel && Forward <= b <= Cancel && a != b
    ensures Name(a) != Name(b)
  {
  }

  datatype MetaMsg = MetaMsg(token: string, version: string)

  const ProtocolVersion: string := "0.0.1"

  /** `newMetaMsg`: the token, stamped with the protocol version. */
  function NewMetaMsg(token: string): (m: MetaMsg)
    ensures m.token == token && m.version == ProtocolVersion
  {
    MetaMsg(token, ProtocolVersion)
  }

  /** The five message types of the package, plus `Foreign`: any other
      implementation of the `Msg` interface, which the type switches send to their
      default branches. */
  datatype Msg =
    | MsgForward(meta: MetaMsg, remotePort: int, proxyName: string, subdomain: string, typ: string)
    | MsgForwardResp(meta: MetaMsg, domain: string, status: string)
    | MsgExchange(meta: MetaMsg, connId: string)
    | MsgCancel(meta: MetaMsg, proxyName: string, remotePort: int)
    | MsgHeartbeat(meta: MetaMsg)
    | Foreign

  predicate SameKind(a: Msg, b: Msg) {
    && a.MsgForward? == b.MsgForward?
    && a.MsgForwardResp? == b.MsgForwardResp?
    && a.MsgExchange? == b.MsgExchange?
    && a.MsgCancel? == b.MsgCancel?
    && a.MsgHeartbeat? == b.MsgHeartbeat?
  }

  function NewMsgHeartbeat(token: string): (m: Msg)
    ensures m.MsgHeartbeat? && m.meta == NewMetaMsg(token)
  {
    MsgHeartbeat(NewMetaMsg(token))
  }

  /** `NewMsgForward(token, proxyName, subdomain, remotePort)`; the `Type` field is
      left empty. */
  function NewMsgForward(token: string, proxyName: string, subdomain: string, remotePort: int): (m: Msg)
    ensures m.MsgForward? && m.meta == NewMetaMsg(token) && m.typ == ""
    ensures m.proxyName == proxyName && m.subdomain == subdomain && m.remotePort == remotePort
  {
    MsgForward(NewMetaMsg(token), remotePort, proxyName, subdomain, "")
  }

  function NewMsgForwardResp(token: string, domain: string, status: string): (m: Msg)
    ensures m.MsgForwardResp? && m.meta == NewMetaMsg(token) && m.domain == domain && m.status == status
  {
    MsgForwardResp(NewMetaMsg(token), domain, status)
  }

  function NewMsgExchange(token: string, connId: string): (m: Msg)
    ensures m.MsgExchange? && m.meta == NewMetaMsg(token) && m.connId == connId
  {
    MsgExchange(NewMetaMsg(token), connId)
  }

  /** `NewMsgCancel`: unlike every other constructor it builds the `MetaMsg` by hand
      and leaves the version empty. */
  function NewMsgCancel(token: string, proxyName: string, remotePort: int): (m: Msg)
    ensures m.MsgCancel? && m.meta.token == token && m.meta.version == ""
    ensures m.proxyName == proxyName && m.remotePort == remotePort
  {
    MsgCancel(MetaMsg(token, ""), proxyName, remotePort)
  }

  /** `extractMsgType`: the five kinds get five distinct tags, anything else
      `Unknown`. */
  function ExtractMsgType(m: Msg): (t: byte)
    ensures m.Foreign? <==> t == Unknown
  {
    match m
    case MsgForward(_, _, _, _, _) => Forward
    case MsgForwardResp(_, _, _) => ForwardResp
    case MsgExchange(_, _) => Exchange
    case MsgCancel(_, _, _) => Cancel
    case MsgHeartbeat(_) => Heartbeat
    case Foreign => Unknown
  }

  lemma MsgTypeIdentifiesKind(a: Msg, b: Msg)
    ensures ExtractMsgType(a) == ExtractMsgType(b) <==> SameKind(a, b)
  {
  }

  /** `extractMetaMsg`: the embedded `MetaMsg`, or `ErrInvalidMsg` (with an empty-token
      meta) for a foreign message. */
  function ExtractMetaMsg(m: Msg): (r: Result<MetaMsg, Frame.Error>)
    ensures r.Err? <==> m.Foreign?
    ensures r.Err? ==> r.error == Frame.ErrInvalidMsg
    ensures r.Ok? ==> r.value == m.meta
  {
    if m.Foreign? then Err(Frame.ErrInvalidMsg) else Ok(m.meta)
  }

  /** The process-wide token checker. */
  datatype Authorizator = Authorizator(token: string)

  /** `Authorizator.Check`: an empty configured token lets every token through;
      otherwise only the configured one passes. */
  function Check(a: Authorizator, token: string): (ok: bool)
    ensures a.token == "" ==> ok
    ensures a.token != "" ==> (ok <==> token == a.token)
  {
    if a.token == "" then true
    else a.token == token
  }

  datatype Serializer = Serializer(marshal: Msg -> Option<seq<byte>>, unmarshal: (seq<byte>, Msg) -> Option<Msg>)

  /** The same assumption about encoding/json as in the newest protocol. */
  ghost predicate Faithful(j: Serializer) {
    && (forall b, into :: j.unmarshal(b, into).Some? ==> SameKind(j.unmarshal(b, into).value, into))
    && (forall m, into :: j.marshal(m).Some? && SameKind(m, into) ==> j.unmarshal(j.marshal(m).value, into) == Some(m))
  }

  /** `sendWith`: the frame tagged `extractMsgType(msg)` around the serialised message. */
  function SendWith(m: Msg, j: Serializer): (r: Result<seq<byte>, Frame.Error>)
    ensures j.marshal(m).None? ==> r == Err(Frame.MarshalFailed)
    ensures j.marshal(m).Some? ==> r == Frame.Packet0(ExtractMsgType(m), j.marshal(m).value)
  {
    match j.marshal(m)
    case None => Err(Frame.MarshalFailed)
    case Some(payload) => Frame.Packet0(ExtractMsgType(m), payload)
  }

  /** `recvInto`: read a frame, insist on the expected tag, decode, then vet the
      decoded token with the authorizator. */
  function RecvInto(s: seq<byte>, into: Msg, j: Serializer, a: Authorizator): (r: Result<(Msg, seq<byte>), Frame.Error>)
    ensures Frame.Read0AsWritten(s).Failed? ==> r == Err(Frame.Read0AsWritten(s).err)
    ensures Frame.Read0AsWritten(s).Got? && Frame.Read0AsWritten(s).typ != ExtractMsgType(into) ==> r == Err(Frame.ErrInvalidMsg)
    ensures r.Ok? ==> !r.value.0.Foreign? && Check(a, r.value.0.meta.token)
  {
    var p := Frame.Read(s);
    if p.err.Some? then Err(p.err.value)
    else if p.typ != ExtractMsgType(into) then Err(Frame.ErrInvalidMsg)
    else
      match j.unmarshal(p.payload.value, into)
      case None => Err(Frame.UnmarshalFailed)
      case Some(m) =>
        match ExtractMetaMsg(m)
        case Err(e) => Err(e)
        case Ok(meta) =>
          if !Check(a, meta.token) then Err(Frame.ErrInvalidToken)
          else Ok((m, p.rest))
  }

  /** Round trip through the authorizator: a sent message of the expected kind comes
      back intact exactly when its token passes `Check`, and is otherwise refused
      with `ErrInvalidToken`. */
  lemma SendRecvRoundTrip(m: Msg, into: Msg, j: Serializer, a: Authorizator, tail: seq<byte>)
    requires Faithful(j)
    requires SendWith(m, j).Ok? && SameKind(m, into) && !m.Foreign?
    ensures Check(a, m.meta.token) ==> RecvInto(SendWith(m, j).value + tail, into, j, a) == Ok((m, tail))
    ensures !Check(a, m.meta.token) ==> RecvInto(SendWith(m, j).value + tail, into, j, a) == Err(Frame.ErrInvalidToken)
  {
    MsgTypeIdentifiesKind(m, into);
    Frame.FrameRoundTrip(ExtractMsgType(m), j.marshal(m).value, tail);
  }

}
