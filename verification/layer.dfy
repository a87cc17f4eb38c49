/** The earliest framed protocol (layer/msg.go, layer/packet.go, layer/constant.go;
    packet/msg.go carries the same code): messages are built from POSITIONAL
    arguments (`PacketType.Send(w, payloads...)`), framed with the shared codec, and
    the client fills those arguments with `buildMsg` (client/handle.go). A second,
    older reader `Read` takes one fixed block of `Len` bytes instead of a frame.

    Positional arguments are Go `interface{}` values; indexing past the end or a
    failed type assertion panics, which the model reports as `Panicked`. */
module Layer {
  import opened Wrappers
  import opened GoText
  import Frame

  const Unknown: byte := 0x00
  const RegisterForward: byte := 0x01
  const ExchangeMsg: byte := 0x02
  const CancelForward: byte := 0x03

  /** `Len`, the size of the fixed blocks of the unframed protocol. */
  const Len: nat := 6

  datatype Msg =
    | MsgNewProxy(token: string, proxyName: string, subDomain: string, remotePort: int)
    | MsgExchange(token: string, connId: string)
    | MsgCancelProxy(token: string, proxyName: string, remotePort: int)
    | NilMsg

  /** A positional argument: the dynamic value behind `interface{}`. */
  datatype Arg = Str(s: string) | Int(i: int)

  datatype SendError = Panicked | Codec(err: Frame.Error)

  function StrAt(args: seq<Arg>, i: nat): (r: Result<string, SendError>)
    ensures r.Ok? <==> i < |args| && args[i].Str?
    ensures r.Ok? ==> r.value == args[i].s
    ensures r.Err? ==> r.error == Panicked
  {
    if i < |args| && args[i].Str? then Ok(args[i].s) else Err(Panicked)
  }

  function IntAt(args: seq<Arg>, i: nat): (r: Result<int, SendError>)
    ensures r.Ok? <==> i < |args| && args[i].Int?
    ensures r.Ok? ==> r.value == args[i].i
    ensures r.Err? ==> r.error == Panicked
  {
    if i < |args| && args[i].Int? then Ok(args[i].i) else Err(Panicked)
  }

  /** The message `PacketType.Send` assembles from `payloads`: RegisterForward wants
      (token, name, port, subdomain), ExchangeMsg (token, id), CancelForward
      (token, name, port); any other tag sends a nil message. Surplus arguments are
      ignored. */
  function BuildMsg(p: byte, args: seq<Arg>): (r: Result<Msg, SendError>)
    ensures p == RegisterForward ==>
              (r.Ok? <==> |args| >= 4 && args[0].Str? && args[1].Str? && args[2].Int? && args[3].Str?)
    ensures p == ExchangeMsg ==> (r.Ok? <==> |args| >= 2 && args[0].Str? && args[1].Str?)
    ensures p == CancelForward ==> (r.Ok? <==> |args| >= 3 && args[0].Str? && args[1].Str? && args[2].Int?)
    ensures r.Err? ==> r.error == Panicked
    ensures p !in {RegisterForward, ExchangeMsg, CancelForward} ==> r == Ok(NilMsg)
  {
    if p == RegisterForward then
      match (StrAt(args, 0), StrAt(args, 1), IntAt(args, 2), StrAt(args, 3))
      case (Ok(token), Ok(name), Ok(port), Ok(sub)) => Ok(MsgNewProxy(token, name, sub, port))
      case _ => Err(Panicked)
    else if p == ExchangeMsg then
      match (StrAt(args, 0), StrAt(args, 1))
      case (Ok(token), Ok(id)) => Ok(MsgExchange(token, id))
      case _ => Err(Panicked)
    else if p == CancelForward then
      match (StrAt(args, 0), StrAt(args, 1), IntAt(args, 2))
      case (Ok(token), Ok(name), Ok(port)) => Ok(MsgCancelProxy(token, name, port))
      case _ => Err(Panicked)
    else Ok(NilMsg)
  }

  datatype Serializer = Serializer(marshal: Msg -> Option<seq<byte>>, unmarshal: (seq<byte>, Msg) -> Option<Msg>)

  /** `PacketType.Send`: the frame tagged with the receiver `p` around the message
      built from the arguments. */
  function Send(p: byte, args: seq<Arg>, j: Serializer): (r: Result<seq<byte>, SendError>)
    ensures BuildMsg(p, args).Err? ==> r == Err(Panicked)
    ensures r.Ok? ==> |r.value| >= Frame.HeaderLen && r.value[0] == p
    ensures r.Ok? ==>
              && BuildMsg(p, args).Ok? && j.marshal(BuildMsg(p, args).value).Some?
              && Frame.Read0(r.value) == Frame.Got(p, j.marshal(BuildMsg(p, args).value).value, [])
  {
    match BuildMsg(p, args)
    case Err(e) => Err(e)
    case Ok(msg) =>
      match j.marshal(msg)
      case None => Err(Codec(Frame.MarshalFailed))
      case Some(payload) =>
        match Frame.Packet0(p, payload)
        case Err(e) => Err(Codec(e))
        case Ok(frame) =>
          Frame.FrameRoundTrip(p, payload, []);
          assert frame + [] == frame;
          Ok(frame)
  }

  /** One fixed block read by `Read`: a single `r.Read` into a zeroed `Len`-byte
      buffer. */
  datatype Block = Block(typ: byte, buf: Option<seq<byte>>, err: Option<Frame.Error>, rest: seq<byte>)

  function Zeros(n: nat): (z: seq<byte>)
    ensures |z| == n && forall i :: 0 <= i < n ==> z[i] == 0
  {
    seq(n, _ => 0)
  }

  /** `Read`: the whole block comes back with its first byte as the type, even when
      the stream held fewer than `Len` bytes (the rest stay zero); only an empty
      stream is an error, reported as type 0 and a nil buffer. */
  function Read(s: seq<byte>): (b: Block)
    ensures |s| == 0 <==> b.err.Some?
    ensures b.err.Some? ==> b.typ == 0 && b.buf.None? && b.err == Some(Frame.EOF)
    ensures b.err.None? ==> b.buf.Some? && |b.buf.value| == Len && b.typ == b.buf.value[0] == s[0]
    ensures b.err.None? && |s| >= Len ==> b.buf.value == s[..Len] && b.rest == s[Len..]
  {
    if |s| == 0 then Block(0, None, Some(Frame.EOF), [])
    else if |s| >= Len then Block(s[0], Some(s[..Len]), None, s[Len..])
    else
      var buf := s + Zeros(Len - |s|);
      Block(buf[0], Some(buf), None, [])
  }

  /** The client's view of one forward (the fields `buildMsg` reads). */
  datatype Forward = Forward(proxyName: string, remotePort: int, subDomain: string, localPort: int)

  /** `buildMsg` (client/handle.go): the positional arguments for a tag. */
  function ClientArgs(t: byte, token: string, f: Forward): (args: seq<Arg>)
    ensures t == RegisterForward ==> |args| == 4
    ensures t == CancelForward ==> |args| == 3
    ensures t != RegisterForward && t != CancelForward ==> args == []
  {
    if t == RegisterForward then [Str(token), Str(f.proxyName), Int(f.remotePort), Str(f.subDomain)]
    else if t == CancelForward then [Str(token), Str(f.proxyName), Int(f.remotePort)]
    else []
  }

  /** The order `buildMsg` lays the arguments out in is the order `Send` takes them
      apart in: every field lands in its namesake. */
  lemma ClientArgsLandInPlace(token: string, f: Forward)
    ensures BuildMsg(RegisterForward, ClientArgs(RegisterForward, token, f))
            == Ok(MsgNewProxy(token, f.proxyName, f.subDomain, f.remotePort))
    ensures BuildMsg(CancelForward, ClientArgs(CancelForward, token, f))
            == Ok(MsgCancelProxy(token, f.proxyName, f.remotePort))
  {
  }

  /** What the client's control loop does with one frame: go on to dial the server
      and the local service for an exchange id, or return. */
  datatype ClientStep = Relay(connId: string) | Stop

  /** One turn of the client's read loop (client/handle.go): a read error, a tag other
      than ExchangeMsg, an undecodable payload, or a token that differs from a
      non-empty configured token ends the loop; otherwise the client goes on to dial
      for the exchange id (`Relay`). The dials themselves, and the loop's return when
      either fails, are outside this step. */
  function ClientOnFrame(cfgToken: string, s: seq<byte>, j: Serializer): (r: ClientStep)
    ensures Frame.Read0AsWritten(s).Failed? ==> r == Stop
    ensures Frame.Read0AsWritten(s).Got? && Frame.Read0AsWritten(s).typ != ExchangeMsg ==> r == Stop
  {
    var p := Frame.Read(s);
    if p.err.Some? || p.typ != ExchangeMsg then Stop
    else
      match j.unmarshal(p.payload.value, MsgExchange("", ""))
      case Some(MsgExchange(token, id)) =>
        if cfgToken != "" && token != cfgToken then Stop else Relay(id)
      case _ => Stop
  }

  /** A decoder that gives back what was encoded, at least for exchange messages. */
  ghost predicate DecodesExchange(j: Serializer) {
    forall token, id :: j.marshal(MsgExchange(token, id)).Some? ==>
      j.unmarshal(j.marshal(MsgExchange(token, id)).value, MsgExchange("", "")) == Some(MsgExchange(token, id))
  }

  /** The client serves an exchange notice exactly when its token is acceptable:
      the configured token is empty or equal to the notice's token. */
  lemma ClientServesMatchingExchange(cfgToken: string, token: string, id: string, j: Serializer)
    requires DecodesExchange(j)
    requires Send(ExchangeMsg, [Str(token), Str(id)], j).Ok?
    ensures ClientOnFrame(cfgToken, Send(ExchangeMsg, [Str(token), Str(id)], j).value, j)
            == (if cfgToken == "" || token == cfgToken then Relay(id) else Stop)
  {
    var payload := j.marshal(MsgExchange(token, id)).value;
    Frame.FrameRoundTrip(ExchangeMsg, payload, []);
    assert Frame.Packet0(ExchangeMsg, payload).value + [] == Frame.Packet0(ExchangeMsg, payload).value;
  }
}
