/** The forward server of the positional-argument protocol (server/handle.go). A
    control connection's first block says what it wants: register a forward on a
    port, claim a pending user connection by id, or cancel a forward. Blocks are read
    with the fixed-size `Layer.Read`; the byte layout of the port and the id is the
    one `Legacy` decodes (the `ParseRegisterPacket`, `ParseCancelPacket` and
    `ParseExchangePacket` helpers of the layer package are not part of this model;
    they are taken to decode as server/server.go does).

    Listening, the peer address, the random host prefix and the accepted user
    connections are parameters, as in `ProxyServer`. */
module ForwardServer {
  import opened Wrappers
  import opened GoText
  import Frame
  import Layer
  import Legacy
  import Registry
  import Pending

  datatype Server<C> = Server(cfg: Registry.Config, forwards: seq<Registry.Proxy>, conns: Pending.TimedMap<C>)

  /** `newServer`: no forwards, no pending connections. */
  function NewServer<C>(cfg: Registry.Config): (s: Server<C>)
    ensures s.cfg == cfg && s.forwards == [] && s.conns == map[]
  {
    Server(cfg, [], map[])
  }

  /** The id `handleForward` gives a user connection: the first `Len - 1` characters of
      a fresh UUID string `u`. */
  function ConnId(u: string): (cid: string)
    requires |u| >= Layer.Len - 1
    ensures |cid| == Layer.Len - 1 && HasPrefix(u, cid)
  {
    Legacy.GenUuid(u, Layer.Len - 1)
  }

  /** The exchange notice as written, `layer.ExchangeMsg.Send(commuConn, cid)`: one
      argument where `Send` reads two. */
  function ExchangeNoticeAsWritten(cid: string, j: Layer.Serializer): Result<seq<byte>, Layer.SendError> {
    Layer.Send(Layer.ExchangeMsg, [Layer.Str(cid)], j)
  }

  /** Sending it indexes past the single argument, so the goroutine panics (and with
      it the whole server) on the first user connection, whatever the id. */
  lemma ExchangeNoticePanics(cid: string, j: Layer.Serializer)
    ensures ExchangeNoticeAsWritten(cid, j) == Err(Layer.Panicked)
  {
  }

  /** The notice as evidently intended: a token (this server has none to give, so the
      empty one) and the id, the two arguments `Send` takes for an exchange. */
  function ExchangeNotice(cid: string, j: Layer.Serializer): (r: Result<seq<byte>, Layer.SendError>)
    ensures r.Err? ==> r.error != Layer.Panicked
    ensures r.Ok? ==> |r.value| >= Frame.HeaderLen && r.value[0] == Layer.ExchangeMsg
  {
    Layer.Send(Layer.ExchangeMsg, [Layer.Str(""), Layer.Str(cid)], j)
  }

  /** The corrected notice reaches a client configured without a token as the very id
      the server stored. */
  lemma ExchangeNoticeServed(cid: string, j: Layer.Serializer)
    requires Layer.DecodesExchange(j) && ExchangeNotice(cid, j).Ok?
    ensures Layer.ClientOnFrame("", ExchangeNotice(cid, j).value, j) == Layer.Relay(cid)
  {
    Layer.ClientServesMatchingExchange("", "", cid, j);
  }

  datatype FwdEnv = FwdEnv(from: string, listenOk: bool, prefix: string)

  /** Outcome of a registration: the new state and one notice per accepted user
      connection. */
  datatype Outcome<C> = Outcome(s: Server<C>, notices: seq<Result<seq<byte>, Layer.SendError>>)

  /** `handleForward` as written: an invalid port or a failed listen changes
      nothing; otherwise the forward is recorded (with no requested host name) and
      every accepted user connection is stored under its id and announced with the
      as-written notice, each of which panics. */
  function HandleForward<C>(s: Server<C>, buf: seq<byte>, env: FwdEnv, accepted: seq<Pending.Accepted<C>>, j: Layer.Serializer): (o: Outcome<C>)
    requires |buf| == Layer.Len
    ensures !env.listenOk ==> o == Outcome(s, [])
    ensures env.listenOk ==>
              && |o.s.forwards| == |s.forwards| + 1
              && o.s.forwards[..|s.forwards|] == s.forwards
              && o.s.forwards[|s.forwards|].to == Legacy.ParsePort(buf)
              && o.s.forwards[|s.forwards|].from == env.from
              && |o.notices| == |accepted|
              && (forall i :: 0 <= i < |accepted| ==> o.notices[i] == Err(Layer.Panicked))
              && s.conns.Keys <= o.s.conns.Keys
              && (forall i :: 0 <= i < |accepted| && (forall k :: i < k < |accepted| ==> accepted[k].uid != accepted[i].uid) ==>
                    Pending.Get(o.s.conns, accepted[i].uid) == Some(accepted[i].conn))
    ensures o.s.cfg == s.cfg
  {
    var port := Legacy.ParsePort(buf);
    if Legacy.IsInvalidPort(port) || !env.listenOk then Outcome(s, [])
    else
      var fwds := Registry.AddForward(s.forwards, s.cfg, Registry.Proxy(port, env.from, ""), env.prefix).0;
      var notices := seq(|accepted|, i requires 0 <= i < |accepted| => ExchangeNoticeAsWritten(accepted[i].uid, j));
      var conns := Pending.StoreAll(s.conns, accepted);
      assert forall i :: 0 <= i < |accepted| && (forall k :: i < k < |accepted| ==> accepted[k].uid != accepted[i].uid) ==>
               Pending.Get(conns, accepted[i].uid) == Some(accepted[i].conn) by {
        forall i | 0 <= i < |accepted| && (forall k :: i < k < |accepted| ==> accepted[k].uid != accepted[i].uid)
          ensures Pending.Get(conns, accepted[i].uid) == Some(accepted[i].conn)
        {
          Pending.StoreAllFinds(s.conns, accepted, i);
        }
      }
      Outcome(s.(forwards := fwds, conns := conns), notices)
  }

  /** `handleForward` with the corrected notice: the same state, and notices that no
      longer panic. */
  function HandleForwardCorrected<C>(s: Server<C>, buf: seq<byte>, env: FwdEnv, accepted: seq<Pending.Accepted<C>>, j: Layer.Serializer): (o: Outcome<C>)
    requires |buf| == Layer.Len
    ensures o.s == HandleForward(s, buf, env, accepted, j).s
    ensures !env.listenOk ==> o.notices == []
    ensures env.listenOk ==>
              && |o.notices| == |accepted|
              && forall i :: 0 <= i < |accepted| ==> o.notices[i] == ExchangeNotice(accepted[i].uid, j)
  {
    var o := HandleForward(s, buf, env, accepted, j);
    if env.listenOk then
      o.(notices := seq(|accepted|, i requires 0 <= i < |accepted| => ExchangeNotice(accepted[i].uid, j)))
    else o
  }

  /** Outcome of `handleMessage`: the connection found, the state while the relay
      runs, and the state once the deferred `delUserConn` has run. */
  datatype Exchanged<C> = Exchanged(conn: Option<C>, during: Server<C>, after: Server<C>)

  /** `handleMessage`: look up the pending connection named by the block, relay, and
      only then drop it from the table, without closing it. */
  function HandleMessage<C>(s: Server<C>, buf: seq<byte>): (r: Exchanged<C>)
    requires |buf| == Layer.Len
    ensures r.conn == Pending.Get(s.conns, Legacy.ParseExchange(buf))
    ensures r.during == s
    ensures Pending.Get(r.after.conns, Legacy.ParseExchange(buf)) == None
    ensures r.after.forwards == s.forwards
    ensures r.conn.None? ==> r.after == s
  {
    var c := Pending.Claim(s.conns, Legacy.ParseExchange(buf));
    Exchanged(c.conn, s.(conns := c.during), s.(conns := c.after))
  }

  /** Each user connection a registration accepted, once announced with the
      corrected notice, is claimed by the block the client echoes for its id: again
      while that relay runs, and no more once it has ended. */
  lemma ForwardExchangePairs<C>(s: Server<C>, buf: seq<byte>, env: FwdEnv, accepted: seq<Pending.Accepted<C>>, j: Layer.Serializer, i: nat)
    requires |buf| == Layer.Len && env.listenOk
    requires i < |accepted| && forall k :: i < k < |accepted| ==> accepted[k].uid != accepted[i].uid
    requires IsAscii(accepted[i].uid) && |accepted[i].uid| == Layer.Len - 1
    ensures var o := HandleForwardCorrected(s, buf, env, accepted, j);
            var echo := Legacy.ExchangeBlock(accepted[i].uid);
            var e := HandleMessage(o.s, echo);
            && e.conn == Some(accepted[i].conn)
            && HandleMessage(e.during, echo).conn == Some(accepted[i].conn)
            && HandleMessage(e.after, echo).conn == None
  {
  }

  /** `handleCancel`: drop the first forward on the port. */
  function HandleCancel<C>(s: Server<C>, port: int): (r: (Server<C>, Option<Registry.Proxy>))
    ensures r.1.None? <==> port !in Registry.Ports(s.forwards)
    ensures r.1.None? ==> r.0 == s
    ensures r.1.Some? ==>
              && Registry.FirstIndex(s.forwards, port).Some?
              && var i := Registry.FirstIndex(s.forwards, port).value;
                 r.1 == Some(s.forwards[i]) && r.0 == s.(forwards := s.forwards[..i] + s.forwards[i + 1..])
  {
    var rm := Registry.DelForward(s.forwards, s.cfg, port);
    (s.(forwards := rm.rest), rm.closed)
  }

  /** Registering a forward on a port no forward holds and then cancelling that port
      restores the forward list and closes exactly the forward registered. */
  lemma ForwardThenCancel<C>(s: Server<C>, buf: seq<byte>, env: FwdEnv, accepted: seq<Pending.Accepted<C>>, j: Layer.Serializer)
    requires |buf| == Layer.Len && env.listenOk
    requires Legacy.ParsePort(buf) !in Registry.Ports(s.forwards)
    ensures var o := HandleForward(s, buf, env, accepted, j);
            var c := HandleCancel(o.s, Legacy.ParsePort(buf));
            && c.0.forwards == s.forwards
            && c.1 == Some(o.s.forwards[|s.forwards|])
  {
    Registry.AddThenDelForward(s.forwards, s.cfg, Registry.Proxy(Legacy.ParsePort(buf), env.from, ""), env.prefix);
  }

  /** What one block on a fresh connection led to; `Crashed` is the panic of a
      notice goroutine, which ends the whole server process. */
  datatype Handled<C> =
    | Ignored
    | Forwarded(o: Outcome<C>)
    | Crashed
    | Paired(e: Exchanged<C>)
    | Cancelled(s: Server<C>, closed: Option<Registry.Proxy>)

  /** `handle`: read one block and dispatch on its first byte. */
  function Handle<C>(s: Server<C>, stream: seq<byte>, env: FwdEnv, accepted: seq<Pending.Accepted<C>>, j: Layer.Serializer): (h: Handled<C>)
    ensures |stream| == 0 ==> h == Ignored
    ensures |stream| > 0 && stream[0] !in {Layer.RegisterForward, Layer.ExchangeMsg, Layer.CancelForward} ==> h == Ignored
    ensures |stream| > 0 && stream[0] == Layer.RegisterForward ==>
              && (h.Crashed? <==> env.listenOk && |accepted| > 0)
              && (!h.Crashed? ==> h == Forwarded(HandleForward(s, Layer.Read(stream).buf.value, env, accepted, j)))
    ensures |stream| > 0 && stream[0] == Layer.ExchangeMsg ==>
              h == Paired(HandleMessage(s, Layer.Read(stream).buf.value))
              && h.e.conn == Pending.Get(s.conns, Legacy.ParseExchange(Layer.Read(stream).buf.value))
    ensures |stream| > 0 && stream[0] == Layer.CancelForward ==>
              var c := HandleCancel(s, Legacy.ParsePort(Layer.Read(stream).buf.value));
              && h == Cancelled(c.0, c.1)
              && h.closed.Some? == (Legacy.ParsePort(Layer.Read(stream).buf.value) in Registry.Ports(s.forwards))
              && (h.closed.None? ==> h.s == s)
  {
    var b := Layer.Read(stream);
    if b.err.Some? then Ignored
    else
      var buf := b.buf.value;
      if b.typ == Layer.RegisterForward then
        var o := HandleForward(s, buf, env, accepted, j);
        assert env.listenOk && |accepted| > 0 ==> o.notices[0] == Err(Layer.Panicked);
        if Err(Layer.Panicked) in o.notices then Crashed else Forwarded(o)
      else if b.typ == Layer.ExchangeMsg then Paired(HandleMessage(s, buf))
      else if b.typ == Layer.CancelForward then
        var r := HandleCancel(s, Legacy.ParsePort(buf));
        Cancelled(r.0, r.1)
      else Ignored
  }

  /** What this server makes of a registration frame from client/handle.go, which
      sends its request framed: the fixed-block reader takes the frame's 16-bit
      length field for the port, so the forward opens on a port equal to the length
      of the serialised request rather than on the requested port (and the server
      crashes as soon as a user connection arrives there). */
  lemma FramedRegistrationMisread<C>(s: Server<C>, token: string, f: Layer.Forward, env: FwdEnv,
                                     accepted: seq<Pending.Accepted<C>>, j: Layer.Serializer)
    requires Layer.Send(Layer.RegisterForward, Layer.ClientArgs(Layer.RegisterForward, token, f), j).Ok?
    requires env.listenOk
    ensures var frame := Layer.Send(Layer.RegisterForward, Layer.ClientArgs(Layer.RegisterForward, token, f), j).value;
            var payload := j.marshal(Layer.MsgNewProxy(token, f.proxyName, f.subDomain, f.remotePort)).value;
            && (Handle(s, frame, env, accepted, j).Forwarded? || Handle(s, frame, env, accepted, j).Crashed?)
            && HandleForward(s, Layer.Read(frame).buf.value, env, accepted, j).s.forwards[|s.forwards|].to == |payload|
  {
    Layer.ClientArgsLandInPlace(token, f);
    var frame := Layer.Send(Layer.RegisterForward, Layer.ClientArgs(Layer.RegisterForward, token, f), j).value;
    var payload := j.marshal(Layer.MsgNewProxy(token, f.proxyName, f.subDomain, f.remotePort)).value;
    assert frame == Frame.Packet0(Layer.RegisterForward, payload).value;
    var buf := Layer.Read(frame).buf.value;
    assert buf[1] == frame[1] && buf[2] == frame[2];
  }
}
