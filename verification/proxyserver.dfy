/** The relay server of the newest protocol (server/serve.go): it authenticates a
    control connection's login, reads one request frame, and dispatches it to
    `handleProxy` (open a public port), `handleExchange` (pair a client's data
    connection with a waiting user connection) or `handleCancel` (close a public
    port).

    Effects on the outside world become parameters: whether listening on the port
    succeeds, the peer address, the random subdomain prefix and connection id, the
    listener, and the user connections the TCP accept loop takes in before its
    listener is closed. Messages the handler sends back are returned in order;
    heartbeats sent by the background ticker and the bytes relayed after pairing
    are not modelled. */
module ProxyServer {
  import opened Wrappers
  import opened GoText
  import Frame
  import Proto
  import Auth
  import Registry
  import Pending

  datatype Config = Config(token: string, multiplex: bool, domainTunnel: bool, domain: string)

  datatype Server<C> = Server(
    cfg: Config,
    authenticator: Auth.Authenticator,
    reg: Registry.Registry,
    tcp: Pending.TimedMap<C>,
    udp: Pending.UdpMap<C>)

  function RegistryConfig(cfg: Config): Registry.Config {
    Registry.Config(cfg.domainTunnel, cfg.domain)
  }

  /** `newServer`: empty tables, and a token authenticator only when a token is
      configured. */
  function NewServer<C>(cfg: Config): (s: Server<C>)
    ensures s.authenticator.Nop? <==> cfg.token == ""
    ensures s.authenticator.TokenAuthenticator? ==> s.authenticator.token == cfg.token
    ensures s.reg == Registry.Empty() && s.tcp == map[] && s.udp == map[]
    ensures Registry.Consistent(s.reg)
  {
    var a := if cfg.token != "" then Auth.TokenAuthenticator(cfg.token) else Auth.Nop;
    Server(cfg, a, Registry.Empty(), map[], map[])
  }

  /** The login check of a plain control connection (`handle`): the credential is
      recomputed inline from the configured token, whether or not one is set. */
  function PlainLoginOk(cfg: Config, login: Proto.Msg, digest: string -> string): (ok: bool)
    requires login.Login?
    ensures ok <==> login.token == Proto.NewMsgLogin(cfg.token, login.timestamp, login.version, digest).token
  {
    digest(cfg.token + Itoa(login.timestamp)) == login.token
  }

  /** The login check of a multiplexed session (`muxSession`): the server's
      authenticator. */
  function MuxLoginOk<C>(s: Server<C>, login: Proto.Msg, digest: string -> string): (ok: bool)
    requires login.Login?
    ensures s.authenticator.Nop? ==> ok
    ensures s.authenticator.TokenAuthenticator? ==>
              (ok <==> login.token == Proto.NewMsgLogin(s.authenticator.token, login.timestamp, login.version, digest).token)
  {
    Auth.VerifyLogin(s.authenticator, login, digest)
  }

  /** The inline check is the token authenticator for the configured token, and so
      agrees with the session check whenever a token is configured. */
  lemma LoginChecksAgreeWithToken<C>(cfg: Config, login: Proto.Msg, digest: string -> string)
    requires login.Login?
    ensures PlainLoginOk(cfg, login, digest) == Auth.VerifyLogin(Auth.TokenAuthenticator(cfg.token), login, digest)
    ensures cfg.token != "" ==> PlainLoginOk(cfg, login, digest) == MuxLoginOk(NewServer<C>(cfg), login, digest)
  {
  }

  /** Without a token the two checks part ways: a session accepts every login, a
      plain connection only one whose credential is the digest of the bare
      timestamp. */
  lemma LoginChecksDifferWithoutToken<C>(cfg: Config, login: Proto.Msg, digest: string -> string)
    requires login.Login? && cfg.token == ""
    ensures MuxLoginOk(NewServer<C>(cfg), login, digest)
    ensures PlainLoginOk(cfg, login, digest) <==> login.token == digest(Itoa(login.timestamp))
  {
    assert cfg.token + Itoa(login.timestamp) == Itoa(login.timestamp);
  }

  /** The domain `handleProxy` puts in its success response, as written: the
      REQUESTED subdomain under the configured domain. */
  function RespDomainAsWritten(cfg: Config, requested: string): (d: string)
    ensures !cfg.domainTunnel ==> d == ""
  {
    if cfg.domainTunnel then requested + "." + cfg.domain else ""
  }

  /** The domain as evidently intended: the host name `addProxy` actually stored and
      routed. */
  function RespDomain(cfg: Config, requested: string, prefix: string): (d: string)
    ensures !cfg.domainTunnel ==> d == ""
    ensures cfg.domainTunnel ==> d == Registry.StoredSubdomain(RegistryConfig(cfg), requested, prefix)
  {
    if cfg.domainTunnel then Registry.StoredSubdomain(RegistryConfig(cfg), requested, prefix) else ""
  }

  /** The two agree on an explicitly requested subdomain; with none requested, the
      as-written response names the host ".<domain>", which no route serves, while
      the registered host is "<prefix>.<domain>". */
  lemma RespDomainDiscrepancy(cfg: Config, requested: string, prefix: string)
    requires cfg.domainTunnel
    ensures requested != "" ==> RespDomainAsWritten(cfg, requested) == RespDomain(cfg, requested, prefix)
    ensures requested == "" && prefix != "" ==>
              && RespDomainAsWritten(cfg, requested) == "." + cfg.domain
              && RespDomainAsWritten(cfg, requested) != RespDomain(cfg, requested, prefix)
  {
    if requested == "" && prefix != "" {
      assert |RespDomain(cfg, requested, prefix)| > |RespDomainAsWritten(cfg, requested)|;
    }
  }

  /** The external outcomes `handleProxy` depends on: the peer address, whether the
      listen succeeds, the random host prefix, the UDP exchange id and listener, and
      whether the write of the "success" response succeeds. */
  datatype ProxyEnv<C> = ProxyEnv(from: string, listenOk: bool, prefix: string, uid: string, listener: C, respOk: bool)

  /** The response `failChan` triggers: sent once on every path out of the request,
      including after success, because the deferred `close(failChan)` also wakes the
      goroutine waiting on it. */
  function Failed(): Proto.Msg {
    Proto.NewMsgProxyResp("", "failed")
  }

  /** The exchange messages announcing the accepted connections, one each, in order. */
  function Announce<C>(accepted: seq<Pending.Accepted<C>>, proxyType: string): (msgs: seq<Proto.Msg>)
    ensures |msgs| == |accepted|
    ensures forall i :: 0 <= i < |accepted| ==> msgs[i] == Proto.NewMsgExchange(accepted[i].uid, proxyType)
  {
    seq(|accepted|, i requires 0 <= i < |accepted| => Proto.NewMsgExchange(accepted[i].uid, proxyType))
  }

  /** Outcome of a request: the new server state and the messages sent back. */
  datatype Outcome<C> = Outcome(s: Server<C>, sent: seq<Proto.Msg>)

  /** Whether `handleProxy` gets as far as registering the proxy. */
  predicate ProxyAccepted<C>(s: Server<C>, req: Proto.Msg, env: ProxyEnv<C>)
    requires req.ProxyReq?
  {
    Registry.AvailablePort(s.reg, req.remotePort) && env.listenOk && req.proxyType in {"udp", "tcp"}
  }

  /** Whether `handleProxy` also gets the "success" response out, and so goes on to
      announce pending connections. */
  predicate ProxyServed<C>(s: Server<C>, req: Proto.Msg, env: ProxyEnv<C>)
    requires req.ProxyReq?
  {
    ProxyAccepted(s, req, env) && env.respOk
  }

  /** `handleProxy` followed by the deferred `close(failChan)`. An unavailable port,
      a failed listen or an unknown proxy type registers nothing. Otherwise the proxy
      is registered and the client is told "success" with the domain as written (the
      requested name under the configured domain); a UDP proxy then gets one exchange
      message for its listener, a TCP proxy one per user connection accepted. If the
      "success" write fails, the handler returns at once: the proxy stays registered
      and its port marked, nothing is stored or announced, and the client is sent
      "failed". Every path ends with the "failed" response. */
  function HandleProxy<C>(s: Server<C>, req: Proto.Msg, env: ProxyEnv<C>, accepted: seq<Pending.Accepted<C>>): (o: Outcome<C>)
    requires req.ProxyReq?
    ensures !ProxyAccepted(s, req, env) ==> o == Outcome(s, [Failed()])
    ensures ProxyAccepted(s, req, env) ==>
              && Registry.InUse(o.s.reg, req.remotePort)
              && o.s.reg == Registry.AddProxy(s.reg, RegistryConfig(s.cfg), Registry.Proxy(req.remotePort, env.from, req.subdomain), env.prefix).reg
    ensures ProxyServed(s, req, env) ==>
              && |o.sent| >= 2
              && o.sent[0] == Proto.ProxyResp(RespDomainAsWritten(s.cfg, req.subdomain), "success")
    ensures ProxyAccepted(s, req, env) && !env.respOk ==>
              o.sent == [Failed()] && o.s.tcp == s.tcp && o.s.udp == s.udp
    ensures |o.sent| >= 1 && o.sent[|o.sent| - 1] == Failed()
    ensures o.s.cfg == s.cfg && o.s.authenticator == s.authenticator
  {
    var port := req.remotePort;
    if !Registry.AvailablePort(s.reg, port) || !env.listenOk || req.proxyType !in {"udp", "tcp"} then
      Outcome(s, [Failed()])
    else
      var added := Registry.AddProxy(s.reg, RegistryConfig(s.cfg), Registry.Proxy(port, env.from, req.subdomain), env.prefix);
      var ok := Proto.NewMsgProxyResp(RespDomainAsWritten(s.cfg, req.subdomain), "success");
      if !env.respOk then Outcome(s.(reg := added.reg), [Failed()])
      else if req.proxyType == "udp" then
        var s' := s.(reg := added.reg, udp := Pending.UdpAdd(s.udp, env.uid, env.listener));
        Outcome(s', [ok, Proto.NewMsgExchange(env.uid, req.proxyType), Failed()])
      else
        Outcome(s.(reg := added.reg, tcp := Pending.StoreAll(s.tcp, accepted)), [ok] + Announce(accepted, req.proxyType) + [Failed()])
  }

  /** When the "success" write fails, the client is told "failed", yet the proxy
      stays registered: a later request for the same port is refused until the
      proxy is cancelled. */
  lemma FailedResponseKeepsPort<C>(s: Server<C>, req: Proto.Msg, env: ProxyEnv<C>, accepted: seq<Pending.Accepted<C>>,
                                   req2: Proto.Msg, env2: ProxyEnv<C>, accepted2: seq<Pending.Accepted<C>>)
    requires req.ProxyReq? && ProxyAccepted(s, req, env) && !env.respOk
    requires req2.ProxyReq? && req2.remotePort == req.remotePort
    ensures var o := HandleProxy(s, req, env, accepted);
            && o.sent == [Failed()]
            && o.s.reg.proxys == s.reg.proxys + [Registry.Proxy(req.remotePort, env.from, Registry.StoredSubdomain(RegistryConfig(s.cfg), req.subdomain, env.prefix))]
            && HandleProxy(o.s, req2, env2, accepted2) == Outcome(o.s, [Failed()])
  {
  }

  /** A registered proxy keeps the registry consistent. */
  lemma HandleProxyPreservesConsistent<C>(s: Server<C>, req: Proto.Msg, env: ProxyEnv<C>, accepted: seq<Pending.Accepted<C>>)
    requires req.ProxyReq? && Registry.Consistent(s.reg)
    ensures Registry.Consistent(HandleProxy(s, req, env, accepted).s.reg)
  {
    if ProxyAccepted(s, req, env) {
      Registry.AddProxyPreservesConsistent(s.reg, RegistryConfig(s.cfg), Registry.Proxy(req.remotePort, env.from, req.subdomain), env.prefix);
    }
  }

  /** `handleProxy` with the corrected response: the same registration and messages,
      except that the "success" response names the host the registry stored. */
  function HandleProxyCorrected<C>(s: Server<C>, req: Proto.Msg, env: ProxyEnv<C>, accepted: seq<Pending.Accepted<C>>): (o: Outcome<C>)
    requires req.ProxyReq?
    ensures o.s == HandleProxy(s, req, env, accepted).s
    ensures |o.sent| == |HandleProxy(s, req, env, accepted).sent|
    ensures forall i :: 0 < i < |o.sent| ==> o.sent[i] == HandleProxy(s, req, env, accepted).sent[i]
    ensures ProxyServed(s, req, env) ==> o.sent[0] == Proto.ProxyResp(RespDomain(s.cfg, req.subdomain, env.prefix), "success")
    ensures !ProxyServed(s, req, env) ==> o == HandleProxy(s, req, env, accepted)
  {
    var o := HandleProxy(s, req, env, accepted);
    if ProxyServed(s, req, env) then
      o.(sent := [Proto.NewMsgProxyResp(RespDomain(s.cfg, req.subdomain, env.prefix), "success")] + o.sent[1..])
    else o
  }

  /** As written, a domain-tunnel client that asked for no subdomain is told a host
      (".<domain>") that is not the one registered for its port. */
  lemma ProxyResponseMisnamesHost<C>(s: Server<C>, req: Proto.Msg, env: ProxyEnv<C>, accepted: seq<Pending.Accepted<C>>)
    requires req.ProxyReq? && ProxyServed(s, req, env) && s.cfg.domainTunnel
    requires req.subdomain == "" && env.prefix != ""
    ensures HandleProxy(s, req, env, accepted).sent[0].domain == "." + s.cfg.domain
    ensures HandleProxy(s, req, env, accepted).sent[0] != HandleProxyCorrected(s, req, env, accepted).sent[0]
    ensures HandleProxy(s, req, env, accepted).s.reg.proxys[|s.reg.proxys|].subdomain != "." + s.cfg.domain
  {
    RespDomainDiscrepancy(s.cfg, req.subdomain, env.prefix);
  }

  /** With the corrected response, the domain the client is told is the host the
      registry stored for its port and the reverse proxy was asked to route. */
  lemma ResponseNamesRoutedHost<C>(s: Server<C>, req: Proto.Msg, env: ProxyEnv<C>, accepted: seq<Pending.Accepted<C>>)
    requires req.ProxyReq? && ProxyServed(s, req, env) && s.cfg.domainTunnel
    ensures var o := HandleProxyCorrected(s, req, env, accepted);
            var added := Registry.AddProxy(s.reg, RegistryConfig(s.cfg), Registry.Proxy(req.remotePort, env.from, req.subdomain), env.prefix);
            && added.route == Some((o.sent[0].domain, req.remotePort))
            && o.s.reg.proxys[|s.reg.proxys|].subdomain == o.sent[0].domain
  {
  }

  /** Outcome of `handleExchange`: the pending connection found, the tables while
      the relay runs (the `Get` leaves them as they were) and the tables once the
      relay has ended and the deferred `Del` has run. */
  datatype Exchanged<C> = Exchanged(conn: Option<C>, during: Server<C>, after: Server<C>)

  /** `handleExchange`: look up the pending connection of the id, in the UDP or the
      TCP table by proxy type, relay, and only then remove it; an unknown id or type
      pairs nothing. The UDP entry is closed on removal, the TCP entry only
      forgotten. */
  function HandleExchange<C>(s: Server<C>, msg: Proto.Msg): (r: Exchanged<C>)
    requires msg.Exchange?
    ensures msg.proxyType == "udp" ==> r.conn == Pending.UdpGet(s.udp, msg.connId)
    ensures msg.proxyType == "tcp" ==> r.conn == Pending.Get(s.tcp, msg.connId)
    ensures msg.proxyType !in {"udp", "tcp"} ==> r.conn.None?
    ensures r.during == s
    ensures r.conn.None? ==> r.after == s
    ensures r.after.reg == s.reg && r.after.cfg == s.cfg
    ensures Pending.UdpGet(r.after.udp, msg.connId).Some? ==> msg.proxyType != "udp"
    ensures Pending.Get(r.after.tcp, msg.connId).Some? ==> msg.proxyType != "tcp"
  {
    if msg.proxyType == "udp" then
      match Pending.UdpGet(s.udp, msg.connId)
      case None => Exchanged(None, s, s)
      case Some(c) => Exchanged(Some(c), s, s.(udp := Pending.UdpDel(s.udp, msg.connId).0))
    else if msg.proxyType == "tcp" then
      match Pending.Get(s.tcp, msg.connId)
      case None => Exchanged(None, s, s)
      case Some(c) => Exchanged(Some(c), s, s.(tcp := Pending.Del(s.tcp, msg.connId)))
    else Exchanged(None, s, s)
  }

  /** A UDP proxy's exchange round trip: the id the server announced, echoed back by
      the client's data connection, pairs it with the proxy's listener; a second echo
      while that relay runs pairs with it too, one after the relay has ended with
      nothing. */
  lemma UdpExchangePairs<C>(s: Server<C>, req: Proto.Msg, env: ProxyEnv<C>)
    requires req.ProxyReq? && ProxyServed(s, req, env) && req.proxyType == "udp"
    ensures var o := HandleProxy(s, req, env, []);
            var e := HandleExchange(o.s, o.sent[1]);
            && o.sent[1] == Proto.Exchange(env.uid, "udp")
            && e.conn == Some(env.listener)
            && HandleExchange(e.during, o.sent[1]).conn == Some(env.listener)
            && HandleExchange(e.after, o.sent[1]).conn == None
  {
  }

  /** A TCP proxy's exchange round trip: each announced id whose later ids differ
      pairs with the user connection accepted under it, again while that relay runs,
      and no more once it has ended. */
  lemma TcpExchangePairs<C>(s: Server<C>, req: Proto.Msg, env: ProxyEnv<C>, accepted: seq<Pending.Accepted<C>>, i: nat)
    requires req.ProxyReq? && ProxyServed(s, req, env) && req.proxyType == "tcp"
    requires i < |accepted| && forall j :: i < j < |accepted| ==> accepted[j].uid != accepted[i].uid
    ensures var o := HandleProxy(s, req, env, accepted);
            var e := HandleExchange(o.s, o.sent[i + 1]);
            && o.sent[i + 1] == Proto.Exchange(accepted[i].uid, "tcp")
            && e.conn == Some(accepted[i].conn)
            && HandleExchange(e.during, o.sent[i + 1]).conn == Some(accepted[i].conn)
            && HandleExchange(e.after, o.sent[i + 1]).conn == None
  {
    var o := HandleProxy(s, req, env, accepted);
    assert o.sent[i + 1] == Announce(accepted, req.proxyType)[i];
    Pending.StoreAllFinds(s.tcp, accepted, i);
  }

  /** `handleCancel`: unregister the first proxy on the requested port, closing its
      listener; the pending tables are left alone. */
  function HandleCancel<C>(s: Server<C>, msg: Proto.Msg): (r: (Server<C>, Registry.Removed<Registry.Registry>))
    requires msg.ProxyCancel?
    ensures r.1 == Registry.DelProxy(s.reg, RegistryConfig(s.cfg), msg.remotePort)
    ensures r.0 == s.(reg := r.1.rest)
    ensures r.1.closed.None? <==> msg.remotePort !in Registry.Ports(s.reg.proxys)
    ensures r.1.closed.None? ==> r.0 == s
    ensures r.1.closed.Some? ==>
              && Registry.FirstIndex(s.reg.proxys, msg.remotePort).Some?
              && var i := Registry.FirstIndex(s.reg.proxys, msg.remotePort).value;
                 && r.1.closed == Some(s.reg.proxys[i])
                 && r.0.reg.proxys == s.reg.proxys[..i] + s.reg.proxys[i + 1..]
                 && !Registry.InUse(r.0.reg, msg.remotePort)
  {
    var rm := Registry.DelProxy(s.reg, RegistryConfig(s.cfg), msg.remotePort);
    (s.(reg := rm.rest), rm)
  }

  /** Opening and then cancelling a proxy hands its port back: available again, and
      the list of proxies as it was. */
  lemma CancelReleasesPort<C>(s: Server<C>, req: Proto.Msg, env: ProxyEnv<C>, accepted: seq<Pending.Accepted<C>>, name: string)
    requires req.ProxyReq? && ProxyAccepted(s, req, env) && Registry.Consistent(s.reg)
    ensures var o := HandleProxy(s, req, env, accepted);
            var c := HandleCancel(o.s, Proto.NewMsgCancel("", name, req.remotePort));
            && Registry.AvailablePort(c.0.reg, req.remotePort)
            && c.0.reg.proxys == s.reg.proxys
            && c.1.closed.Some? && c.1.closed.value.to == req.remotePort
  {
    Registry.AddThenDelProxy(s.reg, RegistryConfig(s.cfg), Registry.Proxy(req.remotePort, env.from, req.subdomain), env.prefix);
  }

  /** What one request on an authenticated connection or stream led to. */
  datatype Handled<C> =
    | Dropped(err: Frame.Error)
    | Ignored
    | Proxied(o: Outcome<C>)
    | Paired(e: Exchanged<C>)
    | Cancelled(s: Server<C>, closed: Option<Registry.Proxy>)

  /** The request switch shared by `handle` and `yamuxHandle`: read one frame and
      dispatch on its tag. A read error or an undecodable payload drops the request
      (a proxy request that fails to decode still gets the "failed" response). */
  function Dispatch<C>(s: Server<C>, stream: seq<byte>, j: Proto.Serializer, env: ProxyEnv<C>, accepted: seq<Pending.Accepted<C>>): (h: Handled<C>)
    requires Proto.Faithful(j)
    ensures Frame.Read0AsWritten(stream).Failed? ==> h == Dropped(Frame.Read0AsWritten(stream).err)
    ensures Frame.Read0AsWritten(stream).Got? && Frame.Read0AsWritten(stream).typ !in {Proto.PacketProxyReq, Proto.PacketExchange, Proto.PacketProxyCancel} ==> h == Ignored
    ensures Frame.Read0AsWritten(stream).Got? && Frame.Read0AsWritten(stream).typ == Proto.PacketProxyReq ==>
              var req := j.unmarshal(Frame.Read0AsWritten(stream).payload, Proto.ProxyReq(0, "", "", ""));
              && (req.None? ==> h == Proxied(Outcome(s, [Failed()])))
              && (req.Some? ==> req.value.ProxyReq? && h == Proxied(HandleProxy(s, req.value, env, accepted)))
    ensures Frame.Read0AsWritten(stream).Got? && Frame.Read0AsWritten(stream).typ == Proto.PacketExchange ==>
              var msg := j.unmarshal(Frame.Read0AsWritten(stream).payload, Proto.Exchange("", ""));
              && (msg.None? ==> h == Dropped(Frame.UnmarshalFailed))
              && (msg.Some? ==> msg.value.Exchange? && h == Paired(HandleExchange(s, msg.value)))
    ensures Frame.Read0AsWritten(stream).Got? && Frame.Read0AsWritten(stream).typ == Proto.PacketProxyCancel ==>
              var msg := j.unmarshal(Frame.Read0AsWritten(stream).payload, Proto.ProxyCancel("", 0));
              && (msg.None? ==> h == Dropped(Frame.UnmarshalFailed))
              && (msg.Some? ==> msg.value.ProxyCancel? && h == Cancelled(HandleCancel(s, msg.value).0, HandleCancel(s, msg.value).1.closed))
  {
    var p := Frame.Read(stream);
    if p.err.Some? then Dropped(p.err.value)
    else if p.typ == Proto.PacketProxyReq then
      match j.unmarshal(p.payload.value, Proto.ProxyReq(0, "", "", ""))
      case None => Proxied(Outcome(s, [Failed()]))
      case Some(req) => Proxied(HandleProxy(s, req, env, accepted))
    else if p.typ == Proto.PacketExchange then
      match j.unmarshal(p.payload.value, Proto.Exchange("", ""))
      case None => Dropped(Frame.UnmarshalFailed)
      case Some(msg) => Paired(HandleExchange(s, msg))
    else if p.typ == Proto.PacketProxyCancel then
      match j.unmarshal(p.payload.value, Proto.ProxyCancel("", 0))
      case None => Dropped(Frame.UnmarshalFailed)
      case Some(msg) =>
        var r := HandleCancel(s, msg);
        Cancelled(r.0, r.1.closed)
    else Ignored
  }

  /** `handle`: a plain control connection. The first frame must be a login that
      passes the inline check; otherwise the connection is dropped before any request
      is read. */
  function HandleConn<C>(s: Server<C>, stream: seq<byte>, j: Proto.Serializer, digest: string -> string, env: ProxyEnv<C>, accepted: seq<Pending.Accepted<C>>): (h: Handled<C>)
    requires Proto.Faithful(j)
    ensures Proto.Recv(stream, Proto.Login("", "", 0), j).Err? ==> h == Dropped(Proto.Recv(stream, Proto.Login("", "", 0), j).error)
    ensures Proto.Recv(stream, Proto.Login("", "", 0), j).Ok? ==>
              var (login, rest) := Proto.Recv(stream, Proto.Login("", "", 0), j).value;
              && login.Login?
              && (!PlainLoginOk(s.cfg, login, digest) ==> h == Dropped(Frame.ErrInvalidToken))
              && (PlainLoginOk(s.cfg, login, digest) ==> h == Dispatch(s, rest, j, env, accepted))
  {
    match Proto.Recv(stream, Proto.Login("", "", 0), j)
    case Err(e) => Dropped(e)
    case Ok((login, rest)) =>
      if !PlainLoginOk(s.cfg, login, digest) then Dropped(Frame.ErrInvalidToken)
      else Dispatch(s, rest, j, env, accepted)
  }

  /** End to end: a client that logs in with the server's token and asks for an
      available port over a plain connection has its request handled by
      `handleProxy`, which registers the proxy. */
  lemma LoginThenProxy<C>(s: Server<C>, now: int, version: string, req: Proto.Msg, j: Proto.Serializer,
                          digest: string -> string, env: ProxyEnv<C>, accepted: seq<Pending.Accepted<C>>, tail: seq<byte>)
    requires Proto.Faithful(j) && req.ProxyReq? && ProxyAccepted(s, req, env)
    requires Proto.Send(Proto.NewMsgLogin(s.cfg.token, now, version, digest), j).Ok?
    requires Proto.Send(req, j).Ok?
    ensures var stream := Proto.Send(Proto.NewMsgLogin(s.cfg.token, now, version, digest), j).value
                          + Proto.Send(req, j).value + tail;
            HandleConn(s, stream, j, digest, env, accepted) == Proxied(HandleProxy(s, req, env, accepted))
  {
    var login := Proto.NewMsgLogin(s.cfg.token, now, version, digest);
    var first := Proto.Send(login, j).value;
    var second := Proto.Send(req, j).value;
    assert first + second + tail == first + (second + tail);
    Proto.SendRecvRoundTrip(login, Proto.Login("", "", 0), j, second + tail);
    assert PlainLoginOk(s.cfg, login, digest);
    DispatchSentRequest(s, req, j, env, accepted, tail);
  }

  /** A proxy request as the client sends it is dispatched to `handleProxy`. */
  lemma DispatchSentRequest<C>(s: Server<C>, req: Proto.Msg, j: Proto.Serializer, env: ProxyEnv<C>,
                               accepted: seq<Pending.Accepted<C>>, tail: seq<byte>)
    requires Proto.Faithful(j) && req.ProxyReq? && Proto.Send(req, j).Ok?
    ensures Dispatch(s, Proto.Send(req, j).value + tail, j, env, accepted) == Proxied(HandleProxy(s, req, env, accepted))
  {
    Frame.FrameRoundTrip(Proto.PacketProxyReq, j.marshal(req).value, tail);
    assert j.unmarshal(j.marshal(req).value, Proto.ProxyReq(0, "", "", "")) == Some(req);
  }

  /** The short stream `[3, 0]` after a good login: the as-written reader takes it
      for a proxy request with an empty payload, which JSON cannot decode, so the
      client is answered "failed" instead of the connection being dropped for a
      short read. */
  lemma ShortProxyRequestAnsweredFailed<C>(s: Server<C>, j: Proto.Serializer, env: ProxyEnv<C>, accepted: seq<Pending.Accepted<C>>)
    requires Proto.Faithful(j) && j.unmarshal([], Proto.ProxyReq(0, "", "", "")) == None
    ensures Dispatch(s, [Proto.PacketProxyReq, 0], j, env, accepted) == Proxied(Outcome(s, [Failed()]))
    ensures Frame.Read0([Proto.PacketProxyReq, 0]) == Frame.Failed(Frame.ErrMsgRead)
  {
    Frame.ReadFrameAndShortStream(Proto.PacketProxyReq, [], []);
  }
}
