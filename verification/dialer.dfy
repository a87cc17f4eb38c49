/** The client's control dialers (internal/client/control/auth_dialer.go, and the same
    code in client/control/transport.go). Each `Open` yields a connection to the
    server that has already been authenticated: the TCP dialer dials and logs in
    every time; the multiplexing dialer dials and logs in once, then opens a stream
    of its yamux session for each call.

    The network is a parameter: each call to `Open` meets one `Net`, saying whether
    the dial, the write of the login frame, the session handshake and the stream open
    succeed. The login frame is `Proto.Send` of the login message, computed by the
    caller with its own clock reading and serializer. */
module Dialer {
  import opened Wrappers
  import opened GoText
  import Frame
  import Proto

  datatype Net = Net(dialOk: bool, writeOk: bool, sessionOk: bool, streamOk: bool)

  datatype DialError = DialFailed | LoginFailed(err: Frame.Error) | WriteFailed | SessionFailed | StreamFailed

  /** A plain TCP connection, numbered by the dial that made it, or a stream of the
      session established on a numbered dial. */
  datatype Conn = Direct(dial: nat) | Stream(session: nat)

  /** What one `Open` produced, and the login frame it wrote to a new connection, if
      it got that far. */
  datatype Opened = Opened(conn: Result<Conn, DialError>, login: Option<seq<byte>>)

  /** The login frame of `proto.NewMsgLogin(token)`. */
  function LoginFrame(token: string, now: int, version: string, digest: string -> string, j: Proto.Serializer): (r: Result<seq<byte>, Frame.Error>)
    ensures r.Ok? ==> Frame.Read0(r.value).Got? && Frame.Read0(r.value).typ == Proto.PacketLogin
  {
    var m := Proto.NewMsgLogin(token, now, version, digest);
    var r := Proto.Send(m, j);
    if r.Ok? then
      Frame.FrameRoundTrip(Proto.Type(m), j.marshal(m).value, []);
      assert r.value + [] == r.value;
      r
    else r
  }

  /** Dial, then write the login frame: the part both dialers share. A failure after
      the dial leaves the connection open and unused, as the Go code does. */
  function DialAndLogin(net: Net, login: Result<seq<byte>, Frame.Error>): (r: Result<seq<byte>, DialError>)
    ensures r.Ok? <==> net.dialOk && login.Ok? && net.writeOk
    ensures r.Ok? ==> r.value == login.value
    ensures !net.dialOk ==> r == Err(DialFailed)
  {
    if !net.dialOk then Err(DialFailed)
    else match login
      case Err(e) => Err(LoginFailed(e))
      case Ok(frame) => if net.writeOk then Ok(frame) else Err(WriteFailed)
  }

  /** `TCPDialer.Open`: a new, logged-in connection per call. */
  function TcpOpen(dial: nat, net: Net, login: Result<seq<byte>, Frame.Error>): (o: Opened)
    ensures o.conn.Ok? <==> net.dialOk && login.Ok? && net.writeOk
    ensures o.conn.Ok? ==> o.conn.value == Direct(dial) && o.login == Some(login.value)
    ensures o.login.Some? <==> net.dialOk && login.Ok?
  {
    var r := DialAndLogin(net, login);
    match r
    case Ok(frame) => Opened(Ok(Direct(dial)), Some(frame))
    case Err(e) => Opened(Err(e), if e == WriteFailed then Some(login.value) else None)
  }

  /** A `MuxDialer`: its session, once it has one, and a count of dials so far. */
  datatype MuxDialer = MuxDialer(session: Option<nat>, dials: nat)

  /** `NewMuxDialer`: no session yet. */
  function NewMuxDialer(): (m: MuxDialer)
    ensures m.session.None?
  {
    MuxDialer(None, 0)
  }

  /** `MuxDialer.Open`: without a session, dial, log in and start one (each failure
      returns with no session); then open a stream on the session. A failing stream
      open leaves the session in place. */
  function MuxOpen(m: MuxDialer, net: Net, login: Result<seq<byte>, Frame.Error>): (r: (MuxDialer, Opened))
    ensures m.session.Some? ==> r.0 == m && r.1.login.None?
    ensures m.session.Some? ==> (r.1.conn.Ok? <==> net.streamOk)
    ensures r.1.conn.Ok? ==> r.0.session.Some? && r.1.conn.value == Stream(r.0.session.value)
    ensures m.session.None? ==>
              (r.0.session.Some? <==> net.dialOk && login.Ok? && net.writeOk && net.sessionOk)
  {
    match m.session
    case Some(id) =>
      (m, Opened(if net.streamOk then Ok(Stream(id)) else Err(StreamFailed), None))
    case None =>
      var dials := if net.dialOk then m.dials + 1 else m.dials;
      var sent := if net.dialOk && login.Ok? then Some(login.value) else None;
      match DialAndLogin(net, login)
      case Err(e) => (m.(dials := dials), Opened(Err(e), sent))
      case Ok(_) =>
        if !net.sessionOk then (m.(dials := dials), Opened(Err(SessionFailed), sent))
        else
          var m' := MuxDialer(Some(m.dials), dials);
          (m', Opened(if net.streamOk then Ok(Stream(m.dials)) else Err(StreamFailed), sent))
  }

  /** `k` successive calls of `TCPDialer.Open`, one per element of `nets`. Each Go
      call builds its own login message at its own clock reading; the model writes
      the one frame `login` on every call, so the frames' timestamps are not
      distinguished. */
  function TcpOpenAll(dials: nat, nets: seq<Net>, login: Result<seq<byte>, Frame.Error>): (os: seq<Opened>)
    ensures |os| == |nets|
    decreases |nets|
  {
    if |nets| == 0 then []
    else
      var next := if nets[0].dialOk then dials + 1 else dials;
      [TcpOpen(dials, nets[0], login)] + TcpOpenAll(next, nets[1..], login)
  }

  /** Each of the `k` calls returns a connection exactly when its own dial, login
      and write succeed; earlier calls do not affect later ones. */
  lemma {:induction false} TcpOpenAllConns(dials: nat, nets: seq<Net>, login: Result<seq<byte>, Frame.Error>, i: nat)
    requires i < |nets|
    ensures TcpOpenAll(dials, nets, login)[i].conn.Ok? <==> nets[i].dialOk && login.Ok? && nets[i].writeOk
    decreases i
  {
    if i > 0 {
      var next := if nets[0].dialOk then dials + 1 else dials;
      TcpOpenAllConns(next, nets[1..], login, i - 1);
      assert TcpOpenAll(dials, nets, login)[i] == TcpOpenAll(next, nets[1..], login)[i - 1];
    }
  }

  /** `k` successive calls of `MuxDialer.Open` on one dialer, with the one login
      frame `login` standing for the one each call would build. */
  function MuxOpenAll(m: MuxDialer, nets: seq<Net>, login: Result<seq<byte>, Frame.Error>): (r: (MuxDialer, seq<Opened>))
    ensures |r.1| == |nets|
    decreases |nets|
  {
    if |nets| == 0 then (m, [])
    else
      var first := MuxOpen(m, nets[0], login);
      var rest := MuxOpenAll(first.0, nets[1..], login);
      (rest.0, [first.1] + rest.1)
  }

  /** The number of login frames written. */
  function Logins(os: seq<Opened>): nat {
    if |os| == 0 then 0 else (if os[0].login.Some? then 1 else 0) + Logins(os[1..])
  }

  predicate AllUp(nets: seq<Net>) {
    forall i :: 0 <= i < |nets| ==> nets[i] == Net(true, true, true, true)
  }

  /** Once a multiplexing dialer has a session it never dials or logs in again: every
      later call keeps the session, writes no login, and any connection it returns is
      a stream of that session, even when earlier stream opens failed. */
  lemma {:induction false} MuxKeepsSession(m: MuxDialer, nets: seq<Net>, login: Result<seq<byte>, Frame.Error>)
    requires m.session.Some?
    ensures MuxOpenAll(m, nets, login).0 == m
    ensures Logins(MuxOpenAll(m, nets, login).1) == 0
    ensures forall i :: 0 <= i < |nets| ==>
              && (MuxOpenAll(m, nets, login).1[i].conn.Ok? <==> nets[i].streamOk)
              && (MuxOpenAll(m, nets, login).1[i].conn.Ok? ==>
                    MuxOpenAll(m, nets, login).1[i].conn.value == Stream(m.session.value))
  {
    if |nets| > 0 {
      MuxKeepsSession(m, nets[1..], login);
      var os := MuxOpenAll(m, nets, login).1;
      var tail := MuxOpenAll(m, nets[1..], login).1;
      assert os[1..] == tail;
      forall i | 0 < i < |nets|
        ensures (os[i].conn.Ok? <==> nets[i].streamOk)
        ensures os[i].conn.Ok? ==> os[i].conn.value == Stream(m.session.value)
      {
        assert os[i] == tail[i - 1];
        assert nets[1..][i - 1] == nets[i];
      }
    }
  }

  /** The number of calls whose dial succeeds. */
  function Dials(nets: seq<Net>): nat {
    if |nets| == 0 then 0 else (if nets[0].dialOk then 1 else 0) + Dials(nets[1..])
  }

  /** The TCP dialer writes one login per successful dial, whatever happens after, and
      numbers its connections by dial. */
  lemma {:induction false} TcpLoginPerDial(dials: nat, nets: seq<Net>, frame: seq<byte>)
    ensures Logins(TcpOpenAll(dials, nets, Ok(frame))) == Dials(nets)
    decreases |nets|
  {
    if |nets| > 0 {
      var next := if nets[0].dialOk then dials + 1 else dials;
      TcpLoginPerDial(next, nets[1..], frame);
      assert TcpOpenAll(dials, nets, Ok(frame))[1..] == TcpOpenAll(next, nets[1..], Ok(frame));
    }
  }

  lemma {:induction false} AllUpDials(nets: seq<Net>)
    requires AllUp(nets)
    ensures Dials(nets) == |nets|
  {
    if |nets| > 0 {
      assert AllUp(nets[1..]) by {
        forall i | 0 <= i < |nets[1..]| ensures nets[1..][i] == Net(true, true, true, true) {
          assert nets[1..][i] == nets[i + 1];
        }
      }
      AllUpDials(nets[1..]);
    }
  }

  /** Over `k` calls on a healthy network the TCP dialer logs in `k` times and the
      multiplexing dialer once, and all `k` multiplexed connections are streams of
      the one session. */
  lemma MuxLogsInOnce(nets: seq<Net>, frame: seq<byte>)
    requires |nets| > 0 && AllUp(nets)
    ensures Logins(TcpOpenAll(0, nets, Ok(frame))) == |nets|
    ensures Logins(MuxOpenAll(NewMuxDialer(), nets, Ok(frame)).1) == 1
    ensures forall i :: 0 <= i < |nets| ==> MuxOpenAll(NewMuxDialer(), nets, Ok(frame)).1[i].conn == Ok(Stream(0))
  {
    TcpLoginPerDial(0, nets, frame);
    AllUpDials(nets);
    var first := MuxOpen(NewMuxDialer(), nets[0], Ok(frame));
    assert first.0 == MuxDialer(Some(0), 1);
    MuxKeepsSession(first.0, nets[1..], Ok(frame));
    var os := MuxOpenAll(NewMuxDialer(), nets, Ok(frame)).1;
    var tail := MuxOpenAll(first.0, nets[1..], Ok(frame)).1;
    assert os[1..] == tail;
    forall i | 0 < i < |nets| ensures os[i].conn == Ok(Stream(0)) {
      assert os[i] == tail[i - 1];
      assert nets[1..][i - 1] == nets[i];
    }
  }
}
