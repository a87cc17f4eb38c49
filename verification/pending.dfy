/** Maps of pending user connections, keyed by connection id, waiting for the client
    to claim them with an exchange (server/conn.go, server/conn/tcp.go,
    server/conns.go, internal/server/conn/udp.go).

    TCP entries are stamped with the clock reading at insertion and swept by age;
    UDP entries carry no stamp. Clock readings are integer nanoseconds passed in as
    `now`. The mutex around each map only serialises the operations, which the
    model takes one at a time. Connections are an opaque type parameter; closing
    one is reported as the connection returned in `closed`. */
module Pending {
  import opened Wrappers
  import opened GoText

  /** `time.Second * 10`, the TCP sweep period and age limit, in nanoseconds. */
  const TenSeconds: int := 10_000_000_000
  /** `time.Minute`, the delay and age limit of the one-shot sweep, in nanoseconds. */
  const Minute: int := 60_000_000_000
  /** `UuidLen` / `ConnUUIDLen`: connection ids are the first 8 characters of a UUID. */
  const UuidLen: nat := 8

  datatype Entry<C> = Entry(conn: C, t: int)

  type TimedMap<C> = map<string, Entry<C>>

  /** `NewUuid`: the first `UuidLen` characters of a freshly generated UUID string,
      passed in as `u`. */
  function NewUuid(u: string): (id: string)
    requires |u| >= UuidLen
    ensures |id| == UuidLen && HasPrefix(u, id)
  {
    u[..UuidLen]
  }

  /** `Get`: the connection stored under `id`, if any. */
  function Get<C>(m: TimedMap<C>, id: string): (r: Option<C>)
    ensures r.Some? <==> id in m
    ensures r.Some? ==> r.value == m[id].conn
  {
    if id in m then Some(m[id].conn) else None
  }

  /** `Add`: store (or replace) the connection under `id`, stamped `now`. */
  function Add<C>(m: TimedMap<C>, id: string, conn: C, now: int): (r: TimedMap<C>)
    ensures Get(r, id) == Some(conn) && r[id].t == now
    ensures forall k :: k != id ==> Get(r, k) == Get(m, k)
    ensures r.Keys == m.Keys + {id}
  {
    m[id := Entry(conn, now)]
  }

  /** `Del` of server/conn/tcp.go and server/conns.go: forget the entry; an absent id
      is a no-op. */
  function Del<C>(m: TimedMap<C>, id: string): (r: TimedMap<C>)
    ensures Get(r, id) == None
    ensures forall k :: k != id ==> (k in r <==> k in m)
    ensures forall k :: k != id && k in m ==> r[k] == m[k]
  {
    m - {id}
  }

  /** `Del` of server/conn.go: close the stored connection, then forget it. Closing
      through the missing entry of an absent id is a nil-interface call, a panic in
      the Go code, so an absent id is excluded. */
  function DelClosing<C>(m: TimedMap<C>, id: string): (r: (TimedMap<C>, C))
    requires id in m
    ensures r.1 == m[id].conn
    ensures r.0 == Del(m, id)
  {
    (m - {id}, m[id].conn)
  }

  /** One pass of `expire`: drop every entry older than `ttl` at `now`. Entries are
      dropped, not closed. */
  function Sweep<C>(m: TimedMap<C>, now: int, ttl: int): (r: TimedMap<C>)
    ensures forall k :: k in r <==> k in m && now - m[k].t <= ttl
    ensures forall k :: k in r ==> r[k] == m[k]
  {
    map k | k in m && now - m[k].t <= ttl :: m[k]
  }

  /** The map after the first `n` ticks of `StartAutoExpire` (server/conn.go,
      server/conn/tcp.go): ticks every `period`, starting one period after `start`. */
  function Ticks<C>(m: TimedMap<C>, start: int, period: int, ttl: int, n: nat): (r: TimedMap<C>)
    ensures forall id :: id in r ==> id in m && r[id] == m[id]
    ensures forall id :: id in r ==> start + n * period - r[id].t <= ttl || n == 0
  {
    if n == 0 then m
    else Sweep(Ticks(m, start, period, ttl, n - 1), start + n * period, ttl)
  }

  /** Since the clock only moves forward, an entry survives `n` ticks exactly when it
      is young enough at the last one, and it survives unchanged. */
  lemma {:induction false} SurvivesTicks<C>(m: TimedMap<C>, start: int, period: int, ttl: int, n: nat, id: string)
    requires period > 0
    ensures id in Ticks(m, start, period, ttl, n) <==> id in m && (n == 0 || start + n * period - m[id].t <= ttl)
    ensures id in Ticks(m, start, period, ttl, n) ==> Ticks(m, start, period, ttl, n)[id] == m[id]
  {
    if n > 0 {
      SurvivesTicks(m, start, period, ttl, n - 1, id);
      if id in m && start + n * period - m[id].t <= ttl {
        assert start + (n - 1) * period <= start + n * period;
      }
    }
  }

  /** With the 10-second ticker and 10-second age limit, an unclaimed connection
      stamped no earlier than the ticker started is gone by the first tick more than
      ten seconds after its stamp, at most twenty seconds after it was added. */
  lemma ExpiredWithinTwoPeriods<C>(m: TimedMap<C>, start: int, id: string)
    requires id in m && m[id].t >= start
    ensures var n := (m[id].t - start + TenSeconds) / TenSeconds + 1;
            && id !in Ticks(m, start, TenSeconds, TenSeconds, n)
            && start + n * TenSeconds <= m[id].t + 2 * TenSeconds
            && forall j: nat :: 0 < j < n ==> id in Ticks(m, start, TenSeconds, TenSeconds, j)
  {
    var age := m[id].t - start + TenSeconds;
    var n := age / TenSeconds + 1;
    assert age == (age / TenSeconds) * TenSeconds + age % TenSeconds;
    SurvivesTicks(m, start, TenSeconds, TenSeconds, n, id);
    forall j: nat | 0 < j < n ensures id in Ticks(m, start, TenSeconds, TenSeconds, j) {
      SurvivesTicks(m, start, TenSeconds, TenSeconds, j, id);
      assert j * TenSeconds <= (age / TenSeconds) * TenSeconds;
    }
  }

  /** `StartAutoExpire` of server/conns.go: a single sweep, one minute after the call
      at `start`, of entries older than a minute. */
  function OneShotExpire<C>(m: TimedMap<C>, start: int): (r: TimedMap<C>)
    ensures forall k :: k in r ==> k in m && r[k] == m[k]
  {
    Sweep(m, start + Minute, Minute)
  }

  /** The one-shot sweep removes exactly the entries stamped before the call; every
      connection added afterwards is never expired. */
  lemma OneShotSparesLater<C>(m: TimedMap<C>, start: int, id: string)
    requires id in m
    ensures id !in OneShotExpire(m, start) <==> m[id].t < start
  {
  }

  /** A claim on a connection id: the connection found, the table while the relay
      that follows runs, and the table once the relay has ended. */
  datatype Claimed<C> = Claimed(conn: Option<C>, during: TimedMap<C>, after: TimedMap<C>)

  /** The claim `handleMessage` makes on a connection id: look it up, relay, and only
      when the relay has ended run the deferred removal. */
  function Claim<C>(m: TimedMap<C>, id: string): (r: Claimed<C>)
    ensures r.conn == Get(m, id)
    ensures r.during == m
    ensures r.after == (if id in m then Del(m, id) else m)
  {
    match Get(m, id)
    case None => Claimed(None, m, m)
    case Some(c) => Claimed(Some(c), m, Del(m, id))
  }

  /** While a relay runs, a second claim on its id finds the same connection; once it
      has ended, nothing. A claim right after `Add` finds the connection added. */
  lemma ClaimedOnce<C>(m: TimedMap<C>, id: string, conn: C, now: int)
    ensures Claim(Claim(m, id).during, id).conn == Claim(m, id).conn
    ensures Claim(Claim(m, id).after, id).conn == None
    ensures Claim(Add(m, id, conn, now), id) == Claimed(Some(conn), Add(m, id, conn, now), Del(m, id))
  {
    assert Add(m, id, conn, now) - {id} == m - {id};
  }

  /** A user connection the TCP accept loop took in: its id, the connection, and the
      clock reading when it was stored. */
  datatype Accepted<C> = Accepted(uid: string, conn: C, t: int)

  /** The accept loop's bookkeeping: each user connection is stored under its id,
      in the order accepted. */
  function StoreAll<C>(tcp: TimedMap<C>, accepted: seq<Accepted<C>>): (r: TimedMap<C>)
    ensures tcp.Keys <= r.Keys
    ensures forall i :: 0 <= i < |accepted| ==> accepted[i].uid in r
  {
    if |accepted| == 0 then tcp
    else
      var a := accepted[|accepted| - 1];
      Add(StoreAll(tcp, accepted[..|accepted| - 1]), a.uid, a.conn, a.t)
  }

  /** A stored connection is found under its id unless a later connection reused the
      id. */
  lemma {:induction false} StoreAllFinds<C>(tcp: TimedMap<C>, accepted: seq<Accepted<C>>, i: nat)
    requires i < |accepted| && forall j :: i < j < |accepted| ==> accepted[j].uid != accepted[i].uid
    ensures Get(StoreAll(tcp, accepted), accepted[i].uid) == Some(accepted[i].conn)
  {
    var n := |accepted| - 1;
    if i < n {
      var init := accepted[..n];
      assert init[i] == accepted[i];
      forall j | i < j < n ensures init[j].uid != init[i].uid {
        assert init[j] == accepted[j];
      }
      StoreAllFinds(tcp, init, i);
      assert accepted[n].uid != accepted[i].uid;
    }
  }

  type UdpMap<C> = map<string, C>

  function UdpGet<C>(m: UdpMap<C>, id: string): (r: Option<C>)
    ensures r.Some? <==> id in m
    ensures r.Some? ==> r.value == m[id]
  {
    if id in m then Some(m[id]) else None
  }

  function UdpAdd<C>(m: UdpMap<C>, id: string, conn: C): (r: UdpMap<C>)
    ensures UdpGet(r, id) == Some(conn)
    ensures forall k :: k != id ==> UdpGet(r, k) == UdpGet(m, k)
  {
    m[id := conn]
  }

  /** `Del` of the UDP maps: close the stored connection and forget it. For an absent
      id the Go code calls `Close` on a nil `*net.UDPConn`, whose promoted method
      dereferences the nil pointer and panics, so an absent id is excluded. */
  function UdpDel<C>(m: UdpMap<C>, id: string): (r: (UdpMap<C>, C))
    requires id in m
    ensures r.1 == m[id]
    ensures UdpGet(r.0, id) == None
    ensures forall k :: k != id ==> UdpGet(r.0, k) == UdpGet(m, k)
  {
    (m - {id}, m[id])
  }

  /** Add then delete leaves the UDP map as it was, for an id not yet present, and
      closes exactly the connection added. */
  lemma UdpAddDel<C>(m: UdpMap<C>, id: string, conn: C)
    requires id !in m
    ensures UdpDel(UdpAdd(m, id, conn), id) == (m, conn)
  {
    assert UdpAdd(m, id, conn) - {id} == m;
  }
}
