/** The server's table of live proxies (server/serve.go `addProxy`, `delProxy`,
    `availablePort`) and its older twin, the forward list of server/handle.go
    (`addForward`, `delForward`). A proxy maps a public port `To` to the client it
    came `From`, with an optional public host name `Subdomain`; in domain-tunnel mode
    every entry also gets a reverse-proxy route whose id is `Subdomain.To`.

    The listener each entry holds, and the route additions and deletions that the
    Go code starts in goroutines, are not modelled as effects: the operations
    return which route id they would add or delete. The 7-character random prefix
    (`uuid.NewString()[:7]`) is a parameter. */
module Registry {
  import opened Wrappers
  import opened GoText

  datatype Proxy = Proxy(to: int, from: string, subdomain: string)

  /** `proxys` plus `portManager` (a Go map: a missing key reads as false). */
  datatype Registry = Registry(proxys: seq<Proxy>, ports: map<int, bool>)

  datatype Config = Config(domainTunnel: bool, domain: string)

  function Empty(): Registry {
    Registry([], map[])
  }

  predicate InUse(reg: Registry, port: int) {
    port in reg.ports && reg.ports[port]
  }

  /** `availablePort`: strictly between 0 and 65535 and not marked in use. */
  function AvailablePort(reg: Registry, port: int): (ok: bool)
    ensures ok <==> 0 < port < 65535 && !InUse(reg, port)
  {
    0 < port < 65535 && !(port in reg.ports && reg.ports[port])
  }

  function Ports(ps: seq<Proxy>): set<int> {
    set i | 0 <= i < |ps| :: ps[i].to
  }

  function InUsePorts(reg: Registry): set<int> {
    set p | p in reg.ports && reg.ports[p]
  }

  predicate DistinctPorts(ps: seq<Proxy>) {
    forall i, j :: 0 <= i < j < |ps| ==> ps[i].to != ps[j].to
  }

  /** The invariant the handlers keep: one proxy per port, and a port is marked in
      use exactly when a proxy holds it. */
  predicate Consistent(reg: Registry) {
    DistinctPorts(reg.proxys) && InUsePorts(reg) == Ports(reg.proxys)
  }

  /** The reverse-proxy route id for a host and port: `fmt.Sprintf("%s.%d", host, port)`. */
  function RouteId(host: string, port: int): (id: string)
    ensures |id| > |host| && id[..|host|] == host && id[|host|] == '.'
  {
    host + "." + Itoa(port)
  }

  /** The public host name `addProxy` stores: unchanged outside domain-tunnel mode;
      otherwise the requested name, or the random prefix when none was requested,
      under the configured domain. */
  function StoredSubdomain(cfg: Config, requested: string, prefix: string): (sub: string)
    ensures !cfg.domainTunnel ==> sub == requested
    ensures cfg.domainTunnel ==>
              && |sub| > |cfg.domain|
              && sub[|sub| - |cfg.domain| - 1..] == "." + cfg.domain
              && sub[..|sub| - |cfg.domain| - 1] == (if requested == "" then prefix else requested)
  {
    if !cfg.domainTunnel then requested
    else
      var head := if requested == "" then prefix else requested;
      var sub := head + "." + cfg.domain;
      assert sub[..|head|] == head;
      sub
  }

  /** Result of an insertion: the new table and the route (host, port) it asks the
      reverse proxy for, if any. */
  datatype Added = Added(reg: Registry, route: Option<(string, int)>)

  /** `addProxy`: append the entry with its final host name and mark its port. */
  function AddProxy(reg: Registry, cfg: Config, f: Proxy, prefix: string): (out: Added)
    ensures |out.reg.proxys| == |reg.proxys| + 1 && out.reg.proxys[..|reg.proxys|] == reg.proxys
    ensures out.reg.proxys[|reg.proxys|] == f.(subdomain := StoredSubdomain(cfg, f.subdomain, prefix))
    ensures InUse(out.reg, f.to)
    ensures forall p :: p != f.to ==> (InUse(out.reg, p) <==> InUse(reg, p))
    ensures out.route.Some? <==> cfg.domainTunnel
    ensures out.route.Some? ==> out.route.value == (StoredSubdomain(cfg, f.subdomain, prefix), f.to)
  {
    var stored := f.(subdomain := StoredSubdomain(cfg, f.subdomain, prefix));
    var reg' := Registry(reg.proxys + [stored], reg.ports[f.to := true]);
    Added(reg', if cfg.domainTunnel then Some((stored.subdomain, f.to)) else None)
  }

  /** The position of the first entry on port `to`, if any. */
  function FirstIndex(ps: seq<Proxy>, to: int): (r: Option<nat>)
    ensures r.None? <==> forall i :: 0 <= i < |ps| ==> ps[i].to != to
    ensures r.Some? ==> r.value < |ps| && ps[r.value].to == to
    ensures r.Some? ==> forall j :: 0 <= j < r.value ==> ps[j].to != to
  {
    if |ps| == 0 then None
    else if ps[0].to == to then Some(0)
    else
      match FirstIndex(ps[1..], to)
      case None => None
      case Some(k) => Some(k + 1)
  }

  /** Result of a removal: the new list, the entry removed (whose listener is closed),
      and the route id to delete, if any. */
  datatype Removed<T> = Removed(rest: T, closed: Option<Proxy>, route: Option<string>)

  /** The loop shared by `delProxy` and `delForward`: drop the FIRST entry on port
      `to` and report it; with no such entry nothing changes. */
  function RemoveFirst(ps: seq<Proxy>, cfg: Config, to: int): (r: Removed<seq<Proxy>>)
    ensures r.closed.None? <==> to !in Ports(ps)
    ensures r.closed.None? ==> r.rest == ps && r.route.None?
    ensures r.closed.Some? ==>
              && FirstIndex(ps, to).Some?
              && var i := FirstIndex(ps, to).value;
                 r.closed.value == ps[i] && r.rest == ps[..i] + ps[i + 1..]
    ensures r.route.Some? <==> r.closed.Some? && cfg.domainTunnel
    ensures r.route.Some? ==> r.route.value == RouteId(r.closed.value.subdomain, to)
  {
    match FirstIndex(ps, to)
    case None =>
      assert forall p | p in Ports(ps) :: p != to;
      Removed(ps, None, None)
    case Some(i) =>
      var route := if cfg.domainTunnel then Some(RouteId(ps[i].subdomain, ps[i].to)) else None;
      Removed(ps[..i] + ps[i + 1..], Some(ps[i]), route)
  }

  /** `delProxy`: the list loop plus, on a hit, clearing the port mark. Only the
      first entry on the port leaves the list, the others keep their order, and that
      entry's listener is closed and its route deleted. */
  function DelProxy(reg: Registry, cfg: Config, to: int): (r: Removed<Registry>)
    ensures r.closed.None? <==> to !in Ports(reg.proxys)
    ensures r.closed.None? ==> r.rest == reg && r.route.None?
    ensures r.closed.Some? ==>
              && FirstIndex(reg.proxys, to).Some?
              && var i := FirstIndex(reg.proxys, to).value;
                 r.closed.value == reg.proxys[i] && r.rest.proxys == reg.proxys[..i] + reg.proxys[i + 1..]
    ensures r.route.Some? <==> r.closed.Some? && cfg.domainTunnel
    ensures r.route.Some? ==> r.route.value == RouteId(r.closed.value.subdomain, to)
    ensures r.closed.Some? ==> !InUse(r.rest, to)
    ensures forall p :: p != to ==> (InUse(r.rest, p) <==> InUse(reg, p))
  {
    var rm := RemoveFirst(reg.proxys, cfg, to);
    if rm.closed.None? then Removed(reg, None, None)
    else Removed(Registry(rm.rest, reg.ports[to := false]), rm.closed, rm.route)
  }

  /** The same search, written the way the Go code runs it: a forward scan that
      stops at the first hit. */
  method FindFirst(ps: seq<Proxy>, to: int) returns (idx: Option<nat>)
    ensures idx == FirstIndex(ps, to)
  {
    var i := 0;
    while i < |ps|
      invariant 0 <= i <= |ps|
      invariant forall j :: 0 <= j < i ==> ps[j].to != to
    {
      if ps[i].to == to {
        FirstIndexUnique(ps, to, i);
        return Some(i);
      }
      i := i + 1;
    }
    return None;
  }

  lemma DistinctRemoveAt(ps: seq<Proxy>, i: nat)
    requires i < |ps| && DistinctPorts(ps)
    ensures DistinctPorts(ps[..i] + ps[i + 1..])
    ensures Ports(ps[..i] + ps[i + 1..]) == Ports(ps) - {ps[i].to}
  {
    var rest := ps[..i] + ps[i + 1..];
    assert forall k :: 0 <= k < |rest| ==> rest[k] == if k < i then ps[k] else ps[k + 1];
    forall p | p in Ports(ps) - {ps[i].to} ensures p in Ports(rest) {
      var k :| 0 <= k < |ps| && ps[k].to == p;
      if k < i { assert rest[k] == ps[k]; } else { assert rest[k - 1] == ps[k]; }
    }
  }

  /** Removal keeps the table consistent, whether or not the port was held. */
  lemma DelProxyPreservesConsistent(reg: Registry, cfg: Config, to: int)
    requires Consistent(reg)
    ensures Consistent(DelProxy(reg, cfg, to).rest)
  {
    var r := DelProxy(reg, cfg, to);
    if r.closed.Some? {
      var i := FirstIndex(reg.proxys, to).value;
      DistinctRemoveAt(reg.proxys, i);
      assert InUsePorts(r.rest) == InUsePorts(reg) - {to};
    }
  }

  /** Insertion keeps the table consistent when the port was available, the check
      `handleProxy` makes before it listens and registers. */
  lemma AddProxyPreservesConsistent(reg: Registry, cfg: Config, f: Proxy, prefix: string)
    requires Consistent(reg) && AvailablePort(reg, f.to)
    ensures Consistent(AddProxy(reg, cfg, f, prefix).reg)
  {
    var out := AddProxy(reg, cfg, f, prefix).reg;
    assert Ports(out.proxys) == Ports(reg.proxys) + {f.to} by {
      forall p | p in Ports(out.proxys) ensures p in Ports(reg.proxys) + {f.to} {
        var k :| 0 <= k < |out.proxys| && out.proxys[k].to == p;
        if k < |reg.proxys| { assert out.proxys[k] == reg.proxys[k]; }
      }
      forall p | p in Ports(reg.proxys) ensures p in Ports(out.proxys) {
        var k :| 0 <= k < |reg.proxys| && reg.proxys[k].to == p;
        assert out.proxys[k] == reg.proxys[k];
      }
      assert out.proxys[|reg.proxys|].to == f.to;
    }
    assert InUsePorts(out) == InUsePorts(reg) + {f.to};
  }

  /** Registering and then cancelling a proxy on an available port gives back the
      original list and in-use set, closes exactly the entry registered, deletes
      exactly the route that was added, and frees the port again. */
  lemma AddThenDelProxy(reg: Registry, cfg: Config, f: Proxy, prefix: string)
    requires Consistent(reg) && AvailablePort(reg, f.to)
    ensures var a := AddProxy(reg, cfg, f, prefix);
            var d := DelProxy(a.reg, cfg, f.to);
            && d.rest.proxys == reg.proxys
            && InUsePorts(d.rest) == InUsePorts(reg)
            && AvailablePort(d.rest, f.to)
            && d.closed == Some(a.reg.proxys[|reg.proxys|])
            && (a.route.Some? <==> d.route.Some?)
            && (a.route.Some? ==> d.route.value == RouteId(a.route.value.0, a.route.value.1))
  {
    var a := AddProxy(reg, cfg, f, prefix);
    var ps := a.reg.proxys;
    assert f.to !in Ports(reg.proxys);
    forall j | 0 <= j < |reg.proxys| ensures ps[j].to != f.to {
      assert ps[j] == reg.proxys[j];
    }
    assert FirstIndex(ps, f.to) == Some(|reg.proxys|) by {
      FirstIndexUnique(ps, f.to, |reg.proxys|);
    }
    assert ps[..|reg.proxys|] + ps[|reg.proxys| + 1..] == reg.proxys;
    var d := DelProxy(a.reg, cfg, f.to);
    assert InUsePorts(d.rest) == InUsePorts(reg);
  }

  /** Any position that satisfies the first-hit description is the one `FirstIndex`
      finds. */
  lemma {:induction false} FirstIndexUnique(ps: seq<Proxy>, to: int, k: nat)
    requires k < |ps| && ps[k].to == to
    requires forall j :: 0 <= j < k ==> ps[j].to != to
    ensures FirstIndex(ps, to) == Some(k)
  {
    if k > 0 {
      FirstIndexUnique(ps[1..], to, k - 1);
    }
  }

  /** `addForward` (server/handle.go): in domain-tunnel mode the host name is ALWAYS
      the random prefix under the domain, whatever was requested; no port marks are
      kept. */
  function AddForward(forwards: seq<Proxy>, cfg: Config, f: Proxy, prefix: string): (out: (seq<Proxy>, Option<(string, int)>))
    ensures cfg.domainTunnel ==> out.0 == forwards + [f.(subdomain := prefix + "." + cfg.domain)]
    ensures !cfg.domainTunnel ==> out.0 == forwards + [f] && out.1.None?
    ensures cfg.domainTunnel ==> out.1 == Some((StoredSubdomain(cfg, "", prefix), f.to))
  {
    if cfg.domainTunnel then
      var sub := StoredSubdomain(cfg, "", prefix);
      (forwards + [f.(subdomain := sub)], Some((sub, f.to)))
    else (forwards + [f], None)
  }

  /** `delForward`: exactly the `delProxy` loop, without port marks. */
  function DelForward(forwards: seq<Proxy>, cfg: Config, to: int): (r: Removed<seq<Proxy>>)
    ensures r.closed.None? <==> to !in Ports(forwards)
    ensures r.closed.Some? ==>
              && FirstIndex(forwards, to).Some?
              && var i := FirstIndex(forwards, to).value;
                 r.closed.value == forwards[i] && r.rest == forwards[..i] + forwards[i + 1..]
    ensures r.route.Some? <==> r.closed.Some? && cfg.domainTunnel
    ensures r.route.Some? ==> r.route.value == RouteId(r.closed.value.subdomain, to)
  {
    RemoveFirst(forwards, cfg, to)
  }

  /** Adding a forward on a port no forward holds and then cancelling that port gives
      back the original list, closes exactly the forward added, and deletes exactly
      the route that was added. */
  lemma AddThenDelForward(forwards: seq<Proxy>, cfg: Config, f: Proxy, prefix: string)
    requires f.to !in Ports(forwards)
    ensures var a := AddForward(forwards, cfg, f, prefix);
            var d := DelForward(a.0, cfg, f.to);
            && d.rest == forwards
            && d.closed == Some(a.0[|forwards|])
            && (a.1.Some? <==> d.route.Some?)
            && (a.1.Some? ==> d.route.value == RouteId(a.1.value.0, a.1.value.1))
  {
    var a := AddForward(forwards, cfg, f, prefix);
    var ps := a.0;
    forall j | 0 <= j < |forwards| ensures ps[j].to != f.to {
      assert ps[j] == forwards[j];
    }
    FirstIndexUnique(ps, f.to, |forwards|);
    assert ps[..|forwards|] + ps[|forwards| + 1..] == forwards;
  }

  /** A requested host name never survives `addForward` in domain-tunnel mode:
      two forwards that differ only in what they asked for are stored alike. */
  lemma AddForwardIgnoresRequest(forwards: seq<Proxy>, cfg: Config, f: Proxy, sub: string, prefix: string)
    requires cfg.domainTunnel
    ensures AddForward(forwards, cfg, f, prefix) == AddForward(forwards, cfg, f.(subdomain := sub), prefix)
  {
  }
}
