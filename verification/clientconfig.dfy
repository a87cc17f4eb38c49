/** The client's configuration (client/config.go and internal/client/config.go): the
    `local:remote` port argument and the command-line overrides of `LoadConfig`.

    Viper is not modelled. What it has gathered from defaults, the environment and
    the configuration file arrives as one `Settings` value; whether reading the file
    and decoding into the struct succeed are flags of it. */
module ClientConfig {
  import opened Wrappers
  import opened GoText

  datatype Proxy = Proxy(proxyName: string, subdomain: string, remotePort: int, localPort: int,
                         speedLimit: string, proxyType: string)

  datatype Config = Config(svrAddr: string, token: string, multiplex: bool, proxys: seq<Proxy>)

  /** The zero `Config`. */
  const Zero: Config := Config("", "", false, [])

  datatype ArgError = BadFormat | BadLocal | BadRemote

  /** The proxy entry `parseProxyArg` returns: only the ports and the type are set. */
  function PortsOnly(local: int, remote: int): (p: Proxy)
    ensures p.localPort == local && p.remotePort == remote && p.proxyType == "tcp"
    ensures p.proxyName == "" && p.subdomain == "" && p.speedLimit == ""
  {
    Proxy("", "", remote, local, "", "tcp")
  }

  /** `parseProxyArg`, identical in both copies: split on ':' into exactly two parts,
      both integers. */
  function ParseProxyArg(arg: string): (r: Result<Proxy, ArgError>)
    ensures r == Err(BadFormat) <==> |Split(arg, ':')| != 2
    ensures r == Err(BadLocal) <==> |Split(arg, ':')| == 2 && Atoi(Split(arg, ':')[0]).None?
    ensures r == Err(BadRemote) <==>
              |Split(arg, ':')| == 2 && Atoi(Split(arg, ':')[0]).Some? && Atoi(Split(arg, ':')[1]).None?
    ensures r.Ok? ==> r.value == PortsOnly(Atoi(Split(arg, ':')[0]).value, Atoi(Split(arg, ':')[1]).value)
  {
    var parts := Split(arg, ':');
    if |parts| != 2 then Err(BadFormat)
    else match Atoi(parts[0])
      case None => Err(BadLocal)
      case Some(local) =>
        match Atoi(parts[1])
        case None => Err(BadRemote)
        case Some(remote) => Ok(PortsOnly(local, remote))
  }

  /** The argument spelled from two ports parses back to them. */
  lemma ParseProxyArgRoundTrip(local: int, remote: int)
    requires InInt64(local) && InInt64(remote)
    ensures ParseProxyArg(Itoa(local) + ":" + Itoa(remote)) == Ok(PortsOnly(local, remote))
  {
    assert ':' !in Itoa(local) && ':' !in Itoa(remote);
    SplitPair(Itoa(local), Itoa(remote), ':');
  }

  /** What Viper holds after defaults ("localhost:8910" for the server address, false
      for multiplexing), environment variables and the configuration file. Keys with
      no value are `None`; `GetString` of such a key is the empty string. */
  datatype Settings = Settings(
    readOk: bool, decodeOk: bool,
    svrAddr: string, token: Option<string>, multiplex: bool, proxys: Option<seq<Proxy>>,
    proxyName: string, subdomain: string, speedLimit: string, proxyType: string)

  datatype LoadError = ReadFailed | DecodeFailed | Arg(err: ArgError)

  /** `viper.Unmarshal(&config)`: every key with a value is decoded into its field, the proxy list taken whole; the
      server address and the multiplex flag always have one, through their defaults. */
  function Unmarshal(c: Config, v: Settings): (r: Config)
    ensures r.svrAddr == v.svrAddr && r.multiplex == v.multiplex
    ensures r.token == (if v.token.Some? then v.token.value else c.token)
    ensures r.proxys == (if v.proxys.Some? then v.proxys.value else c.proxys)
  {
    Config(v.svrAddr,
           if v.token.Some? then v.token.value else c.token,
           v.multiplex,
           if v.proxys.Some? then v.proxys.value else c.proxys)
  }

  /** `LoadConfig` of client/config.go as written: the arguments are written into the
      struct BEFORE `Unmarshal`, which then decodes over them. A read failure comes
      first, then a bad proxy argument, then a decode failure; a command-line proxy
      only survives when the file lists none. */
  function LoadConfigAsWritten(cfgFile: string, args: seq<string>, v: Settings): (r: Result<Config, LoadError>)
    ensures cfgFile != "" && !v.readOk ==> r == Err(ReadFailed)
    ensures !(cfgFile != "" && !v.readOk) && |args| > 1 && ParseProxyArg(args[1]).Err? ==>
              r == Err(Arg(ParseProxyArg(args[1]).error))
    ensures r.Err? && r.error == DecodeFailed <==>
              !(cfgFile != "" && !v.readOk) && !(|args| > 1 && ParseProxyArg(args[1]).Err?) && !v.decodeOk
    ensures r.Ok? && v.proxys.None? ==> r.value.proxys == (if |args| > 1 then [ParseProxyArg(args[1]).value] else [])
    ensures r.Ok? ==> r.value.token == (if v.token.Some? then v.token.value else "")
  {
    if cfgFile != "" && !v.readOk then Err(ReadFailed)
    else
      var c := if |args| > 0 then Zero.(svrAddr := args[0]) else Zero;
      var parsed := if |args| > 1 then Some(ParseProxyArg(args[1])) else None;
      if parsed.Some? && parsed.value.Err? then Err(Arg(parsed.value.error))
      else
        var c := if parsed.Some? then c.(proxys := [parsed.value.value]) else c;
        if !v.decodeOk then Err(DecodeFailed)
        else Ok(Unmarshal(c, v))
  }

  /** As written, the server address given on the command line never takes effect:
      the result carries Viper's address (the default, unless the environment or the
      file set one), and a proxy given on the command line gives way whenever the
      file lists proxies. */
  lemma ArgsOverriddenAsWritten(cfgFile: string, args: seq<string>, v: Settings)
    requires |args| > 0 && LoadConfigAsWritten(cfgFile, args, v).Ok?
    ensures LoadConfigAsWritten(cfgFile, args, v).value.svrAddr == v.svrAddr
    ensures v.proxys.Some? ==> LoadConfigAsWritten(cfgFile, args, v).value.proxys == v.proxys.value
  {
  }

  /** The arguments applied over a decoded configuration. */
  function Override(c: Config, args: seq<string>): (r: Result<Config, LoadError>)
    ensures |args| > 1 && ParseProxyArg(args[1]).Err? <==> r.Err?
    ensures r.Err? ==> r.error == Arg(ParseProxyArg(args[1]).error)
    ensures r.Ok? ==> r.value.svrAddr == (if |args| > 0 then args[0] else c.svrAddr)
    ensures r.Ok? ==> r.value.proxys == (if |args| > 1 then [ParseProxyArg(args[1]).value] else c.proxys)
    ensures r.Ok? ==> r.value.token == c.token && r.value.multiplex == c.multiplex
  {
    var c := if |args| > 0 then c.(svrAddr := args[0]) else c;
    if |args| > 1 then
      match ParseProxyArg(args[1])
      case Err(e) => Err(Arg(e))
      case Ok(p) => Ok(c.(proxys := [p]))
    else Ok(c)
  }

  /** `LoadConfig` of client/config.go as evidently intended, and as the later copy
      orders it: decode first, then let the arguments override. */
  function LoadConfig(cfgFile: string, args: seq<string>, v: Settings): (r: Result<Config, LoadError>)
    ensures cfgFile != "" && !v.readOk ==> r == Err(ReadFailed)
    ensures r.Ok? ==> r == Override(Unmarshal(Zero, v), args)
  {
    if cfgFile != "" && !v.readOk then Err(ReadFailed)
    else if |args| > 1 && ParseProxyArg(args[1]).Err? then Err(Arg(ParseProxyArg(args[1]).error))
    else if !v.decodeOk then Err(DecodeFailed)
    else Override(Unmarshal(Zero, v), args)
  }

  /** Corrected, `<addr> <local>:<remote>` on the command line is what the client
      uses, whatever the file and environment say, and both versions fail alike. */
  lemma ArgsTakeEffect(cfgFile: string, addr: string, local: int, remote: int, v: Settings)
    requires InInt64(local) && InInt64(remote)
    requires LoadConfig(cfgFile, [addr, Itoa(local) + ":" + Itoa(remote)], v).Ok?
    ensures LoadConfig(cfgFile, [addr, Itoa(local) + ":" + Itoa(remote)], v).value.svrAddr == addr
    ensures LoadConfig(cfgFile, [addr, Itoa(local) + ":" + Itoa(remote)], v).value.proxys == [PortsOnly(local, remote)]
  {
    ParseProxyArgRoundTrip(local, remote);
  }

  /** Both versions succeed or fail on the same inputs, with the same error. */
  lemma SameFailures(cfgFile: string, args: seq<string>, v: Settings)
    ensures LoadConfig(cfgFile, args, v).Err? <==> LoadConfigAsWritten(cfgFile, args, v).Err?
    ensures LoadConfig(cfgFile, args, v).Err? ==>
              LoadConfig(cfgFile, args, v).error == LoadConfigAsWritten(cfgFile, args, v).error
  {
  }

  /** `LoadConfig` of internal/client/config.go: decode, build the single proxy entry
      from the top-level keys, override the address and that entry's ports from the
      arguments, and make it the only proxy. */
  function LoadConfigInternal(cfgFile: string, args: seq<string>, v: Settings): (r: Result<Config, LoadError>)
    ensures cfgFile != "" && !v.readOk ==> r == Err(ReadFailed)
    ensures r.Ok? ==> r.value.svrAddr == (if |args| > 0 then args[0] else v.svrAddr)
    ensures r.Ok? ==> |r.value.proxys| == 1
    ensures r.Ok? ==> r.value.proxys[0].proxyName == v.proxyName && r.value.proxys[0].subdomain == v.subdomain
                      && r.value.proxys[0].speedLimit == v.speedLimit && r.value.proxys[0].proxyType == v.proxyType
    ensures r.Ok? && |args| > 1 ==>
              ParseProxyArg(args[1]).Ok?
              && r.value.proxys[0].localPort == ParseProxyArg(args[1]).value.localPort
              && r.value.proxys[0].remotePort == ParseProxyArg(args[1]).value.remotePort
    ensures r.Ok? && |args| <= 1 ==> r.value.proxys[0].localPort == 0 && r.value.proxys[0].remotePort == 0
  {
    if cfgFile != "" && !v.readOk then Err(ReadFailed)
    else if !v.decodeOk then Err(DecodeFailed)
    else
      var c := Unmarshal(Zero, v);
      var proxy := Proxy(v.proxyName, v.subdomain, 0, 0, v.speedLimit, v.proxyType);
      var c := if |args| > 0 then c.(svrAddr := args[0]) else c;
      if |args| > 1 then
        match ParseProxyArg(args[1])
        case Err(e) => Err(Arg(e))
        case Ok(lr) => Ok(c.(proxys := [proxy.(localPort := lr.localPort, remotePort := lr.remotePort)]))
      else Ok(c.(proxys := [proxy]))
  }

  /** With an address and a port pair, the later `LoadConfig` connects where the
      command line says and forwards the given ports. */
  lemma InternalArgsTakeEffect(cfgFile: string, addr: string, local: int, remote: int, v: Settings)
    requires InInt64(local) && InInt64(remote)
    requires (cfgFile == "" || v.readOk) && v.decodeOk
    ensures var r := LoadConfigInternal(cfgFile, [addr, Itoa(local) + ":" + Itoa(remote)], v);
            && r.Ok?
            && r.value.svrAddr == addr
            && r.value.proxys[0].localPort == local && r.value.proxys[0].remotePort == remote
  {
    ParseProxyArgRoundTrip(local, remote);
  }
}
