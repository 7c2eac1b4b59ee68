/** args/args.go: resolving the plugin's options from the SIP003 environment, as code. */
module Options {
  import opened Bytes
  import opened ArgsCodec
  import opened Numbers
  import opened Settings

  lemma AddNew(args: Args, key: bytes, value: bytes)
    requires key !in args
    ensures Add(args, key, value) == args[key := [value]]
  {
    assert [] + [value] == [value];
  }

  lemma FourAdds(env: Env, a: Args, b: Args, c: Args, d: Args)
    requires a == Add(map[], REMOTE_ADDR, env.remoteHost) && b == Add(a, REMOTE_PORT, env.remotePort)
    requires c == Add(b, LOCAL_ADDR, env.localHost) && d == Add(c, LOCAL_PORT, env.localPort)
    ensures d == EnvArgs(env)
  {
    EnvKeysDistinct();
    hide Ascii, Add;
    AddNew(map[], REMOTE_ADDR, env.remoteHost);
    AddNew(a, REMOTE_PORT, env.remotePort);
    AddNew(b, LOCAL_ADDR, env.localHost);
    AddNew(c, LOCAL_PORT, env.localPort);
  }

  /** `for k, v := range other { opts[k] = v }`, in whatever order the range yields the keys. */
  method Override(base: Args, other: Args) returns (opts: Args)
    ensures opts == base + other
  {
    opts := base;
    var todo := other.Keys;
    while todo != {}
      invariant todo <= other.Keys
      invariant opts == base + (map k | k in other.Keys - todo :: other[k])
    {
      var k :| k in todo;
      opts := opts[k := other[k]];
      todo := todo - {k};
    }
    assert (map k | k in other.Keys - todo :: other[k]) == other;
  }

  method ParseEnv(env: Env) returns (r: Parsed<Args>)
    ensures r == ResolveEnv(env)
  {
    var opts: Args := map[];
    if |env.remoteHost| == 0 { return Good(opts); }
    if |env.remotePort| == 0 { return Good(opts); }
    if |env.localHost| == 0 { return Good(opts); }
    if |env.localHost| == 0 { return Good(opts); }   // the source tests the local host twice

    assert Parse([], SEMICOLON) == Good(map[]);
    hide Ascii, Parse, Add, EnvArgs;
    var a := Add(opts, REMOTE_ADDR, env.remoteHost);
    var b := Add(a, REMOTE_PORT, env.remotePort);
    var c := Add(b, LOCAL_ADDR, env.localHost);
    opts := Add(c, LOCAL_PORT, env.localPort);
    FourAdds(env, a, b, c, opts);
    assert EnvArgs(env) + map[] == EnvArgs(env);
    if |env.pluginOptions| > 0 {
      var other := ParsePluginOptions(env.pluginOptions);
      if other.Bad? {
        return Bad(other.error);
      }
      opts := Override(opts, other.value);
    }
    return Good(opts);
  }

  class Options {
    var config: Config

    method ReadNumber(args: Args, key: bytes, limit: nat, before: nat) returns (n: Option<nat>)
      ensures n == Number(args, key, limit, before)
    {
      var v := Get(args, key);
      n := Some(before);
      if v.Some? { n := ParseUint(v.value, limit); }
    }

    method ApplySwitches(args: Args)
      modifies this
      ensures config == Switches(old(config), args)
    {
      hide Ascii, Get;
      var v := Get(args, MODE);
      if v.Some? { config := config.(mode := v.value); }
      v := Get(args, NOCOMP);
      if v.Some? { config := config.(nocomp := true); }
      v := Get(args, INSECURE);
      if v.Some? { config := config.(insecure := true); }
    }

    method ApplyWeb(args: Args)
      modifies this
      ensures config == Web(old(config), args)
    {
      hide Ascii, Get;
      var v := Get(args, HOST);
      if v.Some? { config := config.(hostname := v.value); }
      v := Get(args, PATH);
      if v.Some? { config := config.(path := v.value); }
    }

    method ApplyFiles(args: Args)
      modifies this
      ensures config == Files(old(config), args)
    {
      hide Ascii, Get;
      var v := Get(args, CERT);
      if v.Some? { config := config.(cert := v.value); }
      v := Get(args, KEY);
      if v.Some? { config := config.(key := v.value); }
    }

    method ApplyRole(args: Args)
      modifies this
      ensures config == Role(old(config), args)
    {
      hide Ascii, Get;
      var v := Get(args, SERVER);
      if v.Some? { config := config.(server := true); }
      v := Get(args, SERVER_NAME);
      if v.Some? { config := config.(serverName := v.value); }
    }

    method ApplyLocal(args: Args) returns (ok: bool)
      modifies this
      ensures Outcome(config, ok) == End(old(config), true, args)
    {
      hide Ascii, Get, Number;
      var v := Get(args, LOCAL_ADDR);
      if v.Some? {
        if config.server { config := config.(remoteAddr := v.value); } else { config := config.(localAddr := v.value); }
      }
      var n := ReadNumber(args, LOCAL_PORT, UINT32, PortOf(config, true));
      if n.None? { return false; }
      if config.server { config := config.(remotePort := n.value); } else { config := config.(localPort := n.value); }
      return true;
    }

    method ApplyRemote(args: Args) returns (ok: bool)
      modifies this
      ensures Outcome(config, ok) == End(old(config), false, args)
    {
      hide Ascii, Get, Number;
      var v := Get(args, REMOTE_ADDR);
      if v.Some? {
        if config.server { config := config.(localAddr := v.value); } else { config := config.(remoteAddr := v.value); }
      }
      var n := ReadNumber(args, REMOTE_PORT, UINT32, PortOf(config, false));
      if n.None? { return false; }
      if config.server { config := config.(localPort := n.value); } else { config := config.(remotePort := n.value); }
      return true;
    }

    method ApplyEnds(args: Args) returns (ok: bool)
      modifies this
      ensures Outcome(config, ok) == Ends(old(config), args)
    {
      hide End;
      ok := ApplyLocal(args);
      if !ok { return; }
      ok := ApplyRemote(args);
    }

    method ApplySocket(args: Args)
      modifies this
      ensures config == Socket(old(config), args)
    {
      hide Ascii, Get;
      var v := Get(args, FAST_OPEN);
      if v.Some? { config := config.(fastOpen := true); }
      v := Get(args, ANDROID_VPN);
      if v.Some? { config := config.(vpn := true); }
    }

    method ApplyTuning(args: Args) returns (ok: bool)
      modifies this
      ensures Outcome(config, ok) == Tuning(old(config), args)
    {
      hide Ascii, Get, Number, Socket;
      var n := ReadNumber(args, LOG_LEVEL, UINT32, config.logLevel);
      if n.None? { return false; }
      config := config.(logLevel := n.value);
      ApplySocket(args);
      n := ReadNumber(args, ED, UINT32, config.ed);
      if n.None? { return false; }
      config := config.(ed := n.value);
      return true;
    }

    method ApplyNaming(args: Args)
      modifies this
      ensures config == Naming(old(config), args)
    {
      hide Ascii, Get;
      var v := Get(args, SERVICE_NAME);
      if v.Some? { config := config.(serviceName := v.value); }
      v := Get(args, FINGERPRINT);
      if v.Some? { config := config.(fingerprint := v.value); }
    }

    method ApplyOptions(env: Env) returns (ok: bool)
      modifies this
      ensures Outcome(config, ok) == Resolve(old(config), env)
      ensures env.remoteHost == [] || env.remotePort == [] || env.localHost == [] ==> ok && config == old(config)
      ensures env.remoteHost != [] && env.remotePort != [] && env.localHost != [] ==>
        var parsed := ParsePairs(env.pluginOptions, SEMICOLON);
        && (ok <==> parsed.Good? && exists c :: Configured(env, parsed.value, old(config), c))
        && (ok ==> Configured(env, parsed.value, old(config), config))
    {
      ResolveMeans(config, env);
      hide Configured, ParsePairs;
      hide Switches, Web, Files, Role, Ends, Tuning, Naming, Number, ResolveEnv, Ascii;
      var parsed := ParseEnv(env);
      if parsed.Bad? { return false; }
      var args := parsed.value;
      ApplySwitches(args);
      var mux := ReadNumber(args, MUX, UINT16, config.mux);
      if mux.None? { return false; }
      config := config.(mux := mux.value);
      ApplyWeb(args);
      ApplyFiles(args);
      ApplyRole(args);
      ok := ApplyEnds(args);
      if !ok { return; }
      ok := ApplyTuning(args);
      if !ok { return; }
      ApplyNaming(args);
    }
  }

  // ----- Role mirror -----

  function Mirror(c: Config): Config {
    c.(localAddr := c.remoteAddr, localPort := c.remotePort, remoteAddr := c.localAddr, remotePort := c.localPort,
       server := !c.server)
  }

  lemma MirrorHead(c: Config, args: Args)
    ensures Switches(c.(server := true), args) == Switches(c, args).(server := true)
    ensures Switches(c, args).server == c.server
  {
    hide Str, Flag;
  }

  lemma MirrorMiddle(c: Config, args: Args)
    requires !c.server && Get(args, SERVER).None?
    ensures var r := Role(Files(Web(c, args), args), args);
      !r.server && Role(Files(Web(c.(server := true), args), args), args) == r.(server := true)
  {
    hide Str, Get;
  }

  lemma MirrorEnds(c: Config, args: Args)
    requires !c.server && Complete(args)
    ensures var a, b := Ends(c, args), Ends(c.(server := true), args);
      a.ok == b.ok && (a.ok ==> b.config == Mirror(a.config) && !a.config.server)
  {
    hide Ascii, Get, ParseUint;
  }

  lemma MirrorSocket(c: Config, args: Args)
    ensures Socket(Mirror(c), args) == Mirror(Socket(c, args)) && Socket(c, args).server == c.server
    ensures Socket(c, args).ed == c.ed
  {
    hide Flag;
  }

  lemma MirrorNumbers(c: Config, level: nat, ed: nat)
    ensures Mirror(c).(logLevel := level) == Mirror(c.(logLevel := level)) && Mirror(c).(ed := ed) == Mirror(c.(ed := ed))
    ensures Mirror(c).logLevel == c.logLevel && Mirror(c).ed == c.ed
  {
  }

  lemma MirrorTuning(c: Config, args: Args)
    ensures var a, b := Tuning(c, args), Tuning(Mirror(c), args);
      a.ok == b.ok && b.config == Mirror(a.config) && a.config.server == c.server
  {
    hide Ascii, Number, Socket, Mirror;
    var level := Number(args, LOG_LEVEL, UINT32, c.logLevel);
    MirrorNumbers(c, if level.Some? then level.value else 0, 0);
    if level.Some? {
      var c1 := c.(logLevel := level.value);
      MirrorSocket(c1, args);
      var c2 := Socket(c1, args);
      var ed := Number(args, ED, UINT32, c2.ed);
      MirrorNumbers(c2, 0, if ed.Some? then ed.value else 0);
    }
  }

  lemma MirrorNaming(c: Config, args: Args)
    ensures Naming(Mirror(c), args) == Mirror(Naming(c, args)) && Naming(c, args).server == c.server
  {
    hide Str;
  }

  lemma MirrorApply(c: Config, args: Args)
    requires !c.server && Complete(args) && Get(args, SERVER).None?
    ensures var client, server := Apply(c, args), Apply(c.(server := true), args);
      client.ok == server.ok && (client.ok ==> server.config == Mirror(client.config) && !client.config.server)
  {
    hide Ascii, Get, Ends, Tuning, Naming, Number, Switches, Web, Files, Role, Complete, Mirror;
    var c1, s1 := Switches(c, args), Switches(c.(server := true), args);
    MirrorHead(c, args);
    var mux := Number(args, MUX, UINT16, c1.mux);
    assert s1 == c1.(server := true) && s1.mux == c1.mux;
    if mux.Some? {
      var c2 := c1.(mux := mux.value);
      assert s1.(mux := mux.value) == c2.(server := true);
      MirrorMiddle(c2, args);
      var c3 := Role(Files(Web(c2, args), args), args);
      MirrorEnds(c3, args);
      var ends := Ends(c3, args);
      if ends.ok {
        MirrorTuning(ends.config, args);
        MirrorNaming(Tuning(ends.config, args).config, args);
      }
    }
  }

  lemma SettersKeepServer(c: Config, local: bool, v: Option<bytes>, n: Option<nat>)
    ensures SetAddr(c, local, v).server == c.server && SetPort(c, local, n).server == c.server
  {
  }

  lemma EndKeepsServer(c: Config, local: bool, args: Args)
    ensures End(c, local, args).config.server == c.server
  {
    hide Ascii, Get, Number, PortOf, SetAddr, SetPort;
    var v := Get(args, if local then LOCAL_ADDR else REMOTE_ADDR);
    var c1 := SetAddr(c, local, v);
    var port := Number(args, if local then LOCAL_PORT else REMOTE_PORT, UINT32, PortOf(c1, local));
    SettersKeepServer(c, local, v, None);
    SettersKeepServer(c1, local, None, port);
  }

  lemma EndsKeepServer(c: Config, args: Args)
    ensures Ends(c, args).config.server == c.server
  {
    hide End;
    EndKeepsServer(c, true, args);
    EndKeepsServer(End(c, true, args).config, false, args);
  }

  lemma ServersMiddle(c: Config, args: Args)
    requires Get(args, SERVER).Some?
    ensures var r := Role(Files(Web(c, args), args), args);
      r.server && Role(Files(Web(c.(server := true), args), args), args) == r
  {
    hide Str, Get;
  }

  /** Nothing before the server option depends on the role. */
  lemma ServersApply(c: Config, args: Args)
    requires Get(args, SERVER).Some?
    ensures var client, server := Apply(c, args), Apply(c.(server := true), args);
      client.ok == server.ok && (client.ok ==> client.config == server.config && client.config.server)
  {
    hide Ascii, Get, Number, Switches, Web, Files, Role, Ends, Tuning, Naming;
    var c1 := Switches(c, args);
    MirrorHead(c, args);
    var mux := Number(args, MUX, UINT16, c1.mux);
    if mux.Some? {
      var c2 := c1.(mux := mux.value);
      assert Switches(c.(server := true), args).(mux := mux.value) == c2.(server := true);
      ServersMiddle(c2, args);
      var c3 := Role(Files(Web(c2, args), args), args);
      EndsKeepServer(c3, args);
      var ends := Ends(c3, args);
      MirrorTuning(ends.config, args);
      MirrorNaming(Tuning(ends.config, args).config, args);
    }
  }

  /** The two ends of a tunnel started from the same environment agree on everything but direction: both succeed or
      both fail, and the server's result is the client's with local and remote exchanged, whatever addresses the
      options held before. An explicit "server" option makes both of them the same server. */
  lemma RoleMirror(c: Config, env: Env)
    requires Enabled(env) && ParsePairs(env.pluginOptions, SEMICOLON).Good?
    ensures var client, server := Resolve(c.(server := false), env), Resolve(c.(server := true), env);
      && client.ok == server.ok
      && (client.ok ==>
        if Select(ParsePairs(env.pluginOptions, SEMICOLON).value, SERVER) == []
        then server.config == Mirror(client.config) && !client.config.server
        else server.config == client.config && client.config.server)
  {
    hide Ascii, ResolveEnv, ParsePairs, Select, Apply, Get, Complete, Enabled, Mirror;
    AllGiven(env);
    var client, server := c.(server := false), c.(server := true);
    assert client.(server := true) == server;
    if Get(ResolveEnv(env).value, SERVER).None? {
      MirrorApply(client, ResolveEnv(env).value);
    } else {
      ServersApply(client, ResolveEnv(env).value);
    }
  }

  // ----- Unset variables -----

  ghost predicate AnyUnset(env: Env) {
    env.remoteHost == [] || env.remotePort == [] || env.localHost == [] || env.localPort == []
  }

  /** The environment is ignored exactly when one of the three variables the source tests is unset; so "ignored when any
      of the four is unset" holds of all environments but those in which SS_LOCAL_PORT alone is missing. */
  lemma EnvIgnored(env: Env)
    ensures ResolveEnv(env) == Good(map[]) <==> env.remoteHost == [] || env.remotePort == [] || env.localHost == []
    ensures (AnyUnset(env) ==> ResolveEnv(env) == Good(map[])) <==>
      !(env.remoteHost != [] && env.remotePort != [] && env.localHost != [] && env.localPort == [])
  {
    hide Ascii, Parse;
    assert LOCAL_PORT in EnvArgs(env);
  }

  /** With SS_LOCAL_PORT alone unset, resolution succeeds exactly when the plugin options are accepted and give the
      local port as a number, and the other numbers are in range too. */
  lemma MissingLocalPort(c: Config, env: Env)
    requires env.localPort == [] && Enabled(env)
    ensures !ParsePairs(env.pluginOptions, SEMICOLON).Good? ==> !Resolve(c, env).ok
    ensures ParsePairs(env.pluginOptions, SEMICOLON).Good? ==>
      var ps := ParsePairs(env.pluginOptions, SEMICOLON).value;
      (Resolve(c, env).ok <==>
        && Select(ps, LOCAL_PORT) != [] && IsNumber(Select(ps, LOCAL_PORT)[0], UINT32)
        && Port(ps, REMOTE_PORT, env.remotePort)
        && Optional(ps, MUX, UINT16) && Optional(ps, LOG_LEVEL, UINT32) && Optional(ps, ED, UINT32))
  {
    ResolveOk(c, env);
    assert !IsNumber([], UINT32);
    hide Ascii, ResolveEnv, ParsePairs, Select, Optional, IsNumber, Resolve, Enabled;
  }

  /** An environment in which only SS_LOCAL_PORT is missing and resolution fails, whatever the options were before. */
  lemma MissingLocalPortFails(c: Config)
    ensures var env := Env(Ascii("203.0.113.1"), Ascii("443"), Ascii("127.0.0.1"), [], []);
      AnyUnset(env) && ResolveEnv(env) != Good(map[]) && !Resolve(c, env).ok
  {
    var env := Env(Ascii("203.0.113.1"), Ascii("443"), Ascii("127.0.0.1"), [], []);
    assert Enabled(env) && ParsePairs([], SEMICOLON) == Good([]) && Select([], LOCAL_PORT) == [];
    assert AnyUnset(env);
    hide *;
    EnvIgnored(env);
    MissingLocalPort(c, env);
  }
}
