/** args/args.go: what the plugin's options resolve to in the SIP003 environment, as functions, and what those functions
    mean for each field of the options. */
module Settings {
  import opened Bytes
  import opened ArgsCodec
  import opened Numbers

  predicate IsAscii(s: string) {
    forall i | 0 <= i < |s| :: s[i] < 128 as char
  }

  function Ascii(s: string): bytes
    requires IsAscii(s)
  {
    seq(|s|, i requires 0 <= i < |s| => s[i] as byte)
  }

  const REMOTE_ADDR := Ascii("remoteAddr")
  const REMOTE_PORT := Ascii("remotePort")
  const LOCAL_ADDR := Ascii("localAddr")
  const LOCAL_PORT := Ascii("localPort")
  const MODE := Ascii("mode")
  const NOCOMP := Ascii("nocomp")
  const INSECURE := Ascii("insecure")
  const MUX := Ascii("mux")
  const HOST := Ascii("host")
  const PATH := Ascii("path")
  const CERT := Ascii("cert")
  const KEY := Ascii("key")
  const SERVER := Ascii("server")
  const SERVER_NAME := Ascii("serverName")
  const LOG_LEVEL := Ascii("logLevel")
  const FAST_OPEN := Ascii("fastOpen")
  const ANDROID_VPN := Ascii("__android_vpn")
  const ED := Ascii("ed")
  const SERVICE_NAME := Ascii("serviceName")
  const FINGERPRINT := Ascii("fingerprint")

  /** The SS_* environment variables; an unset variable reads as the empty string. */
  datatype Env = Env(remoteHost: bytes, remotePort: bytes, localHost: bytes, localPort: bytes, pluginOptions: bytes)

  /** The fields of `Options`. */
  datatype Config = Config(
    localAddr: bytes, localPort: nat, remoteAddr: bytes, remotePort: nat,
    hostname: bytes, mode: bytes, path: bytes, serverName: bytes, server: bool, nocomp: bool, insecure: bool,
    cert: bytes, key: bytes, mux: nat, logLevel: nat, vpn: bool, fastOpen: bool, ed: nat,
    serviceName: bytes, fingerprint: bytes)

  /** What ApplyOptions leaves behind: the fields, which an error may find half updated, and whether it succeeded. */
  datatype Outcome = Outcome(config: Config, ok: bool)

  const UINT16: nat := 0x1_0000
  const UINT32: nat := 0x1_0000_0000

  // ----- parseEnv -----

  function EnvArgs(env: Env): Args {
    map[REMOTE_ADDR := [env.remoteHost], REMOTE_PORT := [env.remotePort],
        LOCAL_ADDR := [env.localHost], LOCAL_PORT := [env.localPort]]
  }

  predicate Enabled(env: Env) {
    env.remoteHost != [] && env.remotePort != [] && env.localHost != []
  }

  function ResolveEnv(env: Env): Parsed<Args> {
    if !Enabled(env) then Good(map[])
    else match Parse(env.pluginOptions, SEMICOLON)
      case Bad(e) => Bad(e)
      case Good(other) => Good(EnvArgs(env) + other)
  }

  lemma EnvKeysDistinct()
    ensures REMOTE_ADDR != REMOTE_PORT && LOCAL_ADDR != LOCAL_PORT
    ensures |REMOTE_ADDR| == |REMOTE_PORT| == 10 && |LOCAL_ADDR| == |LOCAL_PORT| == 9
  {
    assert REMOTE_ADDR[6] != REMOTE_PORT[6];
    assert LOCAL_ADDR[5] != LOCAL_PORT[5];
  }

  /** Plugin options override the SS_* values, and of a repeated key the first value wins. */
  lemma EnvLookup(env: Env, key: bytes)
    requires Enabled(env) && ParsePairs(env.pluginOptions, SEMICOLON).Good?
    ensures ResolveEnv(env).Good?
    ensures var given := Select(ParsePairs(env.pluginOptions, SEMICOLON).value, key);
      Get(ResolveEnv(env).value, key) ==
        if given != [] then Some(given[0])
        else if key == REMOTE_ADDR then Some(env.remoteHost)
        else if key == REMOTE_PORT then Some(env.remotePort)
        else if key == LOCAL_ADDR then Some(env.localHost)
        else if key == LOCAL_PORT then Some(env.localPort)
        else None
  {
    EnvKeysDistinct();
    var ps := ParsePairs(env.pluginOptions, SEMICOLON).value;
    CollectMeaning(ps, key);
    var other := Collect(ps);
    assert ValuesOf(EnvArgs(env) + other, key) == if key in other then other[key] else ValuesOf(EnvArgs(env), key);
  }

  // ----- ApplyOptions -----

  function Str(args: Args, key: bytes, before: bytes): bytes
  {
    match Get(args, key) case None => before case Some(v) => v
  }

  function Flag(args: Args, key: bytes, before: bool): bool
  {
    before || Get(args, key).Some?
  }

  /** The new value of a numeric option, or None when its text is not a number in range. */
  function Number(args: Args, key: bytes, limit: nat, before: nat): Option<nat> {
    match Get(args, key) case None => Some(before) case Some(v) => ParseUint(v, limit)
  }

  function SetAddr(c: Config, local: bool, v: Option<bytes>): Config {
    if v.None? then c
    else if local != c.server then c.(localAddr := v.value) else c.(remoteAddr := v.value)
  }

  /** Sets the local or, in server mode, the opposite port. */
  function SetPort(c: Config, local: bool, v: Option<nat>): Config {
    if v.None? then c
    else if local != c.server then c.(localPort := v.value) else c.(remotePort := v.value)
  }

  function PortOf(c: Config, local: bool): nat {
    if local != c.server then c.localPort else c.remotePort
  }

  // The options in the order in which the source looks them up, a few at a time.

  function Switches(c: Config, args: Args): Config {
    c.(mode := Str(args, MODE, c.mode), nocomp := Flag(args, NOCOMP, c.nocomp), insecure := Flag(args, INSECURE, c.insecure))
  }

  function Web(c: Config, args: Args): Config {
    c.(hostname := Str(args, HOST, c.hostname), path := Str(args, PATH, c.path))
  }

  function Files(c: Config, args: Args): Config {
    c.(cert := Str(args, CERT, c.cert), key := Str(args, KEY, c.key))
  }

  function Role(c: Config, args: Args): Config {
    c.(server := Flag(args, SERVER, c.server), serverName := Str(args, SERVER_NAME, c.serverName))
  }

  function End(c: Config, local: bool, args: Args): Outcome {
    var c1 := SetAddr(c, local, Get(args, if local then LOCAL_ADDR else REMOTE_ADDR));
    var port := Number(args, if local then LOCAL_PORT else REMOTE_PORT, UINT32, PortOf(c1, local));
    if port.None? then Outcome(c1, false) else Outcome(SetPort(c1, local, port), true)
  }

  function Socket(c: Config, args: Args): Config {
    c.(fastOpen := Flag(args, FAST_OPEN, c.fastOpen), vpn := Flag(args, ANDROID_VPN, c.vpn))
  }

  function Tuning(c: Config, args: Args): Outcome {
    match Number(args, LOG_LEVEL, UINT32, c.logLevel)
    case None => Outcome(c, false)
    case Some(level) =>
      var c1 := Socket(c.(logLevel := level), args);
      match Number(args, ED, UINT32, c1.ed)
      case None => Outcome(c1, false)
      case Some(ed) => Outcome(c1.(ed := ed), true)
  }

  function Naming(c: Config, args: Args): Config {
    c.(serviceName := Str(args, SERVICE_NAME, c.serviceName), fingerprint := Str(args, FINGERPRINT, c.fingerprint))
  }

  function Ends(c: Config, args: Args): Outcome {
    var local := End(c, true, args);
    if !local.ok then local else End(local.config, false, args)
  }

  function Apply(c: Config, args: Args): Outcome {
    var c1 := Switches(c, args);
    match Number(args, MUX, UINT16, c1.mux)
    case None => Outcome(c1, false)
    case Some(mux) =>
      var ends := Ends(Role(Files(Web(c1.(mux := mux), args), args), args), args);
      if !ends.ok then ends else
      var tuned := Tuning(ends.config, args);
      if !tuned.ok then tuned else Outcome(Naming(tuned.config, args), true)
  }

  function Resolve(c: Config, env: Env): Outcome {
    match ResolveEnv(env) case Bad(_) => Outcome(c, false) case Good(args) => Apply(c, args)
  }

  // ----- What the fields end as, stated on the list of plugin options -----

  ghost predicate Spells(text: bytes, name: string) {
    |text| == |name| && forall i | 0 <= i < |name| :: text[i] as int == name[i] as int
  }

  ghost predicate NotGiven(ps: Pairs, name: string) {
    forall i | 0 <= i < |ps| :: !Spells(ps[i].0, name)
  }

  /** The first option of that name has the value v. */
  ghost predicate FirstValue(ps: Pairs, name: string, v: bytes) {
    exists i | 0 <= i < |ps| :: Spells(ps[i].0, name) && ps[i].1 == v && NotGiven(ps[..i], name)
  }

  ghost predicate TextField(ps: Pairs, name: string, before: bytes, after: bytes) {
    (NotGiven(ps, name) ==> after == before) && (!NotGiven(ps, name) ==> FirstValue(ps, name, after))
  }

  ghost predicate FlagField(ps: Pairs, name: string, before: bool, after: bool) {
    after <==> before || !NotGiven(ps, name)
  }

  ghost predicate NumberField(ps: Pairs, name: string, limit: nat, before: nat, after: nat) {
    && (NotGiven(ps, name) ==> after == before)
    && (!NotGiven(ps, name) ==> after < limit && exists v :: FirstValue(ps, name, v) && Denotes(v, after))
  }

  /** A port is a number given by the first such option, or else by the environment. */
  ghost predicate PortField(ps: Pairs, name: string, fallback: bytes, after: nat) {
    after < 0x1_0000_0000 && exists v :: TextField(ps, name, fallback, v) && Denotes(v, after)
  }

  ghost predicate EndFields(env: Env, ps: Pairs, localAddr: bytes, localPort: nat, remoteAddr: bytes, remotePort: nat) {
    && TextField(ps, "localAddr", env.localHost, localAddr) && PortField(ps, "localPort", env.localPort, localPort)
    && TextField(ps, "remoteAddr", env.remoteHost, remoteAddr) && PortField(ps, "remotePort", env.remotePort, remotePort)
  }

  ghost predicate Texts(ps: Pairs, b: Config, a: Config) {
    && TextField(ps, "mode", b.mode, a.mode) && TextField(ps, "host", b.hostname, a.hostname)
    && TextField(ps, "path", b.path, a.path) && TextField(ps, "cert", b.cert, a.cert)
    && TextField(ps, "key", b.key, a.key) && TextField(ps, "serverName", b.serverName, a.serverName)
    && TextField(ps, "serviceName", b.serviceName, a.serviceName)
    && TextField(ps, "fingerprint", b.fingerprint, a.fingerprint)
  }

  ghost predicate Flags(ps: Pairs, b: Config, a: Config) {
    && FlagField(ps, "nocomp", b.nocomp, a.nocomp) && FlagField(ps, "insecure", b.insecure, a.insecure)
    && FlagField(ps, "server", b.server, a.server) && FlagField(ps, "fastOpen", b.fastOpen, a.fastOpen)
    && FlagField(ps, "__android_vpn", b.vpn, a.vpn)
  }

  ghost predicate Counts(ps: Pairs, b: Config, a: Config) {
    && NumberField(ps, "mux", 0x1_0000, b.mux, a.mux) && NumberField(ps, "logLevel", 0x1_0000_0000, b.logLevel, a.logLevel)
    && NumberField(ps, "ed", 0x1_0000_0000, b.ed, a.ed)
  }

  /** All twenty fields after a successful resolution that found b. A server has local and remote exchanged. */
  ghost predicate Configured(env: Env, ps: Pairs, b: Config, a: Config) {
    && Texts(ps, b, a) && Flags(ps, b, a) && Counts(ps, b, a)
    && (!a.server ==> EndFields(env, ps, a.localAddr, a.localPort, a.remoteAddr, a.remotePort))
    && (a.server ==> EndFields(env, ps, a.remoteAddr, a.remotePort, a.localAddr, a.localPort))
  }

  lemma SpellsAscii(text: bytes, name: string)
    requires IsAscii(name)
    ensures Spells(text, name) <==> text == Ascii(name)
  {
    if Spells(text, name) {
      forall i | 0 <= i < |name|
        ensures text[i] == Ascii(name)[i]
      {
        assert text[i] as int == name[i] as int;
      }
    }
  }

  lemma FirstValueCons(ps: Pairs, name: string, v: bytes)
    requires ps != [] && !Spells(ps[0].0, name) && FirstValue(ps[1..], name, v)
    ensures FirstValue(ps, name, v)
  {
    hide Spells;
    var i :| 0 <= i < |ps[1..]| && Spells(ps[1..][i].0, name) && ps[1..][i].1 == v && NotGiven(ps[1..][..i], name);
    var front := ps[..i + 1];
    forall j | 0 <= j < |front|
      ensures !Spells(front[j].0, name)
    {
      assert j > 0 ==> ps[1..][..i][j - 1] == front[j];
    }
    assert ps[i + 1] == ps[1..][i];
  }

  /** What Select says of a key, in these terms. */
  lemma {:induction false} SelectFirst(ps: Pairs, name: string)
    requires IsAscii(name)
    ensures NotGiven(ps, name) <==> Select(ps, Ascii(name)) == []
    ensures Select(ps, Ascii(name)) != [] ==> FirstValue(ps, name, Select(ps, Ascii(name))[0])
  {
    if ps != [] {
      SpellsAscii(ps[0].0, name);
      SelectFirst(ps[1..], name);
      hide Spells, Ascii, IsAscii;
      if Spells(ps[0].0, name) {
        assert NotGiven(ps[..0], name);
      } else if Select(ps[1..], Ascii(name)) != [] {
        FirstValueCons(ps, name, Select(ps[1..], Ascii(name))[0]);
      } else {
        assert forall i | 0 < i < |ps| :: ps[i] == ps[1..][i - 1];
      }
    }
  }

  lemma NamesDiffer(name: string)
    requires IsAscii(name) && |name| != 9 && (|name| == 10 ==> name[0] == 's')
    ensures Ascii(name) != REMOTE_ADDR && Ascii(name) != REMOTE_PORT
    ensures Ascii(name) != LOCAL_ADDR && Ascii(name) != LOCAL_PORT
  {
    EnvKeysDistinct();
    if |name| == 10 {
      assert Ascii(name)[0] == 115 && REMOTE_ADDR[0] == 114 && REMOTE_PORT[0] == 114;
    }
  }

  /** What one lookup of an option other than the four addresses leads to. */
  lemma OtherField(env: Env, name: string, text: bytes, flag: bool, limit: nat, number: nat)
    requires Enabled(env) && ParsePairs(env.pluginOptions, SEMICOLON).Good? && ResolveEnv(env).Good?
    requires IsAscii(name) && |name| != 9 && (|name| == 10 ==> name[0] == 's')
    ensures var args, ps := ResolveEnv(env).value, ParsePairs(env.pluginOptions, SEMICOLON).value;
      && TextField(ps, name, text, Str(args, Ascii(name), text))
      && FlagField(ps, name, flag, Flag(args, Ascii(name), flag))
      && forall n: nat :: Number(args, Ascii(name), limit, number) == Some(n) ==>
        NumberField(ps, name, limit, number, n)
  {
    hide Ascii, IsAscii, ResolveEnv, ParsePairs, Select, Get, NotGiven, FirstValue, Denotes, Digits, Decimal;
    NamesDiffer(name);
    EnvLookup(env, Ascii(name));
    var ps := ParsePairs(env.pluginOptions, SEMICOLON).value;
    SelectFirst(ps, name);
    if Select(ps, Ascii(name)) != [] {
      forall n: nat
        ensures ParseUint(Select(ps, Ascii(name))[0], limit) == Some(n) <==>
          Denotes(Select(ps, Ascii(name))[0], n) && n < limit
      {
        NumberMeaning(Select(ps, Ascii(name))[0], limit, n);
      }
    }
    hide ParseUint;
  }

  /** The four addresses and ports: the first plugin option, or else the environment's value. */
  lemma EndTexts(env: Env)
    requires Enabled(env) && ParsePairs(env.pluginOptions, SEMICOLON).Good? && ResolveEnv(env).Good?
    ensures var args, ps := ResolveEnv(env).value, ParsePairs(env.pluginOptions, SEMICOLON).value;
      && Get(args, LOCAL_ADDR).Some? && TextField(ps, "localAddr", env.localHost, Get(args, LOCAL_ADDR).value)
      && Get(args, REMOTE_ADDR).Some? && TextField(ps, "remoteAddr", env.remoteHost, Get(args, REMOTE_ADDR).value)
      && Get(args, LOCAL_PORT).Some? && TextField(ps, "localPort", env.localPort, Get(args, LOCAL_PORT).value)
      && Get(args, REMOTE_PORT).Some? && TextField(ps, "remotePort", env.remotePort, Get(args, REMOTE_PORT).value)
  {
    EnvKeysDistinct();
    hide Ascii, ResolveEnv, ParsePairs, Select, Get, NotGiven, FirstValue;
    EnvLookup(env, LOCAL_ADDR);
    EnvLookup(env, REMOTE_ADDR);
    EnvLookup(env, LOCAL_PORT);
    EnvLookup(env, REMOTE_PORT);
    var ps := ParsePairs(env.pluginOptions, SEMICOLON).value;
    SelectFirst(ps, "localAddr");
    SelectFirst(ps, "remoteAddr");
    SelectFirst(ps, "localPort");
    SelectFirst(ps, "remotePort");
  }

  // What Apply makes of the fields, one group after the other; each leaves the rest alone.

  /** All four addresses and ports are given, so nothing the options held before survives. */
  ghost predicate Complete(args: Args) {
    && Get(args, LOCAL_ADDR).Some? && Get(args, REMOTE_ADDR).Some?
    && Get(args, LOCAL_PORT).Some? && Get(args, REMOTE_PORT).Some?
  }

  predicate AppliedEnds(a: Config, args: Args)
    requires Complete(args)
  {
    && ParseUint(Get(args, LOCAL_PORT).value, UINT32) == Some(if a.server then a.remotePort else a.localPort)
    && ParseUint(Get(args, REMOTE_PORT).value, UINT32) == Some(if a.server then a.localPort else a.remotePort)
    && Get(args, LOCAL_ADDR).value == (if a.server then a.remoteAddr else a.localAddr)
    && Get(args, REMOTE_ADDR).value == (if a.server then a.localAddr else a.remoteAddr)
  }

  lemma EndsFields(c: Config, args: Args)
    requires Ends(c, args).ok && Complete(args)
    ensures var a := Ends(c, args).config;
      && a == c.(localAddr := a.localAddr, localPort := a.localPort, remoteAddr := a.remoteAddr, remotePort := a.remotePort)
      && AppliedEnds(a, args)
  {
    hide Ascii, Get, ParseUint;
  }

  lemma TuningFields(c: Config, args: Args)
    requires Tuning(c, args).ok
    ensures var a := Tuning(c, args).config;
      && a == c.(logLevel := a.logLevel, fastOpen := Flag(args, FAST_OPEN, c.fastOpen),
                 vpn := Flag(args, ANDROID_VPN, c.vpn), ed := a.ed)
      && Number(args, LOG_LEVEL, UINT32, c.logLevel) == Some(a.logLevel) && Number(args, ED, UINT32, c.ed) == Some(a.ed)
  {
    hide Ascii, Get, ParseUint, Flag, Number;
  }

  lemma HeadFields(c: Config, mux: nat, args: Args)
    ensures Role(Files(Web(Switches(c, args).(mux := mux), args), args), args) ==
      c.(mode := Str(args, MODE, c.mode), nocomp := Flag(args, NOCOMP, c.nocomp),
         insecure := Flag(args, INSECURE, c.insecure), mux := mux,
         hostname := Str(args, HOST, c.hostname), path := Str(args, PATH, c.path),
         cert := Str(args, CERT, c.cert), key := Str(args, KEY, c.key),
         server := Flag(args, SERVER, c.server), serverName := Str(args, SERVER_NAME, c.serverName))
  {
    hide Ascii, Str, Flag;
  }

  predicate AppliedTexts(c: Config, a: Config, args: Args) {
    && a.mode == Str(args, MODE, c.mode) && a.hostname == Str(args, HOST, c.hostname) && a.path == Str(args, PATH, c.path)
    && a.cert == Str(args, CERT, c.cert) && a.key == Str(args, KEY, c.key)
    && a.serverName == Str(args, SERVER_NAME, c.serverName) && a.serviceName == Str(args, SERVICE_NAME, c.serviceName)
    && a.fingerprint == Str(args, FINGERPRINT, c.fingerprint)
  }

  predicate AppliedFlags(c: Config, a: Config, args: Args) {
    && a.nocomp == Flag(args, NOCOMP, c.nocomp) && a.insecure == Flag(args, INSECURE, c.insecure)
    && a.server == Flag(args, SERVER, c.server) && a.fastOpen == Flag(args, FAST_OPEN, c.fastOpen)
    && a.vpn == Flag(args, ANDROID_VPN, c.vpn)
  }

  predicate AppliedCounts(c: Config, a: Config, args: Args) {
    && Number(args, MUX, UINT16, c.mux) == Some(a.mux) && Number(args, LOG_LEVEL, UINT32, c.logLevel) == Some(a.logLevel)
    && Number(args, ED, UINT32, c.ed) == Some(a.ed)
  }

  lemma InTurn(c: Config, args: Args) returns (head: Config, ends: Config)
    requires Apply(c, args).ok
    ensures Number(args, MUX, UINT16, c.mux) == Some(head.mux)
    ensures head == Role(Files(Web(Switches(c, args).(mux := head.mux), args), args), args)
    ensures Ends(head, args) == Outcome(ends, true) && Tuning(ends, args).ok
    ensures Apply(c, args).config == Naming(Tuning(ends, args).config, args)
  {
    hide Ascii, Get, ParseUint, Str, Flag, Number, Ends, Tuning, Naming;
    assert Switches(c, args).mux == c.mux;
    var mux := Number(args, MUX, UINT16, c.mux).value;
    head := Role(Files(Web(Switches(c, args).(mux := mux), args), args), args);
    assert head.mux == mux;
    hide Switches, Web, Files, Role;
    ends := Ends(head, args).config;
  }

  lemma SameEnds(a: Config, b: Config, args: Args)
    requires Complete(args) && AppliedEnds(a, args) && a.server == b.server
    requires a.localAddr == b.localAddr && a.localPort == b.localPort
    requires a.remoteAddr == b.remoteAddr && a.remotePort == b.remotePort
    ensures AppliedEnds(b, args)
  {
  }

  /** The fields before the addresses are looked up, and after everything but the last two. */
  lemma Stages(c: Config, args: Args) returns (head: Config, tuned: Config)
    requires Apply(c, args).ok && Complete(args)
    ensures Number(args, MUX, UINT16, c.mux) == Some(head.mux)
    ensures head == c.(mode := Str(args, MODE, c.mode), nocomp := Flag(args, NOCOMP, c.nocomp),
                       insecure := Flag(args, INSECURE, c.insecure), mux := head.mux,
                       hostname := Str(args, HOST, c.hostname), path := Str(args, PATH, c.path),
                       cert := Str(args, CERT, c.cert), key := Str(args, KEY, c.key),
                       server := Flag(args, SERVER, c.server), serverName := Str(args, SERVER_NAME, c.serverName))
    ensures AppliedEnds(tuned, args)
    ensures tuned == head.(localAddr := tuned.localAddr, localPort := tuned.localPort, remoteAddr := tuned.remoteAddr,
                           remotePort := tuned.remotePort, logLevel := tuned.logLevel, ed := tuned.ed,
                           fastOpen := Flag(args, FAST_OPEN, c.fastOpen), vpn := Flag(args, ANDROID_VPN, c.vpn))
    ensures Number(args, LOG_LEVEL, UINT32, c.logLevel) == Some(tuned.logLevel)
    ensures Number(args, ED, UINT32, c.ed) == Some(tuned.ed)
    ensures Apply(c, args).config == Naming(tuned, args)
  {
    hide Ascii, Get, ParseUint, Str, Flag, Number, Switches, Web, Files, Role, Ends, Tuning, Naming, Complete, Apply,
         AppliedEnds;
    var ends;
    head, ends := InTurn(c, args);
    HeadFields(c, head.mux, args);
    tuned := Tuning(ends, args).config;
    EndsFields(head, args);
    TuningFields(ends, args);
    SameEnds(ends, tuned, args);
  }

  lemma ApplyFields(c: Config, args: Args)
    requires Apply(c, args).ok && Complete(args)
    ensures var a := Apply(c, args).config;
      AppliedTexts(c, a, args) && AppliedFlags(c, a, args) && AppliedCounts(c, a, args) && AppliedEnds(a, args)
  {
    hide Ascii, Get, ParseUint, Str, Flag, Number, Apply, Complete;
    var head, tuned := Stages(c, args);
  }

  lemma PortMeans(ps: Pairs, name: string, fallback: bytes, text: bytes, port: nat)
    requires TextField(ps, name, fallback, text) && ParseUint(text, UINT32) == Some(port)
    ensures PortField(ps, name, fallback, port)
  {
    hide Denotes, TextField, ParseUint;
    NumberMeaning(text, UINT32, port);
  }

  lemma EndFieldsHold(env: Env, a: Config)
    requires Enabled(env) && ParsePairs(env.pluginOptions, SEMICOLON).Good? && ResolveEnv(env).Good?
    requires Complete(ResolveEnv(env).value) && AppliedEnds(a, ResolveEnv(env).value)
    ensures var ps := ParsePairs(env.pluginOptions, SEMICOLON).value;
      && (!a.server ==> EndFields(env, ps, a.localAddr, a.localPort, a.remoteAddr, a.remotePort))
      && (a.server ==> EndFields(env, ps, a.remoteAddr, a.remotePort, a.localAddr, a.localPort))
  {
    EndTexts(env);
    hide Ascii, Get, ParsePairs, ParseUint, TextField, PortField, Denotes, ResolveEnv, Enabled;
    var ps, args := ParsePairs(env.pluginOptions, SEMICOLON).value, ResolveEnv(env).value;
    PortMeans(ps, "localPort", env.localPort, Get(args, LOCAL_PORT).value, if a.server then a.remotePort else a.localPort);
    PortMeans(ps, "remotePort", env.remotePort, Get(args, REMOTE_PORT).value, if a.server then a.localPort else a.remotePort);
  }

  lemma AllGiven(env: Env)
    requires Enabled(env) && ParsePairs(env.pluginOptions, SEMICOLON).Good?
    ensures ResolveEnv(env).Good? && Complete(ResolveEnv(env).value)
    ensures Get(ResolveEnv(env).value, SERVER).None? <==> Select(ParsePairs(env.pluginOptions, SEMICOLON).value, SERVER) == []
  {
    EnvKeysDistinct();
    assert |SERVER| == 6;
    hide Ascii, ResolveEnv, ParsePairs, Select, Get, Enabled;
    EnvLookup(env, SERVER);
    EnvLookup(env, LOCAL_ADDR);
    EnvLookup(env, LOCAL_PORT);
    EnvLookup(env, REMOTE_ADDR);
    EnvLookup(env, REMOTE_PORT);
  }

  lemma TextsHold(env: Env, c: Config, a: Config)
    requires Enabled(env) && ParsePairs(env.pluginOptions, SEMICOLON).Good? && ResolveEnv(env).Good?
    requires AppliedTexts(c, a, ResolveEnv(env).value)
    ensures Texts(ParsePairs(env.pluginOptions, SEMICOLON).value, c, a)
  {
    hide Ascii, ParsePairs, Str, Flag, Number, TextField, FlagField, NumberField, ResolveEnv, Enabled;
    OtherField(env, "mode", c.mode, false, 0, 0);
    OtherField(env, "host", c.hostname, false, 0, 0);
    OtherField(env, "path", c.path, false, 0, 0);
    OtherField(env, "cert", c.cert, false, 0, 0);
    OtherField(env, "key", c.key, false, 0, 0);
    OtherField(env, "serverName", c.serverName, false, 0, 0);
    OtherField(env, "serviceName", c.serviceName, false, 0, 0);
    OtherField(env, "fingerprint", c.fingerprint, false, 0, 0);
  }

  lemma FlagsHold(env: Env, c: Config, a: Config)
    requires Enabled(env) && ParsePairs(env.pluginOptions, SEMICOLON).Good? && ResolveEnv(env).Good?
    requires AppliedFlags(c, a, ResolveEnv(env).value)
    ensures Flags(ParsePairs(env.pluginOptions, SEMICOLON).value, c, a)
  {
    hide Ascii, ParsePairs, Str, Flag, Number, TextField, FlagField, NumberField, ResolveEnv, Enabled;
    OtherField(env, "nocomp", [], c.nocomp, 0, 0);
    OtherField(env, "insecure", [], c.insecure, 0, 0);
    OtherField(env, "server", [], c.server, 0, 0);
    OtherField(env, "fastOpen", [], c.fastOpen, 0, 0);
    OtherField(env, "__android_vpn", [], c.vpn, 0, 0);
  }

  lemma CountsHold(env: Env, c: Config, a: Config)
    requires Enabled(env) && ParsePairs(env.pluginOptions, SEMICOLON).Good? && ResolveEnv(env).Good?
    requires AppliedCounts(c, a, ResolveEnv(env).value)
    ensures Counts(ParsePairs(env.pluginOptions, SEMICOLON).value, c, a)
  {
    hide Ascii, ParsePairs, Str, Flag, Number, TextField, FlagField, NumberField, ResolveEnv, Enabled;
    OtherField(env, "mux", [], false, UINT16, c.mux);
    OtherField(env, "logLevel", [], false, UINT32, c.logLevel);
    OtherField(env, "ed", [], false, UINT32, c.ed);
  }

  /** After a successful resolution of an environment that is not ignored the fields are what it says. */
  lemma ResolveConfigures(c: Config, env: Env)
    ensures Enabled(env) && Resolve(c, env).ok ==>
      && ParsePairs(env.pluginOptions, SEMICOLON).Good?
      && Configured(env, ParsePairs(env.pluginOptions, SEMICOLON).value, c, Resolve(c, env).config)
  {
    hide Ascii, ParsePairs, Apply, Texts, Flags, Counts, EndFields, Complete, Enabled, Collect, EnvArgs,
         AppliedTexts, AppliedFlags, AppliedCounts, AppliedEnds;
    if Enabled(env) && Resolve(c, env).ok {
      var args, a := ResolveEnv(env).value, Resolve(c, env).config;
      assert ParsePairs(env.pluginOptions, SEMICOLON).Good?;
      hide ResolveEnv;
      AllGiven(env);
      ApplyFields(c, args);
      TextsHold(env, c, a);
      FlagsHold(env, c, a);
      CountsHold(env, c, a);
      EndFieldsHold(env, a);
    }
  }

  lemma NotTheFirst(ps: Pairs, name: string, i: nat, j: nat)
    requires i < j <= |ps| && Spells(ps[i].0, name)
    ensures !NotGiven(ps[..j], name)
  {
    assert ps[..j][i] == ps[i];
  }

  lemma FirstUnique(ps: Pairs, name: string, v: bytes)
    requires IsAscii(name) && FirstValue(ps, name, v)
    ensures Select(ps, Ascii(name)) != [] && Select(ps, Ascii(name))[0] == v
  {
    SelectFirst(ps, name);
    hide Select, Spells;
    var i :| 0 <= i < |ps| && Spells(ps[i].0, name) && ps[i].1 == v && NotGiven(ps[..i], name);
    var w := Select(ps, Ascii(name))[0];
    var j :| 0 <= j < |ps| && Spells(ps[j].0, name) && ps[j].1 == w && NotGiven(ps[..j], name);
    if i < j {
      NotTheFirst(ps, name, i, j);
    } else if j < i {
      NotTheFirst(ps, name, j, i);
    }
  }

  predicate IsNumber(s: bytes, limit: nat) {
    Digits(s) && Decimal(s) < limit
  }

  /** The port the options give, or else the environment's, is a number in range. */
  predicate Port(ps: Pairs, key: bytes, fallback: bytes) {
    IsNumber(if Select(ps, key) != [] then Select(ps, key)[0] else fallback, UINT32)
  }

  lemma PortOk(ps: Pairs, name: string, fallback: bytes, port: nat)
    requires IsAscii(name) && PortField(ps, name, fallback, port)
    ensures Port(ps, Ascii(name), fallback)
  {
    var v :| TextField(ps, name, fallback, v) && Denotes(v, port);
    NumberMeaning(v, UINT32, port);
    hide Ascii, IsAscii, Select, FirstValue, NotGiven, Denotes, Digits, Decimal;
    SelectFirst(ps, name);
    if !NotGiven(ps, name) {
      FirstUnique(ps, name, v);
    }
  }

  /** No value given, or the first one is a number in range. */
  predicate Optional(ps: Pairs, key: bytes, limit: nat) {
    Select(ps, key) == [] || IsNumber(Select(ps, key)[0], limit)
  }

  lemma OptionalOk(ps: Pairs, name: string, limit: nat, before: nat, after: nat)
    requires IsAscii(name) && NumberField(ps, name, limit, before, after)
    ensures Optional(ps, Ascii(name), limit)
  {
    hide Ascii, IsAscii, Select, FirstValue, NotGiven, Denotes, Digits, Decimal;
    SelectFirst(ps, name);
    if !NotGiven(ps, name) {
      var v :| FirstValue(ps, name, v) && Denotes(v, after);
      NumberMeaning(v, limit, after);
      FirstUnique(ps, name, v);
    }
  }

  /** Both ports, where the options override the environment, and each numeric option given are numbers in range. */
  predicate NumbersFit(env: Env, ps: Pairs) {
    && Port(ps, LOCAL_PORT, env.localPort) && Port(ps, REMOTE_PORT, env.remotePort)
    && Optional(ps, MUX, UINT16) && Optional(ps, LOG_LEVEL, UINT32) && Optional(ps, ED, UINT32)
  }

  /** A numeric option is absent or a number in range. */
  predicate Acceptable(args: Args, key: bytes, limit: nat) {
    Get(args, key).None? || IsNumber(Get(args, key).value, limit)
  }

  lemma ApplyOk(c: Config, args: Args)
    ensures Apply(c, args).ok <==>
      && Acceptable(args, MUX, UINT16) && Acceptable(args, LOCAL_PORT, UINT32) && Acceptable(args, REMOTE_PORT, UINT32)
      && Acceptable(args, LOG_LEVEL, UINT32) && Acceptable(args, ED, UINT32)
  {
    hide Ascii, Get, Decimal, Digits, Switches, Web, Files, Role, Socket, Naming;
  }

  lemma NothingGiven(key: bytes, limit: nat)
    ensures Acceptable(map[], key, limit)
  {
  }

  lemma IgnoredOk(c: Config)
    ensures Apply(c, map[]).ok
  {
    hide *;
    ApplyOk(c, map[]);
    NothingGiven(MUX, UINT16);
    NothingGiven(LOCAL_PORT, UINT32);
    NothingGiven(REMOTE_PORT, UINT32);
    NothingGiven(LOG_LEVEL, UINT32);
    NothingGiven(ED, UINT32);
  }

  lemma OptionalKey(env: Env, key: bytes, limit: nat)
    requires Enabled(env) && ParsePairs(env.pluginOptions, SEMICOLON).Good?
    requires key != REMOTE_ADDR && key != REMOTE_PORT && key != LOCAL_ADDR && key != LOCAL_PORT
    ensures ResolveEnv(env).Good?
    ensures Acceptable(ResolveEnv(env).value, key, limit) <==>
      Optional(ParsePairs(env.pluginOptions, SEMICOLON).value, key, limit)
  {
    hide Ascii, Get, ResolveEnv, ParsePairs, IsNumber, Select;
    EnvLookup(env, key);
  }

  lemma PortKeys(env: Env)
    requires Enabled(env) && ParsePairs(env.pluginOptions, SEMICOLON).Good?
    ensures ResolveEnv(env).Good?
    ensures var args, ps := ResolveEnv(env).value, ParsePairs(env.pluginOptions, SEMICOLON).value;
      && (Acceptable(args, LOCAL_PORT, UINT32) <==> Port(ps, LOCAL_PORT, env.localPort))
      && (Acceptable(args, REMOTE_PORT, UINT32) <==> Port(ps, REMOTE_PORT, env.remotePort))
  {
    EnvKeysDistinct();
    hide Ascii, Get, ResolveEnv, ParsePairs, IsNumber, Select;
    EnvLookup(env, LOCAL_PORT);
    EnvLookup(env, REMOTE_PORT);
  }

  lemma GivenOk(c: Config, env: Env)
    requires Enabled(env) && ParsePairs(env.pluginOptions, SEMICOLON).Good?
    ensures ResolveEnv(env).Good?
    ensures Apply(c, ResolveEnv(env).value).ok <==> NumbersFit(env, ParsePairs(env.pluginOptions, SEMICOLON).value)
  {
    EnvKeysDistinct();
    assert |MUX| == 3 && |ED| == 2 && |LOG_LEVEL| == 8;
    hide Ascii, Get, ResolveEnv, ParsePairs, Optional, Port, Apply, Acceptable, Enabled;
    OptionalKey(env, MUX, UINT16);
    OptionalKey(env, LOG_LEVEL, UINT32);
    OptionalKey(env, ED, UINT32);
    PortKeys(env);
    ApplyOk(c, ResolveEnv(env).value);
  }

  /** Resolution succeeds exactly when the environment is ignored, or the plugin options are accepted and all numbers
      in them and in the environment are in range. */
  lemma ResolveOk(c: Config, env: Env)
    ensures Resolve(c, env).ok <==> (!Enabled(env) ||
      (ParsePairs(env.pluginOptions, SEMICOLON).Good? && NumbersFit(env, ParsePairs(env.pluginOptions, SEMICOLON).value)))
  {
    IgnoredOk(c);
    hide Ascii, Get, ParsePairs, NumbersFit, Apply, Enabled;
    if Enabled(env) && ParsePairs(env.pluginOptions, SEMICOLON).Good? {
      GivenOk(c, env);
    }
  }

  /** If there is any way the fields could end, resolution succeeds. */
  lemma ConfiguredOk(c: Config, env: Env, a: Config)
    requires Enabled(env) && ParsePairs(env.pluginOptions, SEMICOLON).Good?
    ensures Configured(env, ParsePairs(env.pluginOptions, SEMICOLON).value, c, a) ==> Resolve(c, env).ok
  {
    hide Ascii, ParsePairs, Texts, Flags, NumberField, TextField, PortField, Resolve, Port, Optional, Enabled;
    var ps := ParsePairs(env.pluginOptions, SEMICOLON).value;
    if Configured(env, ps, c, a) {
      PortOk(ps, "localPort", env.localPort, if a.server then a.remotePort else a.localPort);
      PortOk(ps, "remotePort", env.remotePort, if a.server then a.localPort else a.remotePort);
      OptionalOk(ps, "mux", UINT16, c.mux, a.mux);
      OptionalOk(ps, "logLevel", UINT32, c.logLevel, a.logLevel);
      OptionalOk(ps, "ed", UINT32, c.ed, a.ed);
      ResolveOk(c, env);
    }
  }

  lemma NothingChanges(c: Config)
    ensures Apply(c, map[]) == Outcome(c, true)
  {
  }

  /** Resolution without reference to how it is computed: an ignored environment changes nothing; otherwise it succeeds
      exactly when the options are accepted and the fields can end as they should, and then they do. */
  lemma ResolveMeans(c: Config, env: Env)
    ensures env.remoteHost == [] || env.remotePort == [] || env.localHost == [] ==> Resolve(c, env) == Outcome(c, true)
    ensures env.remoteHost != [] && env.remotePort != [] && env.localHost != [] ==>
      var parsed := ParsePairs(env.pluginOptions, SEMICOLON);
      && (Resolve(c, env).ok <==> parsed.Good? && exists a :: Configured(env, parsed.value, c, a))
      && (Resolve(c, env).ok ==> Configured(env, parsed.value, c, Resolve(c, env).config))
  {
    NothingChanges(c);
    assert !Enabled(env) <==> env.remoteHost == [] || env.remotePort == [] || env.localHost == [];
    assert !Enabled(env) ==> ResolveEnv(env) == Good(map[]) && Resolve(c, env) == Apply(c, map[]);
    hide Ascii, ParsePairs, Configured, Resolve, Enabled, Apply;
    var parsed := ParsePairs(env.pluginOptions, SEMICOLON);
    if Enabled(env) {
      if Resolve(c, env).ok {
        ResolveConfigures(c, env);
      } else if parsed.Good? {
        forall a | Configured(env, parsed.value, c, a)
          ensures false
        {
          ConfiguredOk(c, env, a);
        }
      }
    }
  }
}
