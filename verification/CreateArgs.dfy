/**
 From create options to the `msb` command line, and back.

 Decode is the grammar this model assumes `msb` to parse by: a flag takes the
 next token, which must not itself look like a flag; `--` ends the flags; pairs
 split at their first separator. It is an inverse written from the grammar, and
 knows nothing of how the arguments were put together.
 */
module CreateArgs {
  import opened Wrappers
  import opened Text
  import opened Identifiers
  import opened SshScript

  datatype VolumeMount = VolumeMount(name: string, mount: string)
  datatype PortMapping = PortMapping(host: int, guest: int)
  datatype Secret = Secret(key: string, value: string, host: string)

  datatype CreateOpts = CreateOpts(
    name: string, image: string, snapshot: string, cpus: int, memoryMiB: int,
    volume: Option<VolumeMount>, env: map<string, string>, ports: seq<PortMapping>,
    secrets: seq<Secret>, sshKeys: seq<string>)

  const SCRIPT_NAME := "install-ssh-keys"

  // ---- what the adapter emits ----

  function HeadArgs(o: CreateOpts): seq<string> {
    if o.snapshot != "" then ["run", "-d", "--snapshot", o.snapshot, "-n", o.name] else ["create", "-n", o.name]
  }

  /** A count that is left out when zero. */
  function CountArgs(flag: string, n: int): seq<string> {
    if n > 0 then [flag, Itoa(n)] else []
  }

  function SizeArgs(o: CreateOpts): seq<string> {
    CountArgs("-c", o.cpus) + CountArgs("-m", o.memoryMiB)
  }

  function VolumeArgs(v: Option<VolumeMount>): seq<string> {
    if v.Some? then ["-v", v.value.name + ":" + v.value.mount] else []
  }

  function EnvArgs(ks: seq<string>, env: map<string, string>): seq<string>
    requires forall k | k in ks :: k in env
  {
    if ks == [] then [] else EnvArgs(ks[..|ks| - 1], env) + ["-e", EnvArg(ks[|ks| - 1], env[ks[|ks| - 1]])]
  }

  function EnvArg(k: string, value: string): string {
    k + "=" + value
  }

  function PortArgs(ps: seq<PortMapping>): seq<string> {
    if ps == [] then []
    else PortArgs(ps[..|ps| - 1]) + ["-p", PortArg(ps[|ps| - 1])]
  }

  function PortArg(p: PortMapping): string {
    Itoa(p.host) + ":" + Itoa(p.guest)
  }

  function SecretArg(s: Secret): string {
    s.key + "=" + s.value + "@" + s.host
  }

  function SecretArgs(ss: seq<Secret>): seq<string> {
    if ss == [] then [] else SecretArgs(ss[..|ss| - 1]) + ["--secret", SecretArg(ss[|ss| - 1])]
  }

  function KeyArgs(keys: seq<string>): seq<string> {
    if keys == [] then [] else ["--script-raw", SCRIPT_NAME + "=" + Script(keys)]
  }

  function ImageArgs(o: CreateOpts): seq<string> {
    if o.snapshot == "" then ["--", o.image] else []
  }

  ghost function ListArgs(o: CreateOpts): seq<string> {
    EnvArgs(InOrder(o.env.Keys), o.env) + PortArgs(o.ports) + SecretArgs(o.secrets)
  }

  ghost function Args(o: CreateOpts): seq<string> {
    HeadArgs(o) + SizeArgs(o) + VolumeArgs(o.volume) + ListArgs(o) + KeyArgs(o.sshKeys) + ImageArgs(o)
  }

  method BuildCreateArgs(o: CreateOpts) returns (args: seq<string>)
    ensures args == Args(o)
  {
    args := HeadArgs(o) + SizeArgs(o) + VolumeArgs(o.volume);
    var envs := BuildEnvArgs(o.env);
    var ports := BuildPortArgs(o.ports);
    var secrets := BuildSecretArgs(o.secrets);
    args := args + (envs + ports + secrets) + KeyArgs(o.sshKeys) + ImageArgs(o);
  }

  method BuildEnvArgs(env: map<string, string>) returns (args: seq<string>)
    ensures args == EnvArgs(InOrder(env.Keys), env)
  {
    args := [];
    var ks := SortedKeys(env);
    for i := 0 to |ks|
      invariant args == EnvArgs(ks[..i], env)
    {
      EnvArgsUpTo(ks, i, env);
      args := args + ["-e", ks[i] + "=" + env[ks[i]]];
    }
    assert ks[..|ks|] == ks;
  }

  lemma EnvArgsUpTo(ks: seq<string>, i: nat, env: map<string, string>)
    requires i < |ks| && forall k | k in ks :: k in env
    ensures EnvArgs(ks[..i + 1], env) == EnvArgs(ks[..i], env) + ["-e", EnvArg(ks[i], env[ks[i]])]
  {
    assert ks[..i + 1][..i] == ks[..i];
  }

  method BuildPortArgs(ports: seq<PortMapping>) returns (args: seq<string>)
    ensures args == PortArgs(ports)
  {
    args := [];
    for i := 0 to |ports|
      invariant args == PortArgs(ports[..i])
    {
      assert ports[..i + 1][..i] == ports[..i];
      args := args + ["-p", Itoa(ports[i].host) + ":" + Itoa(ports[i].guest)];
    }
    assert ports[..|ports|] == ports;
  }

  method BuildSecretArgs(secrets: seq<Secret>) returns (args: seq<string>)
    ensures args == SecretArgs(secrets)
  {
    args := [];
    for i := 0 to |secrets|
      invariant args == SecretArgs(secrets[..i])
    {
      assert secrets[..i + 1][..i] == secrets[..i];
      args := args + ["--secret", SecretArg(secrets[i])];
    }
    assert secrets[..|secrets|] == secrets;
  }

  // ---- what msb reads ----

  /** Where `msb` splits VALUE@HOST is not known; the decoder takes either end. */
  datatype AtSplit = First | Last

  function Number(s: string): Option<int> {
    if s != "" && AllDigits(s) then Some(Value(s)) else None
  }

  function DecodePort(s: string): Option<PortMapping> {
    match SplitFirst(s, ':')
    case None => None
    case Some((h, g)) =>
      if Number(h).Some? && Number(g).Some? then Some(PortMapping(Number(h).value, Number(g).value)) else None
  }

  function DecodeSecret(s: string, at: AtSplit): Option<Secret> {
    match SplitFirst(s, '=')
    case None => None
    case Some((key, rest)) =>
      match (if at.First? then SplitFirst(rest, '@') else SplitLast(rest, '@'))
      case None => None
      case Some((value, host)) => Some(Secret(key, value, host))
  }

  function DecodeScript(s: string): Option<seq<string>> {
    match SplitFirst(s, '=')
    case None => None
    case Some((name, script)) => if name == "install-ssh-keys" then AuthorizedKeys(script) else None
  }

  datatype Flag = NameFlag | CpuFlag | MemoryFlag | VolumeFlag | EnvFlag | PortFlag | SecretFlag | ScriptFlag | SnapshotFlag

  function FlagOf(token: string): Option<Flag> {
    if token == "-n" then Some(NameFlag)
    else if token == "-c" then Some(CpuFlag)
    else if token == "-m" then Some(MemoryFlag)
    else if token == "-v" then Some(VolumeFlag)
    else if token == "-e" then Some(EnvFlag)
    else if token == "-p" then Some(PortFlag)
    else if token == "--secret" then Some(SecretFlag)
    else if token == "--script-raw" then Some(ScriptFlag)
    else if token == "--snapshot" then Some(SnapshotFlag)
    else None
  }

  /** A number of CPUs or MiB: zero is not one. */
  function Count(s: string): Option<int> {
    if Number(s).Some? && Number(s).value > 0 then Number(s) else None
  }

  /**
   One flag and its value, folded into the options read so far. Only ports and
   secrets can be given more than once, and variables under different names.
   */
  function Absorb(flag: Flag, v: string, at: AtSplit, o: CreateOpts): Option<CreateOpts> {
    match flag
    case NameFlag => if o.name == "" then Some(o.(name := v)) else None
    case SnapshotFlag => if o.snapshot == "" then Some(o.(snapshot := v)) else None
    case CpuFlag => if o.cpus == 0 && Count(v).Some? then Some(o.(cpus := Count(v).value)) else None
    case MemoryFlag => if o.memoryMiB == 0 && Count(v).Some? then Some(o.(memoryMiB := Count(v).value)) else None
    case VolumeFlag =>
      (match SplitFirst(v, ':')
       case None => None
       case Some((name, mount)) => if o.volume == None then Some(o.(volume := Some(VolumeMount(name, mount)))) else None)
    case EnvFlag =>
      (match SplitFirst(v, '=')
       case None => None
       case Some((k, value)) => if k !in o.env then Some(o.(env := o.env[k := value])) else None)
    case PortFlag => if DecodePort(v).Some? then Some(o.(ports := o.ports + [DecodePort(v).value])) else None
    case SecretFlag =>
      if DecodeSecret(v, at).Some? then Some(o.(secrets := o.secrets + [DecodeSecret(v, at).value])) else None
    case ScriptFlag =>
      if o.sshKeys == [] && DecodeScript(v).Some? then Some(o.(sshKeys := DecodeScript(v).value)) else None
  }

  /** The tokens after the subcommand; `run` has no positional, `create` takes its image after `--`. */
  function DecodeRest(run: bool, at: AtSplit, ts: seq<string>, o: CreateOpts): Option<CreateOpts>
    decreases |ts|
  {
    if ts == [] then (if run then Some(o) else None)
    else if ts[0] == "--" then
      (if !run && |ts| == 2 then Some(o.(image := ts[1])) else None)
    else if ts[0] == "-d" then
      (if run then DecodeRest(run, at, ts[1..], o) else None)
    else if |ts| == 1 || FlagShaped(ts[1]) || FlagOf(ts[0]) == None then None
    else
      match Absorb(FlagOf(ts[0]).value, ts[1], at, o)
      case None => None
      case Some(o') => DecodeRest(run, at, ts[2..], o')
  }

  const NOTHING := CreateOpts("", "", "", 0, 0, None, map[], [], [], [])

  /** Only `create`, and `run` told to detach, leave a sandbox behind them. */
  function Decode(args: seq<string>, at: AtSplit): Option<CreateOpts> {
    if args == [] then None
    else if args[0] == "create" then DecodeRest(false, at, args[1..], NOTHING)
    else if args[0] == "run" && "-d" in args[1..] then DecodeRest(true, at, args[1..], NOTHING)
    else None
  }

  // ---- reading back what was emitted ----

  lemma FlagsAreKnown()
    ensures FlagOf("-n") == Some(NameFlag) && FlagOf("-c") == Some(CpuFlag) && FlagOf("-m") == Some(MemoryFlag)
    ensures FlagOf("-v") == Some(VolumeFlag) && FlagOf("-e") == Some(EnvFlag) && FlagOf("-p") == Some(PortFlag)
    ensures FlagOf("--secret") == Some(SecretFlag) && FlagOf("--script-raw") == Some(ScriptFlag)
    ensures FlagOf("--snapshot") == Some(SnapshotFlag)
    ensures FlagOf("--") == None && FlagOf("-d") == None
  {
  }

  /** A parse in progress: which subcommand, and which way secrets split. */
  datatype Mode = Mode(run: bool, at: AtSplit)

  /** Reading the tokens `part` takes the options from o to o', whatever follows. */
  ghost predicate Reads(m: Mode, part: seq<string>, o: CreateOpts, o': CreateOpts) {
    forall rest {:trigger DecodeRest(m.run, m.at, part + rest, o)} ::
      DecodeRest(m.run, m.at, part + rest, o) == DecodeRest(m.run, m.at, rest, o')
  }

  lemma ReadNothing(m: Mode, o: CreateOpts)
    ensures Reads(m, [], o, o)
  {
    forall rest: seq<string>
      ensures DecodeRest(m.run, m.at, [] + rest, o) == DecodeRest(m.run, m.at, rest, o)
    {
      assert [] + rest == rest;
    }
  }

  lemma ReadBoth(m: Mode, first: seq<string>, second: seq<string>, o: CreateOpts, mid: CreateOpts, end: CreateOpts)
    requires Reads(m, first, o, mid) && Reads(m, second, mid, end)
    ensures Reads(m, first + second, o, end)
  {
    forall rest
      ensures DecodeRest(m.run, m.at, first + second + rest, o) == DecodeRest(m.run, m.at, rest, end)
    {
      assert first + second + rest == first + (second + rest);
      assert DecodeRest(m.run, m.at, first + (second + rest), o) == DecodeRest(m.run, m.at, second + rest, mid);
    }
  }

  /** One flag with its value. */
  lemma ReadFlag(m: Mode, token: string, flag: Flag, v: string, o: CreateOpts, o': CreateOpts)
    requires FlagOf(token) == Some(flag) && !FlagShaped(v) && Absorb(flag, v, m.at, o) == Some(o')
    ensures Reads(m, [token, v], o, o')
  {
    FlagsAreKnown();
    assert token != "--" && token != "-d";
    forall rest
      ensures DecodeRest(m.run, m.at, [token, v] + rest, o) == DecodeRest(m.run, m.at, rest, o')
    {
      var ts := [token, v] + rest;
      assert ts[2..] == rest;
    }
  }

  lemma ItoaRoundTrip(n: nat)
    ensures Number(Itoa(n)) == Some(n) && !FlagShaped(Itoa(n))
    ensures ':' !in Itoa(n)
  {
    DecimalRoundTrip(n);
  }

  ghost predicate ReadableEnv(env: map<string, string>) {
    forall k | k in env :: '=' !in k && !FlagShaped(k)
  }

  predicate ReadablePort(p: PortMapping) {
    p.host >= 0 && p.guest >= 0
  }

  predicate ReadableSecret(s: Secret, at: AtSplit) {
    && '=' !in s.key && !FlagShaped(s.key)
    && (if at.First? then '@' !in s.value else '@' !in s.host)
  }

  predicate ReadableKey(k: string) {
    NUL !in k && '\n' !in k
  }

  /** Options whose arguments can be told apart again. */
  ghost predicate Readable(o: CreateOpts, at: AtSplit) {
    && !FlagShaped(o.name) && !FlagShaped(o.snapshot)
    && (o.image == "" || o.snapshot == "")
    && o.cpus >= 0 && o.memoryMiB >= 0
    && (o.volume.Some? ==> ':' !in o.volume.value.name && !FlagShaped(o.volume.value.name))
    && ReadableEnv(o.env)
    && (forall i | 0 <= i < |o.ports| :: ReadablePort(o.ports[i]))
    && (forall i | 0 <= i < |o.secrets| :: ReadableSecret(o.secrets[i], at))
    && (forall i | 0 <= i < |o.sshKeys| :: ReadableKey(o.sshKeys[i]))
  }

  function Restrict(env: map<string, string>, ks: seq<string>): map<string, string> {
    map k | k in env && k in ks :: env[k]
  }

  lemma EnvFlagReads(m: Mode, k: string, value: string, o: CreateOpts)
    requires '=' !in k && !FlagShaped(k) && k !in o.env
    ensures Reads(m, ["-e", EnvArg(k, value)], o, o.(env := o.env[k := value]))
  {
    var text := k + "=" + value;
    assert text == k + ['='] + value;
    SplitFirstOf(k, '=', value);
    FlagsAreKnown();
    ReadFlag(m, "-e", EnvFlag, text, o, o.(env := o.env[k := value]));
  }

  lemma EnvArgsMore(ks: seq<string>, k: string, env: map<string, string>)
    requires k in env && forall x | x in ks :: x in env
    ensures EnvArgs(ks + [k], env) == EnvArgs(ks, env) + ["-e", EnvArg(k, env[k])]
  {
    assert (ks + [k])[..|ks|] == ks;
  }

  lemma RestrictMore(start: map<string, string>, env: map<string, string>, ks: seq<string>, k: string)
    requires k in env
    ensures (start + Restrict(env, ks))[k := env[k]] == start + Restrict(env, ks + [k])
  {
    assert forall x :: x in ks + [k] <==> x in ks || x == k;
  }

  /** One more variable, under a name of its own. */
  lemma EnvOneMore(m: Mode, ks: seq<string>, k: string, env: map<string, string>, o: CreateOpts)
    requires k in env && (forall x | x in ks :: x in env) && k !in ks && k !in o.env
    requires '=' !in k && !FlagShaped(k)
    requires Reads(m, EnvArgs(ks, env), o, o.(env := o.env + Restrict(env, ks)))
    ensures Reads(m, EnvArgs(ks + [k], env), o, o.(env := o.env + Restrict(env, ks + [k])))
  {
    var o1 := o.(env := o.env + Restrict(env, ks));
    var o2 := o1.(env := o1.env[k := env[k]]);
    EnvFlagReads(m, k, env[k], o1);
    ReadBoth(m, EnvArgs(ks, env), ["-e", EnvArg(k, env[k])], o, o1, o2);
    EnvArgsMore(ks, k, env);
    RestrictMore(o.env, env, ks, k);
  }

  lemma {:induction false} ReadEnv(m: Mode, ks: seq<string>, env: map<string, string>, o: CreateOpts)
    requires ReadableEnv(env) && forall k | k in ks :: k in env && k !in o.env
    requires forall i, j | 0 <= i < j < |ks| :: ks[i] != ks[j]
    ensures Reads(m, EnvArgs(ks, env), o, o.(env := o.env + Restrict(env, ks)))
    decreases |ks|
  {
    if ks == [] {
      assert o.env + Restrict(env, ks) == o.env;
      ReadNothing(m, o);
    } else {
      var init, k := ks[..|ks| - 1], ks[|ks| - 1];
      assert ks == init + [k];
      ReadEnv(m, init, env, o);
      EnvOneMore(m, init, k, env, o);
    }
  }

  lemma PortFlagReads(m: Mode, p: PortMapping, o: CreateOpts)
    requires ReadablePort(p)
    ensures Reads(m, ["-p", PortArg(p)], o, o.(ports := o.ports + [p]))
  {
    PortReadsBack(p);
    FlagsAreKnown();
    ReadFlag(m, "-p", PortFlag, PortArg(p), o, o.(ports := o.ports + [p]));
  }

  lemma PortReadsBack(p: PortMapping)
    requires ReadablePort(p)
    ensures DecodePort(PortArg(p)) == Some(p) && !FlagShaped(PortArg(p))
  {
    ItoaRoundTrip(p.host);
    ItoaRoundTrip(p.guest);
    SplitFirstOf(Itoa(p.host), ':', Itoa(p.guest));
    assert PortArg(p) == Itoa(p.host) + [':'] + Itoa(p.guest);
  }

  lemma {:induction false} ReadPorts(m: Mode, ps: seq<PortMapping>, o: CreateOpts)
    requires forall i | 0 <= i < |ps| :: ReadablePort(ps[i])
    ensures Reads(m, PortArgs(ps), o, o.(ports := o.ports + ps))
    decreases |ps|
  {
    if ps == [] {
      assert o.ports + ps == o.ports;
      ReadNothing(m, o);
    } else {
      var init, p := ps[..|ps| - 1], ps[|ps| - 1];
      var o1 := o.(ports := o.ports + init);
      ReadPorts(m, init, o);
      PortFlagReads(m, p, o1);
      ReadBoth(m, PortArgs(init), ["-p", PortArg(p)], o, o1, o1.(ports := o1.ports + [p]));
      assert o.ports + init + [p] == o.ports + ps;
    }
  }

  lemma SecretReadsBack(s: Secret, at: AtSplit)
    requires '=' !in s.key
    ensures DecodeSecret(SecretArg(s), at) == Some(s)
            <==> if at.First? then '@' !in s.value else '@' !in s.host
  {
    var rest := s.value + ['@'] + s.host;
    assert SecretArg(s) == s.key + ['='] + rest;
    SplitFirstOf(s.key, '=', rest);
    if at.First? && '@' !in s.value {
      SplitFirstOf(s.value, '@', s.host);
    } else if at.Last? && '@' !in s.host {
      SplitLastOf(s.value, '@', s.host);
    }
  }

  /**
   Why Validate refuses '@' in a secret's value: the host, which `msb` allows the
   secret out to, is read the same by both splits exactly when the value has no '@'.
   */
  lemma SplitsAgreeExactly(s: Secret)
    requires '=' !in s.key && '@' !in s.host
    ensures DecodeSecret(SecretArg(s), First) == DecodeSecret(SecretArg(s), Last) <==> '@' !in s.value
  {
    SecretReadsBack(s, First);
    SecretReadsBack(s, Last);
  }

  lemma SecretFlagReads(m: Mode, s: Secret, o: CreateOpts)
    requires ReadableSecret(s, m.at)
    ensures Reads(m, ["--secret", SecretArg(s)], o, o.(secrets := o.secrets + [s]))
  {
    SecretReadsBack(s, m.at);
    var text := SecretArg(s);
    assert text[0] == if s.key == "" then '=' else s.key[0];
    FlagsAreKnown();
    ReadFlag(m, "--secret", SecretFlag, text, o, o.(secrets := o.secrets + [s]));
  }

  lemma {:induction false} ReadSecrets(m: Mode, ss: seq<Secret>, o: CreateOpts)
    requires forall i | 0 <= i < |ss| :: ReadableSecret(ss[i], m.at)
    ensures Reads(m, SecretArgs(ss), o, o.(secrets := o.secrets + ss))
    decreases |ss|
  {
    if ss == [] {
      assert o.secrets + ss == o.secrets;
      ReadNothing(m, o);
    } else {
      var init, s := ss[..|ss| - 1], ss[|ss| - 1];
      var o1 := o.(secrets := o.secrets + init);
      ReadSecrets(m, init, o);
      SecretFlagReads(m, s, o1);
      ReadBoth(m, SecretArgs(init), ["--secret", SecretArg(s)], o, o1, o1.(secrets := o1.secrets + [s]));
      assert o.secrets + init + [s] == o.secrets + ss;
    }
  }

  lemma ScriptArgReadsBack(keys: seq<string>)
    requires keys != [] && forall i | 0 <= i < |keys| :: ReadableKey(keys[i])
    ensures DecodeScript(SCRIPT_NAME + "=" + Script(keys)) == Some(keys)
    ensures !FlagShaped(SCRIPT_NAME + "=" + Script(keys))
  {
    KeysRoundTripExactly(keys);
    assert '=' !in SCRIPT_NAME;
    SplitFirstOf(SCRIPT_NAME, '=', Script(keys));
  }

  lemma ReadScript(m: Mode, token: string, text: string, keys: seq<string>, o: CreateOpts)
    requires FlagOf(token) == Some(ScriptFlag) && !FlagShaped(text) && DecodeScript(text) == Some(keys)
    requires o.sshKeys == []
    ensures Reads(m, [token, text], o, o.(sshKeys := keys))
  {
    ReadFlag(m, token, ScriptFlag, text, o, o.(sshKeys := keys));
  }

  lemma ReadKeys(m: Mode, keys: seq<string>, o: CreateOpts)
    requires o.sshKeys == [] && forall i | 0 <= i < |keys| :: ReadableKey(keys[i])
    ensures Reads(m, KeyArgs(keys), o, o.(sshKeys := keys))
  {
    if keys == [] {
      ReadNothing(m, o);
    } else {
      ScriptArgReadsBack(keys);
      FlagsAreKnown();
      ReadScript(m, "--script-raw", SCRIPT_NAME + "=" + Script(keys), keys, o);
    }
  }

  lemma ReadVolume(m: Mode, v: Option<VolumeMount>, o: CreateOpts)
    requires o.volume == None
    requires v.Some? ==> ':' !in v.value.name && !FlagShaped(v.value.name)
    ensures Reads(m, VolumeArgs(v), o, o.(volume := v))
  {
    if v == None {
      ReadNothing(m, o);
    } else {
      var text := v.value.name + ":" + v.value.mount;
      SplitFirstOf(v.value.name, ':', v.value.mount);
      assert text == v.value.name + [':'] + v.value.mount;
      FlagsAreKnown();
      ReadFlag(m, "-v", VolumeFlag, text, o, o.(volume := v));
    }
  }

  lemma ReadCount(m: Mode, token: string, flag: Flag, n: nat, o: CreateOpts, o': CreateOpts)
    requires FlagOf(token) == Some(flag)
    requires if n > 0 then Absorb(flag, Itoa(n), m.at, o) == Some(o') else o' == o
    ensures Reads(m, CountArgs(token, n), o, o')
  {
    if n > 0 {
      ItoaRoundTrip(n);
      ReadFlag(m, token, flag, Itoa(n), o, o');
    } else {
      ReadNothing(m, o);
    }
  }

  lemma ReadSizes(m: Mode, p: CreateOpts, o: CreateOpts)
    requires o.cpus == 0 && o.memoryMiB == 0 && p.cpus >= 0 && p.memoryMiB >= 0
    ensures Reads(m, SizeArgs(p), o, o.(cpus := p.cpus, memoryMiB := p.memoryMiB))
  {
    FlagsAreKnown();
    ItoaRoundTrip(p.cpus);
    ItoaRoundTrip(p.memoryMiB);
    var o1 := o.(cpus := p.cpus);
    var o2 := o1.(memoryMiB := p.memoryMiB);
    ReadCount(m, "-c", CpuFlag, p.cpus, o, o1);
    ReadCount(m, "-m", MemoryFlag, p.memoryMiB, o1, o2);
    ReadBoth(m, CountArgs("-c", p.cpus), CountArgs("-m", p.memoryMiB), o, o1, o2);
  }

  lemma ReadDetach(at: AtSplit, o: CreateOpts)
    ensures Reads(Mode(true, at), ["-d"], o, o)
  {
    forall rest
      ensures DecodeRest(true, at, ["-d"] + rest, o) == DecodeRest(true, at, rest, o)
    {
      assert (["-d"] + rest)[1..] == rest;
    }
  }

  /** The tokens between the subcommand and the options proper. */
  lemma ReadHead(at: AtSplit, p: CreateOpts)
    requires !FlagShaped(p.name) && !FlagShaped(p.snapshot)
    ensures Reads(Mode(p.snapshot != "", at), HeadArgs(p)[1..], NOTHING, NOTHING.(name := p.name, snapshot := p.snapshot))
  {
    FlagsAreKnown();
    if p.snapshot != "" {
      var m := Mode(true, at);
      var o1 := NOTHING.(snapshot := p.snapshot);
      var o2 := o1.(name := p.name);
      ReadDetach(at, NOTHING);
      ReadFlag(m, "--snapshot", SnapshotFlag, p.snapshot, NOTHING, o1);
      ReadFlag(m, "-n", NameFlag, p.name, o1, o2);
      ReadBoth(m, ["-d"], ["--snapshot", p.snapshot], NOTHING, NOTHING, o1);
      ReadBoth(m, ["-d"] + ["--snapshot", p.snapshot], ["-n", p.name], NOTHING, o1, o2);
      assert HeadArgs(p)[1..] == ["-d"] + ["--snapshot", p.snapshot] + ["-n", p.name];
    } else {
      ReadFlag(Mode(false, at), "-n", NameFlag, p.name, NOTHING, NOTHING.(name := p.name));
      assert HeadArgs(p)[1..] == ["-n", p.name];
    }
  }

  lemma ReadWholeEnv(m: Mode, env: map<string, string>, o: CreateOpts)
    requires ReadableEnv(env) && o.env == map[]
    ensures Reads(m, EnvArgs(InOrder(env.Keys), env), o, o.(env := env))
  {
    RestrictToAll(env);
    SortedIsDistinct(InOrder(env.Keys));
    ReadEnv(m, InOrder(env.Keys), env, o);
  }

  lemma SortedIsDistinct(ks: seq<string>)
    requires Sorted(ks)
    ensures forall i, j | 0 <= i < j < |ks| :: ks[i] != ks[j]
  {
    forall i, j | 0 <= i < j < |ks|
      ensures ks[i] != ks[j]
    {
      LessIsTotal(ks[i], ks[j]);
    }
  }

  lemma RestrictToAll(env: map<string, string>)
    ensures map[] + Restrict(env, InOrder(env.Keys)) == env
  {
  }

  lemma ReadLists(m: Mode, p: CreateOpts, o: CreateOpts)
    requires Readable(p, m.at) && o.env == map[] && o.ports == [] && o.secrets == []
    ensures Reads(m, ListArgs(p), o, o.(env := p.env, ports := p.ports, secrets := p.secrets))
  {
    var ks := InOrder(p.env.Keys);
    var o1 := o.(env := p.env);
    var o2 := o1.(ports := p.ports);
    var o3 := o2.(secrets := p.secrets);
    ReadWholeEnv(m, p.env, o);
    ReadPorts(m, p.ports, o1);
    ReadSecrets(m, p.secrets, o2);
    assert [] + p.ports == p.ports && [] + p.secrets == p.secrets;
    ReadBoth(m, EnvArgs(ks, p.env), PortArgs(p.ports), o, o1, o2);
    ReadBoth(m, EnvArgs(ks, p.env) + PortArgs(p.ports), SecretArgs(p.secrets), o, o2, o3);
  }

  /** Everything but the subcommand and the image. */
  ghost function OptionArgs(p: CreateOpts): seq<string> {
    HeadArgs(p)[1..] + SizeArgs(p) + VolumeArgs(p.volume) + ListArgs(p) + KeyArgs(p.sshKeys)
  }

  lemma ReadOptions(at: AtSplit, p: CreateOpts)
    requires Readable(p, at)
    ensures Reads(Mode(p.snapshot != "", at), OptionArgs(p), NOTHING, p.(image := ""))
  {
    var m := Mode(p.snapshot != "", at);
    var o1 := NOTHING.(name := p.name, snapshot := p.snapshot);
    var o2 := o1.(cpus := p.cpus, memoryMiB := p.memoryMiB);
    var o3 := o2.(volume := p.volume);
    var o4 := o3.(env := p.env, ports := p.ports, secrets := p.secrets);
    var o5 := o4.(sshKeys := p.sshKeys);
    ReadHead(at, p);
    ReadSizes(m, p, o1);
    ReadVolume(m, p.volume, o2);
    ReadLists(m, p, o3);
    ReadKeys(m, p.sshKeys, o4);
    var t := HeadArgs(p)[1..];
    ReadBoth(m, t, SizeArgs(p), NOTHING, o1, o2);
    ReadBoth(m, t + SizeArgs(p), VolumeArgs(p.volume), NOTHING, o2, o3);
    ReadBoth(m, t + SizeArgs(p) + VolumeArgs(p.volume), ListArgs(p), NOTHING, o3, o4);
    ReadBoth(m, t + SizeArgs(p) + VolumeArgs(p.volume) + ListArgs(p), KeyArgs(p.sshKeys), NOTHING, o4, o5);
    assert o5 == p.(image := "");
  }

  lemma DecodeSplits(subcommand: string, options: seq<string>, image: seq<string>, p: CreateOpts, at: AtSplit)
    requires subcommand == if p.snapshot != "" then "run" else "create"
    requires Reads(Mode(p.snapshot != "", at), options, NOTHING, p.(image := ""))
    requires image == ImageArgs(p) && (p.image == "" || p.snapshot == "")
    requires p.snapshot != "" ==> "-d" in options
    ensures Decode([subcommand] + options + image, at) == Some(p)
  {
    var run := p.snapshot != "";
    var args := [subcommand] + options + image;
    assert args[1..] == options + image;
    assert subcommand != "create" <==> run by {
      assert |"run"| != |"create"|;
    }
    assert DecodeRest(run, at, options + image, NOTHING) == DecodeRest(run, at, image, p.(image := ""));
  }

  lemma Detached(p: CreateOpts)
    requires p.snapshot != ""
    ensures "-d" in OptionArgs(p)
  {
    assert OptionArgs(p)[0] == "-d";
  }

  lemma Regroup(h: string, t: seq<string>, a: seq<string>, b: seq<string>, c: seq<string>, d: seq<string>,
                image: seq<string>)
    ensures [h] + t + a + b + c + d + image == [h] + (t + a + b + c + d) + image
  {
  }

  lemma ArgsInThree(p: CreateOpts)
    ensures Args(p) == [HeadArgs(p)[0]] + OptionArgs(p) + ImageArgs(p)
  {
    var h, t := HeadArgs(p)[0], HeadArgs(p)[1..];
    assert HeadArgs(p) == [h] + t;
    Regroup(h, t, SizeArgs(p), VolumeArgs(p.volume), ListArgs(p), KeyArgs(p.sshKeys), ImageArgs(p));
  }

  /** Decoding the command line gives back exactly the options it was built from. */
  lemma ArgsRoundTrip(p: CreateOpts, at: AtSplit)
    requires Readable(p, at)
    ensures Decode(Args(p), at) == Some(p)
  {
    ReadOptions(at, p);
    if p.snapshot != "" {
      Detached(p);
    }
    DecodeSplits(HeadArgs(p)[0], OptionArgs(p), ImageArgs(p), p, at);
    ArgsInThree(p);
  }
}
