/**
 Which specs have an argv that can be handed to a process at all: an argument
 ends at its first NUL, so none may hold one.
 */
module ArgvBytes {
  import opened Wrappers
  import opened Text
  import opened Identifiers
  import opened SshScript
  import opened CreateArgs
  import S = Spec

  ghost predicate NulFree(tokens: seq<string>) {
    forall i | 0 <= i < |tokens| :: NUL !in tokens[i]
  }

  lemma NulFreeBoth(a: seq<string>, b: seq<string>)
    ensures NulFree(a + b) <==> NulFree(a) && NulFree(b)
  {
    if NulFree(a + b) {
      assert forall i | 0 <= i < |a| :: a[i] == (a + b)[i];
      assert forall i | 0 <= i < |b| :: b[i] == (a + b)[|a| + i];
    }
  }

  lemma NulFreePair(flag: string, text: string)
    requires NUL !in flag
    ensures NulFree([flag, text]) <==> NUL !in text
  {
    var pair := [flag, text];
    assert pair[1] == text;
  }

  lemma FlagsAreNulFree()
    ensures NUL !in "run" && NUL !in "-d" && NUL !in "create" && NUL !in "-n" && NUL !in "-c" && NUL !in "-m"
    ensures NUL !in "--snapshot" && NUL !in "-v" && NUL !in "-e" && NUL !in "-p" && NUL !in "--"
  {
  }

  lemma LongFlagsAreNulFree()
    ensures NUL !in "--secret" && NUL !in "--script-raw" && NUL !in SCRIPT_NAME
  {
  }

  lemma {:induction false} DecimalHasNoNul(n: nat)
    ensures NUL !in Decimal(n)
  {
    forall i | 0 <= i < |Decimal(n)| ensures Decimal(n)[i] != NUL {
      assert IsDigit(Decimal(n)[i]);
    }
  }

  lemma ItoaHasNoNul(n: int)
    ensures NUL !in Itoa(n)
  {
    DecimalHasNoNul(if n < 0 then -n else n);
  }

  lemma {:induction false} ReplacingBringsNoNul(t: string, o: string, n: string)
    requires o != "" && NUL !in t && NUL !in n
    ensures NUL !in ReplaceAll(t, o, n)
    decreases |t|
  {
    if t != "" {
      if o <= t {
        ReplacingBringsNoNul(t[|o|..], o, n);
      } else {
        ReplacingBringsNoNul(t[1..], o, n);
      }
    }
  }

  lemma PrintLineHasNoNul(key: string)
    requires NUL !in key
    ensures NUL !in PrintLine(key)
  {
    ReplacingBringsNoNul(key, "'", "'\\''");
  }

  lemma {:induction false} PrintLinesHaveNoNul(keys: seq<string>)
    requires forall i | 0 <= i < |keys| :: NUL !in keys[i]
    ensures NUL !in PrintLines(keys)
    decreases |keys|
  {
    if keys != [] {
      PrintLinesHaveNoNul(keys[..|keys| - 1]);
      PrintLineHasNoNul(keys[|keys| - 1]);
    }
  }

  lemma FrameHasNoNul()
    ensures NUL !in PROLOGUE && NUL !in EPILOGUE
  {
    assert NUL !in SSH_DIR && NUL !in KEYS_FILE && NUL !in SHEBANG;
    assert NUL !in "set -eu\n" && NUL !in "mkdir -p " && NUL !in "chmod 700 " && NUL !in "chmod 600 ";
    assert NUL !in "{\n" && NUL !in "} > " && NUL !in "\n";
  }

  lemma KeyArgsNul(keys: seq<string>)
    requires forall i | 0 <= i < |keys| :: NUL !in keys[i]
    ensures NulFree(KeyArgs(keys))
  {
    if keys != [] {
      FrameHasNoNul();
      PrintLinesHaveNoNul(keys);
      LongFlagsAreNulFree();
      NulFreePair("--script-raw", SCRIPT_NAME + "=" + Script(keys));
    }
  }

  lemma {:induction false} EnvArgsNul(ks: seq<string>, env: map<string, string>)
    requires forall k | k in ks :: k in env
    ensures NulFree(EnvArgs(ks, env)) <==> forall k | k in ks :: NUL !in k && NUL !in env[k]
    decreases |ks|
  {
    if ks != [] {
      var init, k := ks[..|ks| - 1], ks[|ks| - 1];
      EnvArgsNul(init, env);
      FlagsAreNulFree();
      var text := k + "=" + env[k];
      NulFreePair("-e", text);
      NulFreeBoth(EnvArgs(init, env), ["-e", text]);
      assert ks == init + [k];
      assert NUL in text <==> NUL in k || NUL in env[k];
    }
  }

  lemma {:induction false} PortArgsNul(ps: seq<PortMapping>)
    ensures NulFree(PortArgs(ps))
    decreases |ps|
  {
    if ps != [] {
      var p := ps[|ps| - 1];
      PortArgsNul(ps[..|ps| - 1]);
      ItoaHasNoNul(p.host);
      ItoaHasNoNul(p.guest);
      FlagsAreNulFree();
      NulFreePair("-p", PortArg(p));
      NulFreeBoth(PortArgs(ps[..|ps| - 1]), ["-p", PortArg(p)]);
    }
  }

  predicate SecretHasNul(s: Secret) {
    NUL in s.key || NUL in s.value || NUL in s.host
  }

  lemma SecretArgNul(s: Secret)
    ensures NUL in SecretArg(s) <==> SecretHasNul(s)
  {
  }

  lemma {:induction false} SecretArgsNul(ss: seq<Secret>)
    ensures NulFree(SecretArgs(ss)) <==> forall i | 0 <= i < |ss| :: !SecretHasNul(ss[i])
    decreases |ss|
  {
    if ss != [] {
      var init, s := ss[..|ss| - 1], ss[|ss| - 1];
      SecretArgsNul(init);
      SecretArgNul(s);
      LongFlagsAreNulFree();
      NulFreePair("--secret", SecretArg(s));
      NulFreeBoth(SecretArgs(init), ["--secret", SecretArg(s)]);
      assert forall i | 0 <= i < |init| :: init[i] == ss[i];
    }
  }

  lemma VolumeArgsNul(v: Option<VolumeMount>)
    requires v.Some? ==> NUL !in v.value.name
    ensures NulFree(VolumeArgs(v)) <==> v == None || NUL !in v.value.mount
  {
    if v.Some? {
      FlagsAreNulFree();
      NulFreePair("-v", v.value.name + ":" + v.value.mount);
    }
  }

  lemma CountArgsNul(flag: string, n: int)
    requires NUL !in flag
    ensures NulFree(CountArgs(flag, n))
  {
    ItoaHasNoNul(n);
  }

  lemma NamesHaveNoNul(name: string)
    requires ValidName(name) || ValidImage(name) || ValidEnvKey(name)
    ensures NUL !in name
  {
  }

  lemma HeadAndImageNul(o: CreateOpts)
    requires NUL !in o.name && NUL !in o.image && NUL !in o.snapshot
    ensures NulFree(HeadArgs(o)) && NulFree(ImageArgs(o)) && NulFree(SizeArgs(o))
  {
    FlagsAreNulFree();
    CountArgsNul("-c", o.cpus);
    CountArgsNul("-m", o.memoryMiB);
    NulFreeBoth(CountArgs("-c", o.cpus), CountArgs("-m", o.memoryMiB));
  }

  lemma ListArgsNul(o: CreateOpts)
    requires forall k | k in o.env :: NUL !in k
    ensures NulFree(ListArgs(o)) <==>
            (forall k | k in o.env :: NUL !in o.env[k]) && (forall i | 0 <= i < |o.secrets| :: !SecretHasNul(o.secrets[i]))
  {
    var ks := InOrder(o.env.Keys);
    EnvArgsNul(ks, o.env);
    PortArgsNul(o.ports);
    SecretArgsNul(o.secrets);
    NulFreeBoth(EnvArgs(ks, o.env), PortArgs(o.ports));
    NulFreeBoth(EnvArgs(ks, o.env) + PortArgs(o.ports), SecretArgs(o.secrets));
  }

  /** What Validate leaves unguarded holds no NUL: env values, the mount, the parts of secrets. */
  ghost predicate FreeTextNulFree(s: S.Spec) {
    && (forall k | k in s.env :: NUL !in s.env[k])
    && (s.volume.Some? ==> NUL !in s.volume.value.mount)
    && (forall i | 0 <= i < |s.secrets| :: !SecretHasNul(s.secrets[i]))
  }

  lemma NulFreeSix(a: seq<string>, b: seq<string>, c: seq<string>, d: seq<string>, e: seq<string>, f: seq<string>)
    ensures NulFree(a + b + c + d + e + f) <==>
            NulFree(a) && NulFree(b) && NulFree(c) && NulFree(d) && NulFree(e) && NulFree(f)
  {
    NulFreeBoth(a, b);
    NulFreeBoth(a + b, c);
    NulFreeBoth(a + b + c, d);
    NulFreeBoth(a + b + c + d, e);
    NulFreeBoth(a + b + c + d + e, f);
  }

  lemma GuardedPartsNul(s: S.Spec)
    requires S.WellFormed(s)
    ensures NUL !in s.name && NUL !in s.image && NUL !in s.snapshot
    ensures s.volume.Some? ==> NUL !in s.volume.value.name
    ensures forall k | k in s.env :: NUL !in k
    ensures forall i | 0 <= i < |s.sshKeys| :: NUL !in s.sshKeys[i]
  {
    NamesHaveNoNul(s.name);
    if s.image != "" {
      NamesHaveNoNul(s.image);
    } else {
      NamesHaveNoNul(s.snapshot);
    }
    if s.volume.Some? {
      NamesHaveNoNul(s.volume.value.name);
    }
    forall k | k in s.env ensures NUL !in k {
      NamesHaveNoNul(k);
    }
    forall i | 0 <= i < |s.sshKeys| ensures NUL !in s.sshKeys[i] {
      assert S.GoodKey(s.sshKeys[i]);
    }
  }

  /** The argv of a spec Validate accepts can be handed over exactly if none of its free text holds a NUL. */
  lemma ArgvIsNulFreeExactly(s: S.Spec)
    requires S.WellFormed(s)
    ensures NulFree(Args(S.Opts(s))) <==> FreeTextNulFree(s)
  {
    var o := S.Opts(s);
    GuardedPartsNul(s);
    HeadAndImageNul(o);
    VolumeArgsNul(o.volume);
    ListArgsNul(o);
    KeyArgsNul(o.sshKeys);
    NulFreeSix(HeadArgs(o), SizeArgs(o), VolumeArgs(o.volume), ListArgs(o), KeyArgs(o.sshKeys), ImageArgs(o));
  }

  /** Validate does let such a spec through: {name: a, image: a, env: {A: NUL}}. */
  lemma ValidSpecWithNul()
    ensures var s := S.Spec("a", "a", "", 0, 0, None, map["A" := [NUL]], [], [], []);
            S.WellFormed(s) && !NulFree(Args(S.Opts(s)))
  {
    var s := S.Spec("a", "a", "", 0, 0, None, map["A" := [NUL]], [], [], []);
    assert ValidEnvKey("A");
    assert s.env["A"] == [NUL] && NUL in s.env["A"];
    ArgvIsNulFreeExactly(s);
  }
}
