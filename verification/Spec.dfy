/**
 The create-sandbox spec: what Validate lets through, and what that buys the
 command line it ends up in.
 */
module Spec {
  import opened Wrappers
  import opened Text
  import opened Identifiers
  import opened SshScript
  import opened CreateArgs

  /** The volume, port and secret entries have the same shape as the adapter's. */
  datatype Spec = Spec(
    name: string, image: string, snapshot: string, cpus: int, memory: int,
    volume: Option<VolumeMount>, env: map<string, string>, ports: seq<PortMapping>,
    secrets: seq<Secret>, sshKeys: seq<string>)

  datatype SpecError =
    | NameRequired | NameInvalid | SourceMissing | SourceAmbiguous | ImageInvalid | SnapshotInvalid
    | CpusNegative | MemoryNegative
    | VolumeNameRequired | VolumeNameInvalid | MountRequired | MountRelative
    | EnvKeyInvalid(key: string)
    | HostOutOfRange(index: nat) | GuestOutOfRange(index: nat)
    | KeyEmpty(index: nat) | KeyMultiline(index: nat)
    | SecretKeyRequired(index: nat) | SecretValueRequired(index: nat) | SecretHostRequired(index: nat)
    | SecretKeyFlag(index: nat) | SecretKeySeparator(index: nat) | SecretHostAt(index: nat) | SecretValueAt(index: nat)

  predicate PortInRange(n: int) {
    1 <= n <= 65535
  }

  predicate GoodPort(p: PortMapping) {
    PortInRange(p.host) && PortInRange(p.guest)
  }

  predicate GoodKey(k: string) {
    k != "" && '\n' !in k && NUL !in k
  }

  predicate GoodSecret(s: Secret) {
    && s.key != "" && s.value != "" && s.host != ""
    && !FlagShaped(s.key) && '=' !in s.key && '@' !in s.key
    && '@' !in s.host && '@' !in s.value
  }

  predicate GoodVolume(v: VolumeMount) {
    ValidName(v.name) && v.mount != "" && v.mount[0] == '/'
  }

  /** What a spec has to satisfy. */
  ghost predicate WellFormed(s: Spec) {
    && ValidName(s.name)
    && (s.image == "" <==> s.snapshot != "")
    && (s.image != "" ==> ValidImage(s.image))
    && (s.snapshot != "" ==> ValidName(s.snapshot))
    && s.cpus >= 0 && s.memory >= 0
    && (s.volume.Some? ==> GoodVolume(s.volume.value))
    && (forall k | k in s.env :: ValidEnvKey(k))
    && (forall i | 0 <= i < |s.ports| :: GoodPort(s.ports[i]))
    && (forall i | 0 <= i < |s.sshKeys| :: GoodKey(s.sshKeys[i]))
    && (forall i | 0 <= i < |s.secrets| :: GoodSecret(s.secrets[i]))
  }

  /** What each error says of the spec; errors in a list name the first bad entry. */
  ghost predicate Explains(s: Spec, e: SpecError) {
    match e
    case NameRequired => s.name == ""
    case NameInvalid => s.name != "" && !ValidName(s.name)
    case SourceMissing => s.image == "" && s.snapshot == ""
    case SourceAmbiguous => s.image != "" && s.snapshot != ""
    case ImageInvalid => s.image != "" && !ValidImage(s.image)
    case SnapshotInvalid => s.snapshot != "" && !ValidName(s.snapshot)
    case CpusNegative => s.cpus < 0
    case MemoryNegative => s.memory < 0
    case VolumeNameRequired => s.volume.Some? && s.volume.value.name == ""
    case VolumeNameInvalid => s.volume.Some? && s.volume.value.name != "" && !ValidName(s.volume.value.name)
    case MountRequired => s.volume.Some? && s.volume.value.mount == ""
    case MountRelative => s.volume.Some? && s.volume.value.mount != "" && s.volume.value.mount[0] != '/'
    case EnvKeyInvalid(k) => k in s.env && !ValidEnvKey(k) && forall j | j in s.env && Less(j, k) :: ValidEnvKey(j)
    case HostOutOfRange(i) => FirstBadPort(s, i) && !PortInRange(s.ports[i].host)
    case GuestOutOfRange(i) => FirstBadPort(s, i) && PortInRange(s.ports[i].host)
    case KeyEmpty(i) => FirstBadKey(s, i) && s.sshKeys[i] == ""
    case KeyMultiline(i) => FirstBadKey(s, i) && s.sshKeys[i] != ""
    case SecretKeyRequired(i) => FirstBadSecret(s, i) && s.secrets[i].key == ""
    case SecretValueRequired(i) => FirstBadSecret(s, i) && s.secrets[i].value == ""
    case SecretHostRequired(i) => FirstBadSecret(s, i) && s.secrets[i].host == ""
    case SecretKeyFlag(i) => FirstBadSecret(s, i) && FlagShaped(s.secrets[i].key)
    case SecretKeySeparator(i) => FirstBadSecret(s, i) && ('=' in s.secrets[i].key || '@' in s.secrets[i].key)
    case SecretHostAt(i) => FirstBadSecret(s, i) && '@' in s.secrets[i].host
    case SecretValueAt(i) => FirstBadSecret(s, i) && '@' in s.secrets[i].value
  }

  ghost predicate FirstBadPort(s: Spec, i: nat) {
    i < |s.ports| && !GoodPort(s.ports[i]) && forall j | 0 <= j < i :: GoodPort(s.ports[j])
  }

  ghost predicate FirstBadKey(s: Spec, i: nat) {
    i < |s.sshKeys| && !GoodKey(s.sshKeys[i]) && forall j | 0 <= j < i :: GoodKey(s.sshKeys[j])
  }

  ghost predicate FirstBadSecret(s: Spec, i: nat) {
    i < |s.secrets| && !GoodSecret(s.secrets[i]) && forall j | 0 <= j < i :: GoodSecret(s.secrets[j])
  }

  /** When a fault is looked for: the fields one after another, the checks of one list entry one after another. */
  function Turn(e: SpecError): nat {
    match e
    case NameRequired => 0
    case NameInvalid => 1
    case SourceMissing => 2
    case SourceAmbiguous => 3
    case ImageInvalid => 4
    case SnapshotInvalid => 5
    case CpusNegative => 6
    case MemoryNegative => 7
    case VolumeNameRequired => 8
    case VolumeNameInvalid => 9
    case MountRequired => 10
    case MountRelative => 11
    case EnvKeyInvalid(_) => 12
    case HostOutOfRange(_) => 13
    case GuestOutOfRange(_) => 14
    case KeyEmpty(_) => 15
    case KeyMultiline(_) => 16
    case SecretKeyRequired(_) => 17
    case SecretValueRequired(_) => 18
    case SecretHostRequired(_) => 19
    case SecretKeyFlag(_) => 20
    case SecretKeySeparator(_) => 21
    case SecretHostAt(_) => 22
    case SecretValueAt(_) => 23
  }

  /** Of everything that is wrong with the spec, e comes first. */
  ghost predicate IsFirstFault(s: Spec, e: SpecError) {
    Explains(s, e) && forall other | Explains(s, other) :: Turn(e) <= Turn(other)
  }

  /** Nothing whose turn comes before n is wrong. */
  ghost predicate CleanBefore(s: Spec, n: nat) {
    forall e | Explains(s, e) :: Turn(e) >= n
  }

  /** There is only one first fault to report. */
  lemma FirstFaultIsUnique(s: Spec, e: SpecError, f: SpecError)
    requires IsFirstFault(s, e) && IsFirstFault(s, f)
    ensures e == f
  {
    assert Turn(e) == Turn(f);
    if e.EnvKeyInvalid? {
      LessIsTotal(e.key, f.key);
    } else if Turn(e) >= 12 {
      assert e.index == f.index;
    }
  }

  lemma ScalarFaultIsFirst(s: Spec)
    ensures ScalarFault(s).Some? ==> IsFirstFault(s, ScalarFault(s).value)
    ensures ScalarFault(s) == None ==> CleanBefore(s, 12)
  {
    ScalarFaultExplains(s);
    forall e | Explains(s, e)
      ensures if ScalarFault(s).Some? then Turn(ScalarFault(s).value) <= Turn(e) else Turn(e) >= 12
    {
      ScalarFaultIsLeast(s, e);
    }
  }

  lemma ScalarFaultExplains(s: Spec)
    ensures ScalarFault(s).Some? ==> Explains(s, ScalarFault(s).value)
  {
  }

  lemma ScalarFaultIsLeast(s: Spec, e: SpecError)
    requires Explains(s, e)
    ensures if ScalarFault(s).Some? then Turn(ScalarFault(s).value) <= Turn(e) else Turn(e) >= 12
  {
  }

  lemma SecretFaultIsFirst(s: Spec, i: nat)
    requires FirstBadSecret(s, i) && SecretFault(s.secrets[i], i).Some? && CleanBefore(s, 17)
    ensures IsFirstFault(s, SecretFault(s.secrets[i], i).value)
  {
  }

  /** The single-valued fields, in the order Validate looks at them. */
  function ScalarFault(s: Spec): Option<SpecError> {
    if s.name == "" then Some(NameRequired)
    else if !ValidName(s.name) then Some(NameInvalid)
    else if s.image == "" && s.snapshot == "" then Some(SourceMissing)
    else if s.image != "" && s.snapshot != "" then Some(SourceAmbiguous)
    else if s.image != "" && !ValidImage(s.image) then Some(ImageInvalid)
    else if s.snapshot != "" && !ValidName(s.snapshot) then Some(SnapshotInvalid)
    else if s.cpus < 0 then Some(CpusNegative)
    else if s.memory < 0 then Some(MemoryNegative)
    else if s.volume == None then None
    else if s.volume.value.name == "" then Some(VolumeNameRequired)
    else if !ValidName(s.volume.value.name) then Some(VolumeNameInvalid)
    else if s.volume.value.mount == "" then Some(MountRequired)
    else if s.volume.value.mount[0] != '/' then Some(MountRelative)
    else None
  }

  function SecretFault(s: Secret, i: nat): Option<SpecError> {
    if s.key == "" then Some(SecretKeyRequired(i))
    else if s.value == "" then Some(SecretValueRequired(i))
    else if s.host == "" then Some(SecretHostRequired(i))
    else if FlagShaped(s.key) then Some(SecretKeyFlag(i))
    else if '=' in s.key || '@' in s.key then Some(SecretKeySeparator(i))
    else if '@' in s.host then Some(SecretHostAt(i))
    else if '@' in s.value then Some(SecretValueAt(i))
    else None
  }

  /** The first bad key of the sorted list is the least bad key. */
  lemma FirstBadKeyIsLeast(s: Spec, ks: seq<string>, i: nat)
    requires Sorted(ks) && (forall k :: k in ks <==> k in s.env)
    requires i < |ks| && !ValidEnvKey(ks[i]) && forall j | 0 <= j < i :: ValidEnvKey(ks[j])
    ensures Explains(s, EnvKeyInvalid(ks[i]))
  {
    forall k | k in s.env && Less(k, ks[i])
      ensures ValidEnvKey(k)
    {
      assert k in ks;
      var n :| 0 <= n < |ks| && ks[n] == k;
      LessIsTotal(ks[i], ks[n]);
    }
  }

  method ValidateEnv(s: Spec) returns (e: Option<SpecError>)
    ensures e == None <==> forall k | k in s.env :: ValidEnvKey(k)
    ensures e.Some? ==> e.value.EnvKeyInvalid? && Explains(s, e.value)
  {
    var ks := SortedKeys(s.env);
    for i := 0 to |ks|
      invariant forall j | 0 <= j < i :: ValidEnvKey(ks[j])
    {
      if !ValidEnvKey(ks[i]) {
        FirstBadKeyIsLeast(s, ks, i);
        return Some(EnvKeyInvalid(ks[i]));
      }
    }
    assert forall k | k in s.env :: k in ks;
    e := None;
  }

  method ValidatePorts(s: Spec) returns (e: Option<SpecError>)
    ensures e == None <==> forall i | 0 <= i < |s.ports| :: GoodPort(s.ports[i])
    ensures e.Some? ==> (e.value.HostOutOfRange? || e.value.GuestOutOfRange?) && Explains(s, e.value)
  {
    for i := 0 to |s.ports|
      invariant forall j | 0 <= j < i :: GoodPort(s.ports[j])
    {
      if s.ports[i].host < 1 || s.ports[i].host > 65535 {
        return Some(HostOutOfRange(i));
      }
      if s.ports[i].guest < 1 || s.ports[i].guest > 65535 {
        return Some(GuestOutOfRange(i));
      }
    }
    e := None;
  }

  method ValidateKeys(s: Spec) returns (e: Option<SpecError>)
    ensures e == None <==> forall i | 0 <= i < |s.sshKeys| :: GoodKey(s.sshKeys[i])
    ensures e.Some? ==> (e.value.KeyEmpty? || e.value.KeyMultiline?) && Explains(s, e.value)
  {
    for i := 0 to |s.sshKeys|
      invariant forall j | 0 <= j < i :: GoodKey(s.sshKeys[j])
    {
      if s.sshKeys[i] == "" {
        return Some(KeyEmpty(i));
      }
      if '\n' in s.sshKeys[i] || NUL in s.sshKeys[i] {
        return Some(KeyMultiline(i));
      }
    }
    e := None;
  }

  method ValidateSecrets(s: Spec) returns (e: Option<SpecError>)
    ensures e == None <==> forall i | 0 <= i < |s.secrets| :: GoodSecret(s.secrets[i])
    ensures e.Some? ==> exists i | 0 <= i < |s.secrets| :: FirstBadSecret(s, i) && e == SecretFault(s.secrets[i], i)
    ensures e.Some? && CleanBefore(s, 17) ==> IsFirstFault(s, e.value)
  {
    for i := 0 to |s.secrets|
      invariant forall j | 0 <= j < i :: GoodSecret(s.secrets[j])
    {
      var fault := SecretFault(s.secrets[i], i);
      if fault.Some? {
        assert FirstBadSecret(s, i);
        if CleanBefore(s, 17) {
          SecretFaultIsFirst(s, i);
        }
        return fault;
      }
    }
    e := None;
  }

  lemma EnvComesNext(s: Spec, e: Option<SpecError>)
    requires CleanBefore(s, 12) && (e == None <==> forall k | k in s.env :: ValidEnvKey(k))
    requires e.Some? ==> e.value.EnvKeyInvalid? && Explains(s, e.value)
    ensures if e.Some? then IsFirstFault(s, e.value) else CleanBefore(s, 13)
  {
  }

  lemma PortsComeNext(s: Spec, e: Option<SpecError>)
    requires CleanBefore(s, 13) && (e == None <==> forall i | 0 <= i < |s.ports| :: GoodPort(s.ports[i]))
    requires e.Some? ==> (e.value.HostOutOfRange? || e.value.GuestOutOfRange?) && Explains(s, e.value)
    ensures if e.Some? then IsFirstFault(s, e.value) else CleanBefore(s, 15)
  {
  }

  lemma KeysComeNext(s: Spec, e: Option<SpecError>)
    requires CleanBefore(s, 15) && (e == None <==> forall i | 0 <= i < |s.sshKeys| :: GoodKey(s.sshKeys[i]))
    requires e.Some? ==> (e.value.KeyEmpty? || e.value.KeyMultiline?) && Explains(s, e.value)
    ensures if e.Some? then IsFirstFault(s, e.value) else CleanBefore(s, 17)
  {
  }

  /** Lets a spec through exactly when it is well formed, and otherwise names the fault that comes first. */
  method Validate(s: Spec) returns (e: Option<SpecError>)
    ensures e == None <==> WellFormed(s)
    ensures e.Some? ==> IsFirstFault(s, e.value)
  {
    ScalarFaultIsFirst(s);
    e := ScalarFault(s);
    if e == None {
      e := ValidateEnv(s);
      EnvComesNext(s, e);
    }
    if e == None {
      e := ValidatePorts(s);
      PortsComeNext(s, e);
    }
    if e == None {
      e := ValidateKeys(s);
      KeysComeNext(s, e);
    }
    if e == None {
      e := ValidateSecrets(s);
    }
  }

  function Opts(s: Spec): CreateOpts {
    CreateOpts(s.name, s.image, s.snapshot, s.cpus, s.memory, s.volume, s.env, s.ports, s.secrets, s.sshKeys)
  }

  /** Copies the lists entry by entry, as the adapter's own types. */
  method ToCreateOpts(s: Spec) returns (o: CreateOpts)
    ensures o.name == s.name && o.image == s.image && o.snapshot == s.snapshot
    ensures o.cpus == s.cpus && o.memoryMiB == s.memory && o.volume == s.volume
    ensures o.env == s.env && o.ports == s.ports && o.secrets == s.secrets && o.sshKeys == s.sshKeys
    ensures o == Opts(s)
  {
    o := CreateOpts(s.name, s.image, s.snapshot, s.cpus, s.memory, None, s.env, [], [], []);
    if s.volume.Some? {
      o := o.(volume := Some(VolumeMount(s.volume.value.name, s.volume.value.mount)));
    }
    for i := 0 to |s.ports|
      invariant o == Opts(s).(ports := s.ports[..i], secrets := [], sshKeys := [])
    {
      o := o.(ports := o.ports + [PortMapping(s.ports[i].host, s.ports[i].guest)]);
    }
    for i := 0 to |s.secrets|
      invariant o == Opts(s).(secrets := s.secrets[..i], sshKeys := [])
    {
      o := o.(secrets := o.secrets + [Secret(s.secrets[i].key, s.secrets[i].value, s.secrets[i].host)]);
    }
    o := o.(sshKeys := o.sshKeys + s.sshKeys);
  }

  /** volumesFromSpec: what a create claims. */
  function VolumesFromSpec(s: Spec): seq<string> {
    if s.volume == None then [] else [s.volume.value.name]
  }

  lemma WellFormedIsReadable(s: Spec, at: AtSplit)
    requires WellFormed(s)
    ensures Readable(Opts(s), at)
  {
    assert !NameChar(':');
    forall k | k in s.env
      ensures '=' !in k && !FlagShaped(k)
    {
      assert ValidEnvKey(k);
    }
    forall i | 0 <= i < |s.ports|
      ensures ReadablePort(s.ports[i])
    {
      assert GoodPort(s.ports[i]);
    }
    forall i | 0 <= i < |s.secrets|
      ensures ReadableSecret(s.secrets[i], at)
    {
      assert GoodSecret(s.secrets[i]);
    }
    forall i | 0 <= i < |s.sshKeys|
      ensures ReadableKey(s.sshKeys[i])
    {
      assert GoodKey(s.sshKeys[i]);
    }
  }

  /**
   Read as `msb` reads it, the command line of a validated spec asks for exactly
   what the spec says, field by field, whichever end a secret is split at.
   */
  lemma SpecSurvivesTheCommandLine(s: Spec, at: AtSplit)
    requires WellFormed(s)
    ensures Decode(Args(Opts(s)), at).Some?
    ensures var read := Decode(Args(Opts(s)), at).value;
            && read.name == s.name && read.image == s.image && read.snapshot == s.snapshot
            && read.cpus == s.cpus && read.memoryMiB == s.memory && read.volume == s.volume
            && read.env == s.env && read.ports == s.ports && read.secrets == s.secrets
            && read.sshKeys == s.sshKeys
  {
    WellFormedIsReadable(s, at);
    ArgsRoundTrip(Opts(s), at);
  }

  /** So two validated specs with the same command line are the same spec. */
  lemma CommandLineIsInjective(s: Spec, t: Spec)
    requires WellFormed(s) && WellFormed(t) && Args(Opts(s)) == Args(Opts(t))
    ensures s == t
  {
    SpecSurvivesTheCommandLine(s, First);
    SpecSurvivesTheCommandLine(t, First);
  }
}
