# A verified model of msb-manager

msb-manager is an HTTP control plane in front of the `msb` command. It keeps at
most one running sandbox per volume, and it knows nothing that `msb` does not:
the volume lock is an in-memory cache of what `msb` runs. This project models
that lock, the lifecycle handlers and the client as one state machine, together
with the pieces of the repository that translate, plan, capture and substitute,
and proves what they are for.

Run `dafny verify dfyconfig.toml` to check everything.

## The modules

| file | what it covers |
|---|---|
| `Wrappers`, `Text`, `Identifiers`, `Patterns` | `Option`/`Result`, strings with the library operations the code calls, identifier shapes and the regular expressions they stand for |
| `Lock` | the volume lock, method by method, and what a rollback gives back |
| `Msb`, `Inspect` | the assumed `msb`: sandboxes, what each command may answer, what each answer does, how it shows states and mounts; the volumes read out of that |
| `Cache` | two ways the lock can stand to `msb`: it misses nothing (`Guarded`), it says exactly the same (`Agrees`) |
| `Protocol` | requests interleaved step by step: taking the volume lock's mutex, operating on its map and giving it back, taking and giving back the client's mutex, and the spawn, effect and return of every command are steps |
| `ProtocolSafety`, `ProtocolNecessity` | exclusion in every interleaving, and that none of its assumptions can be dropped |
| `ProtocolAgreement` | the lock as an exact cache whenever nothing is in flight |
| `ProtocolMutex` | serial commands, unsplit client calls, no deadlock between the two mutexes, a bound on every request |
| `Service` | from a seeded lock to every interleaving |
| `Client`, `Lifecycle` | the client and the five handlers as imperative methods, and runs of whole requests |
| `Refinement` | whole requests are runs of the interleaved machine |
| `VolumeDeletion`, `InterleavedDeletion` | what may happen between the lookup and the removal of DELETE, request by request and step by step |
| `Startup` | seeding the lock, the retry loop and its waits |
| `SshScript`, `CreateArgs`, `Spec`, `ArgvBytes` | spec to argv and back, and which argv can be handed over; the key script under a POSIX word lexer and a small interpreter |
| `Size`, `VolumeBatch` | sizes, and declarative batch volume create |
| `Interpolate`, `MappingKeys` | value-safe substitution, on a heap of nodes and on trees; what it does to mapping keys, aliases followed |
| `Redact`, `Errors`, `Sentinels` | scrubbing secrets, classifying failures, and the two together |
| `Capture` | bounded capture of a child's output up to `Exec` |
| `Readiness` | the readiness cache and its rate bound |

Code that works by changing things step by step is a method or a class with
loops and fields; it is proved equal to a function of its inputs or of the old
state, and the laws are proved about that function.

## What the theorems assume

The environment is written out as definitions, never taken on trust:

- `Msb`: a create or start that succeeds leaves its sandbox running; a command
  that answers "not found" found nothing; `msb ls` shows "Running" for a sandbox
  exactly while it runs, and `msb inspect` lists each of its volumes as a mount of
  kind "Named", among mounts that are not volumes. `Client.Host.Launch`: what a
  create makes is read from its argv and from nothing else, the volume being the
  name before the `:` of `-v`. `Protocol.Assumptions` holds the rest
  as data: which kinds of request may overlap for one sandbox name, whether the
  `rm -f` that undoes a create may fail, whether a failed command may have had
  its effect, and whether somebody else may start sandboxes. The main theorem
  is an equivalence over every value of it.
- `CreateArgs.Decode`: a flag takes the next token and is given at most once (but
  for `-e`, `-p` and `--secret`), a count is not zero, `run` leaves a sandbox behind
  only with `-d`, `--` ends the flags, `KEY=VALUE` splits at its first `=`,
  `name:mount` at its first `:`, `VALUE@HOST` at the first or at the last `@`
  (both are treated, since the repository leaves it open).
- `SshScript.Lex` follows sections 2.2.1 to 2.3 of the Shell Command Language
  in IEEE Std 1003.1-2017, and refuses every construct the script does not use.
- `VolumeBatch.CreateAnswer`: `msb volume create` refuses a name that exists,
  and otherwise may refuse for any reason. `VolumeBatch.Quota`: a volume it does
  create is listed from then on with exactly the number of MiB this code reads
  the size as; that a batch run again finds its volumes in place rests on it.

## Where the code and its documentation differ

The model follows the code; each difference is a theorem.

- Creating with SSH keys is documented as all or nothing
  (internal/msb/client.go:175-178). It is, exactly unless the `rm -f` that
  undoes it fails: `Client.CreateIsAllOrNothingExactly`,
  `Lifecycle.RefusalLeavesNoTraceExactly`, `ProtocolNecessity.FailedRollbackBreaks`.
- The lock is documented to prevent double mounts (internal/lock/volume.go:1-9). Concurrent
  requests for one sandbox name can defeat it: `ProtocolNecessity.OverlapBreaks`
  gives a run for every incompatible pair of kinds.
- DELETE of a volume refuses when the lock shows it in use
  (internal/server/volumes.go:234-241), but nothing keeps it unused until the
  removal: `VolumeDeletion.GapIsSafeExactly`, and with requests interleaving
  `InterleavedDeletion.DeletionIsSafeExactly`.
- Redaction is said not to affect the mapping to error sentinels
  (internal/msb/client.go:171-172). For one secret that holds exactly if its
  value cannot share a place with a category's words
  (`Sentinels.RedactionKeepsCategoryExactly`); for a list of values that cannot
  share a place with the placeholder, exactly if that is so of every value no
  earlier value is part of (`Sentinels.ListKeepsCategoryExactly`).
- The readiness cache is said to bound the rate of `msb ls` regardless of
  request volume (internal/server/server.go:97-98). What the model counts is
  calls of the client's `List`; it does not say which of those that end in a
  cancelled context got as far as a process, which is up to os/exec. Calls that
  end so are not remembered, and the documented rate holds exactly if there are
  none: `Readiness.RateHoldsExactly`, with the bound that holds always attained
  (`Readiness.AllListingsAreBounded`, `Readiness.BoundIsAttained`).
- Sizes are read without an overflow check: `Size.OverflowIsSilent` exhibits a
  valid size that is read as a negative number, `Size.ParseIsExactWithin` says
  when that cannot happen.
- Interpolation is said never to let a value introduce a new key
  (cmd/msbctl/interpolate.go:18-22). Keys are scalars too and are rewritten with
  the rest (`MappingKeys.KeyIsRenamed`), and a key may be an alias of a scalar
  elsewhere that is (`MappingKeys.AliasedKeyIsRenamed`).
  `MappingKeys.KeysStayExactly` says that every key reads as before exactly if
  no key, with all below it and all that aliases in it stand for, refers to a
  variable. The number and the kinds of the nodes never change, nor what an
  alias stands for: `Interpolate.ValuesCannotChangeStructure`,
  `MappingKeys.AliasesKeepTheirTargets`.
- Validate guards SSH keys against NUL bytes (internal/spec/spec.go:161-165) but
  not the other free text it lets into the argv: `ArgvBytes.ValidSpecWithNul` is
  a valid spec no process can be started for, and `ArgvBytes.ArgvIsNulFreeExactly`
  says which those are.

## Model

| member | source | states |
|---|---|---|
| `ProtocolNecessity.ExclusionExactly` | internal/server/sandboxes.go:48-169 | over every run from every seeded state, no two running sandboxes ever share a volume, if and only if requests overlapping on one name are of compatible kinds, failed commands changed nothing, the undoing `rm -f` succeeds, and nobody else starts sandboxes |
| `ProtocolSafety.AlwaysGuarded` | internal/lock/volume.go:1-28 | under those assumptions every reachable state has every volume of every running sandbox held by that sandbox |
| `ProtocolSafety.HalfFinishedRequests` | internal/server/sandboxes.go:69-84 | in every reachable state: what a request is about to roll back is among the volumes it asked for and not mounted by its running sandbox; a create past its claim owns all its volumes; a request about to release has its sandbox down |
| `ProtocolAgreement.IdleLockAgrees` | internal/lock/volume.go:1-9 | from a lock that agrees with `msb`, in every interleaving within the assumptions and without outside interference: each claim is of a running mount or stands to be given back by a request in flight, and whenever none is in flight the lock holds v for s if and only if s runs and mounts v |
| `ProtocolNecessity.OverlapBreaks` | internal/server/sandboxes.go:75-84 | for every pair of kinds that is not compatible, letting it overlap on one name makes two running sandboxes with one volume reachable |
| `ProtocolNecessity.AmbiguousFailureBreaks` | internal/msb/client.go:70-78 | so does a command that had its effect and still failed, as a timed-out one may |
| `ProtocolNecessity.FailedRollbackBreaks` | internal/msb/client.go:179-195 | so does a failed key install whose `rm -f` fails too |
| `ProtocolNecessity.OutsideStartBreaks` | internal/lock/volume.go:110-113 | so does somebody else starting a sandbox |
| `ProtocolMutex.CallsAreSerial` | internal/msb/client.go:164-198 | in every interleaving, with no assumption: one mutating command in flight at most; the commands of one call contiguous and of the shape create, create-exec or create-exec-rm; each of the two mutexes free unless an unfinished request holds it; no request holding one of them holds or waits for the other |
| `ProtocolMutex.SomeoneCanMove` | internal/msb/client.go:332-351 | no deadlock: while requests are in flight one of them has a step it can take, whoever holds the two mutexes |
| `ProtocolMutex.RequestsAreBounded` | internal/server/sandboxes.go:48-169 | in every interleaving no request takes more than sixteen steps |
| `Service.ServesExclusivelyExactly` | cmd/msb-manager/main.go:106-112 | started on a faithful report, the server keeps volumes exclusive in every interleaving within the assumptions if and only if they were exclusive when it started |
| `Service.ReseedingWhenIdleChangesNothing` | internal/lock/volume.go:110-113 | at every such idle moment, seeding the lock again would install the very same map |
| `Refinement.WholeRequestIsARun` | internal/server/sandboxes.go:48-169 | what a whole request does to the lock and the sandboxes is what the interleaved machine does when it runs that request alone |
| `Refinement.WholeRequestsAreARun` | internal/server/sandboxes.go:48-169 | every run of whole requests is a run of the interleaved machine ending with the same lock and the same sandboxes |
| `Lock.VolumeLock.constructor` | internal/lock/volume.go:30-33 | a new lock holds nothing |
| `Lock.VolumeLock.Acquire` | internal/lock/volume.go:35-45 | refuses exactly a volume somebody else holds, naming the holder and changing nothing; otherwise adds that one claim |
| `Lock.VolumeLock.AcquireMany` | internal/lock/volume.go:47-71 | all or nothing: refuses, changing nothing, exactly if some volume is somebody else's, naming the first such; otherwise claims all and returns the newly claimed |
| `Lock.NewClaims` | internal/lock/volume.go:50-55 | the list to roll back is the requested volumes nobody held, each once |
| `Lock.VolumeLock.Release` | internal/lock/volume.go:73-82 | drops exactly the sandbox's claims |
| `Lock.VolumeLock.ReleaseVolumes` | internal/lock/volume.go:84-98 | drops exactly those of the listed volumes the sandbox still holds |
| `Lock.VolumeLock.Holder` | internal/lock/volume.go:100-108 | the holder if there is one, changing nothing |
| `Lock.VolumeLock.Reconcile` | internal/lock/volume.go:110-120 | the map becomes the given one |
| `Lock.RollbackRestores` | internal/lock/volume.go:84-89 | claiming and then releasing exactly the new claims gives back the original map |
| `Lock.ReleaseIsNotARollback` | internal/lock/volume.go:50-55 | rolling back by releasing the whole sandbox restores the map exactly when the sandbox held nothing before |
| `Lock.OthersKeepMyClaims` | internal/lock/volume.go:84-98 | no sequence of lock operations of other sandboxes changes what a sandbox holds |
| `Lock.RollbackUnderInterference` | internal/lock/volume.go:84-98 | with operations of other sandboxes in between, a rollback costs none of them a claim and leaves its own sandbox with what it held before |
| `Cache.GuardedIsExclusive` | internal/lock/volume.go:23-28 | a lock that misses no running sandbox's volume is enough for exclusion |
| `Cache.AgreementIsUnique` | internal/lock/volume.go:6-9 | at most one map agrees with what runs |
| `Client.Client.Create` | internal/msb/client.go:164-198 | of options the spec layer let through: the argv is built, and `msb` makes the sandbox it reads there; then the key install, then the undoing `rm -f`: the outcome, the commands issued and the sandboxes left, for every combination of answers, with the mutex free again |
| `Client.Client.Simple` | internal/msb/client.go:332-351 | start, stop and rm: one command under the mutex, its answer passed on |
| `Client.Client.VolumeCreate` | internal/msb/client.go:514-521 | one command under the mutex; the volume is there if it succeeded |
| `Client.Client.VolumeRm` | internal/msb/client.go:523-529 | one command under the mutex; the volume is gone if it succeeded |
| `Client.CreateCommandsExactly` | internal/msb/client.go:164-198 | the key installer is issued exactly after a create that landed with keys, `rm -f` exactly after an installer that failed, and nothing else |
| `Client.CreateIsAllOrNothingExactly` | internal/msb/client.go:175-196 | a Create that fails leaves the world as it was exactly unless its rollback failed |
| `Client.CreateKeepsExisting` | internal/msb/client.go:164-198 | Create never changes or removes a sandbox that existed before the call |
| `Lifecycle.Server.HandleCreate` | internal/server/sandboxes.go:64-94 | an invalid spec is answered with its first fault, changes nothing and issues no command; a valid one is refused exactly if somebody else holds the volume the spec names, with that holder; otherwise the reply is the first failure's cause or Created, and after Created the sandbox runs, mounts that volume and no other, and holds it; lock, sandboxes and commands are those of `Serve` and `CommandsFor` |
| `Lifecycle.CreateClaimsItsVolume` | internal/server/sandboxes.go:69-84 | the same of the create request the runs are made of, in terms of the volume's own name |
| `Lifecycle.Server.HandleStart` | internal/server/sandboxes.go:96-126 | claims the volumes inspect lists: refused exactly if somebody else holds one of them, naming one and its holder; otherwise 204 exactly if `msb` started it, else the cause; a failed inspect stops it before any claim; state and commands are those of `Serve` and `CommandsFor` |
| `Lifecycle.Server.HandleStop` | internal/server/sandboxes.go:128-148 | 204 exactly if `msb` stopped it, else the cause; on 204 and on "not found" the sandbox holds nothing any more; state and commands are those of `Serve` and `CommandsFor` |
| `Lifecycle.Server.HandleDelete` | internal/server/sandboxes.go:150-169 | the same for delete, after which the sandbox is gone |
| `Lifecycle.Server.HandleDeleteVolume` | internal/server/volumes.go:228-248 | refuses a held volume, naming its holder, before any command; otherwise 204 exactly if `msb` removed it, else the cause |
| `Lifecycle.Server.Claim` | internal/server/sandboxes.go:76-80 | the claim step of create and start, with the conflict reported for the first taken volume |
| `Lifecycle.CreateKeepsAgreementExactly` | internal/server/sandboxes.go:69-84 | a create keeps the lock in exact agreement with what runs exactly unless it leaves a volume-mounting orphan |
| `Lifecycle.ServeKeepsAgreementExactly` | internal/server/sandboxes.go:48-169 | the same for every kind of request |
| `Lifecycle.RunsKeepAgreement` | internal/server/sandboxes.go:48-169 | after every run of whole requests that leaves no such orphan, the lock holds v for s if and only if s runs and mounts v |
| `Lifecycle.ServeKeepsGuarded` | internal/server/sandboxes.go:134-145 | with others stopping or removing sandboxes in between, the lock may hold too long but never misses a running mount |
| `Lifecycle.RunsKeepGuarded` | internal/lock/volume.go:1-9 | and so over every run |
| `Lifecycle.RefusalLeavesNoTraceExactly` | internal/server/sandboxes.go:69-84 | a refused create or start leaves lock and volumes as they were, and the sandboxes too exactly unless it left an orphan |
| `Lifecycle.DeletedVolumeIsNotMounted` | internal/server/volumes.go:234-245 | in every run of whole requests, a volume DELETE removes is mounted by no running sandbox |
| `Lifecycle.InUseExactly` | internal/server/volumes.go:236-241 | while the cache agrees, DELETE is refused as in use exactly when a running sandbox mounts the volume, and names that sandbox |
| `VolumeDeletion.GapIsSafeExactly` | internal/server/volumes.go:236-245 | whatever requests are served between a lookup that passes and a removal that `msb` can carry out, the volume is unmounted when it goes, if and only if neither a create nor a start is among them |
| `InterleavedDeletion.DeletionIsSafeExactly` | internal/server/volumes.go:236-245 | in every interleaving within the assumptions, a DELETE whose lookup passes and whose removal later succeeds removes a volume no running sandbox mounts, if and only if no claim is taken between the two steps |
| `Lifecycle.OthersUntouched` | internal/server/sandboxes.go:48-169 | a request changes no other sandbox and no other sandbox's claims |
| `Inspect.VolumeNames` | internal/msb/types.go:77-88 | the names are exactly those of the named mounts |
| `Inspect.CollectVolumeNames` | internal/msb/types.go:80-88 | the loop computes them, in mount order |
| `Inspect.NamesAreVolumes` | internal/msb/types.go:77-88 | out of what `msb inspect` lists for a sandbox come exactly the volumes it mounts, in order |
| `Startup.ReconcileVolumes` | cmd/msb-manager/main.go:84-104 | succeeds exactly if the seed of the answers does, then the lock is that seed; otherwise the lock is unchanged and the error is the seed's |
| `Startup.SeedSaysExactly` | cmd/msb-manager/main.go:89-102 | for all answers: the seed fails exactly if inspecting a row shown as "Running" failed, with the first such error; otherwise a volume is in it exactly if such a row lists it as a "Named" mount, for the last row that does |
| `Startup.ReconcileVolumesWithRetry` | cmd/msb-manager/main.go:113-136 | success only with the lock seeded by the attempt that succeeded, every earlier one having failed and left it alone; each wait is the backoff of its number; given up only with the lock unchanged |
| `Startup.BackoffClosedForm` | cmd/msb-manager/main.go:131-134 | repeated doubling under a cap is the initial wait times a power of two, capped |
| `Startup.WaitAfterFailure` | cmd/msb-manager/main.go:114-134 | with the initial wait within the cap that one formula covers the first wait too |
| `Startup.SeedAgreesExactly` | cmd/msb-manager/main.go:82-104 | a report that shows states and mounts as `msb` shows them seeds a lock that agrees with what runs if and only if what runs is exclusive |
| `Startup.ReseedingChangesNothing` | internal/lock/volume.go:110-113 | after any run of whole requests from a seeded start, seeding again would install the very same map |
| `SshScript.SshKeysScript` | internal/msb/client.go:266-281 | the builder loop computes the script the laws below speak about |
| `SshScript.QuoteIsOneWord` | internal/msb/client.go:283-288 | for every NUL-free string, lexing its single-quoted form adds exactly that string to the word being read, quoted, and goes on with what follows |
| `SshScript.ScriptTokens` | internal/msb/client.go:266-281 | for all NUL-free keys the script lexes to its fixed commands around one `printf` of three words per key |
| `SshScript.ScriptInstallsKeys` | internal/msb/client.go:260-281 | for every non-empty list of NUL-free keys, running the script leaves /root/.ssh/authorized_keys with exactly the keys in order, one per line, and the directory and file at modes 700 and 600 |
| `SshScript.KeysRoundTripExactly` | internal/spec/spec.go:157-166 | reading the installed file back line by line gives the keys, if and only if none contains a newline |
| `CreateArgs.BuildCreateArgs` | internal/msb/client.go:211-258 | the argv built in both dispatch paths is the specified one |
| `CreateArgs.BuildEnvArgs` | internal/msb/client.go:227-229 | one `-e` pair per entry, in sorted key order, whatever order the map yields its keys |
| `CreateArgs.BuildPortArgs` | internal/msb/client.go:230-232 | one `-p` pair per mapping, in order |
| `CreateArgs.BuildSecretArgs` | internal/msb/client.go:233-242 | one `--secret` pair per secret, in order |
| `CreateArgs.ArgsRoundTrip` | internal/msb/client.go:200-258 | for all readable options, decoding the argv gives the options back, whichever `@` secrets are split at; the decoder takes no zero count, no flag twice and no `run` that does not detach |
| `CreateArgs.SecretReadsBack` | internal/msb/client.go:241 | split at the first `@` a secret reads back exactly if its value has none, split at the last exactly if its host has none |
| `CreateArgs.SplitsAgreeExactly` | internal/spec/spec.go:192-199 | the two ways to split a secret agree exactly when its value has no `@`, which is why Validate refuses one |
| `Text.SortedKeys` | internal/msb/client.go:307-317 | the keys of the map, strictly sorted, from any iteration order |
| `Text.SortedIsUnique` | internal/msb/client.go:200-202 | two strictly sorted lists of the same keys are equal, so the argv depends on the map's contents only |
| `Text.LessExactly` | internal/msb/client.go:307-317 | that order is byte by byte, the first difference deciding, a proper beginning first |
| `Text.TrimExactly` | internal/msb/errors.go:47 | trimming takes the six ASCII white-space characters off both ends and nothing else |
| `Spec.Validate` | internal/spec/spec.go:97-202 | accepts exactly the well-formed specs, and otherwise names a true fault no other fault of the spec comes before in the order the code looks |
| `Spec.FirstFaultIsUnique` | internal/spec/spec.go:97-202 | there is only one such fault to name |
| `Patterns.NamesExactly` | internal/msb/validate.go:20 | the predicate for names accepts exactly what the regular expression, part by part, does |
| `Patterns.ImagesExactly` | internal/msb/validate.go:26 | so does the one for images |
| `Patterns.SizesExactly` | internal/msb/validate.go:31 | and for sizes |
| `Patterns.EnvKeysExactly` | internal/msb/validate.go:38 | and for variable names |
| `Spec.ValidateEnv` | internal/spec/spec.go:144-148 | accepts exactly if every key is an environment variable name, naming otherwise the first bad key in sorted order |
| `Spec.ValidatePorts` | internal/spec/spec.go:149-156 | accepts exactly if all ports are in range, naming otherwise the first bad one |
| `Spec.ValidateKeys` | internal/spec/spec.go:157-166 | accepts exactly non-empty keys without newline or NUL, naming otherwise the first bad one |
| `Spec.ValidateSecrets` | internal/spec/spec.go:167-200 | accepts exactly the secrets whose assembled argument is unambiguous, naming otherwise the first bad one |
| `Spec.ToCreateOpts` | internal/spec/spec.go:72-95 | each field of the options is the spec's field of that meaning, lists in order |
| `Spec.SpecSurvivesTheCommandLine` | internal/spec/spec.go:97-202 | the argv built for a spec Validate accepts asks `msb` for exactly the spec's name, image, snapshot, CPUs, memory, volume, variables, ports, secrets and keys, field by field |
| `ArgvBytes.ArgvIsNulFreeExactly` | internal/spec/spec.go:97-202 | no argument of a valid spec's argv holds a NUL, as handing it to a process needs, if and only if no env value, mount or part of a secret does |
| `ArgvBytes.ValidSpecWithNul` | internal/spec/spec.go:144-148 | a spec Validate accepts whose argv holds one |
| `Spec.CommandLineIsInjective` | internal/msb/client.go:200-202 | two valid specs with the same argv ask for the same sandbox |
| `Size.ParseSizeMiB` | internal/msb/size.go:33-50 | the scanning loop computes the parse the laws below speak about, error cases included |
| `Size.ParseSaysWhy` | internal/msb/size.go:33-50 | digits and whatever follows them: no number, then a number past 63 bits, then an unknown unit, else the 64-bit product |
| `Size.WrapIsTwosComplement` | internal/msb/size.go:49 | that product is the true one up to a multiple of 2^64, in the signed range |
| `Size.EverySpelling` | internal/msb/size.go:14-25 | what a number denotes with each of the ten spellings, in any case, and that with any other it denotes nothing |
| `Size.DenotesNumberTimesUnit` | internal/msb/size.go:9-25 | digits followed by letters denote the decimal value times the unit's MiB, or nothing if the unit is unknown |
| `Size.ParseIsExactWithin` | internal/msb/size.go:41-49 | an accepted size parses to what it denotes exactly when that fits in 63 bits |
| `Size.ParseAcceptsWhatFits` | internal/msb/size.go:33-50 | whatever denotes a number that fits is accepted, with that number |
| `Size.SameSizeExactly` | internal/msb/size.go:27-32 | within range two sizes compare equal if and only if they denote the same number of MiB |
| `Size.GigabytesAreMegabytes` | internal/msb/size.go:9-25 | nG denotes what (1024*n)M denotes, and parses to the same number when that fits |
| `Size.LeadingZerosDoNotMatter` | internal/msb/size.go:35-44 | a leading zero changes nothing |
| `Size.LetterCaseDoesNotMatter` | internal/msb/size.go:45 | nor does the case of the unit |
| `Size.OverflowIsSilent` | internal/msb/size.go:49 | 2^53 GiB, written as a size the handler lets through and denoting 2^63 MiB, is accepted without an error and read as -2^63 |
| `VolumeBatch.Validate` | internal/server/volumes.go:59-78 | accepts exactly a non-empty manifest of well-formed items, naming otherwise the first bad item and its fault |
| `VolumeBatch.PlanVolumeBatch` | internal/server/volumes.go:203-226 | the loop computes the plan the laws below speak about, item by item |
| `VolumeBatch.CreateVolumeBatch` | internal/server/volumes.go:144-189 | a bad manifest or a failed listing makes no call and changes nothing; otherwise volumes, calls and reply are those of executing the plan, every item is reported for what it was, 207 exactly if a result is an error, and after 201 every volume of the manifest has its size |
| `VolumeBatch.EveryItemIsReported` | internal/server/volumes.go:191-225 | for all manifests and refusals: an item is reported as existing exactly if its name was there at the size it asks for, as a mismatch of both sizes exactly if it was there at another, as created or failed to be exactly if it was absent, and with the parse error if its size has none |
| `VolumeBatch.CleanBatchMeetsTheManifest` | internal/server/volumes.go:144-189 | a batch without errors leaves every volume it names at the number of MiB its size denotes |
| `VolumeBatch.ExecutePlan` | internal/server/volumes.go:168-179 | the loop that rewrites failed results in place does what executing the plan in order does |
| `VolumeBatch.Existing` | internal/server/volumes.go:162-165 | the map holds exactly the listed names, each with a listed quota |
| `VolumeBatch.StatusOf` | internal/server/volumes.go:181-187 | 207 if and only if some result is an error |
| `VolumeBatch.ReportIsFaithful` | internal/server/volumes.go:191-202 | results follow the plan one to one; calls are exactly the planned creates in order; the volumes are the old ones unchanged plus exactly those reported created, at their parsed size, none twice |
| `VolumeBatch.RunAgainDoesNothing` | internal/server/volumes.go:139-143 | after a batch without errors, running it again makes no call, changes nothing and reports every item as existing |
| `VolumeBatch.DistinctItemsSettleAlone` | internal/server/volumes.go:168-179 | without duplicate names each item gets the result it would get on its own |
| `VolumeBatch.OrderDoesNotMatter` | internal/server/volumes.go:155-188 | and permuting such a manifest permutes its results and leaves the same volumes |
| `Interpolate.Interpolate` | cmd/msbctl/interpolate.go:31-83 | a blank or unparsable document is refused untouched; otherwise the nodes are rewritten in place to the rewritten tree, and it succeeds if and only if every referenced name resolves and the result encodes, else listing exactly the undefined names, sorted and without duplicates |
| `Interpolate.InterpolateFor` | cmd/msbctl/interpolate.go:85-99 | as called from the command line: a document that parses and encodes succeeds exactly if every name has a --set entry or a non-blank environment value; then at every path, however the scalar is split, stand its literals with each reference replaced by the --set entry, or by the environment's value where there is none; else exactly the names without either are listed |
| `Interpolate.RewritingSubstitutes` | cmd/msbctl/interpolate.go:42-66 | the rewriting does that for every tree |
| `Interpolate.PlaceholderSyntax` | cmd/msbctl/interpolate.go:14-16 | a placeholder is `${NAME}`, NAME a letter or underscore and then letters, digits and underscores |
| `Interpolate.Node.Walk` | cmd/msbctl/interpolate.go:43-65 | the recursive walk turns the node and all below it into the rewritten tree and adds exactly the undefined names met; kinds and children are constants it cannot assign |
| `Interpolate.ReplaceReferences` | cmd/msbctl/interpolate.go:46-56 | one scalar: the expansion, and the undefined names among its references |
| `Interpolate.ScanFindsEveryPlaceholder` | cmd/msbctl/interpolate.go:14-16 | the leftmost scan looks up exactly the names that occur as a placeholder anywhere in the text |
| `Interpolate.ExpansionIsConcatenation` | cmd/msbctl/interpolate.go:46-56 | however a text is split into literals and references, its expansion is the literals and the values side by side: substituted text is never scanned again |
| `Interpolate.EveryTextSplits` | cmd/msbctl/interpolate.go:46-56 | every text can be so split |
| `Interpolate.OnlyScalarsWithPlaceholdersChange` | cmd/msbctl/interpolate.go:18-27 | at every path the kind and number of children stay; a node without a placeholder is untouched; a scalar with one becomes a double-quoted string of its literals and values in order |
| `Interpolate.ValuesCannotChangeStructure` | cmd/msbctl/interpolate.go:18-22 | for any two choices of values the results have the same shape, kinds, anchors, tags and styles, and differ in text only where a name with different values is referred to |
| `MappingKeys.KeysStayExactly` | cmd/msbctl/interpolate.go:18-21 | every mapping key reads, with aliases replaced by what they stand for and to any depth, after each interpolation that succeeds as it read before, if and only if no node such a reading meets refers to a variable |
| `MappingKeys.KeyIsRenamed` | cmd/msbctl/interpolate.go:44-65 | a document whose key holds a placeholder and becomes the value of the variable |
| `MappingKeys.AliasedKeyIsRenamed` | cmd/msbctl/interpolate.go:44-65 | a document none of whose keys holds a placeholder, and a key of which, an alias, becomes the value all the same |
| `MappingKeys.AliasesKeepTheirTargets` | cmd/msbctl/interpolate.go:62-64 | the rewrite leaves every alias standing for the node it stood for |
| `MappingKeys.OneTarget` | cmd/msbctl/interpolate.go:37-40 | an alias stands for at most one node: the nearest before it that carries its name |
| `Interpolate.NamesBelowExactly` | cmd/msbctl/interpolate.go:42-66 | the names collected over the tree are exactly those some scalar refers to |
| `Interpolate.SetOverridesEnvironment` | cmd/msbctl/interpolate.go:85-99 | where --set has an entry the environment makes no difference to the result |
| `Redact.RedactSecrets` | internal/msb/client.go:293-305 | the loop computes the redaction the laws below speak about |
| `Redact.ReplacingKeepsTheRest` | internal/msb/client.go:293-305 | a replacement changes nothing but the value: the text is pieces without it, joined by the placeholder afterwards as by the value before |
| `Redact.RedactedTextHasNoSecret` | internal/msb/client.go:290-305 | for every text and all secrets none of which can share a place with the placeholder, the output contains none of the values |
| `Sentinels.DetailHasNoSecret` | internal/msb/client.go:169-173 | so the detail of the error a failed create is classified as holds none of them either |
| `Redact.PlainValuesDoNotOverlap` | internal/msb/client.go:302 | values without `*` that are no part of the word REDACTED meet that condition |
| `Redact.ReplacingAddsNothing` | internal/msb/client.go:298-303 | a later replacement never recreates such a value |
| `Redact.OneValueIsRemovedExactly` | internal/msb/client.go:302 | for a single value the condition is exact: every text comes out free of it if and only if it can share no place with the placeholder |
| `Errors.AnchoredAgainstGeneral` | internal/msb/errors.go:46-81 | what the anchored classifier recognises the general one recognises too, in the same row exactly when no earlier row occurs anywhere |
| `Errors.RecognisedExactly` | internal/msb/errors.go:46-55 | the general classifier recognises exactly the texts in which one of the table's eight occurs |
| `Errors.CategoryAndDetail` | internal/msb/errors.go:46-55 | of those that occur the first of the table gives the category, each its own, and the trimmed rest after its first occurrence is the detail |
| `Errors.AnchoredExactly` | internal/msb/errors.go:68-81 | the anchored one recognises exactly the texts that start with `error: ` and one of them |
| `Errors.AnchoredCategoryAndDetail` | internal/msb/errors.go:68-97 | with the same category, and what follows as the detail |
| `Errors.RedactionKeepsCategory` | internal/msb/client.go:169-173 | redacting any list of secrets that cannot share a place with a category's words leaves the category of every stderr as it was |
| `Errors.CategoryCanBeLost` | internal/msb/client.go:169-173 | a secret that spells out a category's words takes the category with it |
| `Sentinels.RedactionKeepsCategoryExactly` | internal/msb/client.go:169-173 | for one secret: redaction leaves the category of every stderr alone if and only if the value can share no place with any category's words |
| `Sentinels.ListKeepsCategoryExactly` | internal/msb/client.go:293-305 | for a list of secrets none of which can share a place with the placeholder: the same if and only if it holds of every value that no earlier value is part of |
| `Sentinels.BlotLosesCategory` | internal/msb/client.go:293-305 | for any list: one such value that shares a place with a category's words makes some stderr lose its category |
| `Sentinels.NoPrefixInAnother` | internal/msb/errors.go:83-97 | no prefix of the table occurs within another |
| `Capture.CapWriter.Write` | internal/msb/exec_runner.go:84-94 | one write absorbs the chunk into what is kept and whether it overflowed |
| `Capture.CaptureIgnoresChunking` | internal/msb/exec_runner.go:73-94 | for every sequence of writes, the writer keeps exactly the first `limit` bytes of their concatenation and reports overflow if and only if there were more |
| `Capture.Run` | internal/msb/exec_runner.go:45-71 | both streams cut at the limit, 32 MiB if none is set, with the overflow sentinel exactly if one was cut |
| `Capture.Exec` | internal/msb/client.go:373-413 | the whole path from the child's writes to a result or an error |
| `Capture.ExecResultsAreCompleteExactly` | internal/msb/client.go:381-413 | an Exec gives a result exactly when both streams fit and the child's end counts as an outcome, and a result always carries both streams complete and the exit code |
| `Capture.ExecFailuresAreToldApart` | internal/msb/client.go:392-413 | without a result: timeout, overflow, a recognised anchored category and the child's own end are each reported exactly when they happened |
| `Capture.FailuresAreToldApart` | internal/msb/client.go:103-117 | for every other command: success, timeout, overflow and a recognised category are each reported exactly when they happened, stderr being read only if it is whole |
| `Readiness.ReadinessCache.Ready` | internal/server/server.go:111-127 | one call: answer, listing or not, and the new cache, cancelled listings not being remembered |
| `Readiness.CacheIsLastCheck` | internal/server/server.go:106-127 | over every run the cache holds the last listing that was not cancelled |
| `Readiness.ListingsAreSpaced` | internal/server/server.go:90-98 | on a clock that does not go back, every listing starts at least ttl after any earlier remembered one ended |
| `Readiness.AnswersAreRecent` | internal/server/server.go:106-127 | every answer is the outcome of a listing that just ran or that ended less than ttl before |
| `Readiness.ListingRateIsBounded` | internal/server/server.go:97-98 | a window of length T sees at most T/ttl + 1 remembered listings start |
| `Readiness.AllListingsAreBounded` | internal/server/server.go:90-98 | counting every listing, the window sees at most T/ttl + 1 plus one for each caller that left |
| `Readiness.BoundIsAttained` | internal/server/server.go:111-127 | for every ttl, window and number of callers that leave, an orderly run reaches that bound |
| `Readiness.RateHoldsExactly` | internal/server/server.go:97-98 | with at most c callers leaving, every window sees at most T/ttl + 1 listings, if and only if c is 0 |
| `Readiness.CancelledListingsAreUnbounded` | internal/server/server.go:118-123 | for every n there is a run of n calls at one instant each of which lists, all cancelled |

## Left out

- HTTP routing, headers, bearer auth, body limits, JSON and YAML decoding and encoding: handlers start from a decoded request, interpolation from what the parser makes of the text; whether the text parses and the result encodes is given.
- Processes, signals, cancellation and real time: a command is an answer, the clock an integer; the wait times of the retry loop are exact integers, so the overflow of a duration doubled past 63 bits is not modelled.
- The real behaviour of `msb`: see the assumptions above. Snapshots, logs and metrics have no state of their own and are not modelled beyond holding the mutex.
- The argv of the commands other than create: fixed words, and names behind `--`.
- Texts of error messages, the table from errors to HTTP status codes, and logging.
- msbctl beyond interpolation: command dispatch, flags, configuration files, rendering.
- Strings are bytes: Unicode case folding and white space outside ASCII are not modelled.
- In the interleaved machine a failed Create is recorded without its error category, which the handler does not look at; creating volumes, snapshot commands and guest exec are one kind of request that takes the mutex for one command and changes no sandbox; and which volumes exist is not part of its state, a removal being one whatever it finds.
- What a reader makes of tags, merge keys and duplicate keys: a reading is the tags, texts and members of a node with aliases followed. The pointer the parser keeps from an alias to its target is not stored; the anchors' names determine it, and they are what the encoder writes.
- Sentinels.ListKeepsCategoryExactly: the list version supposes values that cannot share a place with the placeholder, since replacing one that can may put parts of later values into the text; Errors.RedactionKeepsCategory and Sentinels.BlotLosesCategory hold of every list.
