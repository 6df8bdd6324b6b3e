/**
 The lifecycle handlers, one whole request after another: the volume lock as a
 cache of what `msb` runs.
 */
module Lifecycle {
  import opened Wrappers
  import opened Msb
  import opened Lock
  import opened Cache
  import opened Client
  import opened Inspect
  import S = Spec
  import opened Identifiers
  import opened CreateArgs

  datatype Reply =
    | Created
    | NoContent
    | InvalidSpec(fault: S.SpecError)
    | InvalidName
    | VolumeTaken(busy: LockError)
    | VolumeInUse(holder: string)
    | AdapterFailed(error: MsbError)

  predicate Refused(r: Reply) {
    !r.Created? && !r.NoContent?
  }

  /** What a request can change: the lock, the sandboxes and the volumes. */
  datatype State = State(held: Claims, world: World, volumes: map<string, int>)

  /** A request with the answers `msb` gives it, or something done to `msb` behind the server's back. */
  datatype Request =
    | CreateSandbox(name: string, mounts: seq<string>, keys: bool, answers: CreateAnswers)
    | StartSandbox(name: string, inspect: Outcome, answer: Outcome)
    | StopSandbox(name: string, answer: Outcome)
    | DeleteSandbox(name: string, answer: Outcome)
    | DeleteVolume(name: string, answer: Outcome)
    | OutsideStop(name: string)
    | OutsideRemove(name: string)

  predicate Outside(r: Request) {
    r.OutsideStop? || r.OutsideRemove?
  }

  predicate Possible(st: State, r: Request) {
    match r
    case CreateSandbox(name, mounts, keys, a) => PossibleAnswers(st.world, name, mounts, keys, a)
    case StartSandbox(name, inspect, answer) =>
      && (inspect.Ok? ==> name in st.world)
      && MayAnswer(st.world, Start(name), answer)
    case StopSandbox(name, answer) => MayAnswer(st.world, Stop(name), answer)
    case DeleteSandbox(name, answer) => MayAnswer(st.world, Remove(name), answer)
    case DeleteVolume(name, answer) => answer.Ok? ==> name in st.volumes
    case OutsideStop(name) => name in st.world
    case OutsideRemove(name) => name in st.world
  }

  /** The first volume of the list somebody else holds, as the lock reports it. */
  function FirstBusy(held: Claims, volumes: seq<string>, sandbox: string): LockError
    requires AnyBusy(held, volumes, sandbox)
    decreases |volumes|
  {
    if Busy(held, volumes[0], sandbox) then VolumeBusy(volumes[0], held[volumes[0]])
    else
      assert AnyBusy(held, volumes[1..], sandbox) by {
        var i :| 0 <= i < |volumes| && Busy(held, volumes[i], sandbox);
        assert volumes[1..][i - 1] == volumes[i];
      }
      FirstBusy(held, volumes[1..], sandbox)
  }

  /** The state a whole request leaves. */
  function Serve(st: State, r: Request): State
    requires Possible(st, r)
  {
    match r
    case CreateSandbox(name, mounts, keys, a) =>
      if AnyBusy(st.held, mounts, name) then st
      else
        var claimed := Claimed(st.held, mounts, name);
        st.(world := CreateWorld(st.world, name, mounts, keys, a),
            held := if CreateOutcome(keys, a).Ok? then claimed
                    else ReleasedOnly(claimed, NewClaims(st.held, mounts), name))
    case StartSandbox(name, inspect, answer) =>
      if inspect.Failed? || AnyBusy(st.held, st.world[name].volumes, name) then st
      else
        var volumes := st.world[name].volumes;
        var claimed := Claimed(st.held, volumes, name);
        st.(world := After(st.world, Start(name), answer),
            held := if answer.Ok? then claimed else ReleasedOnly(claimed, NewClaims(st.held, volumes), name))
    case StopSandbox(name, answer) =>
      st.(world := After(st.world, Stop(name), answer), held := ReleasedIfDown(st.held, name, answer))
    case DeleteSandbox(name, answer) =>
      st.(world := After(st.world, Remove(name), answer), held := ReleasedIfDown(st.held, name, answer))
    case DeleteVolume(name, answer) =>
      if name in st.held || answer.Failed? then st else st.(volumes := st.volumes - {name})
    case OutsideStop(name) => st.(world := Effect(st.world, Stop(name)))
    case OutsideRemove(name) => st.(world := Effect(st.world, Remove(name)))
  }

  /** A stop or delete that succeeded, or that found nothing to act on, frees the sandbox's claims. */
  function ReleasedIfDown(held: Claims, name: string, answer: Outcome): Claims {
    if answer.Ok? || answer.error == NotFound then Released(held, name) else held
  }

  function FromAdapter(o: Outcome, success: Reply): Reply {
    if o.Ok? then success else AdapterFailed(o.error)
  }

  function ReplyTo(st: State, r: Request): Reply
    requires Possible(st, r) && !Outside(r)
  {
    match r
    case CreateSandbox(name, mounts, keys, a) =>
      if AnyBusy(st.held, mounts, name) then VolumeTaken(FirstBusy(st.held, mounts, name))
      else FromAdapter(CreateOutcome(keys, a), Created)
    case StartSandbox(name, inspect, answer) =>
      if inspect.Failed? then AdapterFailed(inspect.error)
      else if AnyBusy(st.held, st.world[name].volumes, name) then
        VolumeTaken(FirstBusy(st.held, st.world[name].volumes, name))
      else FromAdapter(answer, NoContent)
    case StopSandbox(_, answer) => FromAdapter(answer, NoContent)
    case DeleteSandbox(_, answer) => FromAdapter(answer, NoContent)
    case DeleteVolume(name, answer) =>
      if name in st.held then VolumeInUse(st.held[name]) else FromAdapter(answer, NoContent)
  }

  /** The mutating commands a request issues, in order: none at all when it is refused before reaching the client. */
  function CommandsFor(st: State, r: Request): seq<Command>
    requires Possible(st, r) && !Outside(r)
  {
    match r
    case CreateSandbox(name, mounts, keys, a) =>
      if AnyBusy(st.held, mounts, name) then [] else CreateCommands(name, mounts, keys, a)
    case StartSandbox(name, inspect, _) =>
      if inspect.Failed? || AnyBusy(st.held, st.world[name].volumes, name) then [] else [Start(name)]
    case StopSandbox(name, _) => [Stop(name)]
    case DeleteSandbox(name, _) => [Remove(name)]
    case DeleteVolume(name, _) => if name in st.held then [] else [Command.RemoveVolume(name)]
  }

  lemma {:induction false} FirstBusyIsFirst(held: Claims, volumes: seq<string>, sandbox: string, i: nat)
    requires i < |volumes| && Busy(held, volumes[i], sandbox) && !AnyBusy(held, volumes[..i], sandbox)
    ensures AnyBusy(held, volumes, sandbox)
    ensures FirstBusy(held, volumes, sandbox) == VolumeBusy(volumes[i], held[volumes[i]])
    decreases i
  {
    if i > 0 {
      assert volumes[..i][0] == volumes[0];
      assert volumes[1..][..i - 1] == volumes[..i][1..];
      FirstBusyIsFirst(held, volumes[1..], sandbox, i - 1);
    }
  }

  /**
   A create with a volume is refused exactly if somebody else holds that volume;
   otherwise the answer is the first failure's, or Created, and then the sandbox
   runs, mounts that volume and no other, and holds it.
   */
  lemma CreateClaimsItsVolume(st: State, name: string, volume: Option<VolumeMount>, keys: bool, a: CreateAnswers)
    requires PossibleAnswers(st.world, name, Mounted(volume), keys, a)
    ensures var r := CreateSandbox(name, Mounted(volume), keys, a);
            var now, reply := Serve(st, r), ReplyTo(st, r);
            && (if volume.Some? && volume.value.name in st.held && st.held[volume.value.name] != name then
                  reply == VolumeTaken(VolumeBusy(volume.value.name, st.held[volume.value.name]))
                else
                  reply == if a.create.Failed? then AdapterFailed(a.create.error)
                           else if keys && a.exec.Failed? then AdapterFailed(a.exec.error) else Created)
            && (reply.Created? && volume.Some? ==> Holds(now.held, volume.value.name, name))
            && (reply.Created? ==> name in now.world && now.world[name].running)
            && (reply.Created? ==> forall v :: Runs(now.world, name, v) <==> volume.Some? && v == volume.value.name)
  {
    if volume.Some? {
      assert Mounted(volume)[0] == volume.value.name;
    }
  }

  lemma {:induction false} BusyVolume(held: Claims, volumes: seq<string>, sandbox: string)
    ensures AnyBusy(held, volumes, sandbox) <==> exists v | v in volumes :: v in held && held[v] != sandbox
    ensures AnyBusy(held, volumes, sandbox) ==>
              var busy := FirstBusy(held, volumes, sandbox);
              busy.volume in volumes && Holds(held, busy.volume, busy.holder) && busy.holder != sandbox
    decreases |volumes|
  {
    if AnyBusy(held, volumes, sandbox) && !Busy(held, volumes[0], sandbox) {
      BusyVolume(held, volumes[1..], sandbox);
    }
  }

  /** The answer of an inspect, whatever it lists. */
  function Inspected(r: Result<seq<Mount>, MsbError>): Outcome {
    if r.Success? then Ok else Failed(r.error)
  }

  class Server {
    const lock: VolumeLock
    const client: Client

    constructor (lock: VolumeLock, client: Client)
      ensures this.lock == lock && this.client == client
    {
      this.lock := lock;
      this.client := client;
    }

    ghost function Now(): State
      reads lock, client.host
    {
      State(lock.held, client.host.sandboxes, client.host.volumes)
    }

    method Claim(volumes: seq<string>, name: string) returns (r: Result<seq<string>, LockError>)
      modifies lock
      ensures r == if AnyBusy(old(lock.held), volumes, name) then Failure(FirstBusy(old(lock.held), volumes, name))
                   else Success(NewClaims(old(lock.held), volumes))
      ensures lock.held == if r.Success? then Claimed(old(lock.held), volumes, name) else old(lock.held)
    {
      r := lock.AcquireMany(volumes, name);
      if r.Failure? {
        var i: nat :| i < |volumes| && Busy(lock.held, volumes[i], name)
                      && r.error == VolumeBusy(volumes[i], lock.held[volumes[i]])
                      && !AnyBusy(lock.held, volumes[..i], name);
        FirstBusyIsFirst(lock.held, volumes, name, i);
      }
    }

    /** A spec that passed: its volume claimed before `msb` is touched, and given back if the create fails. */
    method ClaimAndCreate(s: S.Spec, a: CreateAnswers) returns (reply: Reply)
      requires S.WellFormed(s) && !client.locked
      requires PossibleAnswers(client.host.sandboxes, s.name, Mounted(s.volume), s.sshKeys != [], a)
      modifies lock, client`locked, client.host`sandboxes, client.host`commands
      ensures !client.locked && !reply.InvalidSpec?
      ensures var r := CreateSandbox(s.name, Mounted(s.volume), s.sshKeys != [], a);
              && Now() == Serve(old(Now()), r) && reply == ReplyTo(old(Now()), r)
              && client.host.commands == old(client.host.commands) + CommandsFor(old(Now()), r)
    {
      var volumes := S.VolumesFromSpec(s);
      var newlyClaimed := Claim(volumes, s.name);
      if newlyClaimed.Failure? {
        return VolumeTaken(newlyClaimed.error);
      }
      var opts := S.ToCreateOpts(s);
      S.WellFormedIsReadable(s, client.host.at);
      var o := client.Create(opts, a);
      if o.Failed? {
        lock.ReleaseVolumes(newlyClaimed.value, s.name);
        return AdapterFailed(o.error);
      }
      reply := Created;
    }

    method HandleCreate(s: S.Spec, a: CreateAnswers) returns (reply: Reply)
      requires !client.locked
      requires PossibleAnswers(client.host.sandboxes, s.name, Mounted(s.volume), s.sshKeys != [], a)
      modifies lock, client`locked, client.host`sandboxes, client.host`commands
      ensures !client.locked
      ensures reply.InvalidSpec? <==> !S.WellFormed(s)
      ensures reply.InvalidSpec? ==> S.IsFirstFault(s, reply.fault)
      ensures !S.WellFormed(s) ==> Now() == old(Now()) && client.host.commands == old(client.host.commands)
      ensures S.WellFormed(s) ==>
                var r := CreateSandbox(s.name, Mounted(s.volume), s.sshKeys != [], a);
                && Now() == Serve(old(Now()), r) && reply == ReplyTo(old(Now()), r)
                && client.host.commands == old(client.host.commands) + CommandsFor(old(Now()), r)
      ensures S.WellFormed(s) ==>
                var taken := && s.volume.Some? && s.volume.value.name in old(lock.held)
                             && old(lock.held)[s.volume.value.name] != s.name;
                reply == if taken then VolumeTaken(VolumeBusy(s.volume.value.name, old(lock.held)[s.volume.value.name]))
                         else if a.create.Failed? then AdapterFailed(a.create.error)
                         else if s.sshKeys != [] && a.exec.Failed? then AdapterFailed(a.exec.error) else Created
      ensures reply.Created? && s.volume.Some? ==> Holds(lock.held, s.volume.value.name, s.name)
      ensures reply.Created? ==>
                && s.name in client.host.sandboxes && client.host.sandboxes[s.name].running
                && forall v :: Runs(client.host.sandboxes, s.name, v) <==> s.volume.Some? && v == s.volume.value.name
    {
      var fault := S.Validate(s);
      if fault.Some? {
        return InvalidSpec(fault.value);
      }
      CreateClaimsItsVolume(Now(), s.name, s.volume, s.sshKeys != [], a);
      reply := ClaimAndCreate(s, a);
    }

    method HandleStart(name: string, inspect: Result<seq<Mount>, MsbError>, answer: Outcome) returns (reply: Reply)
      requires !client.locked && Possible(Now(), StartSandbox(name, Inspected(inspect), answer))
      requires inspect.Success? ==> ListsVolumes(inspect.value, client.host.sandboxes[name].volumes)
      modifies lock, client`locked, client.host`sandboxes, client.host`commands
      ensures !client.locked
      ensures reply.InvalidName? <==> !ValidName(name)
      ensures !ValidName(name) ==> Now() == old(Now()) && client.host.commands == old(client.host.commands)
      ensures ValidName(name) ==>
                var r := StartSandbox(name, Inspected(inspect), answer);
                && Now() == Serve(old(Now()), r) && reply == ReplyTo(old(Now()), r)
                && client.host.commands == old(client.host.commands) + CommandsFor(old(Now()), r)
      ensures ValidName(name) && inspect.Failure? ==> reply == AdapterFailed(inspect.error)
      ensures ValidName(name) && inspect.Success? ==>
                var volumes := old(client.host.sandboxes)[name].volumes;
                && (reply.VolumeTaken? <==>
                      exists v | v in volumes :: v in old(lock.held) && old(lock.held)[v] != name)
                && (reply.VolumeTaken? ==> reply.busy.volume in volumes && reply.busy.holder != name
                                           && Holds(old(lock.held), reply.busy.volume, reply.busy.holder))
                && (!reply.VolumeTaken? ==> reply == if answer.Ok? then NoContent else AdapterFailed(answer.error))
      ensures reply.NoContent? ==> forall v :: Runs(client.host.sandboxes, name, v) ==> Holds(lock.held, v, name)
    {
      if !ValidName(name) {
        return InvalidName;
      }
      if inspect.Failure? {
        return AdapterFailed(inspect.error);
      }
      var volumes := CollectVolumeNames(inspect.value);
      NamesAreVolumes(inspect.value, client.host.sandboxes[name].volumes);
      BusyVolume(lock.held, volumes, name);
      var newlyClaimed := Claim(volumes, name);
      if newlyClaimed.Failure? {
        return VolumeTaken(newlyClaimed.error);
      }
      var o := client.Simple(Start(name), answer);
      if o.Failed? {
        lock.ReleaseVolumes(newlyClaimed.value, name);
        return AdapterFailed(o.error);
      }
      reply := NoContent;
    }

    method HandleStop(name: string, answer: Outcome) returns (reply: Reply)
      requires !client.locked && Possible(Now(), StopSandbox(name, answer))
      modifies lock, client`locked, client.host`sandboxes, client.host`commands
      ensures !client.locked
      ensures reply.InvalidName? <==> !ValidName(name)
      ensures !ValidName(name) ==> Now() == old(Now()) && client.host.commands == old(client.host.commands)
      ensures ValidName(name) ==>
                var r := StopSandbox(name, answer);
                && Now() == Serve(old(Now()), r) && reply == ReplyTo(old(Now()), r)
                && client.host.commands == old(client.host.commands) + CommandsFor(old(Now()), r)
      ensures ValidName(name) ==> reply == if answer.Ok? then NoContent else AdapterFailed(answer.error)
      ensures reply == NoContent || reply == AdapterFailed(NotFound) ==> forall v :: !Holds(lock.held, v, name)
    {
      if !ValidName(name) {
        return InvalidName;
      }
      var o := client.Simple(Stop(name), answer);
      if o.Failed? {
        if o.error == NotFound {
          lock.Release(name);
        }
        return AdapterFailed(o.error);
      }
      lock.Release(name);
      reply := NoContent;
    }

    method HandleDelete(name: string, answer: Outcome) returns (reply: Reply)
      requires !client.locked && Possible(Now(), DeleteSandbox(name, answer))
      modifies lock, client`locked, client.host`sandboxes, client.host`commands
      ensures !client.locked
      ensures reply.InvalidName? <==> !ValidName(name)
      ensures !ValidName(name) ==> Now() == old(Now()) && client.host.commands == old(client.host.commands)
      ensures ValidName(name) ==>
                var r := DeleteSandbox(name, answer);
                && Now() == Serve(old(Now()), r) && reply == ReplyTo(old(Now()), r)
                && client.host.commands == old(client.host.commands) + CommandsFor(old(Now()), r)
      ensures ValidName(name) ==> reply == if answer.Ok? then NoContent else AdapterFailed(answer.error)
      ensures reply == NoContent ==> name !in client.host.sandboxes
      ensures reply == NoContent || reply == AdapterFailed(NotFound) ==> forall v :: !Holds(lock.held, v, name)
    {
      if !ValidName(name) {
        return InvalidName;
      }
      var o := client.Simple(Remove(name), answer);
      if o.Failed? {
        if o.error == NotFound {
          lock.Release(name);
        }
        return AdapterFailed(o.error);
      }
      lock.Release(name);
      reply := NoContent;
    }

    method HandleDeleteVolume(name: string, answer: Outcome) returns (reply: Reply)
      requires !client.locked && Possible(Now(), DeleteVolume(name, answer))
      modifies client`locked, client.host`volumes, client.host`commands
      ensures !client.locked
      ensures reply.InvalidName? <==> !ValidName(name)
      ensures !ValidName(name) ==> Now() == old(Now()) && client.host.commands == old(client.host.commands)
      ensures ValidName(name) ==>
                var r := DeleteVolume(name, answer);
                && Now() == Serve(old(Now()), r) && reply == ReplyTo(old(Now()), r)
                && client.host.commands == old(client.host.commands) + CommandsFor(old(Now()), r)
      ensures ValidName(name) ==>
                reply == if name in lock.held then VolumeInUse(lock.held[name])
                         else if answer.Ok? then NoContent else AdapterFailed(answer.error)
    {
      if !ValidName(name) {
        return InvalidName;
      }
      var holder := lock.Holder(name);
      if holder.Some? {
        return VolumeInUse(holder.value);
      }
      var o := client.VolumeRm(name, answer);
      if o.Failed? {
        return AdapterFailed(o.error);
      }
      reply := NoContent;
    }
  }

  // ---- the lock as a cache ----

  /** A create of a volume-mounting sandbox that ran, failed, and could not be undone. */
  predicate LeavesOrphan(st: State, r: Request) {
    && r.CreateSandbox?
    && !AnyBusy(st.held, r.mounts, r.name)
    && Orphans(r.keys, r.answers)
    && r.mounts != []
  }

  lemma ClaimedHolds(held: Claims, volumes: seq<string>, s: string)
    requires !AnyBusy(held, volumes, s)
    ensures forall v, t :: Holds(Claimed(held, volumes, s), v, t) <==> Holds(held, v, t) || (t == s && v in volumes)
  {
    forall v | v in held && v in volumes
      ensures held[v] == s
    {
      var i :| 0 <= i < |volumes| && volumes[i] == v;
      assert !Busy(held, volumes[i], s);
    }
  }

  lemma CreateKeepsAgreementExactly(st: State, r: Request)
    requires r.CreateSandbox? && Possible(st, r) && Agrees(st.held, st.world)
    ensures Agrees(Serve(st, r).held, Serve(st, r).world) <==> !LeavesOrphan(st, r)
  {
    var st' := Serve(st, r);
    if !AnyBusy(st.held, r.mounts, r.name) {
      RollbackRestores(st.held, r.mounts, r.name);
      ClaimedHolds(st.held, r.mounts, r.name);
      if Orphans(r.keys, r.answers) && r.mounts != [] {
        var v := r.mounts[0];
        assert r.name !in st.world;
        assert Runs(st'.world, r.name, v) && !Runs(st.world, r.name, v);
        assert !Holds(st'.held, v, r.name);
      } else if r.answers.create.Ok? {
        assert r.name !in st.world;
        forall v, s
          ensures Holds(st'.held, v, s) <==> Runs(st'.world, s, v)
        {
          assert Holds(st.held, v, s) <==> Runs(st.world, s, v);
        }
      }
    }
  }

  lemma OthersKeepAgreement(st: State, r: Request)
    requires !r.CreateSandbox? && !Outside(r) && Possible(st, r) && Agrees(st.held, st.world)
    ensures Agrees(Serve(st, r).held, Serve(st, r).world)
  {
    var st' := Serve(st, r);
    if r.StartSandbox? && r.inspect.Ok? && !AnyBusy(st.held, st.world[r.name].volumes, r.name) {
      RollbackRestores(st.held, st.world[r.name].volumes, r.name);
      ClaimedHolds(st.held, st.world[r.name].volumes, r.name);
    }
    forall v, s
      ensures Holds(st'.held, v, s) <==> Runs(st'.world, s, v)
    {
      assert Holds(st.held, v, s) <==> Runs(st.world, s, v);
    }
  }

  /** One request keeps the cache in agreement, exactly unless it leaves an orphan behind. */
  lemma ServeKeepsAgreementExactly(st: State, r: Request)
    requires Possible(st, r) && !Outside(r) && Agrees(st.held, st.world)
    ensures Agrees(Serve(st, r).held, Serve(st, r).world) <==> !LeavesOrphan(st, r)
  {
    if r.CreateSandbox? {
      CreateKeepsAgreementExactly(st, r);
    } else {
      OthersKeepAgreement(st, r);
    }
  }

  /** With others stopping or removing sandboxes too, the lock still misses nothing. */
  lemma ServeKeepsGuarded(st: State, r: Request)
    requires Possible(st, r) && Guarded(st.held, st.world) && !LeavesOrphan(st, r)
    ensures Guarded(Serve(st, r).held, Serve(st, r).world)
  {
    var st' := Serve(st, r);
    if r.CreateSandbox? && !AnyBusy(st.held, r.mounts, r.name) {
      RollbackRestores(st.held, r.mounts, r.name);
      ClaimedHolds(st.held, r.mounts, r.name);
    }
    if r.StartSandbox? && r.inspect.Ok? && !AnyBusy(st.held, st.world[r.name].volumes, r.name) {
      RollbackRestores(st.held, st.world[r.name].volumes, r.name);
      ClaimedHolds(st.held, st.world[r.name].volumes, r.name);
    }
    forall s, v | Runs(st'.world, s, v)
      ensures Holds(st'.held, v, s)
    {
      if Runs(st.world, s, v) {
        assert Holds(st.held, v, s);
      }
    }
  }

  /** A request touches no sandbox but its own, and no claim but its own sandbox's. */
  lemma OthersUntouched(st: State, r: Request, s: string)
    requires Possible(st, r) && s != r.name && !r.DeleteVolume?
    ensures s in st.world <==> s in Serve(st, r).world
    ensures s in st.world ==> Serve(st, r).world[s] == st.world[s]
    ensures forall v :: Holds(Serve(st, r).held, v, s) <==> Holds(st.held, v, s)
  {
    if r.CreateSandbox? && !AnyBusy(st.held, r.mounts, r.name) {
      ClaimedHolds(st.held, r.mounts, r.name);
    }
    if r.StartSandbox? && r.inspect.Ok? && !AnyBusy(st.held, st.world[r.name].volumes, r.name) {
      ClaimedHolds(st.held, st.world[r.name].volumes, r.name);
    }
  }

  /** A run of whole requests, each possible where it comes. */
  ghost predicate Admissible(st: State, rs: seq<Request>)
    decreases |rs|
  {
    rs != [] ==> Possible(st, rs[0]) && !LeavesOrphan(st, rs[0]) && Admissible(Serve(st, rs[0]), rs[1..])
  }

  ghost function ServeAll(st: State, rs: seq<Request>): State
    requires Admissible(st, rs)
    decreases |rs|
  {
    if rs == [] then st else ServeAll(Serve(st, rs[0]), rs[1..])
  }

  /** Cache agreement over whole runs: the lock holds v for s if and only if s runs and mounts v. */
  lemma {:induction false} RunsKeepAgreement(st: State, rs: seq<Request>)
    requires Admissible(st, rs) && Agrees(st.held, st.world)
    requires forall i | 0 <= i < |rs| :: !Outside(rs[i])
    ensures Agrees(ServeAll(st, rs).held, ServeAll(st, rs).world)
    decreases |rs|
  {
    if rs != [] {
      ServeKeepsAgreementExactly(st, rs[0]);
      RunsKeepAgreement(Serve(st, rs[0]), rs[1..]);
    }
  }

  lemma {:induction false} RunsKeepGuarded(st: State, rs: seq<Request>)
    requires Admissible(st, rs) && Guarded(st.held, st.world)
    ensures Guarded(ServeAll(st, rs).held, ServeAll(st, rs).world)
    decreases |rs|
  {
    if rs != [] {
      ServeKeepsGuarded(st, rs[0]);
      RunsKeepGuarded(Serve(st, rs[0]), rs[1..]);
    }
  }

  /** A create or start that is refused leaves no trace, exactly unless it leaves an orphan. */
  lemma RefusalLeavesNoTraceExactly(st: State, r: Request)
    requires Possible(st, r) && (r.CreateSandbox? || r.StartSandbox?) && Refused(ReplyTo(st, r))
    ensures Serve(st, r).held == st.held && Serve(st, r).volumes == st.volumes
    ensures Serve(st, r).world == st.world
            <==> !(r.CreateSandbox? && !AnyBusy(st.held, r.mounts, r.name) && Orphans(r.keys, r.answers))
  {
    if r.CreateSandbox? && !AnyBusy(st.held, r.mounts, r.name) {
      RollbackRestores(st.held, r.mounts, r.name);
      CreateIsAllOrNothingExactly(st.world, r.name, r.mounts, r.keys, r.answers);
    }
    if r.StartSandbox? && r.inspect.Ok? && !AnyBusy(st.held, st.world[r.name].volumes, r.name) {
      RollbackRestores(st.held, st.world[r.name].volumes, r.name);
    }
  }

  /**
   In every run, others' stops and removals included, a volume that DELETE
   removes is mounted by no running sandbox.
   */
  lemma DeletedVolumeIsNotMounted(st: State, rs: seq<Request>, r: Request, s: string)
    requires Admissible(st, rs) && Guarded(st.held, st.world)
    requires r.DeleteVolume? && Possible(ServeAll(st, rs), r)
    requires r.name in ServeAll(st, rs).volumes && r.name !in Serve(ServeAll(st, rs), r).volumes
    ensures !Runs(ServeAll(st, rs).world, s, r.name)
  {
    RunsKeepGuarded(st, rs);
  }

  /** And while the cache agrees, DELETE is refused as "in use" only when it has to be. */
  lemma InUseExactly(st: State, r: Request)
    requires r.DeleteVolume? && Possible(st, r) && Agrees(st.held, st.world)
    ensures ReplyTo(st, r).VolumeInUse? <==> exists s :: Runs(st.world, s, r.name)
    ensures ReplyTo(st, r).VolumeInUse? ==> Runs(st.world, ReplyTo(st, r).holder, r.name)
  {
    if r.name in st.held {
      assert Holds(st.held, r.name, st.held[r.name]);
    }
    if s :| Runs(st.world, s, r.name) {
      assert Holds(st.held, r.name, s);
    }
  }
}
