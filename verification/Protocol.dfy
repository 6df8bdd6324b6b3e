/**
 Requests interleaving. Taking the volume lock's mutex, operating on its map
 under it and giving it back, taking and giving back the client's mutex, and the
 issue, the effect and the return of every `msb` command are steps of this
 machine, and steps of different requests interleave freely.
 */
module Protocol {
  import opened Wrappers
  import opened Msb
  import opened Lock
  import opened Cache

  /** The kinds of request; Dropping is the DELETE of a volume, and its name the volume's. */
  datatype Kind = Creating | Starting | Stopping | Deleting | Dropping | Other

  /** Where a request stands. */
  datatype Pc =
    | Inspect                                   // start: about to read the sandbox's volumes
    | Lookup                                    // delete volume: about to ask the lock for its Holder
    | Claim                                     // about to AcquireMany
    | AwaitMutex                                // in a client method, waiting for its mutex
    | Issue(cmd: Command)                       // holds the mutex, about to spawn cmd
    | Spawned(cmd: Command)                     // cmd runs and has not had its effect
    | Landed(cmd: Command, outcome: Outcome)    // cmd had its effect and has not returned
    | Unlock(outcome: Outcome)                  // the client method returns with outcome
    | RollBack                                  // about to ReleaseVolumes
    | LetGo                                     // about to Release

  datatype Request = Request(kind: Kind, name: string, volumes: seq<string>, keys: bool,
                             newly: seq<string>, pc: Pc)

  /** A command as it was spawned, by the request that spawned it. */
  datatype Entry = Entry(id: nat, cmd: Command)

  /**
   `mapMutex` is the mutex inside the volume lock and `mutex` the client's, each
   with the request that holds it.
   */
  datatype State = State(held: Claims, world: World, mapMutex: Option<nat>, mutex: Option<nat>,
                         requests: map<nat, Request>, log: seq<Entry>, next: nat)

  /** What a run may do beyond the code itself. */
  datatype Assumptions = Assumptions(
    overlap: set<(Kind, Kind)>,  // (arriving, in flight) kinds let in together for one sandbox name
    rollbackMayFail: bool,       // the `rm -f` after a failed key install may fail
    failedMayApply: bool,        // a command may have its effect and still report failure
    outsideStarts: bool)         // someone else may create or start sandboxes

  datatype Event =
    | Begin(kind: Kind, name: string, volumes: seq<string>, keys: bool)
    | ReadVolumes(id: nat)
    | InspectFails(id: nat)
    | LockMap(id: nat)
    | LookUp(id: nat)
    | ClaimVolumes(id: nat)
    | LockMutex(id: nat)
    | Spawn(id: nat)
    | TakeEffect(id: nat, outcome: Outcome, applied: bool)
    | Return(id: nat)
    | UnlockMutex(id: nat)
    | RollBackClaims(id: nat)
    | ReleaseClaims(id: nat)
    | OutsideStop(name: string)
    | OutsideRemove(name: string)
    | OutsideStart(name: string, volumes: seq<string>)

  /** The first command of the client method a request calls. */
  function FirstCommand(q: Request): Command {
    match q.kind
    case Creating => Create(q.name, q.volumes)
    case Starting => Start(q.name)
    case Stopping => Stop(q.name)
    case Deleting => Remove(q.name)
    case Dropping => RemoveVolume(q.name)
    case Other => Unrelated([])
  }

  function FirstPc(kind: Kind): Pc {
    match kind
    case Creating => Claim
    case Starting => Inspect
    case Dropping => Lookup
    case _ => AwaitMutex
  }

  /**
   Where a client method goes when a command returns: Create runs the key
   installer after a successful create, and `rm -f` after a failed installer.
   */
  function AfterCommand(q: Request, cmd: Command, o: Outcome): Pc {
    match cmd
    case Create(_, _) => if o.Ok? && q.keys then Issue(Exec(q.name)) else Unlock(o)
    case Exec(_) => if o.Ok? then Unlock(Ok) else Issue(RemoveForce(q.name))
    case RemoveForce(_) => Unlock(Failed(Unrecognised)) // the installer's error, whatever rm answered
    case _ => Unlock(o)
  }

  /** What the handler still has to do to the lock, if anything. */
  function AfterCall(q: Request, o: Outcome): Option<Pc> {
    match q.kind
    case Creating => if o.Ok? then None else Some(RollBack)
    case Starting => if o.Ok? then None else Some(RollBack)
    case Dropping => None
    case Other => None
    case _ => if o.Ok? || o.error == NotFound then Some(LetGo) else None
  }

  predicate HoldsMutex(pc: Pc) {
    pc.Issue? || pc.Spawned? || pc.Landed? || pc.Unlock?
  }

  /** The program counters at which a request wants, or has, the volume lock's mutex. */
  predicate AboutToLockMap(pc: Pc) {
    pc.Lookup? || pc.Claim? || pc.RollBack? || pc.LetGo?
  }

  predicate InFlight(pc: Pc) {
    pc.Spawned? || pc.Landed?
  }

  /** Are the requests about the same thing? A volume may be named like a sandbox. */
  predicate SameTarget(q: Request, kind: Kind, name: string) {
    q.name == name && (q.kind.Dropping? <==> kind.Dropping?)
  }

  predicate LetIn(a: Assumptions, st: State, kind: Kind, name: string) {
    forall id | id in st.requests && SameTarget(st.requests[id], kind, name) :: (kind, st.requests[id].kind) in a.overlap
  }

  predicate MayLand(a: Assumptions, w: World, c: Command, o: Outcome, applied: bool) {
    && MayAnswer(w, c, o)
    && (o.Ok? ==> applied)
    && (applied ==> Applicable(w, c))
    && (o.Failed? && applied ==> a.failedMayApply)
    && (o.Failed? && c.RemoveForce? ==> a.rollbackMayFail)
  }

  predicate At(st: State, id: nat, pc: Pc) {
    id in st.requests && st.requests[id].pc == pc
  }

  predicate Enabled(a: Assumptions, st: State, e: Event) {
    match e
    case Begin(kind, name, _, _) => LetIn(a, st, kind, name)
    case ReadVolumes(id) => At(st, id, Inspect) && st.requests[id].name in st.world
    case InspectFails(id) => At(st, id, Inspect)
    case LockMap(id) => id in st.requests && AboutToLockMap(st.requests[id].pc) && st.mapMutex == None
    case LookUp(id) => At(st, id, Lookup) && st.mapMutex == Some(id)
    case ClaimVolumes(id) => At(st, id, Claim) && st.mapMutex == Some(id)
    case LockMutex(id) => At(st, id, AwaitMutex) && st.mutex == None
    case Spawn(id) => id in st.requests && st.requests[id].pc.Issue?
    case TakeEffect(id, o, applied) =>
      id in st.requests && st.requests[id].pc.Spawned? && MayLand(a, st.world, st.requests[id].pc.cmd, o, applied)
    case Return(id) => id in st.requests && st.requests[id].pc.Landed?
    case UnlockMutex(id) => id in st.requests && st.requests[id].pc.Unlock?
    case RollBackClaims(id) => At(st, id, RollBack) && st.mapMutex == Some(id)
    case ReleaseClaims(id) => At(st, id, LetGo) && st.mapMutex == Some(id)
    case OutsideStop(name) => name in st.world
    case OutsideRemove(name) => name in st.world
    case OutsideStart(name, _) => a.outsideStarts
  }

  function Goto(st: State, id: nat, pc: Pc): State
    requires id in st.requests
  {
    st.(requests := st.requests[id := st.requests[id].(pc := pc)])
  }

  function Finish(st: State, id: nat): State {
    st.(requests := st.requests - {id})
  }

  function Step(a: Assumptions, st: State, e: Event): State
    requires Enabled(a, st, e)
  {
    match e
    case Begin(kind, name, volumes, keys) =>
      var q := Request(kind, name, if kind.Creating? then volumes else [], keys, [], FirstPc(kind));
      st.(requests := st.requests[st.next := q], next := st.next + 1)
    case ReadVolumes(id) =>
      var q := st.requests[id];
      st.(requests := st.requests[id := q.(volumes := st.world[q.name].volumes, pc := Claim)])
    case InspectFails(id) => Finish(st, id)
    case LockMap(id) => st.(mapMutex := Some(id))
    case LookUp(id) =>
      (if st.requests[id].name in st.held then Finish(st, id) else Goto(st, id, AwaitMutex)).(mapMutex := None)
    case ClaimVolumes(id) =>
      var q := st.requests[id];
      if AnyBusy(st.held, q.volumes, q.name) then Finish(st, id).(mapMutex := None)
      else
        st.(held := Claimed(st.held, q.volumes, q.name),
            mapMutex := None,
            requests := st.requests[id := q.(newly := NewClaims(st.held, q.volumes), pc := AwaitMutex)])
    case LockMutex(id) => Goto(st, id, Issue(FirstCommand(st.requests[id]))).(mutex := Some(id))
    case Spawn(id) =>
      var cmd := st.requests[id].pc.cmd;
      Goto(st, id, Spawned(cmd)).(log := st.log + [Entry(id, cmd)])
    case TakeEffect(id, o, applied) =>
      var cmd := st.requests[id].pc.cmd;
      Goto(st, id, Landed(cmd, o)).(world := if applied then Effect(st.world, cmd) else st.world)
    case Return(id) =>
      var q := st.requests[id];
      Goto(st, id, AfterCommand(q, q.pc.cmd, q.pc.outcome))
    case UnlockMutex(id) =>
      var q := st.requests[id];
      (match AfterCall(q, q.pc.outcome)
       case None => Finish(st, id)
       case Some(pc) => Goto(st, id, pc)).(mutex := None)
    case RollBackClaims(id) =>
      var q := st.requests[id];
      Finish(st, id).(held := ReleasedOnly(st.held, q.newly, q.name), mapMutex := None)
    case ReleaseClaims(id) => Finish(st, id).(held := Released(st.held, st.requests[id].name), mapMutex := None)
    case OutsideStop(name) => st.(world := Effect(st.world, Stop(name)))
    case OutsideRemove(name) => st.(world := Effect(st.world, Remove(name)))
    case OutsideStart(name, volumes) => st.(world := st.world[name := Sandbox(true, volumes)])
  }

  /** The state a run of events reaches, if every event was enabled in turn. */
  function Run(a: Assumptions, st: State, es: seq<Event>): Option<State>
    decreases |es|
  {
    if es == [] then Some(st)
    else if !Enabled(a, st, es[0]) then None
    else Run(a, Step(a, st, es[0]), es[1..])
  }

  lemma {:induction false} RunConcat(a: Assumptions, st: State, first: seq<Event>, second: seq<Event>)
    requires Run(a, st, first).Some?
    ensures Run(a, st, first + second) == Run(a, Run(a, st, first).value, second)
    decreases |first|
  {
    if first == [] {
      assert first + second == second;
    } else {
      assert (first + second)[1..] == first[1..] + second;
      RunConcat(a, Step(a, st, first[0]), first[1..], second);
    }
  }

  /** The states the server starts serving from: the lock was seeded, nothing is in flight. */
  ghost predicate Initial(st: State) {
    && Guarded(st.held, st.world)
    && st.mapMutex == None
    && st.mutex == None
    && st.requests == map[]
    && st.log == []
  }
}
