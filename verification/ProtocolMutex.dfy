/**
 The client's mutex: mutating `msb` commands never overlap, the commands of one
 client call are never split by another's, and nothing deadlocks. None of this
 rests on any assumption about the run.
 */
module ProtocolMutex {
  import opened Wrappers
  import opened Msb
  import opened Protocol

  /** Every command between two commands of one request is that request's. */
  ghost predicate Contiguous(log: seq<Entry>) {
    forall i, j, k | 0 <= i < j < k < |log| && log[i].id == log[k].id :: log[j].id == log[i].id
  }

  /** The commands one request spawned, in order. */
  function CommandsOf(log: seq<Entry>, id: nat): seq<Command> {
    if log == [] then []
    else
      var init := CommandsOf(log[..|log| - 1], id);
      var last := log[|log| - 1];
      if last.id == id then init + [last.cmd] else init
  }

  /** The command sequences a client method may go through. */
  predicate IsCallTrace(cmds: seq<Command>) {
    || cmds == []
    || (|cmds| == 1 && !cmds[0].Exec? && !cmds[0].RemoveForce?)
    || (2 <= |cmds| <= 3
        && cmds[0].Create?
        && cmds[1] == Exec(cmds[0].name)
        && (|cmds| == 3 ==> cmds[2] == RemoveForce(cmds[0].name)))
  }

  /** What a request has spawned so far, by where it stands. */
  predicate Spent(q: Request, cmds: seq<Command>) {
    var first := FirstCommand(q);
    match q.pc
    case Issue(c) =>
      || (c == first && cmds == [])
      || (c == Exec(q.name) && first.Create? && cmds == [first])
      || (c == RemoveForce(q.name) && first.Create? && cmds == [first, Exec(q.name)])
    case Spawned(c) => Running(q, c, cmds)
    case Landed(c, _) => Running(q, c, cmds)
    case Inspect => cmds == []
    case Lookup => cmds == []
    case Claim => cmds == []
    case AwaitMutex => cmds == []
    case _ => true
  }

  predicate Running(q: Request, c: Command, cmds: seq<Command>) {
    var first := FirstCommand(q);
    || (c == first && cmds == [first])
    || (c == Exec(q.name) && first.Create? && cmds == [first, c])
    || (c == RemoveForce(q.name) && first.Create? && cmds == [first, Exec(q.name), c])
  }

  /** The log ends in one block of `id`'s commands, and has no other command of `id`. */
  ghost predicate Trailing(log: seq<Entry>, id: nat) {
    forall i, j | 0 <= i < j < |log| && log[i].id == id :: log[j].id == id
  }

  ghost predicate Unspent(log: seq<Entry>, id: nat) {
    forall i | 0 <= i < |log| :: log[i].id != id
  }

  ghost predicate SerialInv(st: State) {
    && (forall id | id in st.requests :: id < st.next)
    && (forall i | 0 <= i < |st.log| :: st.log[i].id < st.next)
    && (forall id | id in st.requests :: HoldsMutex(st.requests[id].pc) <==> st.mutex == Some(id))
    && (st.mutex.Some? ==> st.mutex.value in st.requests && Trailing(st.log, st.mutex.value))
    && (forall id | id in st.requests :: Spent(st.requests[id], CommandsOf(st.log, id)))
    && Contiguous(st.log)
    && (forall id: nat :: IsCallTrace(CommandsOf(st.log, id)))
  }

  lemma {:induction false} UnspentHasNoCommands(log: seq<Entry>, id: nat)
    ensures CommandsOf(log, id) == [] <==> Unspent(log, id)
  {
    if log != [] {
      var init := log[..|log| - 1];
      UnspentHasNoCommands(init, id);
      if Unspent(init, id) && log[|log| - 1].id != id {
        forall i | 0 <= i < |log|
          ensures log[i].id != id
        {
          if i < |init| {
            assert log[i] == init[i];
          }
        }
      }
    }
  }

  lemma CommandsOfAppend(log: seq<Entry>, e: Entry, id: nat)
    ensures CommandsOf(log + [e], id) == if e.id == id then CommandsOf(log, id) + [e.cmd] else CommandsOf(log, id)
  {
    assert (log + [e])[..|log + [e]| - 1] == log;
  }

  /** Appending a command of the request that already ends the log, or of one not in it. */
  lemma AppendKeepsBlocks(log: seq<Entry>, e: Entry)
    requires Contiguous(log) && Trailing(log, e.id)
    ensures Contiguous(log + [e]) && Trailing(log + [e], e.id)
  {
    var longer := log + [e];
    forall i, j, k | 0 <= i < j < k < |longer| && longer[i].id == longer[k].id
      ensures longer[j].id == longer[i].id
    {
      assert longer[i] == log[i] && longer[j] == log[j];
    }
  }

  lemma SpentAfterSpawn(q: Request, cmds: seq<Command>)
    requires q.pc.Issue? && Spent(q, cmds) && IsCallTrace(cmds)
    ensures Spent(q.(pc := Spawned(q.pc.cmd)), cmds + [q.pc.cmd]) && IsCallTrace(cmds + [q.pc.cmd])
  {
  }

  lemma SpawnKeeps(a: Assumptions, st: State, id: nat)
    requires SerialInv(st) && Enabled(a, st, Spawn(id))
    ensures SerialInv(Step(a, st, Spawn(id)))
  {
    var q := st.requests[id];
    var cmd := q.pc.cmd;
    assert HoldsMutex(q.pc) && st.mutex == Some(id);
    SpentAfterSpawn(q, CommandsOf(st.log, id));
    AppendKeepsBlocks(st.log, Entry(id, cmd));
    AppendKeepsTraces(st.log, id, cmd);
    SpawnedIsSerial(st, id, Step(a, st, Spawn(id)));
  }

  /** One more command in the log, by a request whose trace it continues. */
  lemma AppendKeepsTraces(log: seq<Entry>, id: nat, cmd: Command)
    requires (forall i: nat :: IsCallTrace(CommandsOf(log, i))) && IsCallTrace(CommandsOf(log, id) + [cmd])
    ensures CommandsOf(log + [Entry(id, cmd)], id) == CommandsOf(log, id) + [cmd]
    ensures forall i: nat | i != id :: CommandsOf(log + [Entry(id, cmd)], i) == CommandsOf(log, i)
    ensures forall i: nat :: IsCallTrace(CommandsOf(log + [Entry(id, cmd)], i))
  {
    forall i: nat
      ensures CommandsOf(log + [Entry(id, cmd)], i)
              == if i == id then CommandsOf(log, i) + [cmd] else CommandsOf(log, i)
      ensures IsCallTrace(CommandsOf(log + [Entry(id, cmd)], i))
    {
      CommandsOfAppend(log, Entry(id, cmd), i);
      assert IsCallTrace(CommandsOf(log, i));
    }
  }

  lemma SpawnedIsSerial(st: State, id: nat, st': State)
    requires SerialInv(st) && id in st.requests && st.requests[id].pc.Issue?
    requires var q, cmd := st.requests[id], st.requests[id].pc.cmd;
             && st' == Goto(st, id, Spawned(cmd)).(log := st.log + [Entry(id, cmd)])
             && Spent(q.(pc := Spawned(cmd)), CommandsOf(st'.log, id))
    requires Contiguous(st'.log) && Trailing(st'.log, id)
    requires forall i: nat | i != id :: CommandsOf(st'.log, i) == CommandsOf(st.log, i)
    requires forall i: nat :: IsCallTrace(CommandsOf(st'.log, i))
    ensures SerialInv(st')
  {
  }

  /** Steps that leave the log alone and move one request, the mutex following its program counter. */
  lemma MoveKeeps(st: State, id: nat, q: Request, st': State)
    requires SerialInv(st) && id in st.requests
    requires st'.requests == st.requests[id := q] && st'.log == st.log && st'.next == st.next
    requires if HoldsMutex(q.pc)
             then st'.mutex == Some(id) && (st.mutex == Some(id) || st.mutex == None)
             else st'.mutex == if HoldsMutex(st.requests[id].pc) then None else st.mutex
    requires HoldsMutex(q.pc) ==> Trailing(st.log, id)
    requires Spent(q, CommandsOf(st.log, id))
    ensures SerialInv(st')
  {
  }

  lemma FinishKeeps(st: State, id: nat, st': State)
    requires SerialInv(st) && id in st.requests
    requires st'.requests == st.requests - {id} && st'.log == st.log && st'.next == st.next
    requires st'.mutex == if HoldsMutex(st.requests[id].pc) then None else st.mutex
    ensures SerialInv(st')
  {
  }

  lemma BeginKeeps(a: Assumptions, st: State, e: Event)
    requires SerialInv(st) && Enabled(a, st, e) && e.Begin?
    ensures SerialInv(Step(a, st, e))
  {
    UnspentHasNoCommands(st.log, st.next);
  }

  /** The handler's own steps, outside any client method. */
  lemma HandlerStepKeeps(a: Assumptions, st: State, e: Event)
    requires SerialInv(st) && Enabled(a, st, e)
    requires e.ReadVolumes? || e.InspectFails? || e.LockMap? || e.LookUp? || e.ClaimVolumes?
             || e.RollBackClaims? || e.ReleaseClaims?
    ensures SerialInv(Step(a, st, e))
  {
    var st' := Step(a, st, e);
    var q := st.requests[e.id];
    assert Spent(q, CommandsOf(st.log, e.id)) && !HoldsMutex(q.pc);
    if e.id in st'.requests {
      MoveKeeps(st, e.id, st'.requests[e.id], st');
    } else {
      FinishKeeps(st, e.id, st');
    }
  }

  lemma LockKeeps(a: Assumptions, st: State, id: nat)
    requires SerialInv(st) && Enabled(a, st, LockMutex(id))
    ensures SerialInv(Step(a, st, LockMutex(id)))
  {
    var st' := Step(a, st, LockMutex(id));
    assert Spent(st.requests[id], CommandsOf(st.log, id));
    UnspentHasNoCommands(st.log, id);
    MoveKeeps(st, id, st'.requests[id], st');
  }

  lemma TakeEffectKeeps(a: Assumptions, st: State, id: nat, o: Outcome, applied: bool)
    requires SerialInv(st) && Enabled(a, st, TakeEffect(id, o, applied))
    ensures SerialInv(Step(a, st, TakeEffect(id, o, applied)))
  {
    var q := st.requests[id];
    var st' := Step(a, st, TakeEffect(id, o, applied));
    assert Spent(q, CommandsOf(st.log, id)) && HoldsMutex(q.pc);
    MoveKeeps(st, id, q.(pc := Landed(q.pc.cmd, o)), st');
  }

  lemma ReturnKeeps(a: Assumptions, st: State, id: nat)
    requires SerialInv(st) && Enabled(a, st, Return(id))
    ensures SerialInv(Step(a, st, Return(id)))
  {
    var q := st.requests[id];
    var st' := Step(a, st, Return(id));
    assert Spent(q, CommandsOf(st.log, id)) && HoldsMutex(q.pc);
    MoveKeeps(st, id, q.(pc := AfterCommand(q, q.pc.cmd, q.pc.outcome)), st');
  }

  lemma UnlockKeeps(a: Assumptions, st: State, id: nat)
    requires SerialInv(st) && Enabled(a, st, UnlockMutex(id))
    ensures SerialInv(Step(a, st, UnlockMutex(id)))
  {
    var q := st.requests[id];
    var st' := Step(a, st, UnlockMutex(id));
    assert HoldsMutex(q.pc);
    match AfterCall(q, q.pc.outcome)
    case None => FinishKeeps(st, id, st');
    case Some(pc) => MoveKeeps(st, id, q.(pc := pc), st');
  }

  lemma StepKeeps(a: Assumptions, st: State, e: Event)
    requires SerialInv(st) && Enabled(a, st, e)
    ensures SerialInv(Step(a, st, e))
  {
    match e
    case Begin(_, _, _, _) => BeginKeeps(a, st, e);
    case Spawn(id) => SpawnKeeps(a, st, id);
    case OutsideStop(_) =>
    case OutsideRemove(_) =>
    case OutsideStart(_, _) =>
    case LockMutex(id) => LockKeeps(a, st, id);
    case TakeEffect(id, o, applied) => TakeEffectKeeps(a, st, id, o, applied);
    case Return(id) => ReturnKeeps(a, st, id);
    case UnlockMutex(id) => UnlockKeeps(a, st, id);
    case _ => HandlerStepKeeps(a, st, e);
  }

  lemma {:induction false} RunIsSerial(a: Assumptions, st: State, es: seq<Event>)
    requires SerialInv(st) && Run(a, st, es).Some?
    ensures SerialInv(Run(a, st, es).value)
    decreases |es|
  {
    if es != [] {
      StepKeeps(a, st, es[0]);
      RunIsSerial(a, Step(a, st, es[0]), es[1..]);
    }
  }

  /** The volume lock's mutex is held, if at all, by a request about to use its map. */
  ghost predicate MapInv(st: State) {
    st.mapMutex.Some? ==>
      st.mapMutex.value in st.requests && AboutToLockMap(st.requests[st.mapMutex.value].pc)
  }

  lemma StepKeepsMap(a: Assumptions, st: State, e: Event)
    requires SerialInv(st) && MapInv(st) && Enabled(a, st, e)
    ensures MapInv(Step(a, st, e))
  {
    if st.mapMutex.Some? && StepOf(e) == st.mapMutex {
      HolderKeepsMap(a, st, e);
    } else if st.mapMutex.Some? {
      OthersKeepMap(a, st, e);
    } else {
      FreeMapKept(a, st, e);
    }
  }

  lemma HolderKeepsMap(a: Assumptions, st: State, e: Event)
    requires MapInv(st) && Enabled(a, st, e) && st.mapMutex.Some? && StepOf(e) == st.mapMutex
    ensures Step(a, st, e).mapMutex == None
  {
  }

  lemma OthersKeepMap(a: Assumptions, st: State, e: Event)
    requires SerialInv(st) && MapInv(st) && Enabled(a, st, e) && st.mapMutex.Some? && StepOf(e) != st.mapMutex
    ensures Step(a, st, e).mapMutex == st.mapMutex && MapInv(Step(a, st, e))
  {
  }

  lemma FreeMapKept(a: Assumptions, st: State, e: Event)
    requires Enabled(a, st, e) && st.mapMutex == None
    ensures MapInv(Step(a, st, e))
  {
  }

  lemma {:induction false} RunKeepsMap(a: Assumptions, st: State, es: seq<Event>)
    requires SerialInv(st) && MapInv(st) && Run(a, st, es).Some?
    ensures MapInv(Run(a, st, es).value)
    decreases |es|
  {
    if es != [] {
      StepKeeps(a, st, es[0]);
      StepKeepsMap(a, st, es[0]);
      RunKeepsMap(a, Step(a, st, es[0]), es[1..]);
    }
  }

  /**
   In every interleaving: at most one mutating command is in flight; the
   commands of one call are contiguous and are one of the call shapes; each
   mutex is free unless an unfinished request holds it, the client's within a
   call and the lock map's outside any; and so no request holds, or waits for,
   one of them while it holds the other.
   */
  lemma CallsAreSerial(a: Assumptions, st: State, es: seq<Event>)
    requires Initial(st) && Run(a, st, es).Some?
    ensures var last := Run(a, st, es).value;
            && (forall i, j | i in last.requests && j in last.requests
                              && InFlight(last.requests[i].pc) && InFlight(last.requests[j].pc) :: i == j)
            && Contiguous(last.log)
            && (forall id: nat :: IsCallTrace(CommandsOf(last.log, id)))
            && (last.mutex.Some? ==> last.mutex.value in last.requests
                                     && HoldsMutex(last.requests[last.mutex.value].pc))
            && (last.mapMutex.Some? ==> last.mapMutex.value in last.requests
                                        && AboutToLockMap(last.requests[last.mapMutex.value].pc))
            && (last.mutex.Some? ==> last.mutex != last.mapMutex && !WaitsForMap(last, last.mutex.value))
            && (last.mapMutex.Some? ==> !WaitsForClient(last, last.mapMutex.value))
  {
    assert SerialInv(st);
    RunIsSerial(a, st, es);
    RunKeepsMap(a, st, es);
    var last := Run(a, st, es).value;
    forall i, j | i in last.requests && j in last.requests
                  && InFlight(last.requests[i].pc) && InFlight(last.requests[j].pc)
      ensures i == j
    {
      assert HoldsMutex(last.requests[i].pc) && HoldsMutex(last.requests[j].pc);
    }
  }

  predicate WaitsForMap(st: State, id: nat) {
    id in st.requests && AboutToLockMap(st.requests[id].pc) && st.mapMutex != Some(id)
  }

  predicate WaitsForClient(st: State, id: nat) {
    id in st.requests && st.requests[id].pc.AwaitMutex?
  }

  /** A step of request `id` the code itself takes next, with `msb` refusing whatever it is asked. */
  function NextStep(st: State, id: nat): Event
    requires id in st.requests
  {
    if WaitsForMap(st, id) then LockMap(id)
    else
      match st.requests[id].pc
      case Inspect => InspectFails(id)
      case Lookup => LookUp(id)
      case Claim => ClaimVolumes(id)
      case AwaitMutex => LockMutex(id)
      case Issue(_) => Spawn(id)
      case Spawned(c) => TakeEffect(id, Refusal(c), c.RemoveForce?)
      case Landed(_, _) => Return(id)
      case Unlock(_) => UnlockMutex(id)
      case RollBack => RollBackClaims(id)
      case LetGo => ReleaseClaims(id)
  }

  function Refusal(c: Command): Outcome {
    if c.RemoveForce? then Ok else Failed(Unrecognised)
  }

  /** No deadlock: while requests are in flight, one of them can move. */
  lemma SomeoneCanMove(a: Assumptions, st: State, es: seq<Event>) returns (id: nat)
    requires Initial(st) && Run(a, st, es).Some?
    requires Run(a, st, es).value.requests != map[]
    ensures id in Run(a, st, es).value.requests
    ensures Enabled(a, Run(a, st, es).value, NextStep(Run(a, st, es).value, id))
  {
    CallsAreSerial(a, st, es);
    id := Mover(a, Run(a, st, es).value);
  }

  lemma Mover(a: Assumptions, last: State) returns (id: nat)
    requires last.requests != map[] && MapInv(last)
    requires last.mutex.Some? ==> last.mutex.value in last.requests && HoldsMutex(last.requests[last.mutex.value].pc)
    ensures id in last.requests && Enabled(a, last, NextStep(last, id))
  {
    if last.mapMutex.Some? {
      id := last.mapMutex.value;
    } else if last.mutex.Some? {
      id := last.mutex.value;
    } else {
      id :| id in last.requests;
    }
  }

  // ---- how long a request can take ----

  /** The request whose own step an event is. */
  function StepOf(e: Event): Option<nat> {
    match e
    case Begin(_, _, _, _) => None
    case OutsideStop(_) => None
    case OutsideRemove(_) => None
    case OutsideStart(_, _) => None
    case _ => Some(e.id)
  }

  /** How many of the events are steps of request `id`. */
  function StepsBy(es: seq<Event>, id: nat): nat {
    if es == [] then 0 else (if StepOf(es[0]) == Some(id) then 1 else 0) + StepsBy(es[1..], id)
  }

  /** The most steps a request can still take from a program counter, holding the lock map's mutex or not. */
  function Left(pc: Pc, holding: bool): nat {
    var taking := if holding then 0 else 1;
    match pc
    case Inspect => 16
    case Lookup => 14 + taking
    case Claim => 14 + taking
    case AwaitMutex => 13
    case Issue(c) => Before(c) + 3
    case Spawned(c) => Before(c) + 2
    case Landed(c, _) => Before(c) + 1
    case Unlock(_) => 3
    case RollBack => 1 + taking
    case LetGo => 1 + taking
  }

  /** The most steps after the given command has returned. */
  function Before(c: Command): nat {
    if c.RemoveForce? then 3 else if c.Exec? then 6 else 9
  }

  function StepsLeft(st: State, id: nat): nat {
    if id in st.requests then Left(st.requests[id].pc, st.mapMutex == Some(id))
    else if id < st.next then 0
    else 16
  }

  lemma StepsRunDown(a: Assumptions, st: State, e: Event, id: nat)
    requires SerialInv(st) && Enabled(a, st, e)
    ensures StepsLeft(Step(a, st, e), id) + (if StepOf(e) == Some(id) then 1 else 0) <= StepsLeft(st, id)
  {
    if e.Return? {
      ReturnRunsDown(a, st, e.id, id);
    } else if StepOf(e) == Some(id) {
      OwnStepRunsDown(a, st, e);
    } else {
      OthersStepKeepsLeft(a, st, e, id);
    }
  }

  lemma ReturnRunsDown(a: Assumptions, st: State, mover: nat, id: nat)
    requires Enabled(a, st, Return(mover))
    ensures StepsLeft(Step(a, st, Return(mover)), id) + (if mover == id then 1 else 0) <= StepsLeft(st, id)
  {
    var q := st.requests[mover];
    var next := AfterCommand(q, q.pc.cmd, q.pc.outcome);
    assert Left(next, false) < Left(q.pc, false) && Left(next, true) < Left(q.pc, true);
  }

  lemma OwnStepRunsDown(a: Assumptions, st: State, e: Event)
    requires SerialInv(st) && Enabled(a, st, e) && StepOf(e).Some? && !e.Return?
    ensures StepsLeft(Step(a, st, e), e.id) < StepsLeft(st, e.id)
  {
    if CallStep(e) {
      CallStepRunsDown(a, st, e);
    } else {
      HandlerStepRunsDown(a, st, e);
    }
  }

  /** A step within a client method, the mutex's own included. */
  predicate CallStep(e: Event) {
    e.LockMutex? || e.Spawn? || e.TakeEffect? || e.Return? || e.UnlockMutex?
  }

  lemma CallStepRunsDown(a: Assumptions, st: State, e: Event)
    requires SerialInv(st) && Enabled(a, st, e) && CallStep(e) && !e.Return?
    ensures StepsLeft(Step(a, st, e), e.id) < StepsLeft(st, e.id)
  {
  }

  lemma HandlerStepRunsDown(a: Assumptions, st: State, e: Event)
    requires SerialInv(st) && Enabled(a, st, e) && StepOf(e).Some? && !CallStep(e)
    ensures StepsLeft(Step(a, st, e), e.id) < StepsLeft(st, e.id)
  {
  }

  lemma OthersStepKeepsLeft(a: Assumptions, st: State, e: Event, id: nat)
    requires SerialInv(st) && Enabled(a, st, e) && StepOf(e) != Some(id)
    ensures StepsLeft(Step(a, st, e), id) <= StepsLeft(st, id)
  {
    if CallStep(e) {
      OthersCallStepKeepsLeft(a, st, e, id);
    } else {
      OthersHandlerStepKeepsLeft(a, st, e, id);
    }
  }

  lemma OthersCallStepKeepsLeft(a: Assumptions, st: State, e: Event, id: nat)
    requires Enabled(a, st, e) && StepOf(e) != Some(id) && CallStep(e)
    ensures StepsLeft(Step(a, st, e), id) == StepsLeft(st, id)
  {
  }

  lemma OthersHandlerStepKeepsLeft(a: Assumptions, st: State, e: Event, id: nat)
    requires SerialInv(st) && Enabled(a, st, e) && StepOf(e) != Some(id) && !CallStep(e)
    ensures StepsLeft(Step(a, st, e), id) <= StepsLeft(st, id)
  {
  }

  /** In every interleaving no request takes more than sixteen steps: nothing retries or loops. */
  lemma RequestsAreBounded(a: Assumptions, st: State, es: seq<Event>, id: nat)
    requires Initial(st) && Run(a, st, es).Some?
    ensures StepsBy(es, id) <= 16
  {
    StepsAreBounded(a, st, es, id);
  }

  lemma {:induction false} StepsAreBounded(a: Assumptions, st: State, es: seq<Event>, id: nat)
    requires SerialInv(st) && Run(a, st, es).Some?
    ensures StepsBy(es, id) <= StepsLeft(st, id)
    decreases |es|
  {
    if es != [] {
      StepKeeps(a, st, es[0]);
      StepsRunDown(a, st, es[0], id);
      StepsAreBounded(a, Step(a, st, es[0]), es[1..], id);
    }
  }
}
