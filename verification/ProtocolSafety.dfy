/**
 The volume lock keeps running sandboxes apart in every interleaving, provided
 the run stays within the assumptions `Sound` lists.
 */
module ProtocolSafety {
  import opened Wrappers
  import opened Msb
  import opened Lock
  import opened Cache
  import opened Protocol

  predicate Releases(kind: Kind) {
    kind.Stopping? || kind.Deleting?
  }

  /** Kinds of request that may be in flight together for one sandbox. */
  predicate Compatible(k: Kind, l: Kind) {
    || k.Other? || k.Dropping?
    || l.Other? || l.Dropping?
    || (Releases(k) && Releases(l))
    || (k.Starting? && l.Deleting?)
    || (k.Deleting? && l.Starting?)
  }

  ghost predicate Sound(a: Assumptions) {
    && (forall p | p in a.overlap :: Compatible(p.0, p.1))
    && !a.rollbackMayFail
    && !a.failedMayApply
    && !a.outsideStarts
  }

  ghost predicate HoldsAll(held: Claims, volumes: seq<string>, sandbox: string) {
    forall v | v in volumes :: Holds(held, v, sandbox)
  }

  /** Has the request put its own sandbox into the running state and not taken it back? */
  predicate Committed(pc: Pc) {
    match pc
    case Issue(c) => c.Exec? || c.RemoveForce?
    case Spawned(c) => c.Exec? || c.RemoveForce?
    case Landed(c, o) => if c.RemoveForce? then false else c.Exec? || o.Ok?
    case Unlock(o) => o.Ok?
    case _ => false
  }

  /** Has a stop or delete established that its sandbox is down? */
  predicate Confirmed(pc: Pc) {
    match pc
    case Landed(_, o) => o.Ok? || o.error == NotFound
    case Unlock(o) => o.Ok? || o.error == NotFound
    case LetGo => true
    case _ => false
  }

  predicate BeforeClaim(pc: Pc) {
    pc.Inspect? || pc.Claim?
  }

  /** A half-finished request's hold on the lock and on the world. */
  ghost predicate RequestInv(held: Claims, w: World, q: Request) {
    match q.kind
    case Creating =>
      !BeforeClaim(q.pc) ==>
        && HoldsAll(held, q.volumes, q.name)
        && (!Committed(q.pc) ==> forall v | v in q.newly :: !Runs(w, q.name, v))
    case Starting =>
      && (!q.pc.Inspect? && q.name in w ==> w[q.name].volumes == q.volumes)
      && (!BeforeClaim(q.pc) ==>
            && (q.name in w ==> HoldsAll(held, q.volumes, q.name))
            && (!Committed(q.pc) ==> forall v | v in q.newly :: !Runs(w, q.name, v)))
    case Stopping => Confirmed(q.pc) ==> q.name !in w || !w[q.name].running
    case Deleting => Confirmed(q.pc) ==> q.name !in w
    case _ => true
  }

  /** The command a request can be at, and the handler steps open to its kind. */
  predicate PcFits(q: Request) {
    var extra := q.kind.Creating? && q.keys;
    match q.pc
    case Inspect => q.kind.Starting?
    case Lookup => q.kind.Dropping?
    case Claim => q.kind.Creating? || q.kind.Starting?
    case AwaitMutex => true
    case Issue(c) => c == FirstCommand(q) || (extra && (c == Exec(q.name) || c == RemoveForce(q.name)))
    case Spawned(c) => c == FirstCommand(q) || (extra && (c == Exec(q.name) || c == RemoveForce(q.name)))
    case Landed(c, _) => c == FirstCommand(q) || (extra && (c == Exec(q.name) || c == RemoveForce(q.name)))
    case Unlock(_) => true
    case RollBack => q.kind.Creating? || q.kind.Starting?
    case LetGo => Releases(q.kind)
  }

  /** What a request noted as newly claimed is among the volumes it asked for. */
  predicate NewlyFits(q: Request) {
    && (BeforeClaim(q.pc) ==> q.newly == [])
    && (forall v | v in q.newly :: v in q.volumes)
  }

  ghost predicate Inv(st: State) {
    && Guarded(st.held, st.world)
    && (forall id | id in st.requests :: NewlyFits(st.requests[id]))
    && (forall id | id in st.requests :: id < st.next)
    && (forall id | id in st.requests :: PcFits(st.requests[id]) && RequestInv(st.held, st.world, st.requests[id]))
    && (forall i, j | i in st.requests && j in st.requests && i != j && st.requests[i].name == st.requests[j].name ::
          Compatible(st.requests[i].kind, st.requests[j].kind))
  }

  /** Every request but `id` keeps its invariant when the lock and the world move as given. */
  ghost predicate OthersKeep(st: State, id: nat, held: Claims, w: World) {
    forall i | i in st.requests && i != id :: RequestInv(held, w, st.requests[i])
  }

  lemma InvAfterUpdate(st: State, id: nat, q: Request, st': State)
    requires Inv(st)
    requires id in st.requests && q.name == st.requests[id].name && q.kind == st.requests[id].kind
    requires st'.requests == st.requests[id := q] && st'.next == st.next
    requires PcFits(q) && NewlyFits(q) && RequestInv(st'.held, st'.world, q)
    requires OthersKeep(st, id, st'.held, st'.world) && Guarded(st'.held, st'.world)
    ensures Inv(st')
  {
  }

  lemma InvAfterFinish(st: State, id: nat, st': State)
    requires Inv(st)
    requires id in st.requests
    requires st'.requests == st.requests - {id} && st'.next == st.next
    requires OthersKeep(st, id, st'.held, st'.world) && Guarded(st'.held, st'.world)
    ensures Inv(st')
  {
  }

  lemma BeginKeeps(a: Assumptions, st: State, e: Event)
    requires Sound(a) && Inv(st) && Enabled(a, st, e) && e.Begin?
    ensures Inv(Step(a, st, e))
  {
    var st' := Step(a, st, e);
    forall i, j | i in st'.requests && j in st'.requests && i != j && st'.requests[i].name == st'.requests[j].name
      ensures Compatible(st'.requests[i].kind, st'.requests[j].kind)
    {
      if i == st.next {
        assert SameTarget(st.requests[j], e.kind, e.name) ==> (e.kind, st.requests[j].kind) in a.overlap;
      } else if j == st.next {
        assert SameTarget(st.requests[i], e.kind, e.name) ==> (e.kind, st.requests[i].kind) in a.overlap;
      }
    }
  }

  lemma ReadVolumesKeeps(a: Assumptions, st: State, id: nat)
    requires Sound(a) && Inv(st) && Enabled(a, st, ReadVolumes(id))
    ensures Inv(Step(a, st, ReadVolumes(id)))
  {
    var st' := Step(a, st, ReadVolumes(id));
    InvAfterUpdate(st, id, st'.requests[id], st');
  }

  lemma ClaimKeeps(a: Assumptions, st: State, id: nat)
    requires Sound(a) && Inv(st) && Enabled(a, st, ClaimVolumes(id))
    ensures Inv(Step(a, st, ClaimVolumes(id)))
  {
    var st' := Step(a, st, ClaimVolumes(id));
    var q := st.requests[id];
    if AnyBusy(st.held, q.volumes, q.name) {
      InvAfterFinish(st, id, st');
    } else {
      ClaimsGrow(st.held, q.volumes, q.name);
      forall i | i in st.requests && i != id
        ensures RequestInv(st'.held, st'.world, st.requests[i])
      {
        assert RequestInv(st.held, st.world, st.requests[i]);
      }
      assert Guarded(st'.held, st'.world);
      forall v | v in st'.requests[id].newly
        ensures !Runs(st.world, q.name, v)
      {
        assert v !in st.held;
      }
      InvAfterUpdate(st, id, st'.requests[id], st');
    }
  }

  lemma ClaimsGrow(held: Claims, volumes: seq<string>, sandbox: string)
    requires !AnyBusy(held, volumes, sandbox)
    ensures forall v, s | Holds(held, v, s) :: Holds(Claimed(held, volumes, sandbox), v, s)
    ensures HoldsAll(Claimed(held, volumes, sandbox), volumes, sandbox)
  {
    forall v, s | Holds(held, v, s)
      ensures Holds(Claimed(held, volumes, sandbox), v, s)
    {
      if v in volumes {
        var i :| 0 <= i < |volumes| && volumes[i] == v;
        assert !Busy(held, volumes[i], sandbox);
      }
    }
  }

  /** A command's effect on its own sandbox disturbs no other request. */
  lemma EffectSparesOthers(a: Assumptions, st: State, id: nat, o: Outcome, i: nat)
    requires Sound(a) && Inv(st) && Enabled(a, st, TakeEffect(id, o, o.Ok?))
    requires i in st.requests && i != id
    ensures RequestInv(st.held, After(st.world, st.requests[id].pc.cmd, o), st.requests[i])
  {
    assert RequestInv(st.held, st.world, st.requests[id]) && PcFits(st.requests[id]);
    assert RequestInv(st.held, st.world, st.requests[i]);
    if st.requests[i].name == st.requests[id].name {
      assert Compatible(st.requests[id].kind, st.requests[i].kind);
    }
  }

  lemma EffectKeepsGuarded(a: Assumptions, st: State, id: nat, o: Outcome)
    requires Sound(a) && Inv(st) && Enabled(a, st, TakeEffect(id, o, o.Ok?))
    ensures Guarded(st.held, After(st.world, st.requests[id].pc.cmd, o))
  {
    assert RequestInv(st.held, st.world, st.requests[id]) && PcFits(st.requests[id]);
  }

  lemma TakeEffectKeeps(a: Assumptions, st: State, id: nat, o: Outcome, applied: bool)
    requires Sound(a) && Inv(st) && Enabled(a, st, TakeEffect(id, o, applied))
    ensures Inv(Step(a, st, TakeEffect(id, o, applied)))
  {
    var st' := Step(a, st, TakeEffect(id, o, applied));
    var q := st.requests[id];
    assert applied == o.Ok?;
    forall i | i in st.requests && i != id
      ensures RequestInv(st.held, st'.world, st.requests[i])
    {
      EffectSparesOthers(a, st, id, o, i);
    }
    EffectKeepsGuarded(a, st, id, o);
    assert RequestInv(st.held, st.world, q) && PcFits(q);
    InvAfterUpdate(st, id, q.(pc := Landed(q.pc.cmd, o)), st');
  }

  lemma RollBackKeeps(a: Assumptions, st: State, id: nat)
    requires Sound(a) && Inv(st) && Enabled(a, st, RollBackClaims(id))
    ensures Inv(Step(a, st, RollBackClaims(id)))
  {
    var st' := Step(a, st, RollBackClaims(id));
    var q := st.requests[id];
    assert RequestInv(st.held, st.world, q) && PcFits(q);
    forall s, v | Runs(st.world, s, v)
      ensures Holds(st'.held, v, s)
    {
      assert Holds(st.held, v, s);
    }
    forall i | i in st.requests && i != id
      ensures RequestInv(st'.held, st.world, st.requests[i])
    {
      assert RequestInv(st.held, st.world, st.requests[i]);
      if st.requests[i].name == q.name {
        assert Compatible(q.kind, st.requests[i].kind);
      }
    }
    InvAfterFinish(st, id, st');
  }

  lemma ReleaseKeeps(a: Assumptions, st: State, id: nat)
    requires Sound(a) && Inv(st) && Enabled(a, st, ReleaseClaims(id))
    ensures Inv(Step(a, st, ReleaseClaims(id)))
  {
    var st' := Step(a, st, ReleaseClaims(id));
    var q := st.requests[id];
    assert RequestInv(st.held, st.world, q) && PcFits(q);
    forall s, v | Runs(st.world, s, v)
      ensures Holds(st'.held, v, s)
    {
      assert Holds(st.held, v, s);
    }
    forall i | i in st.requests && i != id
      ensures RequestInv(st'.held, st.world, st.requests[i])
    {
      assert RequestInv(st.held, st.world, st.requests[i]);
      if st.requests[i].name == q.name {
        assert Compatible(q.kind, st.requests[i].kind);
      }
    }
    InvAfterFinish(st, id, st');
  }

  lemma CallStepKeeps(a: Assumptions, st: State, e: Event)
    requires Sound(a) && Inv(st) && Enabled(a, st, e)
    requires e.InspectFails? || e.LockMap? || e.LookUp? || e.LockMutex? || e.Spawn?
    ensures Inv(Step(a, st, e))
  {
    var st' := Step(a, st, e);
    var q := st.requests[e.id];
    assert RequestInv(st.held, st.world, q) && PcFits(q);
    if e.id in st'.requests {
      InvAfterUpdate(st, e.id, st'.requests[e.id], st');
    } else {
      InvAfterFinish(st, e.id, st');
    }
  }

  lemma ReturnKeeps(a: Assumptions, st: State, id: nat)
    requires Sound(a) && Inv(st) && Enabled(a, st, Return(id))
    ensures Inv(Step(a, st, Return(id)))
  {
    var st' := Step(a, st, Return(id));
    var q := st.requests[id];
    assert RequestInv(st.held, st.world, q) && PcFits(q);
    InvAfterUpdate(st, id, q.(pc := AfterCommand(q, q.pc.cmd, q.pc.outcome)), st');
  }

  lemma UnlockKeeps(a: Assumptions, st: State, id: nat)
    requires Sound(a) && Inv(st) && Enabled(a, st, UnlockMutex(id))
    ensures Inv(Step(a, st, UnlockMutex(id)))
  {
    var st' := Step(a, st, UnlockMutex(id));
    var q := st.requests[id];
    assert RequestInv(st.held, st.world, q) && PcFits(q);
    match AfterCall(q, q.pc.outcome)
    case None => InvAfterFinish(st, id, st');
    case Some(pc) => InvAfterUpdate(st, id, q.(pc := pc), st');
  }

  lemma OutsideKeeps(a: Assumptions, st: State, e: Event)
    requires Sound(a) && Inv(st) && Enabled(a, st, e)
    requires e.OutsideStop? || e.OutsideRemove?
    ensures Inv(Step(a, st, e))
  {
    var st' := Step(a, st, e);
    forall s, v | Runs(st'.world, s, v)
      ensures Runs(st.world, s, v)
    {
    }
    forall i | i in st.requests
      ensures RequestInv(st.held, st'.world, st.requests[i])
    {
      assert RequestInv(st.held, st.world, st.requests[i]);
    }
  }

  lemma StepKeeps(a: Assumptions, st: State, e: Event)
    requires Sound(a) && Inv(st) && Enabled(a, st, e)
    ensures Inv(Step(a, st, e))
  {
    match e
    case Begin(_, _, _, _) => BeginKeeps(a, st, e);
    case ReadVolumes(id) => ReadVolumesKeeps(a, st, id);
    case ClaimVolumes(id) => ClaimKeeps(a, st, id);
    case TakeEffect(id, o, applied) => TakeEffectKeeps(a, st, id, o, applied);
    case RollBackClaims(id) => RollBackKeeps(a, st, id);
    case ReleaseClaims(id) => ReleaseKeeps(a, st, id);
    case OutsideStop(_) => OutsideKeeps(a, st, e);
    case OutsideRemove(_) => OutsideKeeps(a, st, e);
    case OutsideStart(_, _) =>
    case Return(id) => ReturnKeeps(a, st, id);
    case UnlockMutex(id) => UnlockKeeps(a, st, id);
    case _ => CallStepKeeps(a, st, e);
  }

  lemma {:induction false} RunKeeps(a: Assumptions, st: State, es: seq<Event>)
    requires Sound(a) && Inv(st) && Run(a, st, es).Some?
    ensures Inv(Run(a, st, es).value)
    decreases |es|
  {
    if es != [] {
      StepKeeps(a, st, es[0]);
      RunKeeps(a, Step(a, st, es[0]), es[1..]);
    }
  }

  /** Interleaved safety: a running sandbox's volumes are its own in every reachable state. */
  lemma AlwaysGuarded(a: Assumptions, st: State, es: seq<Event>)
    requires Sound(a) && Initial(st) && Run(a, st, es).Some?
    ensures Guarded(Run(a, st, es).value.held, Run(a, st, es).value.world)
    ensures Exclusive(Run(a, st, es).value.world)
  {
    RunKeeps(a, st, es);
    var last := Run(a, st, es).value;
    GuardedIsExclusive(last.held, last.world);
  }

  /**
   What a half-finished request may rely on in every reachable state. The
   volumes a create or start stands ready to give back are not among those its
   sandbox runs with, and a create still owns every volume it asked for; a
   request about to release knows its sandbox to be down.
   */
  lemma HalfFinishedRequests(a: Assumptions, st: State, es: seq<Event>, id: nat)
    requires Sound(a) && Initial(st) && Run(a, st, es).Some?
    requires id in Run(a, st, es).value.requests
    ensures var last := Run(a, st, es).value;
            var q := last.requests[id];
            && (q.pc.RollBack? ==> forall v | v in q.newly :: v in q.volumes && !Runs(last.world, q.name, v))
            && (q.kind.Creating? && !BeforeClaim(q.pc) ==> HoldsAll(last.held, q.volumes, q.name))
            && (q.pc.LetGo? ==> forall v :: !Runs(last.world, q.name, v))
  {
    RunKeeps(a, st, es);
    var last := Run(a, st, es).value;
    assert PcFits(last.requests[id]) && RequestInv(last.held, last.world, last.requests[id]);
  }
}
