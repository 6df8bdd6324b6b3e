/**
 The lock as an exact cache in every interleaving: it may hold a volume too long
 only while a request is about to give it back, so that whenever nothing is in
 flight it says what `msb` runs and nothing else.
 */
module ProtocolAgreement {
  import opened Wrappers
  import opened Msb
  import opened Lock
  import opened Cache
  import opened Protocol
  import opened ProtocolSafety

  predicate Inside(e: Event) {
    !e.OutsideStop? && !e.OutsideRemove? && !e.OutsideStart?
  }

  /** Does the request stand ready to give back its sandbox's claim to v? */
  predicate Owes(q: Request, v: string) {
    match q.kind
    case Creating => !BeforeClaim(q.pc) && !Committed(q.pc) && v in q.newly
    case Starting => !BeforeClaim(q.pc) && !Committed(q.pc) && v in q.newly
    case Stopping => Confirmed(q.pc)
    case Deleting => Confirmed(q.pc)
    case _ => false
  }

  ghost predicate Owed(requests: map<nat, Request>, v: string, s: string) {
    exists id | id in requests :: requests[id].name == s && Owes(requests[id], v)
  }

  /** Every claim is of a running mount, or about to be given back. */
  ghost predicate Explained(st: State) {
    forall v, s | Holds(st.held, v, s) :: Runs(st.world, s, v) || Owed(st.requests, v, s)
  }

  /** A create that brings its sandbox up does so on claims that are all its own. */
  ghost predicate CreateOwns(w: World, q: Request) {
    q.kind.Creating? && !BeforeClaim(q.pc) ==>
      if Committed(q.pc) then
        q.name in w && w[q.name].volumes == q.volumes && forall v | v in q.volumes :: v in q.newly
      else
        forall v | v in q.volumes :: v in q.newly || Runs(w, q.name, v)
  }

  ghost predicate CreatesOwn(st: State) {
    forall id | id in st.requests :: CreateOwns(st.world, st.requests[id])
  }

  ghost predicate AgreementInv(st: State) {
    Inv(st) && Explained(st) && CreatesOwn(st)
  }

  /** A step of request `id` that leaves the lock and the world alone, and what it owes too. */
  lemma MoveKeepsExplained(st: State, st': State, id: nat)
    requires Explained(st) && id in st.requests && st'.held == st.held && st'.world == st.world
    requires forall i | i in st.requests && i != id :: i in st'.requests && st'.requests[i] == st.requests[i]
    requires forall v | Owes(st.requests[id], v) ::
               id in st'.requests && st'.requests[id].name == st.requests[id].name && Owes(st'.requests[id], v)
    ensures Explained(st')
  {
    forall v, s | Holds(st'.held, v, s)
      ensures Runs(st'.world, s, v) || Owed(st'.requests, v, s)
    {
      if Owed(st.requests, v, s) {
        var i :| i in st.requests && st.requests[i].name == s && Owes(st.requests[i], v);
        assert i in st'.requests && st'.requests[i].name == s && Owes(st'.requests[i], v);
      }
    }
  }

  lemma BeginKeeps(a: Assumptions, st: State, e: Event)
    requires AgreementInv(st) && Enabled(a, st, e) && e.Begin?
    ensures Explained(Step(a, st, e)) && CreatesOwn(Step(a, st, e))
  {
    var st' := Step(a, st, e);
    forall v, s | Holds(st'.held, v, s)
      ensures Runs(st'.world, s, v) || Owed(st'.requests, v, s)
    {
      if Owed(st.requests, v, s) {
        var i :| i in st.requests && st.requests[i].name == s && Owes(st.requests[i], v);
        assert i in st'.requests && st'.requests[i] == st.requests[i];
      }
    }
  }

  /** Only a request of its own kind and name could owe what a create finds already claimed; there is none. */
  lemma CreateFindsMounts(st: State, id: nat, v: string)
    requires AgreementInv(st) && id in st.requests && st.requests[id].kind.Creating? && st.requests[id].pc.Claim?
    requires Holds(st.held, v, st.requests[id].name)
    ensures Runs(st.world, st.requests[id].name, v)
  {
    NobodyElseOwes(st, id, v);
  }

  /** Next to a create nothing that could owe its sandbox's claims is in flight. */
  lemma NobodyElseOwes(st: State, id: nat, v: string)
    requires Inv(st) && id in st.requests && st.requests[id].kind.Creating?
    ensures forall i | i in st.requests && i != id && st.requests[i].name == st.requests[id].name ::
              !Owes(st.requests[i], v)
  {
    forall i | i in st.requests && i != id && st.requests[i].name == st.requests[id].name
      ensures !Owes(st.requests[i], v)
    {
      assert Compatible(st.requests[i].kind, st.requests[id].kind);
    }
  }

  lemma ClaimKeeps(a: Assumptions, st: State, id: nat)
    requires AgreementInv(st) && Enabled(a, st, ClaimVolumes(id))
    ensures Explained(Step(a, st, ClaimVolumes(id))) && CreatesOwn(Step(a, st, ClaimVolumes(id)))
  {
    var st' := Step(a, st, ClaimVolumes(id));
    var q := st.requests[id];
    assert PcFits(q);
    if AnyBusy(st.held, q.volumes, q.name) {
      MoveKeepsExplained(st, st', id);
    } else {
      ClaimExplained(a, st, id);
      forall v | v in q.volumes && q.kind.Creating?
        ensures v in st'.requests[id].newly || Runs(st.world, q.name, v)
      {
        if v in st.held {
          NotBusy(st.held, q.volumes, q.name, v);
          CreateFindsMounts(st, id, v);
        }
      }
    }
  }

  lemma NotBusy(held: Claims, volumes: seq<string>, sandbox: string, v: string)
    requires !AnyBusy(held, volumes, sandbox) && v in volumes && v in held
    ensures held[v] == sandbox
  {
    var i :| 0 <= i < |volumes| && volumes[i] == v;
    assert !Busy(held, volumes[i], sandbox);
  }

  lemma ClaimExplained(a: Assumptions, st: State, id: nat)
    requires AgreementInv(st) && Enabled(a, st, ClaimVolumes(id))
    requires !AnyBusy(st.held, st.requests[id].volumes, st.requests[id].name)
    ensures Explained(Step(a, st, ClaimVolumes(id)))
  {
    var st' := Step(a, st, ClaimVolumes(id));
    var q := st.requests[id];
    assert PcFits(q);
    forall v, s | Holds(st'.held, v, s)
      ensures Runs(st'.world, s, v) || Owed(st'.requests, v, s)
    {
      if v in st.held {
        if v in q.volumes {
          NotBusy(st.held, q.volumes, q.name, v);
        }
        assert Holds(st.held, v, s);
        if Owed(st.requests, v, s) {
          var i :| i in st.requests && st.requests[i].name == s && Owes(st.requests[i], v);
          assert i != id && st'.requests[i] == st.requests[i];
        }
      } else {
        assert st'.requests[id].name == s && Owes(st'.requests[id], v);
      }
    }
  }

  /** Steps of a request that change neither the lock's map nor the world, a refused claim left aside. */
  predicate Quiet(e: Event) {
    || e.ReadVolumes? || e.InspectFails? || e.LockMap? || e.LookUp?
    || e.LockMutex? || e.Spawn? || e.Return? || e.UnlockMutex?
  }

  lemma QuietKeeps(a: Assumptions, st: State, e: Event)
    requires AgreementInv(st) && Enabled(a, st, e) && Quiet(e)
    ensures Explained(Step(a, st, e)) && CreatesOwn(Step(a, st, e))
  {
    var st' := Step(a, st, e);
    var q := st.requests[e.id];
    assert PcFits(q) && CreateOwns(st.world, q);
    QuietSparesOthers(a, st, e);
    forall v | Owes(q, v)
      ensures e.id in st'.requests && st'.requests[e.id].name == q.name && Owes(st'.requests[e.id], v)
    {
      QuietStillOwes(a, st, e, v);
    }
    MoveKeepsExplained(st, st', e.id);
    if e.id in st'.requests {
      QuietStillOwns(a, st, e);
    }
  }

  lemma QuietSparesOthers(a: Assumptions, st: State, e: Event)
    requires Enabled(a, st, e) && Quiet(e)
    ensures var st' := Step(a, st, e);
            && st'.held == st.held && st'.world == st.world
            && (forall i | i in st.requests && i != e.id :: i in st'.requests && st'.requests[i] == st.requests[i])
            && (forall i | i in st'.requests :: i in st.requests)
  {
  }

  lemma QuietStillOwes(a: Assumptions, st: State, e: Event, v: string)
    requires Enabled(a, st, e) && Quiet(e) && PcFits(st.requests[e.id]) && Owes(st.requests[e.id], v)
    ensures var st' := Step(a, st, e);
            e.id in st'.requests && st'.requests[e.id].name == st.requests[e.id].name && Owes(st'.requests[e.id], v)
  {
  }

  lemma QuietStillOwns(a: Assumptions, st: State, e: Event)
    requires Enabled(a, st, e) && Quiet(e) && e.id in Step(a, st, e).requests
    requires PcFits(st.requests[e.id]) && CreateOwns(st.world, st.requests[e.id])
    ensures CreateOwns(st.world, Step(a, st, e).requests[e.id])
  {
  }

  /** What a command's landing does to its own sandbox's claims: they become mounts, or are owed. */
  lemma OwnClaimAfterEffect(a: Assumptions, st: State, id: nat, o: Outcome, v: string)
    requires Sound(a) && AgreementInv(st) && Enabled(a, st, TakeEffect(id, o, o.Ok?))
    requires OnSandbox(st.requests[id].pc.cmd) && Holds(st.held, v, st.requests[id].name)
    ensures var st' := Step(a, st, TakeEffect(id, o, o.Ok?));
            var s := st.requests[id].name;
            Runs(st'.world, s, v) || Owed(st'.requests, v, s)
  {
    var q := st.requests[id];
    var st' := Step(a, st, TakeEffect(id, o, o.Ok?));
    assert PcFits(q) && NewlyFits(q) && RequestInv(st.held, st.world, q) && CreateOwns(st.world, q);
    if Owed(st.requests, v, q.name) {
      var i :| i in st.requests && st.requests[i].name == q.name && Owes(st.requests[i], v);
      if i != id {
        assert st'.requests[i] == st.requests[i];
      } else {
        OwerLands(a, st, id, o, v);
        assert st'.requests[id].name == q.name;
      }
    } else {
      MountLands(a, st, id, o, v);
      assert st'.requests[id].name == q.name;
    }
  }

  lemma OwerLands(a: Assumptions, st: State, id: nat, o: Outcome, v: string)
    requires Sound(a) && AgreementInv(st) && Enabled(a, st, TakeEffect(id, o, o.Ok?))
    requires OnSandbox(st.requests[id].pc.cmd) && Owes(st.requests[id], v)
    ensures var st' := Step(a, st, TakeEffect(id, o, o.Ok?));
            Runs(st'.world, st.requests[id].name, v) || Owes(st'.requests[id], v)
  {
    var q := st.requests[id];
    assert PcFits(q) && NewlyFits(q) && RequestInv(st.held, st.world, q) && CreateOwns(st.world, q);
  }

  lemma MountLands(a: Assumptions, st: State, id: nat, o: Outcome, v: string)
    requires Sound(a) && AgreementInv(st) && Enabled(a, st, TakeEffect(id, o, o.Ok?))
    requires OnSandbox(st.requests[id].pc.cmd) && Runs(st.world, st.requests[id].name, v)
    ensures var st' := Step(a, st, TakeEffect(id, o, o.Ok?));
            Runs(st'.world, st.requests[id].name, v) || Owes(st'.requests[id], v)
  {
    var q := st.requests[id];
    assert PcFits(q) && NewlyFits(q) && RequestInv(st.held, st.world, q) && CreateOwns(st.world, q);
  }

  /** Whose claim is not the moving sandbox's stays as explained as it was. */
  lemma OtherClaimAfterEffect(a: Assumptions, st: State, id: nat, o: Outcome, v: string, s: string)
    requires Sound(a) && AgreementInv(st) && Enabled(a, st, TakeEffect(id, o, o.Ok?)) && Holds(st.held, v, s)
    requires s != st.requests[id].name || !OnSandbox(st.requests[id].pc.cmd)
    ensures var st' := Step(a, st, TakeEffect(id, o, o.Ok?));
            Runs(st'.world, s, v) || Owed(st'.requests, v, s)
  {
    var st' := Step(a, st, TakeEffect(id, o, o.Ok?));
    var q := st.requests[id];
    assert PcFits(q);
    if Owed(st.requests, v, s) {
      var i :| i in st.requests && st.requests[i].name == s && Owes(st.requests[i], v);
      assert i in st'.requests && st'.requests[i].name == s && Owes(st'.requests[i], v);
    }
  }

  lemma EffectExplained(a: Assumptions, st: State, id: nat, o: Outcome)
    requires Sound(a) && AgreementInv(st) && Enabled(a, st, TakeEffect(id, o, o.Ok?))
    ensures Explained(Step(a, st, TakeEffect(id, o, o.Ok?)))
  {
    var st' := Step(a, st, TakeEffect(id, o, o.Ok?));
    forall v, s | Holds(st'.held, v, s)
      ensures Runs(st'.world, s, v) || Owed(st'.requests, v, s)
    {
      if s == st.requests[id].name && OnSandbox(st.requests[id].pc.cmd) {
        OwnClaimAfterEffect(a, st, id, o, v);
      } else {
        OtherClaimAfterEffect(a, st, id, o, v, s);
      }
    }
  }

  /** A landing makes its own create's claims its own, and leaves what other creates rely on alone. */
  lemma CreateOwnsAfterEffect(a: Assumptions, st: State, id: nat, o: Outcome)
    requires Sound(a) && AgreementInv(st) && Enabled(a, st, TakeEffect(id, o, o.Ok?))
    ensures CreateOwns(Step(a, st, TakeEffect(id, o, o.Ok?)).world, Step(a, st, TakeEffect(id, o, o.Ok?)).requests[id])
  {
    assert PcFits(st.requests[id]) && CreateOwns(st.world, st.requests[id]);
  }

  lemma OtherCreateAfterEffect(a: Assumptions, st: State, id: nat, o: Outcome, i: nat)
    requires Sound(a) && AgreementInv(st) && Enabled(a, st, TakeEffect(id, o, o.Ok?)) && i in st.requests && i != id
    ensures CreateOwns(Step(a, st, TakeEffect(id, o, o.Ok?)).world, st.requests[i])
  {
    assert PcFits(st.requests[id]) && CreateOwns(st.world, st.requests[i]);
    if st.requests[i].name == st.requests[id].name {
      assert Compatible(st.requests[i].kind, st.requests[id].kind);
    }
  }

  lemma EffectKeeps(a: Assumptions, st: State, id: nat, o: Outcome, applied: bool)
    requires Sound(a) && AgreementInv(st) && Enabled(a, st, TakeEffect(id, o, applied))
    ensures Explained(Step(a, st, TakeEffect(id, o, applied))) && CreatesOwn(Step(a, st, TakeEffect(id, o, applied)))
  {
    var st' := Step(a, st, TakeEffect(id, o, applied));
    assert applied == o.Ok?;
    EffectExplained(a, st, id, o);
    forall i | i in st'.requests
      ensures CreateOwns(st'.world, st'.requests[i])
    {
      if i == id {
        CreateOwnsAfterEffect(a, st, id, o);
      } else {
        OtherCreateAfterEffect(a, st, id, o, i);
      }
    }
  }

  lemma GiveBackKeeps(a: Assumptions, st: State, e: Event)
    requires AgreementInv(st) && Enabled(a, st, e) && (e.RollBackClaims? || e.ReleaseClaims?)
    ensures Explained(Step(a, st, e)) && CreatesOwn(Step(a, st, e))
  {
    var st' := Step(a, st, e);
    var q := st.requests[e.id];
    assert PcFits(q);
    forall v, s | Holds(st'.held, v, s)
      ensures Runs(st'.world, s, v) || Owed(st'.requests, v, s)
    {
      assert Holds(st.held, v, s);
      if Owed(st.requests, v, s) {
        var i :| i in st.requests && st.requests[i].name == s && Owes(st.requests[i], v);
        assert i != e.id;
        assert st'.requests[i] == st.requests[i];
      }
    }
  }

  lemma AgreementStep(a: Assumptions, st: State, e: Event)
    requires Sound(a) && AgreementInv(st) && Enabled(a, st, e) && Inside(e)
    ensures AgreementInv(Step(a, st, e))
  {
    StepKeeps(a, st, e);
    ExplainedStep(a, st, e);
  }

  lemma ExplainedStep(a: Assumptions, st: State, e: Event)
    requires Sound(a) && AgreementInv(st) && Enabled(a, st, e) && Inside(e)
    ensures Explained(Step(a, st, e)) && CreatesOwn(Step(a, st, e))
  {
    match e
    case Begin(_, _, _, _) => BeginKeeps(a, st, e);
    case ClaimVolumes(id) => ClaimKeeps(a, st, id);
    case TakeEffect(id, o, applied) => EffectKeeps(a, st, id, o, applied);
    case RollBackClaims(_) => GiveBackKeeps(a, st, e);
    case ReleaseClaims(_) => GiveBackKeeps(a, st, e);
    case _ => QuietKeeps(a, st, e);
  }

  lemma {:induction false} AgreementRun(a: Assumptions, st: State, es: seq<Event>)
    requires Sound(a) && AgreementInv(st) && Run(a, st, es).Some? && forall i | 0 <= i < |es| :: Inside(es[i])
    ensures AgreementInv(Run(a, st, es).value)
    decreases |es|
  {
    if es != [] {
      AgreementStep(a, st, es[0]);
      AgreementRun(a, Step(a, st, es[0]), es[1..]);
    }
  }

  /**
   In every reachable state each claim is of a running mount or about to be
   given back by a request in flight; so when none is in flight the lock says
   exactly what `msb` runs.
   */
  lemma IdleLockAgrees(a: Assumptions, st: State, es: seq<Event>)
    requires Sound(a) && Initial(st) && Agrees(st.held, st.world)
    requires Run(a, st, es).Some? && forall i | 0 <= i < |es| :: Inside(es[i])
    ensures var last := Run(a, st, es).value;
            && (forall v, s | Holds(last.held, v, s) :: Runs(last.world, s, v) || Owed(last.requests, v, s))
            && (last.requests == map[] ==> Agrees(last.held, last.world))
  {
    AgreementRun(a, st, es);
  }
}
