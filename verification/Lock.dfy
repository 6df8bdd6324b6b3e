/**
 The in-memory volume lock: which sandbox holds which named volume.

 Every method of the Go type takes the lock's mutex for its whole body, so
 each is one atomic step. The functions in the first half say what that step
 does to the map; the class in the second half performs it.
 */
module Lock {
  import opened Wrappers

  /** volume name -> sandbox name */
  type Claims = map<string, string>

  datatype LockError = VolumeBusy(volume: string, holder: string)

  /** Does `sandbox` hold `volume`? */
  predicate Holds(held: Claims, volume: string, sandbox: string) {
    volume in held && held[volume] == sandbox
  }

  /** Is `volume` held by a sandbox other than `sandbox`? */
  predicate Busy(held: Claims, volume: string, sandbox: string) {
    volume in held && held[volume] != sandbox
  }

  predicate AnyBusy(held: Claims, volumes: seq<string>, sandbox: string) {
    exists i | 0 <= i < |volumes| :: Busy(held, volumes[i], sandbox)
  }

  /** The map once `sandbox` has claimed every volume listed. */
  function Claimed(held: Claims, volumes: seq<string>, sandbox: string): Claims {
    held + (map v | v in volumes :: sandbox)
  }

  /** The volumes a claim takes from nobody, in request order. */
  function NewClaims(held: Claims, volumes: seq<string>): (newly: seq<string>)
    ensures forall v :: v in newly <==> v in volumes && v !in held
    ensures forall i, j | 0 <= i < j < |newly| :: newly[i] != newly[j]
  {
    if volumes == [] then []
    else
      var init := volumes[..|volumes| - 1];
      var last := volumes[|volumes| - 1];
      assert volumes == init + [last];
      if last in held || last in init then NewClaims(held, init) else NewClaims(held, init) + [last]
  }

  /** Claiming one more volume, as the second loop of AcquireMany does it. */
  lemma ClaimOneMore(held: Claims, volumes: seq<string>, v: string, sandbox: string)
    ensures Claimed(held, volumes + [v], sandbox) == Claimed(held, volumes, sandbox)[v := sandbox]
  {
    var longer := volumes + [v];
    assert forall w :: w in longer <==> w in volumes || w == v;
    assert Claimed(held, longer, sandbox).Keys == Claimed(held, volumes, sandbox)[v := sandbox].Keys;
  }

  lemma NewClaimsOneMore(held: Claims, volumes: seq<string>, v: string)
    ensures NewClaims(held, volumes + [v])
            == if v in held || v in volumes then NewClaims(held, volumes) else NewClaims(held, volumes) + [v]
  {
    var longer := volumes + [v];
    assert longer[..|longer| - 1] == volumes;
  }

  /** One turn of that loop. */
  lemma ClaimStep(held: Claims, volumes: seq<string>, i: nat, sandbox: string)
    requires i < |volumes|
    ensures var v, done := volumes[i], Claimed(held, volumes[..i], sandbox);
            && Claimed(held, volumes[..i + 1], sandbox) == done[v := sandbox]
            && NewClaims(held, volumes[..i + 1])
               == if v in done then NewClaims(held, volumes[..i]) else NewClaims(held, volumes[..i]) + [v]
  {
    assert volumes[..i + 1] == volumes[..i] + [volumes[i]];
    ClaimOneMore(held, volumes[..i], volumes[i], sandbox);
    NewClaimsOneMore(held, volumes[..i], volumes[i]);
  }

  function Released(held: Claims, sandbox: string): Claims {
    map v | v in held && held[v] != sandbox :: held[v]
  }

  function ReleasedOnly(held: Claims, volumes: seq<string>, sandbox: string): Claims {
    map v | v in held && !(v in volumes && held[v] == sandbox) :: held[v]
  }

  class VolumeLock {
    var held: Claims

    constructor ()
      ensures held == map[]
    {
      held := map[];
    }

    method Acquire(volume: string, sandbox: string) returns (r: Result<(), LockError>)
      modifies this
      ensures r.Failure? <==> Busy(old(held), volume, sandbox)
      ensures r.Failure? ==> r.error == VolumeBusy(volume, old(held)[volume]) && held == old(held)
      ensures r.Success? ==> held == old(held)[volume := sandbox]
    {
      if volume in held && held[volume] != sandbox {
        return Failure(VolumeBusy(volume, held[volume]));
      }
      held := held[volume := sandbox];
      r := Success(());
    }

    /** All or nothing; the volumes returned are the ones a rollback must give back. */
    method AcquireMany(volumes: seq<string>, sandbox: string) returns (r: Result<seq<string>, LockError>)
      modifies this
      ensures r.Failure? <==> AnyBusy(old(held), volumes, sandbox)
      ensures r.Failure? ==> held == old(held)
      ensures r.Failure? ==>
                exists i | 0 <= i < |volumes| ::
                  && Busy(held, volumes[i], sandbox)
                  && r.error == VolumeBusy(volumes[i], held[volumes[i]])
                  && !AnyBusy(held, volumes[..i], sandbox)
      ensures r.Success? ==> held == Claimed(old(held), volumes, sandbox)
      ensures r.Success? ==> r.value == NewClaims(old(held), volumes)
    {
      for i := 0 to |volumes|
        invariant held == old(held)
        invariant forall j | 0 <= j < i :: !Busy(held, volumes[j], sandbox)
      {
        if volumes[i] in held && held[volumes[i]] != sandbox {
          assert Busy(held, volumes[i], sandbox);
          return Failure(VolumeBusy(volumes[i], held[volumes[i]]));
        }
      }
      var newlyClaimed := [];
      for i := 0 to |volumes|
        invariant held == Claimed(old(held), volumes[..i], sandbox)
        invariant newlyClaimed == NewClaims(old(held), volumes[..i])
      {
        ClaimStep(old(held), volumes, i, sandbox);
        if volumes[i] !in held {
          newlyClaimed := newlyClaimed + [volumes[i]];
        }
        held := held[volumes[i] := sandbox];
      }
      assert volumes[..|volumes|] == volumes;
      r := Success(newlyClaimed);
    }

    method Release(sandbox: string)
      modifies this
      ensures held == Released(old(held), sandbox)
    {
      var unseen := held.Keys;
      while unseen != {}
        invariant unseen <= old(held).Keys
        invariant held == map v | v in old(held) && (v in unseen || old(held)[v] != sandbox) :: old(held)[v]
        decreases |unseen|
      {
        var v :| v in unseen;
        unseen := unseen - {v};
        if held[v] == sandbox {
          held := held - {v};
        }
      }
    }

    /** Gives back only the listed volumes, and only those `sandbox` still holds. */
    method ReleaseVolumes(volumes: seq<string>, sandbox: string)
      modifies this
      ensures held == ReleasedOnly(old(held), volumes, sandbox)
    {
      for i := 0 to |volumes|
        invariant held == ReleasedOnly(old(held), volumes[..i], sandbox)
      {
        assert volumes[..i + 1] == volumes[..i] + [volumes[i]];
        if volumes[i] in held && held[volumes[i]] == sandbox {
          held := held - {volumes[i]};
        }
      }
      assert volumes[..|volumes|] == volumes;
    }

    method Holder(volume: string) returns (sandbox: Option<string>)
      ensures sandbox == if volume in held then Some(held[volume]) else None
    {
      sandbox := if volume in held then Some(held[volume]) else None;
    }

    method Reconcile(state: Claims)
      modifies this
      ensures held == state
    {
      held := map[];
      var unseen := state.Keys;
      while unseen != {}
        invariant unseen <= state.Keys
        invariant held == map v | v in state && v !in unseen :: state[v]
        decreases |unseen|
      {
        var v :| v in unseen;
        unseen := unseen - {v};
        held := held[v := state[v]];
      }
    }
  }

  /** A failed request that rolls back exactly its new claims leaves no trace. */
  lemma RollbackRestores(held: Claims, volumes: seq<string>, sandbox: string)
    requires !AnyBusy(held, volumes, sandbox)
    ensures ReleasedOnly(Claimed(held, volumes, sandbox), NewClaims(held, volumes), sandbox) == held
  {
    var claimed := Claimed(held, volumes, sandbox);
    forall v | v in held && v in volumes
      ensures held[v] == sandbox
    {
      var i :| 0 <= i < |volumes| && volumes[i] == v;
      assert !Busy(held, volumes[i], sandbox);
    }
    assert ReleasedOnly(claimed, NewClaims(held, volumes), sandbox).Keys == held.Keys;
  }

  /** Rolling back with Release instead would also strip what the sandbox held before. */
  lemma ReleaseIsNotARollback(held: Claims, volumes: seq<string>, sandbox: string)
    requires !AnyBusy(held, volumes, sandbox)
    ensures Released(Claimed(held, volumes, sandbox), sandbox) == held
            <==> forall v | v in held :: held[v] != sandbox
  {
    var released := Released(Claimed(held, volumes, sandbox), sandbox);
    if forall v | v in held :: held[v] != sandbox {
      assert released.Keys == held.Keys;
    } else {
      var v :| v in held && held[v] == sandbox;
      assert v !in released;
    }
  }

  /** The lock operations other requests may perform. */
  datatype LockOp =
    | Take(volumes: seq<string>, sandbox: string)
    | Drop(sandbox: string)
    | GiveBack(volumes: seq<string>, sandbox: string)

  function Perform(held: Claims, op: LockOp): Claims {
    match op
    case Take(vs, s) => if AnyBusy(held, vs, s) then held else Claimed(held, vs, s)
    case Drop(s) => Released(held, s)
    case GiveBack(vs, s) => ReleasedOnly(held, vs, s)
  }

  function PerformAll(held: Claims, ops: seq<LockOp>): Claims
    decreases |ops|
  {
    if ops == [] then held else PerformAll(Perform(held, ops[0]), ops[1..])
  }

  /** Nothing other sandboxes do to the lock changes what `sandbox` holds. */
  lemma {:induction false} OthersKeepMyClaims(held: Claims, ops: seq<LockOp>, sandbox: string)
    requires forall i | 0 <= i < |ops| :: ops[i].sandbox != sandbox
    ensures forall v :: Holds(PerformAll(held, ops), v, sandbox) <==> Holds(held, v, sandbox)
    decreases |ops|
  {
    if ops != [] {
      var next := Perform(held, ops[0]);
      forall v
        ensures Holds(next, v, sandbox) <==> Holds(held, v, sandbox)
      {
        if ops[0].Take? && !AnyBusy(held, ops[0].volumes, ops[0].sandbox) && v in ops[0].volumes {
          var i :| 0 <= i < |ops[0].volumes| && ops[0].volumes[i] == v;
          assert !Busy(held, ops[0].volumes[i], ops[0].sandbox);
        }
      }
      OthersKeepMyClaims(next, ops[1..], sandbox);
    }
  }

  /**
   Between a claim and its rollback other sandboxes may claim and release. The
   rollback then leaves every one of their claims alone, and the sandbox that
   rolled back holds exactly what it held before it asked.
   */
  lemma RollbackUnderInterference(held: Claims, volumes: seq<string>, sandbox: string, ops: seq<LockOp>)
    requires !AnyBusy(held, volumes, sandbox)
    requires forall i | 0 <= i < |ops| :: ops[i].sandbox != sandbox
    ensures var before := PerformAll(Claimed(held, volumes, sandbox), ops);
            var after := ReleasedOnly(before, NewClaims(held, volumes), sandbox);
            && (forall v, other | other != sandbox :: Holds(after, v, other) <==> Holds(before, v, other))
            && (forall v :: Holds(after, v, sandbox) <==> Holds(held, v, sandbox))
  {
    var claimed := Claimed(held, volumes, sandbox);
    OthersKeepMyClaims(claimed, ops, sandbox);
    RollbackRestores(held, volumes, sandbox);
    var before := PerformAll(claimed, ops);
    var after := ReleasedOnly(before, NewClaims(held, volumes), sandbox);
    forall v
      ensures Holds(after, v, sandbox) <==> Holds(held, v, sandbox)
    {
      assert Holds(before, v, sandbox) <==> Holds(claimed, v, sandbox);
      assert Holds(ReleasedOnly(claimed, NewClaims(held, volumes), sandbox), v, sandbox) <==> Holds(held, v, sandbox);
    }
  }
}
