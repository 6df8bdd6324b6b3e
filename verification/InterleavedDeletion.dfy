/**
 DELETE of a volume in the interleaved machine: the lookup is one step, the
 removal takes effect at a later one, and other requests move in between.
 */
module InterleavedDeletion {
  import opened Wrappers
  import opened Msb
  import opened Lock
  import opened Protocol
  import opened ProtocolSafety
  import opened ProtocolNecessity

  /** A stretch of a run in which, unless `claims`, no request takes a claim. */
  predicate Stretch(es: seq<Event>, claims: bool) {
    forall i | 0 <= i < |es| :: es[i].ClaimVolumes? ==> claims
  }

  /** From request id's lookup to the effect of its removal. */
  function Deletion(id: nat, between: seq<Event>): seq<Event> {
    [LookUp(id)] + between + [TakeEffect(id, Ok, true)]
  }

  /** Can this deletion be carried out from mid, with at most those claims in between? */
  ghost predicate Deletes(a: Assumptions, mid: State, id: nat, between: seq<Event>, claims: bool) {
    Run(a, mid, Deletion(id, between)).Some? && Stretch(between, claims)
  }

  /** Every deletion that is carried out, anywhere in any run, removes a volume no running sandbox mounts. */
  ghost predicate DeletionIsSafe(a: Assumptions, claims: bool) {
    forall st, before, id, between, s: string ::
      Initial(st) && Run(a, st, before).Some? && Deletes(a, Run(a, st, before).value, id, between, claims) ==>
        var mid := Run(a, st, before).value;
        !Runs(Run(a, mid, Deletion(id, between)).value.world, s, mid.requests[id].name)
  }

  lemma {:induction false} StaysFree(a: Assumptions, st: State, es: seq<Event>, volume: string)
    requires Run(a, st, es).Some? && Stretch(es, false) && volume !in st.held
    ensures volume !in Run(a, st, es).value.held
    decreases |es|
  {
    if es != [] {
      assert !es[0].ClaimVolumes?;
      StaysFree(a, Step(a, st, es[0]), es[1..], volume);
    }
  }

  /** A request that is gone never comes back. */
  lemma {:induction false} GoneStaysGone(a: Assumptions, st: State, es: seq<Event>, id: nat)
    requires Run(a, st, es).Some? && id !in st.requests && id < st.next
    ensures id !in Run(a, st, es).value.requests
    decreases |es|
  {
    if es != [] {
      GoneStaysGone(a, Step(a, st, es[0]), es[1..], id);
    }
  }

  lemma DeletionParts(a: Assumptions, mid: State, id: nat, between: seq<Event>)
    requires Run(a, mid, Deletion(id, between)).Some?
    ensures Enabled(a, mid, LookUp(id))
    ensures Run(a, Step(a, mid, LookUp(id)), between).Some?
    ensures var before := Run(a, Step(a, mid, LookUp(id)), between).value;
            && Enabled(a, before, TakeEffect(id, Ok, true))
            && Run(a, mid, Deletion(id, between)) == Some(Step(a, before, TakeEffect(id, Ok, true)))
  {
    var es := Deletion(id, between);
    assert es[1..] == between + [TakeEffect(id, Ok, true)];
    RunPrefix(a, Step(a, mid, LookUp(id)), between, [TakeEffect(id, Ok, true)]);
    var before := Run(a, Step(a, mid, LookUp(id)), between).value;
    assert [TakeEffect(id, Ok, true)][1..] == [];
    assert Run(a, before, [TakeEffect(id, Ok, true)]).Some?;
  }

  lemma {:induction false} RunPrefix(a: Assumptions, st: State, first: seq<Event>, second: seq<Event>)
    requires Run(a, st, first + second).Some?
    ensures Run(a, st, first).Some? && Run(a, st, first + second) == Run(a, Run(a, st, first).value, second)
    decreases |first|
  {
    if first == [] {
      assert first + second == second;
    } else {
      assert (first + second)[1..] == first[1..] + second;
      RunPrefix(a, Step(a, st, first[0]), first[1..], second);
    }
  }

  /** A request keeps its kind and name as long as it lasts. */
  lemma {:induction false} StaysItself(a: Assumptions, st: State, es: seq<Event>, id: nat)
    requires Run(a, st, es).Some? && id in st.requests && id < st.next && id in Run(a, st, es).value.requests
    ensures Run(a, st, es).value.requests[id].kind == st.requests[id].kind
    ensures Run(a, st, es).value.requests[id].name == st.requests[id].name
    decreases |es|
  {
    if es != [] {
      var next := Step(a, st, es[0]);
      if id !in next.requests {
        GoneStaysGone(a, next, es[1..], id);
      } else {
        StaysItself(a, next, es[1..], id);
      }
    }
  }

  /** A deletion gets past its lookup only if the volume was free, and what it then does touches no sandbox. */
  lemma DeletionFoundFree(a: Assumptions, mid: State, id: nat, between: seq<Event>)
    requires Inv(mid) && Run(a, mid, Deletion(id, between)).Some?
    ensures id in mid.requests && mid.requests[id].kind.Dropping? && mid.requests[id].name !in mid.held
  {
    DeletionParts(a, mid, id, between);
    assert PcFits(mid.requests[id]);
    var looked := Step(a, mid, LookUp(id));
    if mid.requests[id].name in mid.held {
      GoneStaysGone(a, looked, between, id);
    }
  }

  lemma DeletionSparesWorld(a: Assumptions, mid: State, id: nat, between: seq<Event>)
    requires Sound(a) && Inv(mid) && Run(a, mid, Deletion(id, between)).Some?
    ensures Enabled(a, mid, LookUp(id)) && Run(a, Step(a, mid, LookUp(id)), between).Some?
    ensures Run(a, mid, Deletion(id, between)).value.world == Run(a, Step(a, mid, LookUp(id)), between).value.world
  {
    DeletionParts(a, mid, id, between);
    DeletionFoundFree(a, mid, id, between);
    var looked := Step(a, mid, LookUp(id));
    StepKeeps(a, mid, LookUp(id));
    RunKeeps(a, looked, between);
    StaysItself(a, looked, between, id);
    var last := Run(a, looked, between).value;
    assert PcFits(last.requests[id]);
  }

  lemma DeletionRuns(a: Assumptions, mid: State, id: nat, between: seq<Event>, last: State)
    requires Enabled(a, mid, LookUp(id)) && Run(a, Step(a, mid, LookUp(id)), between) == Some(last)
    requires Enabled(a, last, TakeEffect(id, Ok, true))
    ensures Run(a, mid, Deletion(id, between)) == Some(Step(a, last, TakeEffect(id, Ok, true)))
  {
    var removal := [TakeEffect(id, Ok, true)];
    assert Deletion(id, between)[1..] == between + removal;
    RunConcat(a, Step(a, mid, LookUp(id)), between, removal);
    assert removal[1..] == [];
    assert Run(a, last, removal) == Run(a, Step(a, last, removal[0]), []);
  }

  /** A create that begins after the lookup and mounts the volume before the removal. */
  lemma MountedMeanwhile(a: Assumptions, web: string, volume: string)
    requires web != volume
    ensures !DeletionIsSafe(a, true)
  {
    var st := Fresh(map[]);
    var mid := AboutToLookUp(a, volume);
    var before := ReachedByRun(a, st, mid);
    var looked := Goto(mid, 0, AwaitMutex).(mapMutex := None);
    var last := CreateThenSpawn(a, looked, web, volume);
    var between := ReachedByRun(a, looked, last);
    DeletionRuns(a, mid, 0, between, last);
    var end := Step(a, last, TakeEffect(0, Ok, true));
    assert Deletes(a, mid, 0, between, true) && Initial(st);
    assert Runs(end.world, web, volume);
  }

  lemma AboutToLookUp(a: Assumptions, volume: string) returns (mid: State)
    ensures Reaches(a, Fresh(map[]), mid)
    ensures mid == Fresh(map[]).(mapMutex := Some(0), next := 1,
                                 requests := map[0 := Request(Dropping, volume, [], false, [], Lookup)])
  {
    var s1 := ThenBegin(a, Fresh(map[]), Fresh(map[]), Dropping, [], false, volume);
    mid := ThenLockMap(a, Fresh(map[]), s1, 0);
  }

  /** The deletion waits while a create runs, then spawns its removal. */
  lemma CreateThenSpawn(a: Assumptions, looked: State, web: string, volume: string) returns (last: State)
    requires Idle(looked) && looked.held == map[] && looked.world == map[] && looked.next == 1 && web != volume
    requires looked.requests == map[0 := Request(Dropping, volume, [], false, [], AwaitMutex)]
    ensures Reaches(a, looked, last) && At(last, 0, Spawned(RemoveVolume(volume))) && Runs(last.world, web, volume)
  {
    var drop := looked.requests[0];
    var s1 := ThenBegin(a, looked, looked, Creating, [volume], false, web);
    var s2 := ThenClaim(a, looked, s1, 1);
    var s3 := CallRuns(a, looked, s2, 1, Ok, true);
    assert s3.requests == map[0 := drop];
    var s4 := ThenLock(a, looked, s3, 0);
    last := ThenSpawn(a, looked, s4, 0, RemoveVolume(volume));
  }

  /** Deletion is safe, in every interleaving the lock protects, exactly when nobody takes a claim in the gap. */
  lemma DeletionIsSafeExactly(a: Assumptions, claims: bool)
    requires Sound(a)
    ensures DeletionIsSafe(a, claims) <==> !claims
  {
    if claims {
      var web, data := "web", "data";
      assert |web| != |data|;
      MountedMeanwhile(a, web, data);
    } else {
      forall st, before, id, between, s: string
        | Initial(st) && Run(a, st, before).Some? && Deletes(a, Run(a, st, before).value, id, between, claims)
        ensures var mid := Run(a, st, before).value;
                && id in mid.requests
                && !Runs(Run(a, mid, Deletion(id, between)).value.world, s, mid.requests[id].name)
      {
        RunKeeps(a, st, before);
        UnmountedAtRemoval(a, Run(a, st, before).value, id, between, s);
      }
    }
  }

  lemma UnmountedAtRemoval(a: Assumptions, mid: State, id: nat, between: seq<Event>, s: string)
    requires Sound(a) && Inv(mid) && Deletes(a, mid, id, between, false)
    ensures id in mid.requests
    ensures !Runs(Run(a, mid, Deletion(id, between)).value.world, s, mid.requests[id].name)
  {
    DeletionFoundFree(a, mid, id, between);
    DeletionSparesWorld(a, mid, id, between);
    var looked := Step(a, mid, LookUp(id));
    var volume := mid.requests[id].name;
    StepKeeps(a, mid, LookUp(id));
    RunKeeps(a, looked, between);
    StaysFree(a, looked, between, volume);
    var last := Run(a, looked, between).value;
    assert Runs(last.world, s, volume) ==> Holds(last.held, volume, s);
  }
}
