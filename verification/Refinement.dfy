/**
 The two levels agree: what Lifecycle says a whole request does is what the
 interleaved machine does when nobody else moves meanwhile.
 */
module Refinement {
  import opened Wrappers
  import opened Msb
  import opened Lock
  import opened Client
  import opened P = Protocol
  import opened ProtocolNecessity
  import L = Lifecycle

  /** The machine with nothing in flight, showing the lock and the sandboxes of st. */
  ghost predicate Shows(p: P.State, st: L.State) {
    p.requests == map[] && Idle(p) && p.held == st.held && p.world == st.world
  }

  /** The `rm -f` of r fails only where the assumptions let it. */
  predicate Undoes(a: Assumptions, r: L.Request) {
    r.CreateSandbox? && Orphans(r.keys, r.answers) ==> a.rollbackMayFail
  }

  predicate Allowed(a: Assumptions, st: L.State, r: L.Request) {
    L.Possible(st, r) && Undoes(a, r)
  }

  lemma Answerable(a: Assumptions, w: World, c: Command, o: Outcome)
    requires MayAnswer(w, c, o) && !c.RemoveForce?
    ensures MayLand(a, w, c, o, o.Ok?)
  {
  }

  /** A request that claims and then makes a one-command call. */
  lemma ClaimAndCall(a: Assumptions, p: P.State, mid: P.State, id: nat, o: Outcome) returns (end: P.State)
    requires Reaches(a, p, mid) && Idle(mid) && At(mid, id, Claim) && mid.requests.Keys == {id}
    requires var q := mid.requests[id];
             && (q.kind.Creating? || q.kind.Starting?) && !(q.kind.Creating? && q.keys)
             && MayAnswer(mid.world, FirstCommand(q), o)
    ensures Reaches(a, p, end) && end.requests == map[] && Idle(end)
    ensures var q := mid.requests[id];
            if AnyBusy(mid.held, q.volumes, q.name) then end.held == mid.held && end.world == mid.world
            else
              var claimed := Claimed(mid.held, q.volumes, q.name);
              && end.world == After(mid.world, FirstCommand(q), o)
              && end.held == if o.Ok? then claimed else ReleasedOnly(claimed, NewClaims(mid.held, q.volumes), q.name)
  {
    var q := mid.requests[id];
    if AnyBusy(mid.held, q.volumes, q.name) {
      var locked := ThenLockMap(a, p, mid, id);
      end := Extend(a, p, locked, ClaimVolumes(id));
    } else {
      var s1 := ThenClaim(a, p, mid, id);
      Answerable(a, mid.world, FirstCommand(q), o);
      assert FirstCommand(s1.requests[id]) == FirstCommand(q);
      end := CallRuns(a, p, s1, id, o, o.Ok?);
      if o.Failed? {
        assert end.requests.Keys == {id};
        end := ThenRollBack(a, p, end, id);
      }
    }
  }

  /** A Create with keys to install, from taking the mutex to giving it back. */
  lemma CreateWithKeys(a: Assumptions, p: P.State, mid: P.State, id: nat, c: CreateAnswers) returns (end: P.State)
    requires Reaches(a, p, mid) && Idle(mid) && At(mid, id, AwaitMutex)
    requires var q := mid.requests[id];
             && q.kind.Creating? && q.keys
             && PossibleAnswers(mid.world, q.name, q.volumes, true, c)
             && (Orphans(true, c) ==> a.rollbackMayFail)
    ensures Reaches(a, p, end)
    ensures var q := mid.requests[id];
            && end.held == mid.held && Idle(end)
            && end.world == CreateWorld(mid.world, q.name, q.volumes, true, c)
            && end.requests == if CreateOutcome(true, c).Ok? then mid.requests - {id}
                               else mid.requests[id := q.(pc := RollBack)]
  {
    var q := mid.requests[id];
    var create := Command.Create(q.name, q.volumes);
    var s1 := ThenLock(a, p, mid, id);
    Answerable(a, mid.world, create, c.create);
    var s2 := CommandRuns(a, p, s1, id, create, c.create, c.create.Ok?);
    var last: Outcome := c.create;
    if c.create.Ok? {
      s2 := InstallKeys(a, p, s2, id, mid.world, c);
      last := if c.exec.Ok? then Ok else Failed(Unrecognised);
    }
    assert At(s2, id, Unlock(last));
    end := ThenUnlock(a, p, s2, id, last);
    assert s2.requests - {id} == mid.requests - {id};
  }

  /** The key installer, and the `rm -f` after it should it fail. */
  lemma InstallKeys(a: Assumptions, p: P.State, mid: P.State, id: nat, w: World, c: CreateAnswers)
    returns (end: P.State)
    requires Reaches(a, p, mid) && id in mid.requests && At(mid, id, Issue(Command.Exec(mid.requests[id].name)))
    requires var q := mid.requests[id];
             && q.keys && PossibleAnswers(w, q.name, q.volumes, true, c) && c.create.Ok?
             && mid.world == Effect(w, Command.Create(q.name, q.volumes))
             && (Orphans(true, c) ==> a.rollbackMayFail)
    ensures Reaches(a, p, end) && end.held == mid.held && end.mapMutex == mid.mapMutex && end.mutex == mid.mutex
    ensures var q := mid.requests[id];
            && end.world == CreateWorld(w, q.name, q.volumes, true, c)
            && end.requests == mid.requests[id := q.(pc := Unlock(if c.exec.Ok? then Ok else Failed(Unrecognised)))]
  {
    var q := mid.requests[id];
    Answerable(a, mid.world, Command.Exec(q.name), c.exec);
    end := CommandRuns(a, p, mid, id, Command.Exec(q.name), c.exec, c.exec.Ok?);
    if c.exec.Failed? {
      end := CommandRuns(a, p, end, id, RemoveForce(q.name), c.remove, c.remove.Ok?);
    }
  }

  lemma CreateIsARun(a: Assumptions, p: P.State, st: L.State, r: L.Request) returns (end: P.State)
    requires r.CreateSandbox? && Allowed(a, st, r) && Shows(p, st)
    ensures Reaches(a, p, end) && Shows(end, L.Serve(st, r))
  {
    var id := p.next;
    var s1 := ThenBegin(a, p, p, Creating, r.mounts, r.keys, r.name);
    assert s1.requests.Keys == {id};
    if !r.keys {
      end := ClaimAndCall(a, p, s1, id, r.answers.create);
    } else if AnyBusy(st.held, r.mounts, r.name) {
      var locked := ThenLockMap(a, p, s1, id);
      end := Extend(a, p, locked, ClaimVolumes(id));
    } else {
      var s2 := ThenClaim(a, p, s1, id);
      end := CreateWithKeys(a, p, s2, id, r.answers);
      if CreateOutcome(true, r.answers).Failed? {
        assert end.requests.Keys == {id};
        end := ThenRollBack(a, p, end, id);
      }
    }
  }

  lemma StartIsARun(a: Assumptions, p: P.State, st: L.State, r: L.Request) returns (end: P.State)
    requires r.StartSandbox? && Allowed(a, st, r) && Shows(p, st)
    ensures Reaches(a, p, end) && Shows(end, L.Serve(st, r))
  {
    var id := p.next;
    var s1 := ThenBegin(a, p, p, Starting, [], false, r.name);
    if r.inspect.Failed? {
      end := Extend(a, p, s1, InspectFails(id));
    } else {
      var s2 := Extend(a, p, s1, ReadVolumes(id));
      assert s2.requests.Keys == {id};
      end := ClaimAndCall(a, p, s2, id, r.answer);
    }
  }

  lemma StopIsARun(a: Assumptions, p: P.State, st: L.State, r: L.Request) returns (end: P.State)
    requires (r.StopSandbox? || r.DeleteSandbox?) && Allowed(a, st, r) && Shows(p, st)
    ensures Reaches(a, p, end) && Shows(end, L.Serve(st, r))
  {
    var id := p.next;
    var s1 := ThenBegin(a, p, p, if r.StopSandbox? then Stopping else Deleting, [], false, r.name);
    assert s1.requests.Keys == {id};
    Answerable(a, p.world, FirstCommand(s1.requests[id]), r.answer);
    end := CallRuns(a, p, s1, id, r.answer, r.answer.Ok?);
    if r.answer.Ok? || r.answer.error == NotFound {
      assert end.requests.Keys == {id};
      end := ThenRelease(a, p, end, id);
    }
  }

  lemma DropIsARun(a: Assumptions, p: P.State, st: L.State, r: L.Request) returns (end: P.State)
    requires r.DeleteVolume? && Allowed(a, st, r) && Shows(p, st)
    ensures Reaches(a, p, end) && Shows(end, L.Serve(st, r))
  {
    var id := p.next;
    var s1 := ThenBegin(a, p, p, Dropping, [], false, r.name);
    assert s1.requests.Keys == {id};
    if r.name in st.held {
      var locked := ThenLockMap(a, p, s1, id);
      end := Extend(a, p, locked, LookUp(id));
    } else {
      var s2 := ThenLookUp(a, p, s1, id);
      var o := if r.answer.Ok? then Ok else Failed(Unrecognised);
      Answerable(a, s2.world, FirstCommand(s2.requests[id]), o);
      end := CallRuns(a, p, s2, id, o, o.Ok?);
    }
  }

  lemma WholeRequestIsARun(a: Assumptions, p: P.State, st: L.State, r: L.Request) returns (end: P.State)
    requires Allowed(a, st, r) && Shows(p, st)
    ensures Reaches(a, p, end) && Shows(end, L.Serve(st, r))
  {
    match r
    case CreateSandbox(_, _, _, _) => end := CreateIsARun(a, p, st, r);
    case StartSandbox(_, _, _) => end := StartIsARun(a, p, st, r);
    case StopSandbox(_, _) => end := StopIsARun(a, p, st, r);
    case DeleteSandbox(_, _) => end := StopIsARun(a, p, st, r);
    case DeleteVolume(_, _) => end := DropIsARun(a, p, st, r);
    case OutsideStop(name) => end := Extend(a, p, p, P.OutsideStop(name));
    case OutsideRemove(name) => end := Extend(a, p, p, P.OutsideRemove(name));
  }

  lemma ReachesOn(a: Assumptions, p: P.State, mid: P.State, end: P.State)
    requires Reaches(a, p, mid) && Reaches(a, mid, end)
    ensures Reaches(a, p, end)
  {
  }

  /** Any run of whole requests is a run of the interleaved machine, ending with the same lock and sandboxes. */
  lemma WholeRequestsAreARun(a: Assumptions, p: P.State, st: L.State, rs: seq<L.Request>)
    returns (es: seq<Event>)
    requires L.Admissible(st, rs) && Shows(p, st)
    requires forall i | 0 <= i < |rs| :: Undoes(a, rs[i])
    ensures P.Run(a, p, es).Some? && Shows(P.Run(a, p, es).value, L.ServeAll(st, rs))
  {
    var end := WholeRequestsReach(a, p, st, rs);
    es := ReachedByRun(a, p, end);
  }

  lemma {:induction false} WholeRequestsReach(a: Assumptions, p: P.State, st: L.State, rs: seq<L.Request>)
    returns (end: P.State)
    requires L.Admissible(st, rs) && Shows(p, st)
    requires forall i | 0 <= i < |rs| :: Undoes(a, rs[i])
    ensures Reaches(a, p, end) && Shows(end, L.ServeAll(st, rs))
    decreases |rs|
  {
    end := p;
    if rs != [] {
      var mid := WholeRequestIsARun(a, p, st, rs[0]);
      end := WholeRequestsReach(a, mid, L.Serve(st, rs[0]), rs[1..]);
      ReachesOn(a, p, mid, end);
    }
  }
}
