/**
 None of the assumptions can be dropped: each one a run may break lets two
 running sandboxes mount one volume. With ProtocolSafety this is the exact
 condition under which the lock does its job.
 */
module ProtocolNecessity {
  import opened Wrappers
  import opened Msb
  import opened Lock
  import opened Protocol
  import opened ProtocolSafety

  /** The sandbox raced over, another one, and the volume both want. */
  datatype Cast = Cast(web: string, other: string, data: string)

  ghost predicate Closed(a: Assumptions, states: iset<State>) {
    forall s, e | s in states && Enabled(a, s, e) :: Step(a, s, e) in states
  }

  /** `end` lies in every set of states that contains `st` and is closed under steps. */
  ghost predicate Reaches(a: Assumptions, st: State, end: State) {
    forall states: iset<State> | Closed(a, states) && st in states :: end in states
  }

  lemma ReachedByRun(a: Assumptions, st: State, end: State) returns (es: seq<Event>)
    requires Reaches(a, st, end)
    ensures Run(a, st, es) == Some(end)
  {
    var states := iset s | exists es :: Run(a, st, es) == Some(s);
    forall s, e | s in states && Enabled(a, s, e)
      ensures Step(a, s, e) in states
    {
      var es :| Run(a, st, es) == Some(s);
      RunConcat(a, st, es, [e]);
      assert Run(a, s, [e]) == Run(a, Step(a, s, e), []);
      assert Run(a, st, es + [e]) == Some(Step(a, s, e));
    }
    assert Run(a, st, []) == Some(st);
    assert end in states;
    es :| Run(a, st, es) == Some(end);
  }

  /** One more step on the way from `st`. */
  lemma Extend(a: Assumptions, st: State, mid: State, e: Event) returns (end: State)
    requires Reaches(a, st, mid) && Enabled(a, mid, e)
    ensures end == Step(a, mid, e) && Reaches(a, st, end)
  {
    end := Step(a, mid, e);
  }

  lemma ThenLock(a: Assumptions, st: State, mid: State, id: nat) returns (end: State)
    requires Reaches(a, st, mid) && At(mid, id, AwaitMutex) && mid.mutex == None
    ensures Reaches(a, st, end) && end == Goto(mid, id, Issue(FirstCommand(mid.requests[id]))).(mutex := Some(id))
  {
    end := Extend(a, st, mid, LockMutex(id));
  }

  lemma ThenSpawn(a: Assumptions, st: State, mid: State, id: nat, cmd: Command) returns (end: State)
    requires Reaches(a, st, mid) && At(mid, id, Issue(cmd))
    ensures Reaches(a, st, end) && end == Goto(mid, id, Spawned(cmd)).(log := mid.log + [Entry(id, cmd)])
  {
    end := Extend(a, st, mid, Spawn(id));
  }

  lemma ThenLand(a: Assumptions, st: State, mid: State, id: nat, cmd: Command, o: Outcome, applied: bool)
    returns (end: State)
    requires Reaches(a, st, mid) && At(mid, id, Spawned(cmd)) && MayLand(a, mid.world, cmd, o, applied)
    ensures Reaches(a, st, end)
    ensures end == Goto(mid, id, Landed(cmd, o)).(world := if applied then Effect(mid.world, cmd) else mid.world)
  {
    end := Extend(a, st, mid, TakeEffect(id, o, applied));
  }

  lemma ThenReturn(a: Assumptions, st: State, mid: State, id: nat, cmd: Command, o: Outcome) returns (end: State)
    requires Reaches(a, st, mid) && At(mid, id, Landed(cmd, o))
    ensures Reaches(a, st, end) && end == Goto(mid, id, AfterCommand(mid.requests[id], cmd, o))
  {
    end := Extend(a, st, mid, Return(id));
  }

  lemma ThenUnlock(a: Assumptions, st: State, mid: State, id: nat, o: Outcome) returns (end: State)
    requires Reaches(a, st, mid) && At(mid, id, Unlock(o))
    ensures Reaches(a, st, end)
    ensures end == (match AfterCall(mid.requests[id], o)
                    case None => Finish(mid, id)
                    case Some(pc) => Goto(mid, id, pc)).(mutex := None)
  {
    end := Extend(a, st, mid, UnlockMutex(id));
  }

  lemma ThenLockMap(a: Assumptions, st: State, mid: State, id: nat) returns (end: State)
    requires Reaches(a, st, mid) && id in mid.requests && AboutToLockMap(mid.requests[id].pc) && mid.mapMutex == None
    ensures Reaches(a, st, end) && end == mid.(mapMutex := Some(id))
  {
    end := Extend(a, st, mid, LockMap(id));
  }

  /** The lock's method as a whole: its mutex taken, the volumes claimed, the mutex given back. */
  lemma ThenClaim(a: Assumptions, st: State, mid: State, id: nat) returns (end: State)
    requires Reaches(a, st, mid) && At(mid, id, Claim) && mid.mapMutex == None
    requires !AnyBusy(mid.held, mid.requests[id].volumes, mid.requests[id].name)
    ensures Reaches(a, st, end)
    ensures var q := mid.requests[id];
            end == mid.(held := Claimed(mid.held, q.volumes, q.name),
                        requests := mid.requests[id := q.(newly := NewClaims(mid.held, q.volumes), pc := AwaitMutex)])
  {
    var locked := ThenLockMap(a, st, mid, id);
    end := Extend(a, st, locked, ClaimVolumes(id));
  }

  /** DELETE's lookup of a volume nobody holds. */
  lemma ThenLookUp(a: Assumptions, st: State, mid: State, id: nat) returns (end: State)
    requires Reaches(a, st, mid) && At(mid, id, Lookup) && mid.mapMutex == None
    requires mid.requests[id].name !in mid.held
    ensures Reaches(a, st, end) && end == Goto(mid, id, AwaitMutex)
  {
    var locked := ThenLockMap(a, st, mid, id);
    end := Extend(a, st, locked, LookUp(id));
  }

  lemma ThenRollBack(a: Assumptions, st: State, mid: State, id: nat) returns (end: State)
    requires Reaches(a, st, mid) && At(mid, id, RollBack) && mid.mapMutex == None
    ensures Reaches(a, st, end)
    ensures end == Finish(mid, id).(held := ReleasedOnly(mid.held, mid.requests[id].newly, mid.requests[id].name))
  {
    var locked := ThenLockMap(a, st, mid, id);
    end := Extend(a, st, locked, RollBackClaims(id));
  }

  lemma ThenRelease(a: Assumptions, st: State, mid: State, id: nat) returns (end: State)
    requires Reaches(a, st, mid) && At(mid, id, LetGo) && mid.mapMutex == None
    ensures Reaches(a, st, end) && end == Finish(mid, id).(held := Released(mid.held, mid.requests[id].name))
  {
    var locked := ThenLockMap(a, st, mid, id);
    end := Extend(a, st, locked, ReleaseClaims(id));
  }

  lemma ThenBegin(a: Assumptions, st: State, mid: State, kind: Kind, volumes: seq<string>, keys: bool, name: string)
    returns (end: State)
    requires Reaches(a, st, mid) && LetIn(a, mid, kind, name)
    ensures Reaches(a, st, end)
    ensures end == mid.(next := mid.next + 1,
                        requests := mid.requests[mid.next := Request(kind, name, if kind.Creating? then volumes else [],
                                                                     keys, [], FirstPc(kind))])
  {
    end := Extend(a, st, mid, Begin(kind, name, volumes, keys));
  }

  /** One command of a client method, from spawn to return. */
  lemma CommandRuns(a: Assumptions, st: State, mid: State, id: nat, cmd: Command, o: Outcome, applied: bool)
    returns (end: State)
    requires Reaches(a, st, mid) && At(mid, id, Issue(cmd)) && MayLand(a, mid.world, cmd, o, applied)
    ensures Reaches(a, st, end)
    ensures end.held == mid.held && end.mapMutex == mid.mapMutex && end.mutex == mid.mutex && end.next == mid.next
    ensures end.world == if applied then Effect(mid.world, cmd) else mid.world
    ensures end.requests == mid.requests[id := mid.requests[id].(pc := AfterCommand(mid.requests[id], cmd, o))]
  {
    var q := mid.requests[id];
    var s1 := ThenSpawn(a, st, mid, id, cmd);
    var s2 := ThenLand(a, st, s1, id, cmd, o, applied);
    assert s2.requests == mid.requests[id := q.(pc := Landed(cmd, o))];
    end := ThenReturn(a, st, s2, id, cmd, o);
  }

  /** A client method whose command answers `o`, run from start to finish while nobody else moves. */
  lemma CallRuns(a: Assumptions, st: State, mid: State, id: nat, o: Outcome, applied: bool) returns (end: State)
    requires Reaches(a, st, mid) && mid.mutex == None
    requires At(mid, id, AwaitMutex) && !(mid.requests[id].kind.Creating? && mid.requests[id].keys)
    requires MayLand(a, mid.world, FirstCommand(mid.requests[id]), o, applied)
    ensures Reaches(a, st, end)
    ensures var q := mid.requests[id];
            && end.held == mid.held
            && end.mapMutex == mid.mapMutex
            && end.mutex == None
            && end.next == mid.next
            && end.world == (if applied then Effect(mid.world, FirstCommand(q)) else mid.world)
            && end.requests == match AfterCall(q, o)
                               case None => mid.requests - {id}
                               case Some(pc) => mid.requests[id := q.(pc := pc)]
  {
    var q := mid.requests[id];
    var cmd := FirstCommand(q);
    var s1 := ThenLock(a, st, mid, id);
    var s2 := CommandRuns(a, st, s1, id, cmd, o, applied);
    assert s2.requests == mid.requests[id := q.(pc := Unlock(o))];
    end := ThenUnlock(a, st, s2, id, o);
    assert s2.requests - {id} == mid.requests - {id};
  }

  /** Nobody holds either mutex. */
  predicate Idle(st: State) {
    st.mapMutex == None && st.mutex == None
  }

  ghost predicate DoubleMountReachable(a: Assumptions, st: State) {
    exists end :: Reaches(a, st, end) && !Exclusive(end.world)
  }

  /** Once a running sandbox's volume is free in the lock, an ordinary create mounts it again. */
  lemma FreeVolumeIsMountedTwice(a: Assumptions, c: Cast, st: State, mid: State)
    requires Reaches(a, st, mid)
    requires mid.requests == map[] && Idle(mid) && mid.held == map[]
    requires Runs(mid.world, c.web, c.data) && c.other !in mid.world
    ensures DoubleMountReachable(a, st)
  {
    var id := mid.next;
    var s1 := ThenBegin(a, st, mid, Creating, [c.data], false, c.other);
    var s2 := ThenClaim(a, st, s1, id);
    var s3 := CallRuns(a, st, s2, id, Ok, true);
    assert Runs(s3.world, c.web, c.data) && Runs(s3.world, c.other, c.data);
  }

  lemma ClaimOfFreeVolume(c: Cast)
    ensures NewClaims(map[], [c.data]) == [c.data]
    ensures Claimed(map[], [c.data], c.web) == map[c.data := c.web]
    ensures NewClaims(map[c.data := c.web], [c.data]) == []
    ensures Claimed(map[c.data := c.web], [c.data], c.web) == map[c.data := c.web]
    ensures !AnyBusy(map[], [c.data], c.web) && !AnyBusy(map[c.data := c.web], [c.data], c.web)
    ensures ReleasedOnly(map[c.data := c.web], [c.data], c.web) == map[]
    ensures Released(map[c.data := c.web], c.web) == map[]
  {
    NewClaimsOneMore(map[], [], c.data);
    NewClaimsOneMore(map[c.data := c.web], [], c.data);
    assert [] + [c.data] == [c.data];
  }

  /** A create or start of c.web about to claim c.data. */
  predicate Claimant(c: Cast, q: Request) {
    && q.name == c.web && q.volumes == [c.data] && !q.keys && q.pc == Claim
    && (q.kind.Creating? || q.kind.Starting?)
  }

  /** Would the request's command leave c.web running with c.data? */
  predicate BringsUp(c: Cast, w: World, q: Request) {
    Applicable(w, FirstCommand(q)) && Runs(Effect(w, FirstCommand(q)), c.web, c.data)
  }

  /** Nobody is in a client method, the lock is empty, and just these two requests are in flight. */
  ghost predicate Racing(c: Cast, mid: State, i: nat, j: nat) {
    i != j && mid.requests.Keys == {i, j} && Idle(mid) && mid.held == map[] && c.other !in mid.world
  }

  /**
   Two claimants of one name: the one that took the claim fails and rolls it
   back, while the one that found it already taken has brought the sandbox up.
   */
  lemma TwoClaimants(a: Assumptions, c: Cast, st: State, mid: State, loser: nat, winner: nat)
    requires Reaches(a, st, mid) && Racing(c, mid, loser, winner) && c.web != c.other
    requires Claimant(c, mid.requests[loser]) && Claimant(c, mid.requests[winner])
    requires BringsUp(c, mid.world, mid.requests[winner])
    ensures DoubleMountReachable(a, st)
  {
    var s2 := BothClaim(a, c, st, mid, loser, winner);
    var s3 := CallRuns(a, st, s2, winner, Ok, true);
    assert s3.requests.Keys == {loser} && s3.requests[loser] == s2.requests[loser];
    LoserRollsBack(a, c, st, s3, loser);
  }

  /** Both get past the lock: the first takes the claim, the second finds it already its own. */
  lemma BothClaim(a: Assumptions, c: Cast, st: State, mid: State, first: nat, second: nat) returns (end: State)
    requires Reaches(a, st, mid) && Racing(c, mid, first, second)
    requires Claimant(c, mid.requests[first]) && Claimant(c, mid.requests[second])
    ensures Reaches(a, st, end) && Idle(end) && end.held == map[c.data := c.web] && end.world == mid.world
    ensures end.requests.Keys == {first, second}
    ensures end.requests[first] == mid.requests[first].(newly := [c.data], pc := AwaitMutex)
    ensures end.requests[second] == mid.requests[second].(newly := [], pc := AwaitMutex)
  {
    var s1 := ThenClaimFree(a, c, st, mid, first);
    end := ThenClaimOwn(a, c, st, s1, second);
  }

  lemma ThenClaimFree(a: Assumptions, c: Cast, st: State, mid: State, id: nat) returns (end: State)
    requires Reaches(a, st, mid) && Idle(mid) && mid.held == map[]
    requires id in mid.requests && Claimant(c, mid.requests[id])
    ensures Reaches(a, st, end)
    ensures end == mid.(held := map[c.data := c.web],
                        requests := mid.requests[id := mid.requests[id].(newly := [c.data], pc := AwaitMutex)])
  {
    ClaimOfFreeVolume(c);
    end := ThenClaim(a, st, mid, id);
  }

  lemma ThenClaimOwn(a: Assumptions, c: Cast, st: State, mid: State, id: nat) returns (end: State)
    requires Reaches(a, st, mid) && Idle(mid) && mid.held == map[c.data := c.web]
    requires id in mid.requests && Claimant(c, mid.requests[id])
    ensures Reaches(a, st, end)
    ensures end == mid.(requests := mid.requests[id := mid.requests[id].(newly := [], pc := AwaitMutex)])
  {
    ClaimOfFreeVolume(c);
    end := ThenClaim(a, st, mid, id);
  }

  lemma LoserRollsBack(a: Assumptions, c: Cast, st: State, mid: State, loser: nat)
    requires Reaches(a, st, mid) && Idle(mid) && mid.held == map[c.data := c.web] && mid.requests.Keys == {loser}
    requires Runs(mid.world, c.web, c.data) && c.other !in mid.world && c.web != c.other
    requires var q := mid.requests[loser];
             && Claimant(c, q.(pc := Claim)) && q.newly == [c.data] && q.pc == AwaitMutex
    ensures DoubleMountReachable(a, st)
  {
    ClaimOfFreeVolume(c);
    var q := mid.requests[loser];
    var s4 := CallRuns(a, st, mid, loser, Failed(Unrecognised), false);
    assert s4.requests.Keys == {loser} && s4.requests[loser] == q.(pc := RollBack);
    var s5 := ThenRollBack(a, st, s4, loser);
    assert s5.requests == map[];
    FreeVolumeIsMountedTwice(a, c, st, s5);
  }

  /**
   A claimant and a releaser of one name: the releaser's command lands first,
   the claimant brings the sandbox up, and the late Release frees its volume.
   */
  lemma LateRelease(a: Assumptions, c: Cast, st: State, mid: State, releaser: nat, claimant: nat, o: Outcome, w: World)
    requires Reaches(a, st, mid) && Racing(c, mid, releaser, claimant) && c.web != c.other
    requires mid.requests[releaser].name == c.web && mid.requests[releaser].pc == AwaitMutex
    requires Releases(mid.requests[releaser].kind) && (o.Ok? || o.error == NotFound)
    requires MayAnswer(mid.world, FirstCommand(mid.requests[releaser]), o)
    requires w == After(mid.world, FirstCommand(mid.requests[releaser]), o) && c.other !in w
    requires Claimant(c, mid.requests[claimant]) && BringsUp(c, w, mid.requests[claimant])
    ensures DoubleMountReachable(a, st)
  {
    var q := mid.requests[releaser];
    ReleaserLands(a, mid.world, q, o);
    var s1 := CallRuns(a, st, mid, releaser, o, o.Ok?);
    assert s1.requests == mid.requests[releaser := q.(pc := LetGo)];
    ReleaseComesLate(a, c, st, s1, releaser, claimant);
  }

  lemma ReleaserLands(a: Assumptions, w: World, q: Request, o: Outcome)
    requires Releases(q.kind) && (o.Ok? || o.error == NotFound) && MayAnswer(w, FirstCommand(q), o)
    ensures MayLand(a, w, FirstCommand(q), o, o.Ok?)
    ensures AfterCall(q, o) == Some(LetGo)
  {
  }

  lemma ReleaseComesLate(a: Assumptions, c: Cast, st: State, mid: State, releaser: nat, claimant: nat)
    requires Reaches(a, st, mid) && Racing(c, mid, releaser, claimant) && c.web != c.other
    requires mid.requests[releaser].name == c.web && mid.requests[releaser].pc == LetGo
    requires Claimant(c, mid.requests[claimant]) && BringsUp(c, mid.world, mid.requests[claimant])
    ensures DoubleMountReachable(a, st)
  {
    ClaimOfFreeVolume(c);
    var late := mid.requests[releaser];
    var s2 := ThenClaim(a, st, mid, claimant);
    var s3 := CallRuns(a, st, s2, claimant, Ok, true);
    assert s3.requests.Keys == {releaser} && s3.requests[releaser] == late;
    var s4 := ThenRelease(a, st, s3, releaser);
    assert s4.requests == map[];
    FreeVolumeIsMountedTwice(a, c, st, s4);
  }

  /** The server just started, over the given world, with nothing held. */
  function Fresh(w: World): State {
    State(map[], w, None, None, map[], [], 0)
  }

  /** A request of c.web, brought to the point where it touches the lock or the client. */
  function Ready(c: Cast, kind: Kind): Request {
    if kind.Creating? || kind.Starting? then Request(kind, c.web, [c.data], false, [], Claim)
    else Request(kind, c.web, [], false, [], AwaitMutex)
  }

  lemma ThenRead(a: Assumptions, c: Cast, st: State, mid: State, id: nat) returns (end: State)
    requires Reaches(a, st, mid) && id in mid.requests
    requires mid.requests[id] == Request(Starting, c.web, [], false, [], Inspect)
    requires c.web in mid.world && mid.world[c.web].volumes == [c.data]
    ensures Reaches(a, st, end) && end == mid.(requests := mid.requests[id := Ready(c, Starting)])
  {
    end := Extend(a, st, mid, ReadVolumes(id));
  }

  /** Two requests of one name let in together, each Ready. */
  lemma BothReady(a: Assumptions, c: Cast, k: Kind, l: Kind, w: World) returns (mid: State)
    requires (k, l) in a.overlap && !k.Dropping? && !l.Dropping? && c.other !in w
    requires k.Starting? || l.Starting? ==> c.web in w && w[c.web].volumes == [c.data]
    ensures Reaches(a, Fresh(w), mid) && Racing(c, mid, 0, 1) && mid.world == w
    ensures mid.requests[0] == Ready(c, l) && mid.requests[1] == Ready(c, k)
  {
    var st := Fresh(w);
    mid := ThenBegin(a, st, st, l, [c.data], false, c.web);
    if l.Starting? {
      mid := ThenRead(a, c, st, mid, 0);
    }
    mid := ThenBegin(a, st, mid, k, [c.data], false, c.web);
    if k.Starting? {
      mid := ThenRead(a, c, st, mid, 1);
    }
    assert mid.requests.Keys == {0, 1};
  }

  ghost predicate Breakable(a: Assumptions) {
    exists st :: Initial(st) && DoubleMountReachable(a, st)
  }

  /** Every incompatible pair of kinds breaks exclusion once it may overlap. */
  lemma OverlapBreaks(a: Assumptions, c: Cast, k: Kind, l: Kind)
    requires (k, l) in a.overlap && !Compatible(k, l) && c.web != c.other
    ensures Breakable(a)
  {
    var started := k.Starting? || l.Starting?;
    var w: World := if started then map[c.web := Sandbox(false, [c.data])] else map[];
    var st := Fresh(w);
    var mid := BothReady(a, c, k, l, w);
    if Releases(k) || Releases(l) {
      var releaser, claimant := if Releases(l) then 0 else 1, if Releases(l) then 1 else 0;
      var o := if started then Ok else Failed(NotFound);
      LateRelease(a, c, st, mid, releaser, claimant, o, After(w, FirstCommand(mid.requests[releaser]), o));
    } else {
      var loser, winner := if k.Starting? then 0 else 1, if k.Starting? then 1 else 0;
      TwoClaimants(a, c, st, mid, loser, winner);
    }
    assert Initial(st);
  }

  /** A create whose command landed, yet which rolls its claim back. */
  lemma OrphanBreaks(a: Assumptions, c: Cast, mid: State)
    requires c.web != c.other
    requires Reaches(a, Fresh(map[]), mid)
    requires mid.held == map[c.data := c.web] && Idle(mid) && mid.requests.Keys == {0}
    requires mid.requests[0].name == c.web && mid.requests[0].newly == [c.data] && mid.requests[0].pc == RollBack
    requires Runs(mid.world, c.web, c.data) && c.other !in mid.world
    ensures Breakable(a)
  {
    ClaimOfFreeVolume(c);
    var last := ThenRollBack(a, Fresh(map[]), mid, 0);
    FreeVolumeIsMountedTwice(a, c, Fresh(map[]), last);
    assert Initial(Fresh(map[]));
  }

  /** A lone create of c.web that has claimed its volume. */
  lemma CreateClaims(a: Assumptions, c: Cast, keys: bool) returns (mid: State)
    ensures Reaches(a, Fresh(map[]), mid)
    ensures mid.held == map[c.data := c.web] && Idle(mid) && mid.world == map[]
    ensures mid.requests == map[0 := Request(Creating, c.web, [c.data], keys, [c.data], AwaitMutex)]
  {
    ClaimOfFreeVolume(c);
    var st := Fresh(map[]);
    var begun := ThenBegin(a, st, st, Creating, [c.data], keys, c.web);
    mid := ThenClaim(a, st, begun, 0);
  }

  /** A command that had its effect and reported failure leaves its sandbox unguarded. */
  lemma AmbiguousFailureBreaks(a: Assumptions, c: Cast)
    requires a.failedMayApply && c.web != c.other
    ensures Breakable(a)
  {
    var mid := CreateClaims(a, c, false);
    var end := CallRuns(a, Fresh(map[]), mid, 0, Failed(TimedOut), true);
    OrphanBreaks(a, c, end);
  }

  /** So does a key installer that fails when the `rm -f` after it fails too. */
  lemma FailedRollbackBreaks(a: Assumptions, c: Cast)
    requires a.rollbackMayFail && c.web != c.other
    ensures Breakable(a)
  {
    var st := Fresh(map[]);
    var failed := Failed(Unrecognised);
    var s1 := CreateClaims(a, c, true);
    var q := s1.requests[0];
    var s2 := ThenLock(a, st, s1, 0);
    var s3 := CommandRuns(a, st, s2, 0, Create(c.web, [c.data]), Ok, true);
    assert s3.requests == map[0 := q.(pc := Issue(Exec(c.web)))];
    var s4 := CommandRuns(a, st, s3, 0, Exec(c.web), failed, false);
    assert s4.requests == map[0 := q.(pc := Issue(RemoveForce(c.web)))];
    var s5 := CommandRuns(a, st, s4, 0, RemoveForce(c.web), failed, false);
    assert s5.requests == map[0 := q.(pc := Unlock(failed))];
    var s6 := ThenUnlock(a, st, s5, 0, failed);
    assert s6.requests == map[0 := q.(pc := RollBack)];
    OrphanBreaks(a, c, s6);
  }

  lemma OutsideStartBreaks(a: Assumptions, c: Cast)
    requires a.outsideStarts && c.web != c.other
    ensures Breakable(a)
  {
    var st := Fresh(map[c.web := Sandbox(true, [c.data])]).(held := map[c.data := c.web]);
    var end := Extend(a, st, st, OutsideStart(c.other, [c.data]));
    assert Runs(end.world, c.web, c.data) && Runs(end.world, c.other, c.data);
    assert Initial(st);
  }

  /** Does every run the assumptions allow, from every initial state, keep volumes exclusive? */
  ghost predicate AlwaysExclusive(a: Assumptions) {
    forall st, es | Initial(st) && Run(a, st, es).Some? :: Exclusive(Run(a, st, es).value.world)
  }

  /**
   The main result on interleavings. One volume is never mounted by two running
   sandboxes, whatever the interleaving, exactly when: overlapping requests for
   one name are of compatible kinds (a create overlaps nothing, a start only
   deletes, stops and deletes each other); a failed command changed nothing; the
   `rm -f` that undoes a create succeeds; and nobody else starts sandboxes.
   */
  lemma ExclusionExactly(a: Assumptions)
    ensures AlwaysExclusive(a) <==> Sound(a)
  {
    if Sound(a) {
      forall st, es | Initial(st) && Run(a, st, es).Some?
        ensures Exclusive(Run(a, st, es).value.world)
      {
        AlwaysGuarded(a, st, es);
      }
    } else {
      var c := Cast("web", "other", "data");
      assert |c.web| != |c.other|;
      if a.rollbackMayFail {
        FailedRollbackBreaks(a, c);
      } else if a.failedMayApply {
        AmbiguousFailureBreaks(a, c);
      } else if a.outsideStarts {
        OutsideStartBreaks(a, c);
      } else {
        var p :| p in a.overlap && !Compatible(p.0, p.1);
        OverlapBreaks(a, c, p.0, p.1);
      }
      BrokenNotAlwaysExclusive(a);
    }
  }

  lemma BrokenNotAlwaysExclusive(a: Assumptions)
    requires Breakable(a)
    ensures !AlwaysExclusive(a)
  {
    var st :| Initial(st) && DoubleMountReachable(a, st);
    var end :| Reaches(a, st, end) && !Exclusive(end.world);
    var es := ReachedByRun(a, st, end);
  }
}
