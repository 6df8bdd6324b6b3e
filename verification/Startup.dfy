/**
 Seeding the lock before the server listens: one pass over what `msb` reports,
 retried with a growing wait until a pass succeeds.
 */
module Startup {
  import opened Wrappers
  import opened Msb
  import opened Lock
  import opened Cache
  import opened Inspect
  import opened Lifecycle

  /** A row of `msb ls`. */
  datatype Row = Row(name: string, status: string)

  const RUNNING := "Running"

  /** One attempt's answers: the listing, and what inspecting each row would say. */
  datatype Attempt =
    | ListFails(error: MsbError)
    | Listed(rows: seq<Row>, details: seq<Result<seq<Mount>, MsbError>>)

  predicate Complete(a: Attempt) {
    a.Listed? ==> |a.rows| == |a.details|
  }

  /** The map built from the first n rows; a later row overwrites an earlier one. */
  function SeedFrom(rows: seq<Row>, details: seq<Result<seq<Mount>, MsbError>>): Result<Claims, MsbError>
    requires |rows| == |details|
  {
    if rows == [] then Success(map[])
    else
      var n := |rows| - 1;
      match SeedFrom(rows[..n], details[..n])
      case Failure(e) => Failure(e)
      case Success(state) =>
        if rows[n].status != RUNNING then Success(state)
        else
          match details[n]
          case Failure(e) => Failure(e)
          case Success(mounts) => Success(Claimed(state, VolumeNames(mounts), rows[n].name))
  }

  function Seed(a: Attempt): Result<Claims, MsbError>
    requires Complete(a)
  {
    match a
    case ListFails(e) => Failure(e)
    case Listed(rows, details) => SeedFrom(rows, details)
  }

  lemma {:induction false} SeedFailureSticks(rows: seq<Row>, details: seq<Result<seq<Mount>, MsbError>>, n: nat)
    requires |rows| == |details| && n <= |rows| && SeedFrom(rows[..n], details[..n]).Failure?
    ensures SeedFrom(rows, details) == SeedFrom(rows[..n], details[..n])
    decreases |rows|
  {
    if n == |rows| {
      assert rows[..n] == rows && details[..n] == details;
    } else {
      var m := |rows| - 1;
      assert rows[..m][..n] == rows[..n] && details[..m][..n] == details[..n];
      SeedFailureSticks(rows[..m], details[..m], n);
    }
  }

  /** One more row read into the map. */
  lemma SeedStep(rows: seq<Row>, details: seq<Result<seq<Mount>, MsbError>>, i: nat, state: Claims)
    requires |rows| == |details| && i < |rows| && SeedFrom(rows[..i], details[..i]) == Success(state)
    ensures SeedFrom(rows[..i + 1], details[..i + 1]) ==
            if rows[i].status != RUNNING then Success(state)
            else
              match details[i]
              case Failure(e) => Failure(e)
              case Success(mounts) => Success(Claimed(state, VolumeNames(mounts), rows[i].name))
  {
    assert rows[..i + 1][..i] == rows[..i] && details[..i + 1][..i] == details[..i];
  }

  /** The inner loop: one running sandbox's volumes into the map. */
  method AddVolumes(before: Claims, names: seq<string>, sandbox: string) returns (state: Claims)
    ensures state == Claimed(before, names, sandbox)
  {
    state := before;
    for j := 0 to |names|
      invariant state == Claimed(before, names[..j], sandbox)
    {
      assert names[..j + 1] == names[..j] + [names[j]];
      ClaimOneMore(before, names[..j], names[j], sandbox);
      state := state[names[j] := sandbox];
    }
    assert names[..|names|] == names;
  }

  /** Replaces the lock's map if every answer was good, and leaves it alone otherwise. */
  method ReconcileVolumes(a: Attempt, lock: VolumeLock) returns (r: Result<(), MsbError>)
    requires Complete(a)
    modifies lock
    ensures r.Success? <==> Seed(a).Success?
    ensures r.Success? ==> lock.held == Seed(a).value
    ensures r.Failure? ==> r.error == Seed(a).error && lock.held == old(lock.held)
  {
    if a.ListFails? {
      return Failure(a.error);
    }
    var state: Claims := map[];
    for i := 0 to |a.rows|
      invariant SeedFrom(a.rows[..i], a.details[..i]) == Success(state)
      invariant lock.held == old(lock.held)
    {
      SeedStep(a.rows, a.details, i, state);
      if a.rows[i].status == RUNNING {
        if a.details[i].Failure? {
          SeedFailureSticks(a.rows, a.details, i + 1);
          return Failure(a.details[i].error);
        }
        var names := CollectVolumeNames(a.details[i].value);
        state := AddVolumes(state, names, a.rows[i].name);
      }
    }
    assert a.rows[..|a.rows|] == a.rows && a.details[..|a.details|] == a.details;
    lock.Reconcile(state);
    r := Success(());
  }

  function Min(a: int, b: int): int {
    if a <= b then a else b
  }

  /** The wait after failure number n, counting from 0. */
  function Backoff(initial: int, max: int, n: nat): int {
    if n == 0 then initial else Min(2 * Backoff(initial, max, n - 1), max)
  }

  function Pow2(n: nat): nat {
    if n == 0 then 1 else 2 * Pow2(n - 1)
  }

  /** Doubling under a cap, in closed form. */
  lemma {:induction false} BackoffClosedForm(initial: int, max: int, n: nat)
    requires 0 <= max
    ensures Backoff(initial, max, n) == if n == 0 then initial else Min(initial * Pow2(n), max)
    decreases n
  {
    if n > 0 {
      BackoffClosedForm(initial, max, n - 1);
      Doubles(initial, Pow2(n - 1));
    }
  }

  lemma Doubles(initial: int, power: int)
    ensures initial * (2 * power) == 2 * (initial * power)
  {
  }

  /** With the initial wait within the cap, one formula covers every wait. */
  lemma WaitAfterFailure(initial: int, max: int, n: nat)
    requires 0 <= initial <= max
    ensures Backoff(initial, max, n) == Min(initial * Pow2(n), max)
  {
    BackoffClosedForm(initial, max, n);
  }

  predicate Succeeds(a: Attempt)
    requires Complete(a)
  {
    Seed(a).Success?
  }

  predicate AllFailed(attempts: seq<Attempt>, n: nat)
    requires forall i | 0 <= i < |attempts| :: Complete(attempts[i])
  {
    n <= |attempts| && forall i | 0 <= i < n :: !Succeeds(attempts[i])
  }

  predicate Waited(waits: seq<int>, initial: int, max: int) {
    forall i | 0 <= i < |waits| :: waits[i] == Backoff(initial, max, i)
  }

  /**
   Attempts until one succeeds, or until a shutdown signal arrives while waiting
   after a failed one. The list holds the answers to every attempt the run could
   make, as many as it gets to before the signal: since it is arbitrary, so is
   the moment of the signal.
   */
  method ReconcileVolumesWithRetry(attempts: seq<Attempt>, lock: VolumeLock, initial: int, max: int)
    returns (ok: bool, waits: seq<int>)
    requires forall i | 0 <= i < |attempts| :: Complete(attempts[i])
    requires attempts != []
    modifies lock
    ensures ok <==> exists i | 0 <= i < |attempts| :: Succeeds(attempts[i])
    ensures ok ==> |waits| < |attempts| && Succeeds(attempts[|waits|]) && lock.held == Seed(attempts[|waits|]).value
    ensures !ok ==> |waits| == |attempts| && lock.held == old(lock.held)
    ensures AllFailed(attempts, |waits|) && Waited(waits, initial, max)
  {
    var backoff := initial;
    waits := [];
    for i := 0 to |attempts|
      invariant |waits| == i && backoff == Backoff(initial, max, i)
      invariant lock.held == old(lock.held)
      invariant AllFailed(attempts, i) && Waited(waits, initial, max)
    {
      var r := ReconcileVolumes(attempts[i], lock);
      if r.Success? {
        assert Succeeds(attempts[i]);
        return true, waits;
      }
      waits := waits + [backoff];
      backoff := backoff * 2;
      if backoff > max {
        backoff := max;
      }
    }
    ok := false;
  }

  // ---- what the seed says about the world ----

  /** The attempt reports w as it is: every sandbox once, with its state and its volumes. */
  ghost predicate Reports(a: Attempt, w: World) {
    && a.Listed?
    && |a.rows| == |a.details|
    && (forall i | 0 <= i < |a.rows| :: ReportsRow(w, a.rows[i], a.details[i]))
    && (forall s | s in w :: exists i | 0 <= i < |a.rows| :: a.rows[i].name == s)
  }

  predicate ReportsRow(w: World, row: Row, detail: Result<seq<Mount>, MsbError>) {
    && row.name in w
    && ShowsState(w[row.name], row.status)
    && detail.Success?
    && ListsVolumes(detail.value, w[row.name].volumes)
  }

  /** Every claim of the map comes from a running mount, and every mount of the rows read is claimed. */
  ghost predicate SeedInv(w: World, rows: seq<Row>, state: Claims) {
    && (forall v | v in state :: Runs(w, state[v], v))
    && (forall i, v | 0 <= i < |rows| && Runs(w, rows[i].name, v) :: v in state)
  }

  /** A faithful row adds the claims of its sandbox, if that runs. */
  function Adding(w: World, row: Row, before: Claims): Claims
    requires row.name in w
  {
    if w[row.name].running then Claimed(before, w[row.name].volumes, row.name) else before
  }

  lemma SeedReadsRow(w: World, rows: seq<Row>, details: seq<Result<seq<Mount>, MsbError>>, before: Claims)
    requires rows != [] && |rows| == |details| && ReportsRow(w, rows[|rows| - 1], details[|rows| - 1])
    requires SeedFrom(rows[..|rows| - 1], details[..|rows| - 1]) == Success(before)
    ensures SeedFrom(rows, details) == Success(Adding(w, rows[|rows| - 1], before))
  {
    var n := |rows| - 1;
    NamesAreVolumes(details[n].value, w[rows[n].name].volumes);
  }

  lemma AddingKeepsSeedInv(w: World, rows: seq<Row>, row: Row, before: Claims)
    requires row.name in w && SeedInv(w, rows, before)
    ensures SeedInv(w, rows + [row], Adding(w, row, before))
  {
    forall i, v | 0 <= i < |rows + [row]| && Runs(w, (rows + [row])[i].name, v)
      ensures v in Adding(w, row, before)
    {
      if i < |rows| {
        assert (rows + [row])[i] == rows[i];
      }
    }
  }

  lemma {:induction false} SeedReadsWorld(w: World, rows: seq<Row>, details: seq<Result<seq<Mount>, MsbError>>)
    requires |rows| == |details|
    requires forall i | 0 <= i < |rows| :: ReportsRow(w, rows[i], details[i])
    ensures SeedFrom(rows, details).Success? && SeedInv(w, rows, SeedFrom(rows, details).value)
    decreases |rows|
  {
    if rows != [] {
      var n := |rows| - 1;
      SeedReadsWorld(w, rows[..n], details[..n]);
      var before := SeedFrom(rows[..n], details[..n]).value;
      assert ReportsRow(w, rows[n], details[n]);
      SeedReadsRow(w, rows, details, before);
      AddingKeepsSeedInv(w, rows[..n], rows[n], before);
      assert rows[..n] + [rows[n]] == rows;
    }
  }

  /** A row of a running sandbox, and an inspect of it that lists the volume v. */
  predicate ClaimsFor(row: Row, detail: Result<seq<Mount>, MsbError>, v: string) {
    row.status == "Running" && detail.Success? && v != "" && exists k | 0 <= k < |detail.value| ::
      detail.value[k] == Mount("Named", v)
  }

  /** A row whose inspect the seed needs and did not get. */
  predicate Spoils(row: Row, detail: Result<seq<Mount>, MsbError>) {
    row.status == "Running" && detail.Failure?
  }

  /**
   What the answers make of the seed, faithful or not: it fails exactly if a
   running row's inspect failed, with the first such error; otherwise a volume is
   in it exactly if some running row lists it, for the last row that does.
   */
  lemma {:induction false} SeedSaysExactly(rows: seq<Row>, details: seq<Result<seq<Mount>, MsbError>>)
    requires |rows| == |details|
    ensures SeedFrom(rows, details).Failure? <==> exists i | 0 <= i < |rows| :: Spoils(rows[i], details[i])
    ensures SeedFrom(rows, details).Failure? ==>
              exists i | 0 <= i < |rows| ::
                && Spoils(rows[i], details[i]) && details[i].error == SeedFrom(rows, details).error
                && forall j | 0 <= j < i :: !Spoils(rows[j], details[j])
    ensures SeedFrom(rows, details).Success? ==> SeededBy(rows, details, SeedFrom(rows, details).value)
    decreases |rows|
  {
    if rows != [] {
      var n := |rows| - 1;
      SeedSaysExactly(rows[..n], details[..n]);
      assert forall i | 0 <= i < n :: rows[..n][i] == rows[i] && details[..n][i] == details[i];
      if SeedFrom(rows, details).Success? {
        forall v {
          LastRowDecides(rows, details, v);
        }
        SeededOneMore(rows, details, SeedFrom(rows[..n], details[..n]).value, SeedFrom(rows, details).value);
      }
    }
  }

  ghost predicate SeededBy(rows: seq<Row>, details: seq<Result<seq<Mount>, MsbError>>, state: Claims)
    requires |rows| == |details|
  {
    && (forall i, v | 0 <= i < |rows| && ClaimsFor(rows[i], details[i], v) :: v in state)
    && (forall v | v in state :: exists i | 0 <= i < |rows| :: LastFor(rows, details, i, v) && state[v] == rows[i].name)
  }

  ghost predicate LastFor(rows: seq<Row>, details: seq<Result<seq<Mount>, MsbError>>, i: nat, v: string)
    requires |rows| == |details| && i < |rows|
  {
    ClaimsFor(rows[i], details[i], v) && forall j | i < j < |rows| :: !ClaimsFor(rows[j], details[j], v)
  }

  lemma RowClaimsItsNames(row: Row, mounts: seq<Mount>, v: string)
    ensures ClaimsFor(row, Success(mounts), v) <==> row.status == RUNNING && v in VolumeNames(mounts)
  {
  }

  /** The last row decides about the volumes it claims, and leaves the others as they were. */
  lemma LastRowDecides(rows: seq<Row>, details: seq<Result<seq<Mount>, MsbError>>, v: string)
    requires rows != [] && |rows| == |details| && SeedFrom(rows, details).Success?
    ensures var n := |rows| - 1;
            var before, state := SeedFrom(rows[..n], details[..n]), SeedFrom(rows, details).value;
            && before.Success?
            && if ClaimsFor(rows[n], details[n], v) then v in state && state[v] == rows[n].name
               else (v in state <==> v in before.value) && (v in state ==> state[v] == before.value[v])
  {
    var n := |rows| - 1;
    if details[n].Success? {
      RowClaimsItsNames(rows[n], details[n].value, v);
    }
  }

  lemma SeededOneMore(rows: seq<Row>, details: seq<Result<seq<Mount>, MsbError>>, before: Claims, state: Claims)
    requires rows != [] && |rows| == |details|
    requires var n := |rows| - 1;
             && SeededBy(rows[..n], details[..n], before)
             && forall v :: if ClaimsFor(rows[n], details[n], v) then v in state && state[v] == rows[n].name
                            else (v in state <==> v in before) && (v in state ==> state[v] == before[v])
    ensures SeededBy(rows, details, state)
  {
    var n := |rows| - 1;
    forall i, v | 0 <= i < |rows| && ClaimsFor(rows[i], details[i], v)
      ensures v in state
    {
      if i < n {
        assert ClaimsFor(rows[..n][i], details[..n][i], v);
      }
    }
    forall v | v in state
      ensures exists i | 0 <= i < |rows| :: LastFor(rows, details, i, v) && state[v] == rows[i].name
    {
      if ClaimsFor(rows[n], details[n], v) {
        assert LastFor(rows, details, n, v);
      } else {
        var i :| 0 <= i < n && LastFor(rows[..n], details[..n], i, v) && before[v] == rows[..n][i].name;
        StaysLast(rows, details, i, v);
      }
    }
  }

  lemma StaysLast(rows: seq<Row>, details: seq<Result<seq<Mount>, MsbError>>, i: nat, v: string)
    requires |rows| == |details| && i < |rows| - 1 && !ClaimsFor(rows[|rows| - 1], details[|rows| - 1], v)
    requires LastFor(rows[..|rows| - 1], details[..|rows| - 1], i, v)
    ensures LastFor(rows, details, i, v)
  {
    var n := |rows| - 1;
    forall j | i < j < |rows|
      ensures !ClaimsFor(rows[j], details[j], v)
    {
      if j < n {
        assert !ClaimsFor(rows[..n][j], details[..n][j], v);
      }
    }
  }

  /** A faithful report seeds a lock in agreement with the world, exactly when the world is exclusive. */
  lemma SeedAgreesExactly(a: Attempt, w: World)
    requires Reports(a, w)
    ensures Seed(a).Success?
    ensures Agrees(Seed(a).value, w) <==> Exclusive(w)
  {
    SeedReadsWorld(w, a.rows, a.details);
    var state := Seed(a).value;
    if Exclusive(w) {
      forall v, s
        ensures Holds(state, v, s) <==> Runs(w, s, v)
      {
        if Runs(w, s, v) {
          var i :| 0 <= i < |a.rows| && a.rows[i].name == s;
          assert Runs(w, a.rows[i].name, v);
          assert Runs(w, state[v], v);
        }
      }
    } else if Agrees(state, w) {
      GuardedIsExclusive(state, w);
    }
  }

  /** After any run of whole requests from a seeded start, seeding again would install the same map. */
  lemma ReseedingChangesNothing(first: Attempt, st: State, rs: seq<Request>, again: Attempt)
    requires Reports(first, st.world) && Exclusive(st.world) && Seed(first) == Success(st.held)
    requires Admissible(st, rs) && forall i | 0 <= i < |rs| :: !Outside(rs[i])
    requires Reports(again, ServeAll(st, rs).world)
    ensures Seed(again) == Success(ServeAll(st, rs).held)
  {
    SeedAgreesExactly(first, st.world);
    RunsKeepAgreement(st, rs);
    var now := ServeAll(st, rs);
    GuardedIsExclusive(now.held, now.world);
    SeedAgreesExactly(again, now.world);
    AgreementIsUnique(now.held, Seed(again).value, now.world);
  }
}
