/**
 Declarative batch volume create: validate everything, plan against what
 exists, then create what is missing, item by item.
 */
module VolumeBatch {
  import opened Wrappers
  import opened Identifiers
  import opened Size
  import opened Msb
  import opened Client

  datatype Item = Item(name: string, size: string)

  datatype ManifestError = EmptyManifest | Incomplete(index: nat) | BadName(index: nat) | BadSize(index: nat)

  datatype ItemError = SizeNotUnderstood(error: SizeError) | Mismatch(have: int, want: int) | CreateFailed(cause: MsbError)

  datatype Status = WasCreated | Exists | Erred(error: ItemError)

  datatype VolumeResult = VolumeResult(name: string, size: string, status: Status)

  /** One row of `msb volume ls`. */
  datatype VolumeRow = VolumeRow(name: string, quotaMiB: int)

  predicate GoodItem(v: Item) {
    v.name != "" && v.size != "" && ValidName(v.name) && ValidSize(v.size)
  }

  ghost predicate GoodManifest(items: seq<Item>) {
    items != [] && forall i | 0 <= i < |items| :: GoodItem(items[i])
  }

  /** Is `e` what is wrong with the manifest, at the first bad item? */
  ghost predicate Explains(items: seq<Item>, e: ManifestError) {
    match e
    case EmptyManifest => items == []
    case Incomplete(i) => FirstBad(items, i) && (items[i].name == "" || items[i].size == "")
    case BadName(i) => FirstBad(items, i) && items[i].name != "" && items[i].size != "" && !ValidName(items[i].name)
    case BadSize(i) => FirstBad(items, i) && ValidName(items[i].name) && items[i].size != "" && !ValidSize(items[i].size)
  }

  ghost predicate FirstBad(items: seq<Item>, i: nat) {
    i < |items| && !GoodItem(items[i]) && forall j | 0 <= j < i :: GoodItem(items[j])
  }

  method Validate(items: seq<Item>) returns (e: Option<ManifestError>)
    ensures e == None <==> GoodManifest(items)
    ensures e.Some? ==> Explains(items, e.value)
  {
    if items == [] {
      return Some(EmptyManifest);
    }
    for i := 0 to |items|
      invariant forall j | 0 <= j < i :: GoodItem(items[j])
    {
      var v := items[i];
      if v.name == "" || v.size == "" {
        return Some(Incomplete(i));
      }
      if !ValidName(v.name) {
        return Some(BadName(i));
      }
      if !ValidSize(v.size) {
        return Some(BadSize(i));
      }
    }
    e := None;
  }

  // ---- the plan ----

  function PlanStatus(v: Item, existing: map<string, int>): Status {
    match Parse(v.size)
    case Failure(e) => Erred(SizeNotUnderstood(e))
    case Success(want) =>
      if v.name !in existing then WasCreated
      else if existing[v.name] == want then Exists
      else Erred(Mismatch(existing[v.name], want))
  }

  function PlanItem(v: Item, existing: map<string, int>): VolumeResult {
    VolumeResult(v.name, v.size, PlanStatus(v, existing))
  }

  function Plan(items: seq<Item>, existing: map<string, int>): seq<VolumeResult> {
    seq(|items|, i requires 0 <= i < |items| => PlanItem(items[i], existing))
  }

  method PlanVolumeBatch(items: seq<Item>, existing: map<string, int>) returns (out: seq<VolumeResult>)
    ensures out == Plan(items, existing)
  {
    out := [];
    for i := 0 to |items|
      invariant out == Plan(items, existing)[..i]
    {
      var v := items[i];
      var want := ParseSizeMiB(v.size);
      var status;
      if want.Failure? {
        status := Erred(SizeNotUnderstood(want.error));
      } else if v.name !in existing {
        status := WasCreated;
      } else if existing[v.name] == want.value {
        status := Exists;
      } else {
        status := Erred(Mismatch(existing[v.name], want.value));
      }
      assert status == PlanStatus(v, existing);
      out := out + [VolumeResult(v.name, v.size, status)];
    }
  }

  // ---- its execution ----

  /** What executing a prefix of the plan has done. */
  datatype Progress = Progress(volumes: map<string, int>, results: seq<VolumeResult>, calls: seq<Command>)

  function VolumeCreate(r: VolumeResult): Command {
    Command.CreateVolume(r.name, r.size)
  }

  /** `msb volume create`: refused for an existing name, and whenever it has its own reason to. */
  function CreateAnswer(volumes: map<string, int>, name: string, refusal: Outcome): Outcome {
    if name in volumes then Failed(AlreadyExists) else refusal
  }

  /** The quota a volume is created with. */
  function Quota(size: string): int {
    match Parse(size)
    case Success(n) => n
    case Failure(_) => 0 // not reached: only sizes that parse are planned for creation
  }

  /** One more item of the plan; only planned creates make a call. */
  function Advance(p: Progress, item: VolumeResult, refusal: Outcome): Progress {
    if !item.status.WasCreated? then p.(results := p.results + [item])
    else
      var calls := p.calls + [VolumeCreate(item)];
      match CreateAnswer(p.volumes, item.name, refusal)
      case Ok => Progress(p.volumes[item.name := Quota(item.size)], p.results + [item], calls)
      case Failed(e) => Progress(p.volumes, p.results + [item.(status := Erred(CreateFailed(e)))], calls)
  }

  /** The plan executed in order, `refusals[i]` being what `msb` itself has to say to item i. */
  function Execute(plan: seq<VolumeResult>, refusals: seq<Outcome>, volumes: map<string, int>): (p: Progress)
    requires |plan| == |refusals|
    ensures |p.results| == |plan|
    decreases |plan|
  {
    if plan == [] then Progress(volumes, [], [])
    else
      var n := |plan| - 1;
      Advance(Execute(plan[..n], refusals[..n], volumes), plan[n], refusals[n])
  }

  lemma ExecuteOneMore(plan: seq<VolumeResult>, refusals: seq<Outcome>, volumes: map<string, int>, i: nat)
    requires |plan| == |refusals| && i < |plan|
    ensures Execute(plan[..i + 1], refusals[..i + 1], volumes)
            == Advance(Execute(plan[..i], refusals[..i], volumes), plan[i], refusals[i])
  {
    assert plan[..i + 1][..i] == plan[..i] && refusals[..i + 1][..i] == refusals[..i];
  }

  datatype BatchReply =
    | BadRequest(error: ManifestError)
    | ListFailed(cause: MsbError)
    | AllGood(results: seq<VolumeResult>)     // 201 Created
    | MultiStatus(results: seq<VolumeResult>) // 207, section 11.1 of RFC 4918

  predicate AnyFailed(results: seq<VolumeResult>) {
    exists i | 0 <= i < |results| :: results[i].status.Erred?
  }

  function ReplyWith(results: seq<VolumeResult>): BatchReply {
    if AnyFailed(results) then MultiStatus(results) else AllGood(results)
  }

  /** Does the listing show the volumes as they are? */
  ghost predicate Lists(rows: seq<VolumeRow>, volumes: map<string, int>) {
    && (forall i | 0 <= i < |rows| :: rows[i].name in volumes && volumes[rows[i].name] == rows[i].quotaMiB)
    && (forall v | v in volumes :: exists i | 0 <= i < |rows| :: rows[i].name == v)
  }

  method CreateVolumeBatch(items: seq<Item>, listing: Result<seq<VolumeRow>, MsbError>, refusals: seq<Outcome>,
                           client: Client)
    returns (reply: BatchReply)
    requires |refusals| == |items| && !client.locked
    requires listing.Success? ==> Lists(listing.value, client.host.volumes)
    modifies client`locked, client.host`volumes, client.host`commands
    ensures !client.locked
    ensures reply.BadRequest? <==> !GoodManifest(items)
    ensures reply.BadRequest? ==> Explains(items, reply.error)
    ensures !GoodManifest(items) || listing.Failure? ==>
              client.host.volumes == old(client.host.volumes) && client.host.commands == old(client.host.commands)
    ensures GoodManifest(items) && listing.Failure? ==> reply == ListFailed(listing.error)
    ensures GoodManifest(items) && listing.Success? ==>
              var p := Execute(Plan(items, old(client.host.volumes)), refusals, old(client.host.volumes));
              && client.host.volumes == p.volumes
              && client.host.commands == old(client.host.commands) + p.calls
              && reply == ReplyWith(p.results)
    ensures reply.AllGood? || reply.MultiStatus? ==>
              && |reply.results| == |items|
              && (forall i | 0 <= i < |items| :: Reported(items[i], reply.results[i], old(client.host.volumes)))
              && (reply.MultiStatus? <==> exists i | 0 <= i < |items| :: reply.results[i].status.Erred?)
    ensures reply.AllGood? ==>
              forall i | 0 <= i < |items| ::
                && items[i].name in client.host.volumes
                && Parse(items[i].size) == Success(client.host.volumes[items[i].name])
  {
    var fault := Validate(items);
    if fault.Some? {
      return BadRequest(fault.value);
    }
    if listing.Failure? {
      return ListFailed(listing.error);
    }
    var existing := Existing(listing.value);
    assert existing == client.host.volumes;
    var plan := PlanVolumeBatch(items, existing);
    var results := ExecutePlan(plan, refusals, client);
    var status := StatusOf(results);
    EveryItemIsReported(items, refusals, existing);
    if !AnyFailed(results) {
      CleanBatchMeetsTheManifest(items, refusals, existing);
    }
    reply := if status == 207 then MultiStatus(results) else AllGood(results);
  }

  /** Runs the planned creates, rewriting the result of each that fails. */
  method ExecutePlan(plan: seq<VolumeResult>, refusals: seq<Outcome>, client: Client)
    returns (results: seq<VolumeResult>)
    requires |plan| == |refusals| && !client.locked
    modifies client`locked, client.host`volumes, client.host`commands
    ensures !client.locked
    ensures var p := Execute(plan, refusals, old(client.host.volumes));
            && results == p.results
            && client.host.volumes == p.volumes
            && client.host.commands == old(client.host.commands) + p.calls
  {
    results := plan;
    var host := client.host;
    ghost var p := Progress(host.volumes, [], []);
    for i := 0 to |results|
      invariant |results| == |plan| && !client.locked
      invariant forall j | i <= j < |plan| :: results[j] == plan[j]
      invariant p == Execute(plan[..i], refusals[..i], old(host.volumes))
      invariant host.volumes == p.volumes && results[..i] == p.results
      invariant host.commands == old(host.commands) + p.calls
    {
      ExecuteOneMore(plan, refusals, old(host.volumes), i);
      p := Advance(p, plan[i], refusals[i]);
      if results[i].status.WasCreated? {
        var answer := CreateAnswer(host.volumes, results[i].name, refusals[i]);
        var o := client.VolumeCreate(results[i].name, results[i].size, Quota(results[i].size), answer);
        if o.Failed? {
          results := results[i := results[i].(status := Erred(CreateFailed(o.error)))];
        }
      }
    }
    assert plan[..|plan|] == plan && refusals[..|plan|] == refusals && results[..|results|] == results;
  }

  /** The name-to-quota map of a listing. */
  method Existing(rows: seq<VolumeRow>) returns (existing: map<string, int>)
    ensures forall v | v in existing :: exists i | 0 <= i < |rows| :: rows[i] == VolumeRow(v, existing[v])
    ensures forall i | 0 <= i < |rows| :: rows[i].name in existing
  {
    existing := map[];
    for i := 0 to |rows|
      invariant forall v | v in existing :: exists j | 0 <= j < i :: rows[j] == VolumeRow(v, existing[v])
      invariant forall j | 0 <= j < i :: rows[j].name in existing
    {
      existing := existing[rows[i].name := rows[i].quotaMiB];
    }
  }

  /** 207 as soon as one result is an error. */
  method StatusOf(results: seq<VolumeResult>) returns (status: int)
    ensures status == if AnyFailed(results) then 207 else 201
  {
    status := 201;
    for i := 0 to |results|
      invariant status == 201 && forall j | 0 <= j < i :: !results[j].status.Erred?
    {
      if results[i].status.Erred? {
        return 207;
      }
    }
  }

  // ---- what a batch does ----

  /** The planned creates, in order. */
  function PlannedCalls(plan: seq<VolumeResult>): seq<Command> {
    if plan == [] then []
    else
      var n := |plan| - 1;
      PlannedCalls(plan[..n]) + if plan[n].status.WasCreated? then [VolumeCreate(plan[n])] else []
  }

  /** The result of an item: the plan's, except that a create may have failed. */
  predicate Settles(planned: VolumeResult, result: VolumeResult) {
    || result == planned
    || (planned.status.WasCreated? && result.status.Erred? && result.(status := WasCreated) == planned)
  }

  /** Results match the plan item by item, and the calls are the planned creates in order. */
  ghost predicate ResultsFollow(plan: seq<VolumeResult>, p: Progress) {
    && |p.results| == |plan|
    && (forall i | 0 <= i < |plan| :: Settles(plan[i], p.results[i]))
    && p.calls == PlannedCalls(plan)
  }

  /** Is item i of the plan reported as created by this batch? */
  predicate Made(plan: seq<VolumeResult>, results: seq<VolumeResult>, i: nat, name: string) {
    i < |plan| && i < |results| && results[i].status.WasCreated? && plan[i].name == name
  }

  /** The volumes are the old ones, untouched, and those reported made, each at its parsed size and each made once. */
  ghost predicate VolumesFollow(plan: seq<VolumeResult>, before: map<string, int>, p: Progress) {
    && (forall v | v in before :: v in p.volumes && p.volumes[v] == before[v])
    && (forall i: nat, v | Made(plan, p.results, i, v) ::
          v !in before && v in p.volumes && p.volumes[v] == Quota(plan[i].size))
    && (forall v | v in p.volumes && v !in before :: exists i: nat :: Made(plan, p.results, i, v))
    && (forall i: nat, j: nat, v | Made(plan, p.results, i, v) && Made(plan, p.results, j, v) :: i == j)
  }

  lemma AdvanceKeepsVolumes(plan: seq<VolumeResult>, before: map<string, int>, p: Progress, item: VolumeResult,
                            refusal: Outcome)
    requires |p.results| == |plan| && VolumesFollow(plan, before, p)
    ensures VolumesFollow(plan + [item], before, Advance(p, item, refusal))
  {
    var longer, p' := plan + [item], Advance(p, item, refusal);
    AdvanceMakes(plan, p, item, refusal);
    forall v | v in p'.volumes && v !in before
      ensures exists i: nat :: Made(longer, p'.results, i, v)
    {
      if v in p.volumes {
        var i: nat :| Made(plan, p.results, i, v);
        assert Made(longer, p'.results, i, v);
      } else {
        assert Made(longer, p'.results, |plan|, v);
      }
    }
  }

  /** One more item makes what was made before, and its own volume if that was not there. */
  lemma AdvanceMakes(plan: seq<VolumeResult>, p: Progress, item: VolumeResult, refusal: Outcome)
    requires |p.results| == |plan|
    ensures var longer, p', n := plan + [item], Advance(p, item, refusal), |plan|;
            && (forall i: nat, v | i != n :: Made(longer, p'.results, i, v) <==> Made(plan, p.results, i, v))
            && (forall i: nat, v | Made(plan, p.results, i, v) :: longer[i] == plan[i])
            && (forall v :: Made(longer, p'.results, n, v) ==> v == item.name && v !in p.volumes)
            && p'.volumes == if Made(longer, p'.results, n, item.name) then p.volumes[item.name := Quota(item.size)]
                             else p.volumes
  {
    var longer, p', n := plan + [item], Advance(p, item, refusal), |plan|;
    assert longer[n] == item && p'.results[n] == p'.results[|p'.results| - 1];
  }

  /** The whole meaning of a batch's report. */
  lemma {:induction false} ReportIsFaithful(plan: seq<VolumeResult>, refusals: seq<Outcome>, before: map<string, int>)
    requires |plan| == |refusals|
    ensures ResultsFollow(plan, Execute(plan, refusals, before))
    ensures VolumesFollow(plan, before, Execute(plan, refusals, before))
    decreases |plan|
  {
    if plan != [] {
      var n := |plan| - 1;
      var p := Execute(plan[..n], refusals[..n], before);
      ReportIsFaithful(plan[..n], refusals[..n], before);
      AdvanceKeepsVolumes(plan[..n], before, p, plan[n], refusals[n]);
      assert plan[..n] + [plan[n]] == plan;
      AdvanceKeepsResults(plan, p, refusals[n]);
    }
  }

  lemma AdvanceKeepsResults(plan: seq<VolumeResult>, p: Progress, refusal: Outcome)
    requires plan != [] && ResultsFollow(plan[..|plan| - 1], p)
    ensures ResultsFollow(plan, Advance(p, plan[|plan| - 1], refusal))
  {
    var n := |plan| - 1;
    var results := Advance(p, plan[n], refusal).results;
    forall i | 0 <= i < |plan|
      ensures Settles(plan[i], results[i])
    {
      if i < n {
        assert plan[..n][i] == plan[i] && results[i] == p.results[i];
      }
    }
  }

  function Run(items: seq<Item>, refusals: seq<Outcome>, volumes: map<string, int>): Progress
    requires |refusals| == |items|
  {
    Execute(Plan(items, volumes), refusals, volumes)
  }

  /** What the report says of item i, given how things were: present with the wanted quota, with another, or not at all. */
  ghost predicate Reported(v: Item, result: VolumeResult, volumes: map<string, int>) {
    && result.name == v.name && result.size == v.size
    && match Parse(v.size)
       case Failure(e) => result.status == Erred(SizeNotUnderstood(e))
       case Success(want) =>
         && (result.status == Exists <==> v.name in volumes && volumes[v.name] == want)
         && (forall have, wanted :: result.status == Erred(Mismatch(have, wanted)) <==>
               v.name in volumes && volumes[v.name] == have && have != want && wanted == want)
         && (result.status.WasCreated? || (result.status.Erred? && result.status.error.CreateFailed?) <==>
               v.name !in volumes)
  }

  lemma PlanIsReported(v: Item, volumes: map<string, int>, result: VolumeResult)
    requires Settles(PlanItem(v, volumes), result)
    requires result == PlanItem(v, volumes) || (result.status.Erred? && result.status.error.CreateFailed?)
    ensures Reported(v, result, volumes)
  {
  }

  /** For every manifest, and whatever `msb` refuses, each item is reported for what it was before the batch. */
  lemma EveryItemIsReported(items: seq<Item>, refusals: seq<Outcome>, volumes: map<string, int>)
    requires |refusals| == |items|
    ensures var results := Run(items, refusals, volumes).results;
            |results| == |items| && forall i | 0 <= i < |items| :: Reported(items[i], results[i], volumes)
  {
    var plan, p := Plan(items, volumes), Run(items, refusals, volumes);
    ReportIsFaithful(plan, refusals, volumes);
    OnlyCreatesFail(plan, refusals, volumes);
    forall i | 0 <= i < |items|
      ensures Reported(items[i], p.results[i], volumes)
    {
      assert Settles(plan[i], p.results[i]);
      PlanIsReported(items[i], volumes, p.results[i]);
    }
  }

  lemma {:induction false} OnlyCreatesFail(plan: seq<VolumeResult>, refusals: seq<Outcome>, volumes: map<string, int>)
    requires |plan| == |refusals|
    ensures var results := Execute(plan, refusals, volumes).results;
            forall i | 0 <= i < |plan| ::
              results[i] == plan[i] || (results[i].status.Erred? && results[i].status.error.CreateFailed?)
    decreases |plan|
  {
    if plan != [] {
      var n := |plan| - 1;
      OnlyCreatesFail(plan[..n], refusals[..n], volumes);
      assert forall i | 0 <= i < n :: plan[..n][i] == plan[i];
    }
  }

  /** A batch without errors leaves every volume of the manifest at the number of MiB its size denotes. */
  lemma CleanBatchMeetsTheManifest(items: seq<Item>, refusals: seq<Outcome>, volumes: map<string, int>)
    requires |refusals| == |items| && !AnyFailed(Run(items, refusals, volumes).results)
    ensures var after := Run(items, refusals, volumes).volumes;
            forall i | 0 <= i < |items| ::
              && items[i].name in after && Parse(items[i].size) == Success(after[items[i].name])
              && Denotes(items[i].size).Some?
              && (Denotes(items[i].size).value <= MAX_INT ==> after[items[i].name] == Denotes(items[i].size).value)
  {
    var plan, p := Plan(items, volumes), Run(items, refusals, volumes);
    ReportIsFaithful(plan, refusals, volumes);
    EveryItemIsReported(items, refusals, volumes);
    forall i | 0 <= i < |items|
      ensures items[i].name in p.volumes && Parse(items[i].size) == Success(p.volumes[items[i].name])
    {
      assert Reported(items[i], p.results[i], volumes) && !p.results[i].status.Erred?;
      assert Settles(plan[i], p.results[i]);
      if p.results[i].status.WasCreated? {
        assert Made(plan, p.results, i, plan[i].name);
      }
    }
    forall i | 0 <= i < |items|
      ensures Denotes(items[i].size).Some?
      ensures Denotes(items[i].size).value <= MAX_INT ==> p.volumes[items[i].name] == Denotes(items[i].size).value
    {
      ParseIsExactWithin(items[i].size);
    }
  }

  lemma {:induction false} NothingToCreate(plan: seq<VolumeResult>, refusals: seq<Outcome>, volumes: map<string, int>)
    requires |plan| == |refusals| && forall i | 0 <= i < |plan| :: plan[i].status.Exists?
    ensures Execute(plan, refusals, volumes) == Progress(volumes, plan, [])
    decreases |plan|
  {
    if plan != [] {
      var n := |plan| - 1;
      NothingToCreate(plan[..n], refusals[..n], volumes);
      assert plan[..n] + [plan[n]] == plan;
    }
  }

  /**
   Convergence: after a batch answered 201, running it again, whatever `msb`
   would say, makes no call, changes no volume, and reports every item as
   already there.
   */
  lemma RunAgainDoesNothing(items: seq<Item>, refusals: seq<Outcome>, again: seq<Outcome>, volumes: map<string, int>)
    requires |refusals| == |items| && |again| == |items|
    requires !AnyFailed(Run(items, refusals, volumes).results)
    ensures var first := Run(items, refusals, volumes);
            var second := Run(items, again, first.volumes);
            && second.calls == [] && second.volumes == first.volumes
            && forall i | 0 <= i < |items| :: second.results[i] == VolumeResult(items[i].name, items[i].size, Exists)
  {
    var plan := Plan(items, volumes);
    var first := Run(items, refusals, volumes);
    ReportIsFaithful(plan, refusals, volumes);
    var replan := Plan(items, first.volumes);
    forall i | 0 <= i < |items|
      ensures replan[i] == VolumeResult(items[i].name, items[i].size, Exists)
    {
      assert Settles(plan[i], first.results[i]);
      assert !first.results[i].status.Erred?;
      assert first.results[i] == PlanItem(items[i], volumes);
      if first.results[i].status.WasCreated? {
        assert Made(plan, first.results, i, plan[i].name);
      }
    }
    NothingToCreate(replan, again, first.volumes);
  }

  ghost predicate DistinctNames(items: seq<Item>) {
    forall i, j | 0 <= i < j < |items| :: items[i].name != items[j].name
  }

  /** What becomes of an item nobody else in the manifest shares a name with. */
  function Settled(v: Item, refusal: Outcome, volumes: map<string, int>): VolumeResult {
    var planned := PlanItem(v, volumes);
    if planned.status.WasCreated? && refusal.Failed? then planned.(status := Erred(CreateFailed(refusal.error)))
    else planned
  }

  lemma SettleOne(v: Item, refusal: Outcome, volumes: map<string, int>, p: Progress)
    requires v.name in p.volumes ==> v.name in volumes
    requires forall w | w in volumes :: w in p.volumes
    ensures Advance(p, PlanItem(v, volumes), refusal).results == p.results + [Settled(v, refusal, volumes)]
    ensures Advance(p, PlanItem(v, volumes), refusal).volumes.Keys <= p.volumes.Keys + {v.name}
  {
  }

  /** Every item gets the result it would get on its own. */
  ghost predicate AllSettled(items: seq<Item>, refusals: seq<Outcome>, volumes: map<string, int>,
                             results: seq<VolumeResult>) {
    && |results| == |items| == |refusals|
    && forall i | 0 <= i < |items| :: results[i] == Settled(items[i], refusals[i], volumes)
  }

  lemma SettledOneMore(items: seq<Item>, refusals: seq<Outcome>, volumes: map<string, int>, results: seq<VolumeResult>)
    requires items != [] && |refusals| == |items|
    requires var n := |items| - 1; AllSettled(items[..n], refusals[..n], volumes, results)
    ensures var n := |items| - 1;
            AllSettled(items, refusals, volumes, results + [Settled(items[n], refusals[n], volumes)])
  {
    var n := |items| - 1;
    assert forall i | 0 <= i < n :: items[..n][i] == items[i] && refusals[..n][i] == refusals[i];
  }

  lemma {:induction false} DistinctItemsSettleAlone(items: seq<Item>, refusals: seq<Outcome>, volumes: map<string, int>)
    requires |refusals| == |items| && DistinctNames(items)
    ensures AllSettled(items, refusals, volumes, Run(items, refusals, volumes).results)
    ensures Run(items, refusals, volumes).volumes.Keys <= volumes.Keys + Names(items)
    decreases |items|
  {
    if items != [] {
      var n := |items| - 1;
      var init := items[..n];
      var p := Run(init, refusals[..n], volumes);
      DistinctItemsSettleAlone(init, refusals[..n], volumes);
      KeepsOldVolumes(Plan(init, volumes), refusals[..n], volumes);
      NewName(items);
      SettleOne(items[n], refusals[n], volumes, p);
      RunOneMore(items, refusals, volumes);
      SettledOneMore(items, refusals, volumes, p.results);
      NamesOneMore(items);
    }
  }

  lemma NewName(items: seq<Item>)
    requires items != [] && DistinctNames(items)
    ensures DistinctNames(items[..|items| - 1]) && items[|items| - 1].name !in Names(items[..|items| - 1])
  {
  }

  lemma NamesOneMore(items: seq<Item>)
    requires items != []
    ensures Names(items) == Names(items[..|items| - 1]) + {items[|items| - 1].name}
  {
    var init := items[..|items| - 1];
    assert forall i | 0 <= i < |init| :: init[i] == items[i];
    assert items[|items| - 1].name in Names(items);
    forall v | v in Names(init)
      ensures v in Names(items)
    {
      var i :| 0 <= i < |init| && init[i].name == v;
      assert items[i].name == v;
    }
  }

  lemma KeepsOldVolumes(plan: seq<VolumeResult>, refusals: seq<Outcome>, volumes: map<string, int>)
    requires |plan| == |refusals|
    ensures forall v | v in volumes :: v in Execute(plan, refusals, volumes).volumes
  {
    ReportIsFaithful(plan, refusals, volumes);
  }

  lemma RunOneMore(items: seq<Item>, refusals: seq<Outcome>, volumes: map<string, int>)
    requires |refusals| == |items| && items != []
    ensures var n := |items| - 1;
            Run(items, refusals, volumes)
            == Advance(Run(items[..n], refusals[..n], volumes), PlanItem(items[n], volumes), refusals[n])
  {
    assert Plan(items, volumes)[..|items| - 1] == Plan(items[..|items| - 1], volumes);
  }

  function Names(items: seq<Item>): set<string> {
    set i | 0 <= i < |items| :: items[i].name
  }

  /** p and q are mutually inverse rearrangements of n positions. */
  ghost predicate Rearranges(p: seq<nat>, q: seq<nat>, n: nat) {
    && |p| == n && |q| == n
    && (forall i | 0 <= i < n :: p[i] < n && q[p[i]] == i)
    && (forall i | 0 <= i < n :: q[i] < n && p[q[i]] == i)
  }

  /** Rearranging a manifest without duplicate names rearranges its results and leaves the same volumes. */
  lemma OrderDoesNotMatter(items: seq<Item>, refusals: seq<Outcome>, items': seq<Item>, refusals': seq<Outcome>,
                           p: seq<nat>, q: seq<nat>, volumes: map<string, int>)
    requires |refusals| == |items| && |items'| == |items| && |refusals'| == |items|
    requires Rearranges(p, q, |items|) && DistinctNames(items)
    requires forall i | 0 <= i < |items| :: items'[i] == items[p[i]] && refusals'[i] == refusals[p[i]]
    ensures var run, run' := Run(items, refusals, volumes), Run(items', refusals', volumes);
            && (forall i | 0 <= i < |items| :: run'.results[i] == run.results[p[i]])
            && run'.volumes == run.volumes
  {
    var run, run' := Run(items, refusals, volumes), Run(items', refusals', volumes);
    RearrangedNamesDiffer(items, items', p, q);
    DistinctItemsSettleAlone(items, refusals, volumes);
    DistinctItemsSettleAlone(items', refusals', volumes);
    RearrangedResults(items, refusals, run.results, items', refusals', run'.results, p, volumes);
    InverseRearranges(items, run.results, items', run'.results, p, q);
    SameVolumes(items, refusals, run, items', refusals', run', p, q, volumes);
  }

  lemma SameVolumes(items: seq<Item>, refusals: seq<Outcome>, run: Progress,
                    items': seq<Item>, refusals': seq<Outcome>, run': Progress,
                    p: seq<nat>, q: seq<nat>, volumes: map<string, int>)
    requires |refusals| == |items| && |items'| == |items| && |refusals'| == |items|
    requires |p| == |items| && |q| == |items|
    requires run == Run(items, refusals, volumes) && run' == Run(items', refusals', volumes)
    requires forall i | 0 <= i < |items| :: p[i] < |items| && items'[i] == items[p[i]]
    requires forall i | 0 <= i < |items| :: run'.results[i] == run.results[p[i]]
    requires forall i | 0 <= i < |items| :: q[i] < |items| && items[i] == items'[q[i]]
    requires forall i | 0 <= i < |items| :: run.results[i] == run'.results[q[i]]
    ensures run'.volumes == run.volumes
  {
    VolumesFollowResults(items, refusals, run, items', refusals', run', p, volumes);
    VolumesFollowResults(items', refusals', run', items, refusals, run, q, volumes);
    SameMap(run'.volumes, run.volumes);
  }

  lemma SameMap(a: map<string, int>, b: map<string, int>)
    requires forall v | v in a :: v in b && b[v] == a[v]
    requires forall v | v in b :: v in a && a[v] == b[v]
    ensures a == b
  {
  }

  lemma RearrangedNamesDiffer(items: seq<Item>, items': seq<Item>, p: seq<nat>, q: seq<nat>)
    requires |items'| == |items| && Rearranges(p, q, |items|) && DistinctNames(items)
    requires forall i | 0 <= i < |items| :: items'[i] == items[p[i]]
    ensures DistinctNames(items')
  {
    forall i, j | 0 <= i < j < |items'|
      ensures items'[i].name != items'[j].name
    {
      assert q[p[i]] == i && q[p[j]] == j;
      assert p[i] < p[j] || p[j] < p[i];
    }
  }

  lemma RearrangedResults(items: seq<Item>, refusals: seq<Outcome>, results: seq<VolumeResult>,
                          items': seq<Item>, refusals': seq<Outcome>, results': seq<VolumeResult>,
                          p: seq<nat>, volumes: map<string, int>)
    requires AllSettled(items, refusals, volumes, results) && AllSettled(items', refusals', volumes, results')
    requires |items'| == |items| == |p|
    requires forall i | 0 <= i < |p| :: p[i] < |p| && items'[i] == items[p[i]] && refusals'[i] == refusals[p[i]]
    ensures forall i | 0 <= i < |p| :: results'[i] == results[p[i]]
  {
    forall i | 0 <= i < |p|
      ensures results'[i] == results[p[i]]
    {
      assert results'[i] == Settled(items[p[i]], refusals[p[i]], volumes);
    }
  }

  lemma InverseRearranges(items: seq<Item>, results: seq<VolumeResult>, items': seq<Item>, results': seq<VolumeResult>,
                          p: seq<nat>, q: seq<nat>)
    requires Rearranges(p, q, |items|) && |items'| == |items| == |results| == |results'|
    requires forall i | 0 <= i < |items| :: items'[i] == items[p[i]] && results'[i] == results[p[i]]
    ensures forall i | 0 <= i < |items| :: q[i] < |items| && items[i] == items'[q[i]]
    ensures forall i | 0 <= i < |items| :: results[i] == results'[q[i]]
  {
    forall i | 0 <= i < |items|
      ensures items[i] == items'[q[i]] && results[i] == results'[q[i]]
    {
      assert p[q[i]] == i;
    }
  }

  /** Every volume of the rearranged run is one of the other run's, with the same quota. */
  lemma VolumesFollowResults(items: seq<Item>, refusals: seq<Outcome>, run: Progress,
                             items': seq<Item>, refusals': seq<Outcome>, run': Progress,
                             p: seq<nat>, volumes: map<string, int>)
    requires |refusals| == |items| && |items'| == |items| && |refusals'| == |items| && |p| == |items|
    requires run == Run(items, refusals, volumes) && run' == Run(items', refusals', volumes)
    requires forall i | 0 <= i < |items| :: p[i] < |items| && items'[i] == items[p[i]]
    requires forall i | 0 <= i < |items| :: run'.results[i] == run.results[p[i]]
    ensures forall v | v in run'.volumes :: v in run.volumes && run.volumes[v] == run'.volumes[v]
  {
    ReportIsFaithful(Plan(items, volumes), refusals, volumes);
    ReportIsFaithful(Plan(items', volumes), refusals', volumes);
    VolumesCarryOver(Plan(items, volumes), run, Plan(items', volumes), run', p, volumes);
  }

  lemma VolumesCarryOver(plan: seq<VolumeResult>, run: Progress, plan': seq<VolumeResult>, run': Progress,
                         p: seq<nat>, volumes: map<string, int>)
    requires |plan'| == |plan| == |p| == |run.results| == |run'.results|
    requires VolumesFollow(plan, volumes, run) && VolumesFollow(plan', volumes, run')
    requires forall i | 0 <= i < |p| :: p[i] < |p| && plan'[i] == plan[p[i]] && run'.results[i] == run.results[p[i]]
    ensures forall v | v in run'.volumes :: v in run.volumes && run.volumes[v] == run'.volumes[v]
  {
    forall v | v in run'.volumes
      ensures v in run.volumes && run.volumes[v] == run'.volumes[v]
    {
      if v !in volumes {
        var i: nat :| Made(plan', run'.results, i, v);
        assert Made(plan, run.results, p[i], v);
      }
    }
  }
}
