/**
 The readiness probe's cache: how often it runs `msb ls`, and how old an answer
 can be. Times are points on a clock that does not go back.
 */
module Readiness {
  import opened Wrappers

  datatype Outcome = Up | Down(error: string) | Canceled

  /** checkedAt is None before the first check: Go's zero time, older than any ttl. */
  datatype Cache = Cache(checkedAt: Option<int>, outcome: Outcome)

  /** One call: the clock when it looks, what a listing would answer, and the clock when that listing ends. */
  datatype Call = Call(now: int, listing: Outcome, end: int)

  predicate Fresh(ttl: int, c: Cache, now: int) {
    c.checkedAt.Some? && now - c.checkedAt.value < ttl
  }

  function Answer(ttl: int, c: Cache, call: Call): Outcome {
    if Fresh(ttl, c, call.now) then c.outcome else call.listing
  }

  /** A listing that was cancelled is the caller leaving, and is not remembered. */
  function Remember(ttl: int, c: Cache, call: Call): Cache {
    if Fresh(ttl, c, call.now) || call.listing.Canceled? then c else Cache(Some(call.end), call.listing)
  }

  class ReadinessCache {
    const ttl: int
    var checkedAt: Option<int>
    var err: Outcome

    constructor (ttl: int)
      ensures this.ttl == ttl && Holding() == Cache(None, Up)
    {
      this.ttl := ttl;
      checkedAt, err := None, Up;
    }

    function Holding(): Cache
      reads this
    {
      Cache(checkedAt, err)
    }

    /** Holds its mutex throughout, so that calls follow one another; `listed` tells whether `msb ls` ran. */
    method Ready(call: Call) returns (answer: Outcome, listed: bool)
      modifies this
      ensures answer == Answer(ttl, old(Holding()), call)
      ensures Holding() == Remember(ttl, old(Holding()), call)
      ensures listed <==> !Fresh(ttl, old(Holding()), call.now)
    {
      if checkedAt.Some? && call.now - checkedAt.value < ttl {
        return err, false;
      }
      if call.listing.Canceled? {
        return call.listing, true;
      }
      checkedAt := Some(call.end);
      err := call.listing;
      return call.listing, true;
    }
  }

  const COLD := Cache(None, Up)

  /** The cache after a run of calls. */
  function After(ttl: int, calls: seq<Call>): Cache {
    if calls == [] then COLD else Remember(ttl, After(ttl, calls[..|calls| - 1]), calls[|calls| - 1])
  }

  /** Calls one after another on a clock that does not go back. */
  ghost predicate Orderly(calls: seq<Call>) {
    && (forall i | 0 <= i < |calls| :: calls[i].now <= calls[i].end)
    && (forall i, j | 0 <= i < j < |calls| :: calls[i].end <= calls[j].now)
  }

  /** Did call i run a listing? */
  predicate Lists(ttl: int, calls: seq<Call>, i: nat)
    requires i < |calls|
  {
    !Fresh(ttl, After(ttl, calls[..i]), calls[i].now)
  }

  /** ... and remember its outcome? */
  predicate Checks(ttl: int, calls: seq<Call>, i: nat)
    requires i < |calls|
  {
    Lists(ttl, calls, i) && !calls[i].listing.Canceled?
  }

  /** The cache holds the last remembered listing. */
  lemma {:induction false} CacheIsLastCheck(ttl: int, calls: seq<Call>) returns (last: int)
    ensures -1 <= last < |calls|
    ensures After(ttl, calls) == if last < 0 then COLD else Cache(Some(calls[last].end), calls[last].listing)
    ensures last >= 0 ==> Checks(ttl, calls, last)
    ensures forall i: nat | last < i < |calls| :: !Checks(ttl, calls, i)
    decreases |calls|
  {
    if calls == [] {
      last := -1;
    } else {
      var n := |calls| - 1;
      var init := calls[..n];
      last := CacheIsLastCheck(ttl, init);
      forall i: nat | i < n
        ensures Checks(ttl, calls, i) <==> Checks(ttl, init, i)
      {
        assert init[..i] == calls[..i];
      }
      if Checks(ttl, calls, n) {
        last := n;
      }
    }
  }

  /** A listing starts at least ttl after any remembered one before it ended. */
  lemma ListingsAreSpaced(ttl: int, calls: seq<Call>, i: nat, j: nat)
    requires Orderly(calls) && i < j < |calls| && Checks(ttl, calls, i) && Lists(ttl, calls, j)
    ensures calls[i].end + ttl <= calls[j].now
  {
    var before := calls[..j];
    var last := CacheIsLastCheck(ttl, before);
    assert before[..i] == calls[..i];
    assert Checks(ttl, before, i);
    assert last >= i;
    assert before[i] == calls[i] && before[last] == calls[last];
  }

  /** Every answer is the outcome of a listing that just ran or that ended less than ttl before. */
  lemma AnswersAreRecent(ttl: int, calls: seq<Call>, i: nat) returns (source: nat)
    requires i < |calls|
    ensures source <= i && Lists(ttl, calls, source)
    ensures Answer(ttl, After(ttl, calls[..i]), calls[i]) == calls[source].listing
    ensures source == i || (Checks(ttl, calls, source) && calls[i].now - calls[source].end < ttl)
  {
    if Lists(ttl, calls, i) {
      source := i;
    } else {
      var before := calls[..i];
      var last := CacheIsLastCheck(ttl, before);
      source := last;
      assert before[..last] == calls[..last];
    }
  }

  /** How many remembered listings started in the window [from, from + length]. */
  function ChecksWithin(ttl: int, calls: seq<Call>, from: int, length: int): nat {
    if calls == [] then 0
    else
      var n := |calls| - 1;
      ChecksWithin(ttl, calls[..n], from, length)
      + if Checks(ttl, calls, n) && from <= calls[n].now <= from + length then 1 else 0
  }

  lemma OneMoreGap(k: int, ttl: int)
    ensures (k - 1) * ttl + ttl == k * ttl
  {
  }

  /** k remembered listings in a window, the last at time t, need (k - 1) * ttl of it. */
  lemma {:induction false} ChecksFillTheWindow(ttl: int, calls: seq<Call>, from: int, length: int) returns (latest: int)
    requires ttl > 0 && length >= 0 && Orderly(calls)
    ensures var k := ChecksWithin(ttl, calls, from, length);
            && -1 <= latest < |calls|
            && (k > 0 ==> latest >= 0 && Checks(ttl, calls, latest) && calls[latest].now <= from + length
                          && from + (k - 1) * ttl <= calls[latest].now)
    decreases |calls|
  {
    if calls == [] {
      latest := -1;
    } else {
      var n := |calls| - 1;
      var init := calls[..n];
      latest := ChecksFillTheWindow(ttl, init, from, length);
      var k := ChecksWithin(ttl, init, from, length);
      if latest >= 0 {
        assert init[..latest] == calls[..latest];
      }
      if Checks(ttl, calls, n) && from <= calls[n].now <= from + length {
        if k > 0 {
          ListingsAreSpaced(ttl, calls, latest, n);
          OneMoreGap(k, ttl);
        }
        latest := n;
      }
    }
  }

  /** The rate bound: a window of length T sees at most T / ttl + 1 remembered listings start. */
  lemma ListingRateIsBounded(ttl: int, calls: seq<Call>, from: int, length: int)
    requires ttl > 0 && length >= 0 && Orderly(calls)
    ensures ChecksWithin(ttl, calls, from, length) <= length / ttl + 1
  {
    var latest := ChecksFillTheWindow(ttl, calls, from, length);
    var k := ChecksWithin(ttl, calls, from, length);
    if k > length / ttl + 1 {
      AtLeastOneMore(k - 1, ttl, length);
    }
  }

  /** How many listings of any kind started in the window. */
  function ListsWithin(ttl: int, calls: seq<Call>, from: int, length: int): nat {
    if calls == [] then 0
    else
      var n := |calls| - 1;
      ListsWithin(ttl, calls[..n], from, length)
      + if Lists(ttl, calls, n) && from <= calls[n].now <= from + length then 1 else 0
  }

  /** How many of the calls made in the window had their caller leave. */
  function CancelledWithin(calls: seq<Call>, from: int, length: int): nat {
    if calls == [] then 0
    else
      var n := |calls| - 1;
      CancelledWithin(calls[..n], from, length)
      + if calls[n].listing.Canceled? && from <= calls[n].now <= from + length then 1 else 0
  }

  lemma {:induction false} ListsAreChecksOrCancelled(ttl: int, calls: seq<Call>, from: int, length: int)
    ensures ListsWithin(ttl, calls, from, length)
            <= ChecksWithin(ttl, calls, from, length) + CancelledWithin(calls, from, length)
    decreases |calls|
  {
    if calls != [] {
      ListsAreChecksOrCancelled(ttl, calls[..|calls| - 1], from, length);
    }
  }

  /** The bound on all listings: one per ttl and one more, plus one for each caller that left. */
  lemma AllListingsAreBounded(ttl: int, calls: seq<Call>, from: int, length: int)
    requires ttl > 0 && length >= 0 && Orderly(calls)
    ensures ListsWithin(ttl, calls, from, length) <= length / ttl + 1 + CancelledWithin(calls, from, length)
  {
    ListingRateIsBounded(ttl, calls, from, length);
    ListsAreChecksOrCancelled(ttl, calls, from, length);
  }

  lemma NextTick(n: nat, ttl: int)
    requires ttl > 0
    ensures (n + 1) * ttl - n * ttl == ttl && n * ttl >= 0
  {
  }

  /** c calls at the start of the window whose callers leave, then one call every ttl, n of them. */
  lemma {:induction false} BusyRun(ttl: int, length: int, c: nat, n: nat) returns (calls: seq<Call>)
    requires ttl > 0 && length >= 0 && (n > 0 ==> (n - 1) * ttl <= length)
    ensures Orderly(calls)
    ensures forall i | 0 <= i < |calls| :: calls[i].end <= if n > 0 then (n - 1) * ttl else 0
    ensures After(ttl, calls) == if n > 0 then Cache(Some((n - 1) * ttl), Up) else COLD
    ensures ListsWithin(ttl, calls, 0, length) == c + n && CancelledWithin(calls, 0, length) == c
    decreases c + n
  {
    if n == 0 && c == 0 {
      calls := [];
    } else {
      var call := if n > 0 then Call((n - 1) * ttl, Up, (n - 1) * ttl) else Call(0, Canceled, 0);
      var init;
      if n > 0 {
        if n > 1 {
          NextTick(n - 2, ttl);
        }
        init := BusyRun(ttl, length, c, n - 1);
      } else {
        init := BusyRun(ttl, length, c - 1, 0);
      }
      calls := init + [call];
      assert calls[..|calls| - 1] == init;
    }
  }

  /** The bound is attained, whatever the window and however many callers leave. */
  lemma BoundIsAttained(ttl: int, length: int, c: nat) returns (calls: seq<Call>)
    requires ttl > 0 && length >= 0
    ensures Orderly(calls) && CancelledWithin(calls, 0, length) == c
    ensures ListsWithin(ttl, calls, 0, length) == length / ttl + 1 + c
  {
    calls := BusyRun(ttl, length, c, length / ttl + 1);
  }

  /** With at most c callers leaving, no window sees more listings than one per ttl and one more. */
  ghost predicate RateHolds(ttl: int, c: nat)
    requires ttl > 0
  {
    forall calls, from, length | Orderly(calls) && length >= 0 && CancelledWithin(calls, from, length) <= c ::
      ListsWithin(ttl, calls, from, length) <= length / ttl + 1
  }

  /** The documented rate holds exactly if no caller ever leaves. */
  lemma RateHoldsExactly(ttl: int, c: nat)
    requires ttl > 0
    ensures RateHolds(ttl, c) <==> c == 0
  {
    if c == 0 {
      forall calls, from, length | Orderly(calls) && length >= 0 && CancelledWithin(calls, from, length) <= c
        ensures ListsWithin(ttl, calls, from, length) <= length / ttl + 1
      {
        AllListingsAreBounded(ttl, calls, from, length);
      }
    } else {
      var calls := BoundIsAttained(ttl, 0, c);
    }
  }

  lemma AtLeastOneMore(n: int, ttl: int, length: int)
    requires ttl > 0 && length >= 0 && n > length / ttl
    ensures n * ttl > length
  {
    var q := length / ttl;
    assert length < q * ttl + ttl;
    assert n >= q + 1;
    assert n * ttl >= (q + 1) * ttl;
  }

  /**
   Cancelled listings escape the bound: for every n there is an orderly run of n
   calls at a single instant each of which starts a listing.
   */
  lemma {:induction false} CancelledListingsAreUnbounded(ttl: int, at: int, n: nat)
    ensures var calls := seq(n, _ => Call(at, Canceled, at));
            Orderly(calls) && After(ttl, calls) == COLD && forall i | 0 <= i < n :: Lists(ttl, calls, i)
    decreases n
  {
    var calls := seq(n, _ => Call(at, Canceled, at));
    if n > 0 {
      CancelledListingsAreUnbounded(ttl, at, n - 1);
      var init := seq(n - 1, _ => Call(at, Canceled, at));
      assert calls[..n - 1] == init;
      forall i | 0 <= i < n
        ensures Lists(ttl, calls, i)
      {
        if i < n - 1 {
          assert init[..i] == calls[..i];
          assert Lists(ttl, init, i);
        }
      }
    }
  }
}
