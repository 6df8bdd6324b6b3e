/**
 Capturing a command's output in bounded memory, and telling a command that ran
 from an `msb` that failed.
 */
module Capture {
  import opened Wrappers
  import opened Errors

  /** What a capWriter holds. */
  datatype Captured = Captured(buf: string, overflow: bool)

  /** One write: as much as there is room for is kept. */
  function Absorb(limit: nat, c: Captured, p: string): Captured {
    var room := limit - |c.buf|;
    if |p| > room then Captured(if room > 0 then c.buf + p[..room] else c.buf, true)
    else c.(buf := c.buf + p)
  }

  class CapWriter {
    const limit: nat
    var buf: string
    var overflow: bool

    constructor (limit: nat)
      ensures this.limit == limit && Holding() == Captured("", false)
    {
      this.limit := limit;
      buf, overflow := "", false;
    }

    function Holding(): Captured
      reads this
    {
      Captured(buf, overflow)
    }

    /** Always reports the whole of p as written, so that the pipe keeps draining. */
    method Write(p: string) returns (n: nat)
      modifies this
      ensures n == |p|
      ensures Holding() == Absorb(limit, old(Holding()), p)
    {
      var room := limit - |buf|;
      if |p| > room {
        overflow := true;
        if room > 0 {
          buf := buf + p[..room];
        }
      } else {
        buf := buf + p;
      }
      n := |p|;
    }
  }

  function Concat(chunks: seq<string>): string {
    if chunks == [] then "" else Concat(chunks[..|chunks| - 1]) + chunks[|chunks| - 1]
  }

  function AbsorbAll(limit: nat, chunks: seq<string>): Captured {
    if chunks == [] then Captured("", false)
    else Absorb(limit, AbsorbAll(limit, chunks[..|chunks| - 1]), chunks[|chunks| - 1])
  }

  function Prefix(text: string, limit: nat): string {
    if |text| <= limit then text else text[..limit]
  }

  /**
   However the output is cut into writes, exactly its first `limit` bytes are
   kept, and overflow is flagged if and only if there were more.
   */
  lemma {:induction false} CaptureIgnoresChunking(limit: nat, chunks: seq<string>)
    ensures AbsorbAll(limit, chunks) == Captured(Prefix(Concat(chunks), limit), |Concat(chunks)| > limit)
    decreases |chunks|
  {
    if chunks != [] {
      var init, last := chunks[..|chunks| - 1], chunks[|chunks| - 1];
      CaptureIgnoresChunking(limit, init);
      var before := Concat(init);
      if |before| <= limit {
        var room := limit - |before|;
        if |last| > room {
          assert (before + last)[..limit] == before + last[..room];
        }
      } else {
        assert (before + last)[..limit] == before[..limit];
      }
    }
  }

  /** How the child itself ended, when not with exit status 0; a signal reads as -1. */
  datatype ChildError = ExitStatus(code: int) | NotSpawned

  datatype RunError = Child(error: ChildError) | OutputTooLarge | TimedOut

  datatype RunResult = RunResult(stdout: string, stderr: string, error: Option<RunError>)

  const DEFAULT_MAX_CAPTURE_BYTES: nat := 32 * 1024 * 1024

  function Limit(maxCaptureBytes: int): nat {
    if maxCaptureBytes <= 0 then DEFAULT_MAX_CAPTURE_BYTES else maxCaptureBytes
  }

  /** ExecRunner.Run: both streams captured, an overflow outranking the child's own failure. */
  method Run(maxCaptureBytes: int, stdout: seq<string>, stderr: seq<string>, child: Option<ChildError>)
    returns (r: RunResult)
    ensures var limit := if maxCaptureBytes > 0 then maxCaptureBytes else 33554432;
            && r.stdout == Prefix(Concat(stdout), limit)
            && r.stderr == Prefix(Concat(stderr), limit)
            && r.error == if |Concat(stdout)| > limit || |Concat(stderr)| > limit then Some(OutputTooLarge)
                          else if child.Some? then Some(Child(child.value)) else None
  {
    var limit := Limit(maxCaptureBytes);
    var out := new CapWriter(limit);
    var err := new CapWriter(limit);
    for i := 0 to |stdout|
      invariant out.Holding() == AbsorbAll(limit, stdout[..i])
      invariant err.Holding() == Captured("", false)
    {
      assert stdout[..i + 1][..i] == stdout[..i];
      var _ := out.Write(stdout[i]);
    }
    assert stdout[..|stdout|] == stdout;
    for i := 0 to |stderr|
      invariant err.Holding() == AbsorbAll(limit, stderr[..i])
      invariant out.Holding() == AbsorbAll(limit, stdout)
    {
      assert stderr[..i + 1][..i] == stderr[..i];
      var _ := err.Write(stderr[i]);
    }
    assert stderr[..|stderr|] == stderr;
    CaptureIgnoresChunking(limit, stdout);
    CaptureIgnoresChunking(limit, stderr);
    var error := if child.Some? then Some(Child(child.value)) else None;
    if out.overflow || err.overflow {
      error := Some(OutputTooLarge);
    }
    r := RunResult(out.buf, err.buf, error);
  }

  /** Client.run: an error while the deadline has passed is a timeout, whatever else it was. */
  function Bounded(r: RunResult, deadlineExceeded: bool): RunResult {
    if r.error.Some? && deadlineExceeded then r.(error := Some(TimedOut)) else r
  }

  datatype Failure = Recognised(found: Classified) | Raw(error: RunError)

  /** wrapRunErr: the typed errors outrank whatever stderr says. */
  function WrapRunErr(r: RunResult): Option<Failure> {
    match r.error
    case None => None
    case Some(TimedOut) => Some(Raw(TimedOut))
    case Some(OutputTooLarge) => Some(Raw(OutputTooLarge))
    case Some(e) => if Classify(r.stderr).Some? then Some(Recognised(Classify(r.stderr).value)) else Some(Raw(e))
  }

  datatype ExecResult = ExecResult(stdout: string, stderr: string, exitCode: int)

  function ExecOutcome(r: RunResult): Result<ExecResult, Failure> {
    match r.error
    case None => Success(ExecResult(r.stdout, r.stderr, 0))
    case Some(TimedOut) => Result.Failure(Raw(TimedOut))
    case Some(OutputTooLarge) => Result.Failure(Raw(OutputTooLarge))
    case Some(Child(e)) =>
      if ClassifyAnchored(r.stderr).Some? then Result.Failure(Recognised(ClassifyAnchored(r.stderr).value))
      else if e.ExitStatus? && e.code > 0 then Success(ExecResult(r.stdout, r.stderr, e.code))
      else Result.Failure(Raw(Child(e)))
  }

  /** Client.Exec on a guest command that wrote the given output and ended the given way. */
  method Exec(maxCaptureBytes: int, stdout: seq<string>, stderr: seq<string>, child: Option<ChildError>,
              deadlineExceeded: bool)
    returns (result: Result<ExecResult, Failure>)
    ensures result == ExecOf(Limit(maxCaptureBytes), Concat(stdout), Concat(stderr), child, deadlineExceeded)
  {
    var r := Run(maxCaptureBytes, stdout, stderr, child);
    result := ExecOutcome(Bounded(r, deadlineExceeded));
  }

  /** What Exec answers, from the whole output. */
  function ExecOf(limit: nat, stdout: string, stderr: string, child: Option<ChildError>, deadlineExceeded: bool)
    : Result<ExecResult, Failure>
  {
    var error := if |stdout| > limit || |stderr| > limit then Some(OutputTooLarge)
                 else if child.Some? then Some(Child(child.value)) else None;
    ExecOutcome(Bounded(RunResult(Prefix(stdout, limit), Prefix(stderr, limit), error), deadlineExceeded))
  }

  /**
   Exec reports a result exactly when the guest command ran to its end within
   every bound, and then both streams are complete and the status is the
   command's own.
   */
  lemma ExecResultsAreCompleteExactly(limit: nat, stdout: string, stderr: string, child: Option<ChildError>,
                                      deadlineExceeded: bool)
    ensures ExecOf(limit, stdout, stderr, child, deadlineExceeded).Success?
            <==> && |stdout| <= limit && |stderr| <= limit
                 && (child.Some? ==> && !deadlineExceeded
                                     && child.value.ExitStatus? && child.value.code > 0
                                     && ClassifyAnchored(stderr) == None)
    ensures ExecOf(limit, stdout, stderr, child, deadlineExceeded).Success? ==>
              ExecOf(limit, stdout, stderr, child, deadlineExceeded).value
              == ExecResult(stdout, stderr, if child.Some? then child.value.code else 0)
  {
    var overflow := |stdout| > limit || |stderr| > limit;
    if !overflow {
      assert Prefix(stdout, limit) == stdout && Prefix(stderr, limit) == stderr;
    }
  }

  /**
   And what it reports instead when it has no result: the deadline first, then
   the cap, then `msb`'s own words, then the child.
   */
  lemma ExecFailuresAreToldApart(limit: nat, stdout: string, stderr: string, child: Option<ChildError>,
                                 deadlineExceeded: bool)
    ensures var fits := |stdout| <= limit && |stderr| <= limit;
            var e := ExecOf(limit, stdout, stderr, child, deadlineExceeded);
            var inTime := !deadlineExceeded && fits && child.Some?;
            && (e == Result.Failure(Raw(TimedOut)) <==> deadlineExceeded && !(fits && child == None))
            && (e == Result.Failure(Raw(OutputTooLarge)) <==> !deadlineExceeded && !fits)
            && (e.Failure? && e.error.Recognised? <==> inTime && ClassifyAnchored(stderr).Some?)
            && (e.Failure? && e.error.Recognised? ==> Some(e.error.found) == ClassifyAnchored(stderr))
            && (forall c :: e == Result.Failure(Raw(Child(c))) <==>
                  inTime && child.value == c && ClassifyAnchored(stderr) == None && !(c.ExitStatus? && c.code > 0))
  {
    if |stdout| <= limit && |stderr| <= limit {
      assert Prefix(stderr, limit) == stderr;
    }
  }

  /** What any other command reports when it does not succeed, from the whole output. */
  function FailureOf(limit: nat, stdout: string, stderr: string, child: Option<ChildError>, deadlineExceeded: bool)
    : Option<Failure>
  {
    var error := if |stdout| > limit || |stderr| > limit then Some(OutputTooLarge)
                 else if child.Some? then Some(Child(child.value)) else None;
    WrapRunErr(Bounded(RunResult(Prefix(stdout, limit), Prefix(stderr, limit), error), deadlineExceeded))
  }

  /**
   Each kind of failure is reported exactly when it happened: stderr is read for
   a category only if it is whole and the child failed in time.
   */
  lemma FailuresAreToldApart(limit: nat, stdout: string, stderr: string, child: Option<ChildError>,
                             deadlineExceeded: bool)
    ensures var fits := |stdout| <= limit && |stderr| <= limit;
            var f := FailureOf(limit, stdout, stderr, child, deadlineExceeded);
            && (f == None <==> fits && child == None)
            && (f == Some(Raw(TimedOut)) <==> deadlineExceeded && !(fits && child == None))
            && (f == Some(Raw(OutputTooLarge)) <==> !deadlineExceeded && !fits)
            && (f.Some? && f.value.Recognised? <==>
                  !deadlineExceeded && fits && child.Some? && Classify(stderr).Some?)
            && (f.Some? && f.value.Recognised? ==> Some(f.value.found) == Classify(stderr))
            && (forall c :: f == Some(Raw(Child(c))) <==>
                  !deadlineExceeded && fits && child == Some(c) && Classify(stderr) == None)
  {
    if |stdout| <= limit && |stderr| <= limit {
      assert Prefix(stderr, limit) == stderr;
    }
  }
}
