/** From startup to serving: the lock seeded by a successful reconcile, then every interleaving of requests. */
module Service {
  import opened Wrappers
  import opened Msb
  import opened Cache
  import opened Startup
  import opened ProtocolAgreement
  import P = Protocol
  import opened ProtocolSafety

  /** The machine as serving begins: the seeded lock over the sandboxes there are, nothing in flight. */
  function Serving(a: Attempt, w: World): P.State
    requires Complete(a) && Seed(a).Success?
  {
    P.State(Seed(a).value, w, None, None, map[], [], 0)
  }

  /** Every run from there keeps running sandboxes apart. */
  ghost predicate ServesExclusively(assumed: P.Assumptions, st: P.State) {
    forall es | P.Run(assumed, st, es).Some? :: Exclusive(P.Run(assumed, st, es).value.world)
  }

  /**
   A server that starts on a faithful report keeps volumes exclusive in every
   interleaving if and only if they were exclusive when it started.
   */
  lemma ServesExclusivelyExactly(assumed: P.Assumptions, a: Attempt, w: World)
    requires Sound(assumed) && Reports(a, w)
    ensures Seed(a).Success?
    ensures ServesExclusively(assumed, Serving(a, w)) <==> Exclusive(w)
  {
    SeedAgreesExactly(a, w);
    var st := Serving(a, w);
    if Exclusive(w) {
      assert P.Initial(st);
      forall es | P.Run(assumed, st, es).Some?
        ensures Exclusive(P.Run(assumed, st, es).value.world)
      {
        AlwaysGuarded(assumed, st, es);
      }
    } else {
      assert P.Run(assumed, st, []) == Some(st);
    }
  }

  /**
   Whenever no request is in flight, in any interleaving that nobody outside
   interferes with, seeding the lock again would install the very same map.
   */
  lemma ReseedingWhenIdleChangesNothing(assumed: P.Assumptions, first: Attempt, w: World, es: seq<P.Event>,
                                        again: Attempt)
    requires Sound(assumed) && Reports(first, w) && Exclusive(w) && Seed(first).Success?
    requires P.Run(assumed, Serving(first, w), es).Some? && forall i | 0 <= i < |es| :: Inside(es[i])
    requires var last := P.Run(assumed, Serving(first, w), es).value;
             last.requests == map[] && Reports(again, last.world)
    ensures Seed(again) == Success(P.Run(assumed, Serving(first, w), es).value.held)
  {
    SeedAgreesExactly(first, w);
    IdleLockAgrees(assumed, Serving(first, w), es);
    var last := P.Run(assumed, Serving(first, w), es).value;
    GuardedIsExclusive(last.held, last.world);
    SeedAgreesExactly(again, last.world);
    AgreementIsUnique(last.held, Seed(again).value, last.world);
  }
}
