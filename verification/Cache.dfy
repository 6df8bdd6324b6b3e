/** How the volume lock can stand to what `msb` runs. */
module Cache {
  import opened Msb
  import opened Lock

  /** The lock never misses a running sandbox's volume, though it may hold on to one too long. */
  ghost predicate Guarded(held: Claims, w: World) {
    forall s, v | Runs(w, s, v) :: Holds(held, v, s)
  }

  /** The lock says of every volume exactly what `msb` does. */
  ghost predicate Agrees(held: Claims, w: World) {
    forall v, s :: Holds(held, v, s) <==> Runs(w, s, v)
  }

  lemma GuardedIsExclusive(held: Claims, w: World)
    requires Guarded(held, w)
    ensures Exclusive(w)
  {
    forall s, t, v | Runs(w, s, v) && Runs(w, t, v)
      ensures s == t
    {
      assert Holds(held, v, s) && Holds(held, v, t);
    }
  }

  /** Only one map agrees with a given world. */
  lemma AgreementIsUnique(h: Claims, k: Claims, w: World)
    requires Agrees(h, w) && Agrees(k, w)
    ensures h == k
  {
    forall v
      ensures v in h <==> v in k
      ensures v in h ==> h[v] == k[v]
    {
      if v in h {
        assert Holds(h, v, h[v]);
        assert Holds(k, v, h[v]);
      }
      if v in k {
        assert Holds(k, v, k[v]);
        assert Holds(h, v, k[v]);
      }
    }
  }
}
