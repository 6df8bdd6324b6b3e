/**
 DELETE of a volume looks the volume up in the lock and then removes it, and
 nothing holds the lock in between. What may happen in that gap?
 */
module VolumeDeletion {
  import opened Msb
  import opened Lock
  import opened Cache
  import opened Client
  import opened Lifecycle

  ghost predicate Unmounted(w: World, volume: string) {
    forall s :: !Runs(w, s, volume)
  }

  /** The lookup passed: the lock, which misses no running sandbox's volume, does not hold this one. */
  ghost predicate LookedUp(st: State, volume: string) {
    Guarded(st.held, st.world) && volume !in st.held
  }

  /** A run with no create unless `creates`, and no start unless `starts`. */
  ghost predicate Gap(rs: seq<Request>, creates: bool, starts: bool) {
    forall i | 0 <= i < |rs| :: (rs[i].CreateSandbox? ==> creates) && (rs[i].StartSandbox? ==> starts)
  }

  /** The state at the removal, where `msb` still has the volume to remove. */
  ghost predicate Removable(st: State, volume: string) {
    Possible(st, DeleteVolume(volume, Ok))
  }

  /**
   Whatever is served between a lookup that passes and a removal that succeeds,
   the volume is mounted by nobody when it goes.
   */
  ghost predicate GapIsSafe(creates: bool, starts: bool) {
    forall st: State, rs, volume | LookedUp(st, volume) && Admissible(st, rs) && Gap(rs, creates, starts)
                                   && Removable(ServeAll(st, rs), volume) ::
      Unmounted(ServeAll(st, rs).world, volume)
  }

  lemma {:induction false} StaysUnmounted(st: State, rs: seq<Request>, volume: string)
    requires Admissible(st, rs) && Gap(rs, false, false) && Unmounted(st.world, volume)
    ensures Unmounted(ServeAll(st, rs).world, volume)
    decreases |rs|
  {
    if rs != [] {
      assert !rs[0].CreateSandbox? && !rs[0].StartSandbox?;
      forall s ensures !Runs(Serve(st, rs[0]).world, s, volume) {
        assert !Runs(st.world, s, volume);
      }
      StaysUnmounted(Serve(st, rs[0]), rs[1..], volume);
    }
  }

  lemma OneRequest(st: State, r: Request)
    requires Possible(st, r) && !LeavesOrphan(st, r)
    ensures Admissible(st, [r]) && ServeAll(st, [r]) == Serve(st, r)
  {
    assert [r][1..] == [];
    assert ServeAll(st, [r]) == ServeAll(Serve(st, r), [r][1..]);
  }

  lemma MountedInTheGap(st: State, r: Request, web: string, volume: string, creates: bool, starts: bool)
    requires LookedUp(st, volume)
    requires Possible(st, r) && !LeavesOrphan(st, r) && Gap([r], creates, starts)
    requires Runs(Serve(st, r).world, web, volume) && Removable(Serve(st, r), volume)
    ensures !GapIsSafe(creates, starts)
  {
    OneRequest(st, r);
    assert !Unmounted(ServeAll(st, [r]).world, volume);
  }

  /** The gap does no harm exactly when neither a create nor a start is served in it. */
  lemma GapIsSafeExactly(creates: bool, starts: bool)
    ensures GapIsSafe(creates, starts) <==> !creates && !starts
  {
    var web, data := "web", "data";
    if creates {
      var st := State(map[], map[], map[data := 1]);
      MountedInTheGap(st, CreateSandbox(web, [data], false, CreateAnswers(Ok, Ok, Ok)), web, data, creates, starts);
    } else if starts {
      var st := State(map[], map[web := Sandbox(false, [data])], map[data := 1]);
      MountedInTheGap(st, StartSandbox(web, Ok, Ok), web, data, creates, starts);
    } else {
      forall st: State, rs, volume | LookedUp(st, volume) && Admissible(st, rs) && Gap(rs, creates, starts)
                                     && Removable(ServeAll(st, rs), volume)
        ensures Unmounted(ServeAll(st, rs).world, volume)
      {
        forall s ensures !Runs(st.world, s, volume) {
          assert Holds(st.held, volume, s) ==> volume in st.held;
        }
        StaysUnmounted(st, rs, volume);
      }
    }
  }
}
