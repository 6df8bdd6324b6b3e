/** The volumes a sandbox mounts, out of the mounts `msb inspect` lists for it. */
module Inspect {
  import opened Msb

  predicate NamesVolume(m: Mount) {
    m.kind == "Named" && m.name != ""
  }

  /** The source volumes of the named mounts, in mount order. */
  function VolumeNames(mounts: seq<Mount>): (names: seq<string>)
    ensures forall v :: v in names <==> exists i | 0 <= i < |mounts| :: NamesVolume(mounts[i]) && mounts[i].name == v
  {
    if mounts == [] then []
    else
      var init, last := mounts[..|mounts| - 1], mounts[|mounts| - 1];
      var before := VolumeNames(init);
      assert forall v | v in before :: exists i | 0 <= i < |mounts| :: NamesVolume(mounts[i]) && mounts[i].name == v by {
        forall v | v in before
          ensures exists i | 0 <= i < |mounts| :: NamesVolume(mounts[i]) && mounts[i].name == v
        {
          var i :| 0 <= i < |init| && NamesVolume(init[i]) && init[i].name == v;
          assert mounts[i] == init[i];
        }
      }
      assert forall i | 0 <= i < |mounts| && NamesVolume(mounts[i]) :: mounts[i].name in before || mounts[i] == last by {
        forall i | 0 <= i < |mounts| && NamesVolume(mounts[i])
          ensures mounts[i].name in before || mounts[i] == last
        {
          if i < |init| {
            assert init[i] == mounts[i];
          }
        }
      }
      if NamesVolume(last) then before + [last.name] else before
  }

  method CollectVolumeNames(mounts: seq<Mount>) returns (out: seq<string>)
    ensures out == VolumeNames(mounts)
  {
    out := [];
    for i := 0 to |mounts|
      invariant out == VolumeNames(mounts[..i])
    {
      assert mounts[..i + 1][..i] == mounts[..i];
      if mounts[i].kind == "Named" && mounts[i].name != "" {
        out := out + [mounts[i].name];
      }
    }
    assert mounts[..|mounts|] == mounts;
  }

  /** The names read out of a listing are the volumes the sandbox mounts, in their order. */
  lemma {:induction false} NamesAreVolumes(mounts: seq<Mount>, volumes: seq<string>)
    requires ListsVolumes(mounts, volumes)
    ensures VolumeNames(mounts) == volumes
    decreases |mounts|
  {
    if mounts != [] {
      var n := |mounts| - 1;
      if NamesVolume(mounts[n]) {
        NamesAreVolumes(mounts[..n], volumes[..|volumes| - 1]);
        assert volumes == volumes[..|volumes| - 1] + [mounts[n].name];
      } else {
        NamesAreVolumes(mounts[..n], volumes);
      }
    }
  }
}
