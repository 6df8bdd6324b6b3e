/**
 The `msb` command as this model assumes it to behave: the sandboxes it knows,
 what each mutating command may answer, and what each answer does to them.
 */
module Msb {

  /** A sandbox as `msb` knows it: whether it runs, and its named-volume mounts. */
  datatype Sandbox = Sandbox(running: bool, volumes: seq<string>)

  /** sandbox name -> sandbox */
  type World = map<string, Sandbox>

  /** The failure categories the adapter tells apart for a lifecycle command. */
  datatype MsbError = NotFound | AlreadyExists | StillRunning | TimedOut | Unrecognised

  datatype Outcome = Ok | Failed(error: MsbError)

  /** A mount as `msb inspect` lists it. */
  datatype Mount = Mount(kind: string, name: string)

  /** `msb ls` shows a sandbox with this word, and no other, while it runs. */
  predicate ShowsState(s: Sandbox, status: string) {
    status == "Running" <==> s.running
  }

  /**
   `msb inspect` lists the volumes in order, as mounts of kind "Named"; a mount
   of another kind, or without a name, is none.
   */
  predicate ListsVolumes(mounts: seq<Mount>, volumes: seq<string>) {
    if mounts == [] then volumes == []
    else
      var n, m := |mounts| - 1, |volumes| - 1;
      if mounts[n].kind != "Named" || mounts[n].name == "" then ListsVolumes(mounts[..n], volumes)
      else m >= 0 && volumes[m] == mounts[n].name && ListsVolumes(mounts[..n], volumes[..m])
  }

  datatype Command =
    | Create(name: string, volumes: seq<string>)
    | Exec(name: string)
    | RemoveForce(name: string)
    | Start(name: string)
    | Stop(name: string)
    | Remove(name: string)
    | CreateVolume(name: string, size: string)
    | RemoveVolume(name: string)
    | Unrelated(args: seq<string>) // guest exec and snapshot commands

  /** The commands that name a sandbox; the others start, stop and remove none. */
  predicate OnSandbox(c: Command) {
    !c.CreateVolume? && !c.RemoveVolume? && !c.Unrelated?
  }

  predicate Runs(w: World, sandbox: string, volume: string) {
    sandbox in w && w[sandbox].running && volume in w[sandbox].volumes
  }

  /** No two running sandboxes share a volume. */
  ghost predicate Exclusive(w: World) {
    forall s, t, v | Runs(w, s, v) && Runs(w, t, v) :: s == t
  }

  /** Can `c` have its effect on `w`? */
  predicate Applicable(w: World, c: Command) {
    match c
    case Create(name, _) => name !in w
    case Start(name) => name in w
    case Stop(name) => name in w
    case Remove(name) => name in w
    case _ => true
  }

  /** What `c` does when it succeeds. A created sandbox counts as running. */
  function Effect(w: World, c: Command): World
    requires Applicable(w, c)
  {
    match c
    case Create(name, volumes) => w[name := Sandbox(true, volumes)]
    case Start(name) => w[name := w[name].(running := true)]
    case Stop(name) => w[name := w[name].(running := false)]
    case Remove(name) => w - {name}
    case RemoveForce(name) => w - {name}
    case _ => w
  }

  /** May `msb` answer `c` with `o`? A "not found" is believed. */
  predicate MayAnswer(w: World, c: Command, o: Outcome) {
    && (o.Ok? ==> Applicable(w, c))
    && (o == Failed(NotFound) ==> OnSandbox(c) && c.name !in w)
  }

  /** The world after `c` was answered with `o`: a failed command changed nothing. */
  function After(w: World, c: Command, o: Outcome): World
    requires MayAnswer(w, c, o)
  {
    if o.Ok? then Effect(w, c) else w
  }
}
