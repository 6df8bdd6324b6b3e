/**
 The adapter's client: one mutex around every mutating method, and the
 multi-command Create that undoes itself.

 The environment's part, which answer each command gets, is a parameter.
 */
module Client {
  import opened Msb
  import opened Wrappers
  import A = CreateArgs

  /** The named volume that `-v name:mount` has `msb` mount. */
  function Mounted(v: Option<A.VolumeMount>): seq<string> {
    if v.Some? then [v.value.name] else []
  }

  /** What `msb` takes a command line read as o to ask for. */
  function Launching(o: A.CreateOpts): Command {
    Create(o.name, Mounted(o.volume))
  }

  /**
   `msb` on the host: the `@` it splits a secret at, the sandboxes, the volumes
   with their quotas in MiB, and the commands it was given.
   */
  class Host {
    const at: A.AtSplit
    var sandboxes: World
    var volumes: map<string, int>
    var commands: seq<Command>

    constructor (at: A.AtSplit)
      ensures this.at == at && sandboxes == map[] && volumes == map[] && commands == []
    {
      this.at := at;
      sandboxes, volumes, commands := map[], map[], [];
    }

    /** Runs one command, which answers `o`. */
    method Run(c: Command, o: Outcome)
      requires MayAnswer(sandboxes, c, o)
      modifies this`sandboxes, this`commands
      ensures sandboxes == After(old(sandboxes), c, o)
      ensures commands == old(commands) + [c]
    {
      commands := commands + [c];
      if o.Ok? {
        sandboxes := Effect(sandboxes, c);
      }
    }

    /** Runs the command line of `msb create` or `msb run`, going by what it reads there and nothing else. */
    method Launch(args: seq<string>, o: Outcome)
      requires A.Decode(args, at).Some? && MayAnswer(sandboxes, Launching(A.Decode(args, at).value), o)
      modifies this`sandboxes, this`commands
      ensures sandboxes == After(old(sandboxes), Launching(A.Decode(args, at).value), o)
      ensures commands == old(commands) + [Launching(A.Decode(args, at).value)]
    {
      Run(Launching(A.Decode(args, at).value), o);
    }

    /** Creates a volume, at a quota `msb` reads from the size, unless it answers with a failure. */
    method CreateVolume(name: string, size: string, quotaMiB: int, o: Outcome)
      requires o.Ok? ==> name !in volumes
      modifies this`volumes, this`commands
      ensures volumes == if o.Ok? then old(volumes)[name := quotaMiB] else old(volumes)
      ensures commands == old(commands) + [Command.CreateVolume(name, size)]
    {
      commands := commands + [Command.CreateVolume(name, size)];
      if o.Ok? {
        volumes := volumes[name := quotaMiB];
      }
    }

    method RemoveVolume(name: string, o: Outcome)
      requires o.Ok? ==> name in volumes
      modifies this`volumes, this`commands
      ensures volumes == if o.Ok? then old(volumes) - {name} else old(volumes)
      ensures commands == old(commands) + [Command.RemoveVolume(name)]
    {
      commands := commands + [Command.RemoveVolume(name)];
      if o.Ok? {
        volumes := volumes - {name};
      }
    }
  }

  /** What the commands of one Create answer, should they be reached. */
  datatype CreateAnswers = CreateAnswers(create: Outcome, exec: Outcome, remove: Outcome)

  /** Can `msb` give these answers, starting from w? */
  predicate PossibleAnswers(w: World, name: string, volumes: seq<string>, keys: bool, a: CreateAnswers) {
    var create := Create(name, volumes);
    && MayAnswer(w, create, a.create)
    && (a.create.Ok? && keys ==>
          && MayAnswer(Effect(w, create), Exec(name), a.exec)
          && (a.exec.Failed? ==> MayAnswer(Effect(w, create), RemoveForce(name), a.remove)))
  }

  /** The create landed, its key installer failed, and so did the `rm -f` that should undo it. */
  predicate Orphans(keys: bool, a: CreateAnswers) {
    a.create.Ok? && keys && a.exec.Failed? && a.remove.Failed?
  }

  function CreateOutcome(keys: bool, a: CreateAnswers): Outcome {
    if a.create.Failed? then a.create
    else if keys && a.exec.Failed? then a.exec
    else Ok
  }

  function CreateCommands(name: string, volumes: seq<string>, keys: bool, a: CreateAnswers): seq<Command> {
    if a.create.Failed? || !keys then [Create(name, volumes)]
    else if a.exec.Ok? then [Create(name, volumes), Exec(name)]
    else [Create(name, volumes), Exec(name), RemoveForce(name)]
  }

  /** The world after a Create: the new sandbox if it succeeded or was orphaned, else what was there. */
  function CreateWorld(w: World, name: string, volumes: seq<string>, keys: bool, a: CreateAnswers): World {
    if CreateOutcome(keys, a).Ok? || Orphans(keys, a) then w[name := Sandbox(true, volumes)] else w
  }

  class Client {
    const host: Host
    var locked: bool // the mutex

    constructor (host: Host)
      ensures this.host == host && !locked
    {
      this.host := host;
      locked := false;
    }

    /** The first command: the options as a command line, from which `msb` makes the sandbox they describe. */
    method LaunchFrom(opts: A.CreateOpts, answer: Outcome)
      requires A.Readable(opts, host.at)
      requires MayAnswer(host.sandboxes, Command.Create(opts.name, Mounted(opts.volume)), answer)
      modifies host`sandboxes, host`commands
      ensures var create := Command.Create(opts.name, Mounted(opts.volume));
              && host.sandboxes == After(old(host.sandboxes), create, answer)
              && host.commands == old(host.commands) + [create]
    {
      var args := A.BuildCreateArgs(opts);
      A.ArgsRoundTrip(opts, host.at);
      host.Launch(args, answer);
    }

    /** Options the spec layer let through, as a command line and, with keys, the commands after it. */
    method Create(opts: A.CreateOpts, a: CreateAnswers) returns (o: Outcome)
      requires !locked && A.Readable(opts, host.at)
      requires PossibleAnswers(host.sandboxes, opts.name, Mounted(opts.volume), opts.sshKeys != [], a)
      modifies this`locked, host`sandboxes, host`commands
      ensures !locked
      ensures o == CreateOutcome(opts.sshKeys != [], a)
      ensures host.sandboxes
              == CreateWorld(old(host.sandboxes), opts.name, Mounted(opts.volume), opts.sshKeys != [], a)
      ensures host.commands
              == old(host.commands) + CreateCommands(opts.name, Mounted(opts.volume), opts.sshKeys != [], a)
    {
      locked := true;
      LaunchFrom(opts, a.create);
      if a.create.Failed? {
        locked := false;
        return a.create;
      }
      if |opts.sshKeys| > 0 {
        host.Run(Exec(opts.name), a.exec);
        if a.exec.Failed? {
          host.Run(RemoveForce(opts.name), a.remove);
          locked := false;
          assert a.remove.Ok? ==> host.sandboxes == old(host.sandboxes);
          return a.exec;
        }
      }
      locked := false;
      o := Ok;
    }

    /** Start, Stop and Rm: one command under the mutex. */
    method Simple(c: Command, answer: Outcome) returns (o: Outcome)
      requires c.Start? || c.Stop? || c.Remove?
      requires !locked && MayAnswer(host.sandboxes, c, answer)
      modifies this`locked, host`sandboxes, host`commands
      ensures !locked && o == answer
      ensures host.sandboxes == After(old(host.sandboxes), c, answer)
      ensures host.commands == old(host.commands) + [c]
    {
      locked := true;
      host.Run(c, answer);
      locked := false;
      o := answer;
    }

    method VolumeCreate(name: string, size: string, quotaMiB: int, answer: Outcome) returns (o: Outcome)
      requires !locked && (answer.Ok? ==> name !in host.volumes)
      modifies this`locked, host`volumes, host`commands
      ensures !locked && o == answer
      ensures host.volumes == if o.Ok? then old(host.volumes)[name := quotaMiB] else old(host.volumes)
      ensures host.commands == old(host.commands) + [Command.CreateVolume(name, size)]
    {
      locked := true;
      host.CreateVolume(name, size, quotaMiB, answer);
      locked := false;
      o := answer;
    }

    method VolumeRm(name: string, answer: Outcome) returns (o: Outcome)
      requires !locked && (answer.Ok? ==> name in host.volumes)
      modifies this`locked, host`volumes, host`commands
      ensures !locked && o == answer
      ensures host.volumes == if o.Ok? then old(host.volumes) - {name} else old(host.volumes)
      ensures host.commands == old(host.commands) + [Command.RemoveVolume(name)]
    {
      locked := true;
      host.RemoveVolume(name, answer);
      locked := false;
      o := answer;
    }
  }

  /** The installer runs exactly after a create that landed with keys, and `rm -f` exactly after an installer that failed. */
  lemma CreateCommandsExactly(name: string, volumes: seq<string>, keys: bool, a: CreateAnswers)
    ensures var cs := CreateCommands(name, volumes, keys, a);
            && 1 <= |cs| <= 3 && cs[0] == Create(name, volumes)
            && (|cs| >= 2 <==> a.create.Ok? && keys)
            && (|cs| >= 2 ==> cs[1] == Exec(name))
            && (|cs| == 3 <==> a.create.Ok? && keys && a.exec.Failed?)
            && (|cs| == 3 ==> cs[2] == RemoveForce(name))
  {
  }

  /** A failing Create leaves the world as it was, exactly unless its rollback failed too. */
  lemma CreateIsAllOrNothingExactly(w: World, name: string, volumes: seq<string>, keys: bool, a: CreateAnswers)
    requires PossibleAnswers(w, name, volumes, keys, a) && CreateOutcome(keys, a).Failed?
    ensures CreateWorld(w, name, volumes, keys, a) == w <==> !Orphans(keys, a)
  {
    if Orphans(keys, a) {
      assert name in CreateWorld(w, name, volumes, keys, a) && name !in w;
    }
  }

  /** Create never touches, let alone removes, a sandbox that was there before the call. */
  lemma CreateKeepsExisting(w: World, name: string, volumes: seq<string>, keys: bool, a: CreateAnswers, other: string)
    requires PossibleAnswers(w, name, volumes, keys, a) && other in w
    ensures other in CreateWorld(w, name, volumes, keys, a)
    ensures CreateWorld(w, name, volumes, keys, a)[other] == w[other]
    ensures RemoveForce(other) in CreateCommands(name, volumes, keys, a) ==> CreateWorld(w, name, volumes, keys, a) == w
  {
    if a.create.Ok? {
      assert name !in w;
    }
  }
}
