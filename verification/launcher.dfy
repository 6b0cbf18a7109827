/** `main`: from the parsed command line to the program that replaces the
    launcher.

    The launcher looks the command up on the search path, assembles the
    sandbox configuration (optionally granting read-execute access to the
    binary itself and to everything `ldd` reports it needs), resolves the
    `--env` flags, restricts itself with Landlock and only then executes the
    binary. Everything the operating system answers is a field of `Host`;
    `Launch` records the steps it takes as a sequence of events, so that the
    order of those steps can be stated and proved. */
module Launcher {
  import opened Base
  import opened Paths
  import opened Access
  import opened Utf8
  import opened Sandbox
  import opened Environment
  import opened Exec

  /** The parsed command line, less the logging level. */
  datatype Cli = Cli(
    readOnly: seq<Path>,
    readExec: seq<Path>,
    readWrite: seq<Path>,
    readWriteExec: seq<Path>,
    bindTcp: seq<Port>,
    connectTcp: seq<Port>,
    bestEffort: bool,
    envVars: seq<string>,
    unrestrictedFs: bool,
    unrestrictedNet: bool,
    addExec: bool,
    ldd: bool,
    command: seq<string>)

  /** The operating system as the launcher sees it: the environment, `which`,
      the `ldd` run for a binary, `Path::exists`, the filesystem and Landlock
      as `apply` sees them, and whether `execvpe` replaces the process. */
  datatype Host = Host(
    env: Env,
    which: string -> Option<Path>,
    ldd: Path -> LddRun,
    exists_: Path -> bool,
    fs: FileSystem,
    landlock: Landlock,
    execOk: bool)

  /** The steps of a launch that reach the operating system. */
  datatype Event =
    | Lookup(command: string)
    | ListDependencies(binary: Path)
    | ReadVar(key: string)
    | Sandboxing(call: Call)
    | RunCommand(binary: Path, args: seq<string>, envVars: seq<string>)

  /** Where a launch that exits gave up. */
  datatype Stage =
    | MissingCommand
    | BinaryNotFound
    | DependenciesFailed(lddError: LddError)
    | ApplyFailed(applyError: ApplyError)
    | RunFailed(runError: RunError)

  /** Either the process is replaced by the sandboxed program, or the
      launcher exits with a status code. */
  datatype Exit =
    | Replaced(image: Image, enforcement: Enforcement)
    | Exited(code: int, stage: Stage)

  datatype Launched = Launched(events: seq<Event>, exit: Exit)

  /** Lines 130-147: the sandbox configuration is the command line's grants
      and flags, with the resolved binary appended to the read-execute paths
      under `--add-exec`, and then (lines 150-157) each discovered library
      path appended in order. */
  function Assemble(cli: Cli, binary: Path, deps: seq<Path>): (c: Config)
    ensures c.readOnly == cli.readOnly && c.readWrite == cli.readWrite && c.readWriteExec == cli.readWriteExec
    ensures c.bindTcp == cli.bindTcp && c.connectTcp == cli.connectTcp
    ensures c.bestEffort == cli.bestEffort
    ensures c.unrestrictedFs == cli.unrestrictedFs && c.unrestrictedNet == cli.unrestrictedNet
    ensures |c.readExec| == |cli.readExec| + (if cli.addExec then 1 else 0) + |deps|
    ensures c.readExec[..|cli.readExec|] == cli.readExec
    ensures cli.addExec ==> c.readExec[|cli.readExec|] == binary
    ensures c.readExec[|c.readExec| - |deps|..] == deps
    ensures forall p :: p in c.readExec <==> p in cli.readExec || (cli.addExec && p == binary) || p in deps
  {
    var copied := NewConfig().(
      readOnly := cli.readOnly, readWrite := cli.readWrite,
      readExec := cli.readExec, readWriteExec := cli.readWriteExec,
      bindTcp := cli.bindTcp, connectTcp := cli.connectTcp,
      bestEffort := cli.bestEffort,
      unrestrictedFs := cli.unrestrictedFs, unrestrictedNet := cli.unrestrictedNet);
    var withBinary := if cli.addExec then copied.(readExec := copied.readExec + [binary]) else copied;
    withBinary.(readExec := withBinary.readExec + deps)
  }

  /** Lines 150-163: the library paths `ldd` reports, or none without `--ldd`. */
  function Dependencies(cli: Cli, host: Host, binary: Path): (r: Result<seq<Path>, LddError>)
    ensures !cli.ldd ==> r == Ok([])
    ensures cli.ldd ==> r == GetLibraryDependencies(host.ldd(binary), host.exists_)
  {
    if cli.ldd then GetLibraryDependencies(host.ldd(binary), host.exists_) else Ok([])
  }

  /** The `env::var` calls `process_environment_vars` makes: one per flag
      without a value, in order. */
  function EnvReads(flags: seq<string>): (r: seq<Event>)
    ensures |r| <= |flags|
    ensures forall i :: 0 <= i < |r| ==> r[i].ReadVar? && r[i].key in flags && !HasValue(r[i].key)
  {
    if flags == [] then []
    else (if HasValue(flags[0]) then [] else [ReadVar(flags[0])]) + EnvReads(flags[1..])
  }

  /** The Landlock calls of `apply`, as events. */
  function Sandboxings(calls: seq<Call>): (r: seq<Event>)
    ensures |r| == |calls|
    ensures forall i :: 0 <= i < |r| ==> r[i] == Sandboxing(calls[i])
  {
    if calls == [] then [] else [Sandboxing(calls[0])] + Sandboxings(calls[1..])
  }

  /** Lines 175-178: `exec::run` either replaces the process or ends the
      launch with status 1. */
  function RunStep(binary: Path, args: seq<string>, envVars: seq<string>, execOk: bool,
                   enforcement: Enforcement): (x: Exit)
    ensures x.Exited? ==> x.code == 1 && x.stage.RunFailed?
  {
    match ExecImage(binary, args, envVars, execOk)
    case Err(e) => Exited(1, RunFailed(e))
    case Ok(image) => Replaced(image, enforcement)
  }

  /** Lines 166-178, once the configuration is assembled: resolve the
      environment flags, apply the sandbox, and run the binary only if that
      succeeded. A failure of either ends the launch with status 1. */
  function Sandboxed(config: Config, binary: Path, args: seq<string>, flags: seq<string>,
                     host: Host, before: seq<Event>): (r: Launched)
    ensures r.exit.Exited? ==> r.exit.code == 1
    ensures |before| <= |r.events| && r.events[..|before|] == before
  {
    var applied := Apply(config, host.fs, host.landlock);
    var applying := before + EnvReads(flags) + Sandboxings(applied.calls);
    match applied.outcome
    case Err(e) => Launched(applying, Exited(1, ApplyFailed(e)))
    case Ok(enforcement) =>
      var envVars := ProcessEnvironmentVars(flags, host.env);
      Launched(applying + [RunCommand(binary, args, envVars)],
               RunStep(binary, args, envVars, host.execOk, enforcement))
  }

  /** The steps before the environment is read: looking the command up, and
      running `ldd` when asked to. */
  function Prelude(cli: Cli, binary: Path): (r: seq<Event>)
    requires cli.command != []
    ensures 1 <= |r| <= 2 && r[0] == Lookup(cli.command[0])
    ensures forall k :: 0 <= k < |r| ==> r[k].Lookup? || r[k].ListDependencies?
  {
    [Lookup(cli.command[0])] + (if cli.ldd then [ListDependencies(binary)] else [])
  }

  /** `main` from line 110 on. The program run is the binary `which` finds
      for the first word of the command, with the remaining words as its
      arguments; the resolved path, not the word typed, becomes `argv[0]`. */
  function Launch(cli: Cli, host: Host): (r: Launched)
    ensures r.exit.Exited? ==> r.exit.code == 1
    ensures cli.command == [] <==> r.events == []
    ensures cli.command != [] ==> r.events[0] == Lookup(cli.command[0])
  {
    if cli.command == [] then Launched([], Exited(1, MissingCommand))
    else
      var command := cli.command[0];
      var args := cli.command[1..];
      match host.which(command)
      case None => Launched([Lookup(command)], Exited(1, BinaryNotFound))
      case Some(binary) =>
        match Dependencies(cli, host, binary)
        case Err(e) => Launched(Prelude(cli, binary), Exited(1, DependenciesFailed(e)))
        case Ok(deps) => Sandboxed(Assemble(cli, binary, deps), binary, args, cli.envVars, host, Prelude(cli, binary))
  }

  // ---------------------------------------------------------------------
  // Properties of a launch

  /** The configuration `apply` receives once the binary is found and its
      dependencies listed. */
  function ConfigFor(cli: Cli, host: Host, binary: Path): Option<Config> {
    match Dependencies(cli, host, binary)
    case Err(_) => None
    case Ok(deps) => Some(Assemble(cli, binary, deps))
  }

  /** Once the binary is found and its dependencies listed, the launch is
      the sandboxing step with the assembled configuration. */
  lemma LaunchIsSandboxed(cli: Cli, host: Host)
    requires cli.command != [] && host.which(cli.command[0]).Some?
    requires ConfigFor(cli, host, host.which(cli.command[0]).value).Some?
    ensures var binary := host.which(cli.command[0]).value;
      Launch(cli, host) ==
        Sandboxed(ConfigFor(cli, host, binary).value, binary, cli.command[1..], cli.envVars, host, Prelude(cli, binary))
  {
  }

  /** The events of the sandboxing step: what came before, the environment
      reads, the Landlock calls, and the run of the binary if `apply`
      succeeded. */
  lemma SandboxedEvents(config: Config, binary: Path, args: seq<string>, flags: seq<string>,
                        host: Host, before: seq<Event>)
    ensures var applied := Apply(config, host.fs, host.landlock);
      var r := Sandboxed(config, binary, args, flags, host, before);
      var applying := before + EnvReads(flags) + Sandboxings(applied.calls);
      && (applied.outcome.Err? ==> r.events == applying)
      && (applied.outcome.Ok? ==>
            r.events == applying + [RunCommand(binary, args, ProcessEnvironmentVars(flags, host.env))])
  {
  }

  /** Before `exec::run`, no event runs the binary. */
  lemma NoRunBeforeExec(before: seq<Event>, flags: seq<string>, calls: seq<Call>)
    requires forall k :: 0 <= k < |before| ==> !before[k].RunCommand?
    ensures var events := before + EnvReads(flags) + Sandboxings(calls);
      forall k :: 0 <= k < |events| ==> !events[k].RunCommand?
  {
    var envReads := EnvReads(flags);
    var events := before + envReads + Sandboxings(calls);
    forall k | 0 <= k < |events|
      ensures !events[k].RunCommand?
    {
      if k < |before| {
        assert events[k] == before[k];
      } else if k < |before| + |envReads| {
        assert events[k] == envReads[k - |before|];
      } else {
        assert events[k] == Sandboxings(calls)[k - |before| - |envReads|];
      }
    }
  }

  /** Within the sandboxing step, the binary is run only as the last event,
      right after `restrict_self`, and only if `apply` succeeded. */
  lemma SandboxedRunsLast(config: Config, binary: Path, args: seq<string>, flags: seq<string>,
                          host: Host, before: seq<Event>, i: nat)
    requires forall k :: 0 <= k < |before| ==> !before[k].RunCommand?
    requires i < |Sandboxed(config, binary, args, flags, host, before).events|
    requires Sandboxed(config, binary, args, flags, host, before).events[i].RunCommand?
    ensures Apply(config, host.fs, host.landlock).outcome.Ok?
    ensures i == |Sandboxed(config, binary, args, flags, host, before).events| - 1
    ensures 1 <= i && Sandboxed(config, binary, args, flags, host, before).events[i - 1] == Sandboxing(RestrictSelf)
  {
    var events := Sandboxed(config, binary, args, flags, host, before).events;
    var applied := Apply(config, host.fs, host.landlock);
    var calls := Sandboxings(applied.calls);
    var applying := before + EnvReads(flags) + calls;
    SandboxedEvents(config, binary, args, flags, host, before);
    NoRunBeforeExec(before, flags, applied.calls);
    assert applied.outcome.Ok?;
    assert i == |applying|;
    RestrictSelfAfterSuccess(config, host.fs, host.landlock);
    assert events[i - 1] == calls[|calls| - 1];
  }

  /** A successful `apply` made at least one call, the last being `restrict_self`. */
  lemma RestrictSelfAfterSuccess(c: Config, fs: FileSystem, landlock: Landlock)
    requires Apply(c, fs, landlock).outcome.Ok?
    ensures var calls := Apply(c, fs, landlock).calls;
      calls != [] && calls[|calls| - 1] == RestrictSelf
  {
    ApplyMatchesBuild(c, fs, landlock);
    RestrictSelfLast(c, fs, landlock);
  }

  /** Within the sandboxing step, every environment read precedes every
      Landlock call. */
  lemma SandboxedReadsFirst(config: Config, binary: Path, args: seq<string>, flags: seq<string>,
                            host: Host, before: seq<Event>, i: nat, j: nat)
    requires forall k :: 0 <= k < |before| ==> !before[k].ReadVar? && !before[k].Sandboxing?
    requires i < |Sandboxed(config, binary, args, flags, host, before).events|
    requires j < |Sandboxed(config, binary, args, flags, host, before).events|
    requires Sandboxed(config, binary, args, flags, host, before).events[i].ReadVar?
    requires Sandboxed(config, binary, args, flags, host, before).events[j].Sandboxing?
    ensures i < j
  {
    var events := Sandboxed(config, binary, args, flags, host, before).events;
    var applied := Apply(config, host.fs, host.landlock);
    var envReads := EnvReads(flags);
    var calls := Sandboxings(applied.calls);
    var applying := before + envReads + calls;
    SandboxedEvents(config, binary, args, flags, host, before);
    assert i < |before| + |envReads|;
    assert j >= |before| + |envReads|;
  }

  /** A launch replaces the process exactly when: there is a command, `which`
      finds it, `ldd` (if asked for) succeeds, Landlock creates the ruleset,
      every declared path can be opened, every rule is accepted,
      `restrict_self` reports a status, no string holds a NUL, and `execvpe`
      succeeds. The ruleset enforced is then the one the configuration
      describes. */
  lemma LaunchSucceeds(cli: Cli, host: Host)
    ensures Launch(cli, host).exit.Replaced? <==>
      && cli.command != []
      && host.which(cli.command[0]).Some?
      && var binary := host.which(cli.command[0]).value;
         var args := cli.command[1..];
         && ConfigFor(cli, host, binary).Some?
         && var config := ConfigFor(cli, host, binary).value;
            && host.landlock.createOk && Build(config, host.fs).Ok?
            && AllAccepted(Build(config, host.fs).value.rules, host.landlock.accepts)
            && host.landlock.restrict.Some?
            && '\0' !in binary && NulFree(args)
            && NulFree(ProcessEnvironmentVars(cli.envVars, host.env))
            && host.execOk
    ensures Launch(cli, host).exit.Replaced? ==>
      var binary := host.which(cli.command[0]).value;
      var config := ConfigFor(cli, host, binary).value;
      var e := Launch(cli, host).exit.enforcement;
      Build(config, host.fs) == Ok(e.ruleset) && e.status == host.landlock.restrict.value
  {
    if cli.command != [] && host.which(cli.command[0]).Some? {
      var binary := host.which(cli.command[0]).value;
      if ConfigFor(cli, host, binary).Some? {
        ApplyMatchesBuild(ConfigFor(cli, host, binary).value, host.fs, host.landlock);
      }
    }
  }

  /** When the process is replaced, the program loaded is the resolved
      binary, its argument vector is that path followed by the command's
      remaining words, and its environment is exactly the resolved `--env`
      flags, each as a valid C string. */
  lemma ReplacedImage(cli: Cli, host: Host)
    requires Launch(cli, host).exit.Replaced?
    ensures cli.command != [] && host.which(cli.command[0]).Some?
    ensures var image := Launch(cli, host).exit.image;
      var binary := host.which(cli.command[0]).value;
      var envVars := ProcessEnvironmentVars(cli.envVars, host.env);
      && Decode(image.file) == Some(binary)
      && |image.argv| == |cli.command|
      && image.argv[0] == image.file
      && (forall i :: 1 <= i < |cli.command| ==> Decode(image.argv[i]) == Some(cli.command[i]))
      && |image.envp| == |envVars|
      && (forall i :: 0 <= i < |envVars| ==> Decode(image.envp[i]) == Some(envVars[i]))
  {
    var binary := host.which(cli.command[0]).value;
    var args := cli.command[1..];
    var image := Launch(cli, host).exit.image;
    assert ExecImage(binary, args, ProcessEnvironmentVars(cli.envVars, host.env), host.execOk) == Ok(image);
    forall i | 1 <= i < |cli.command|
      ensures Decode(image.argv[i]) == Some(cli.command[i])
    {
      assert args[i - 1] == cli.command[i];
    }
  }

  /** Lines 169-178: `exec::run` is reached only after `apply` succeeded; it
      is the last step, and the step just before it is `restrict_self`. */
  lemma RunOnlyAfterRestrict(cli: Cli, host: Host, i: nat)
    requires i < |Launch(cli, host).events| && Launch(cli, host).events[i].RunCommand?
    ensures cli.command != [] && host.which(cli.command[0]).Some?
    ensures ConfigFor(cli, host, host.which(cli.command[0]).value).Some?
    ensures Apply(ConfigFor(cli, host, host.which(cli.command[0]).value).value, host.fs, host.landlock).outcome.Ok?
    ensures i == |Launch(cli, host).events| - 1
    ensures 1 <= i && Launch(cli, host).events[i - 1] == Sandboxing(RestrictSelf)
  {
    var binary := host.which(cli.command[0]).value;
    LaunchIsSandboxed(cli, host);
    SandboxedRunsLast(ConfigFor(cli, host, binary).value, binary, cli.command[1..], cli.envVars, host,
                      Prelude(cli, binary), i);
  }

  /** Line 166 before line 169: every `env::var` read happens before the first
      Landlock call. */
  lemma EnvironmentBeforeSandbox(cli: Cli, host: Host, i: nat, j: nat)
    requires i < |Launch(cli, host).events| && j < |Launch(cli, host).events|
    requires Launch(cli, host).events[i].ReadVar? && Launch(cli, host).events[j].Sandboxing?
    ensures i < j
  {
    var binary := host.which(cli.command[0]).value;
    LaunchIsSandboxed(cli, host);
    SandboxedReadsFirst(ConfigFor(cli, host, binary).value, binary, cli.command[1..], cli.envVars, host,
                        Prelude(cli, binary), i, j);
  }

  /** Lines 158-161: when `ldd` fails the launcher exits before any Landlock
      call and without running anything. */
  lemma DependencyFailureStopsEarly(cli: Cli, host: Host)
    requires cli.command != [] && host.which(cli.command[0]).Some?
    requires Dependencies(cli, host, host.which(cli.command[0]).value).Err?
    ensures cli.ldd
    ensures var binary := host.which(cli.command[0]).value;
      Launch(cli, host) ==
        Launched([Lookup(cli.command[0]), ListDependencies(binary)],
                 Exited(1, DependenciesFailed(Dependencies(cli, host, binary).error)))
  {
  }

  /** With `--add-exec`, a successful launch always grants read and execute
      access to the binary it runs (unless the filesystem is left
      unrestricted), and with `--ldd` likewise to every path `ldd` reported. */
  lemma BinaryAndLibrariesGranted(cli: Cli, host: Host)
    requires Launch(cli, host).exit.Replaced? && !cli.unrestrictedFs
    ensures cli.command != [] && host.which(cli.command[0]).Some?
    ensures var binary := host.which(cli.command[0]).value;
      var rules := Launch(cli, host).exit.enforcement.ruleset.rules;
      && (cli.addExec ==> PathBeneath(binary, Grant(ReadExecute, host.fs.isDir(binary))) in rules)
      && (forall d :: d in Dependencies(cli, host, binary).value ==>
            PathBeneath(d, Grant(ReadExecute, host.fs.isDir(d))) in rules)
  {
    LaunchSucceeds(cli, host);
    var binary := host.which(cli.command[0]).value;
    var config := ConfigFor(cli, host, binary).value;
    var rules := Launch(cli, host).exit.enforcement.ruleset.rules;
    LaunchIsSandboxed(cli, host);
    ReadExecuteGranted(config, binary, cli.command[1..], cli.envVars, host, Prelude(cli, binary));
  }

  /** Within the sandboxing step, a successful run enforces a rule granting
      read and execute access to every read-execute path of the configuration. */
  lemma ReadExecuteGranted(config: Config, binary: Path, args: seq<string>, flags: seq<string>,
                           host: Host, before: seq<Event>)
    requires Sandboxed(config, binary, args, flags, host, before).exit.Replaced? && !config.unrestrictedFs
    ensures forall p :: p in config.readExec ==>
      PathBeneath(p, Grant(ReadExecute, host.fs.isDir(p))) in
        Sandboxed(config, binary, args, flags, host, before).exit.enforcement.ruleset.rules
  {
    var applied := Apply(config, host.fs, host.landlock);
    assert applied.outcome.Ok?;
    var rules := applied.outcome.value.ruleset.rules;
    assert Sandboxed(config, binary, args, flags, host, before).exit.enforcement.ruleset.rules == rules;
    RuleOrder(config, host.fs, host.landlock);
    var rx := PathRules(config.readExec, ReadExecute, host.fs.isDir);
    assert rules[..|rx|] == rx;
    forall p | p in config.readExec
      ensures PathBeneath(p, Grant(ReadExecute, host.fs.isDir(p))) in rules
    {
      var k :| 0 <= k < |config.readExec| && config.readExec[k] == p;
      assert rules[k] == rx[k];
    }
  }
}
