/** `CloudifyInstaller.execute` from the point where the requirement files
    are resolved: the choice between one online install and an offline
    install from local wheels, and what happens when the offline one fails. */
module Installer {
  import opened Outcomes
  import Strings
  import Paths
  import Pip
  import Requirements

  /** The installer's settings that reach the install step; `""` and `None`
      stand for the falsy defaults. */
  datatype Config = Config(
    upgrade: bool,
    virtualenv: string,
    version: string,
    pre: bool,
    source: string,
    withRequirements: Option<seq<string>>,
    forceOnline: bool,
    wheelsPath: string)

  const DefaultModule: string := "cloudify"

  /** What gets installed: the source when one is given, else `cloudify`. */
  function TargetModule(cfg: Config): (m: string)
    ensures cfg.source != "" ==> m == cfg.source
    ensures cfg.source == "" ==> m == DefaultModule
  {
    if cfg.source != "" then cfg.source else DefaultModule
  }

  /** The requirement files handed to pip: none unless asked for; the given
      list when it is non-empty; the default files of the source when the
      flag came without values. */
  function RequirementFiles(p: Paths.Platform, cfg: Config, fs: Requirements.FileSystem): (r: Result<seq<string>, Outcome>)
    ensures cfg.withRequirements.None? ==> r == Success([])
    ensures cfg.withRequirements.Some? && cfg.withRequirements.value != [] ==> r == Success(cfg.withRequirements.value)
    ensures cfg.withRequirements == Some([]) ==> r == Requirements.DefaultRequirementFiles(p, cfg.source, fs)
    ensures r.Failure? ==> !r.error.Ok?
  {
    match cfg.withRequirements
    case None => Success([])
    case Some(files) =>
      if files != [] then Success(files) else Requirements.DefaultRequirementFiles(p, cfg.source, fs)
  }

  /** The online call: the configured version and `pre`, no wheels path. */
  function OnlineRequest(cfg: Config, files: seq<string>): Pip.InstallRequest
  {
    Pip.InstallRequest(TargetModule(cfg), cfg.version, cfg.pre, cfg.virtualenv, "", files, cfg.upgrade)
  }

  /** The offline call: always `pre`, never a version pin, the wheels path. */
  function OfflineRequest(cfg: Config, files: seq<string>): Pip.InstallRequest
  {
    Pip.InstallRequest(TargetModule(cfg), "", true, cfg.virtualenv, cfg.wheelsPath, files, cfg.upgrade)
  }

  /** The `install_module` calls made, in order, and how the last one ended. */
  datatype Execution = Execution(calls: seq<Pip.InstallRequest>, outcome: Outcome)

  /** Whether the offline attempt is made (the wheels directory exists and
      online mode is not forced). */
  predicate UsesWheels(cfg: Config, fs: Requirements.FileSystem)
  {
    !cfg.forceOnline && fs.isDir(cfg.wheelsPath)
  }

  /** Every call in the trace installs the same module with the same
      requirement files, virtualenv and upgrade flag. */
  predicate SameTarget(calls: seq<Pip.InstallRequest>, cfg: Config, files: seq<string>)
  {
    forall i :: 0 <= i < |calls| ==>
      && calls[i].name == TargetModule(cfg)
      && calls[i].requirementFiles == files
      && calls[i].virtualenv == cfg.virtualenv
      && calls[i].upgrade == cfg.upgrade
  }

  /** The install decision as written: the online call is the fallback only
      when the offline call raises an ordinary exception; a `sys.exit` from
      a failed offline pip run ends the program. */
  function Decide(cfg: Config, fs: Requirements.FileSystem, files: seq<string>,
                  attempt: Pip.InstallRequest -> Outcome): (e: Execution)
    ensures 1 <= |e.calls| <= 2
    ensures e.outcome == attempt(e.calls[|e.calls| - 1])
    ensures SameTarget(e.calls, cfg, files)
    ensures !UsesWheels(cfg, fs) ==> |e.calls| == 1
    ensures UsesWheels(cfg, fs) ==>
              e.calls[0].pre && e.calls[0].version == "" && e.calls[0].wheelsPath == cfg.wheelsPath
    ensures |e.calls| == 2 <==> UsesWheels(cfg, fs) && attempt(e.calls[0]).Raised?
    ensures (|e.calls| == 2 || !UsesWheels(cfg, fs)) ==>
              var last := e.calls[|e.calls| - 1];
              last.version == cfg.version && last.pre == cfg.pre && last.wheelsPath == ""
  {
    if !UsesWheels(cfg, fs) then
      var online := OnlineRequest(cfg, files);
      Execution([online], attempt(online))
    else
      var offline := OfflineRequest(cfg, files);
      match attempt(offline)
      case Raised(_) =>
        var online := OnlineRequest(cfg, files);
        Execution([offline, online], attempt(online))
      case other => Execution([offline], other)
  }

  /** Lines 379-409: resolve the requirement files, then decide. */
  function Execute(p: Paths.Platform, cfg: Config, fs: Requirements.FileSystem,
                   attempt: Pip.InstallRequest -> Outcome): (e: Execution)
    ensures RequirementFiles(p, cfg, fs).Failure? ==>
              e == Execution([], RequirementFiles(p, cfg, fs).error)
    ensures RequirementFiles(p, cfg, fs).Success? ==>
              e == Decide(cfg, fs, RequirementFiles(p, cfg, fs).value, attempt)
  {
    match RequirementFiles(p, cfg, fs)
    case Failure(err) => Execution([], err)
    case Success(files) => Decide(cfg, fs, files, attempt)
  }

  /** The install decision the docstring of `execute` describes: any
      failure of the offline attempt, a failed pip run included, falls back
      to one online attempt. */
  function DecideIntended(cfg: Config, fs: Requirements.FileSystem, files: seq<string>,
                          attempt: Pip.InstallRequest -> Outcome): (e: Execution)
    ensures 1 <= |e.calls| <= 2
    ensures e.outcome == attempt(e.calls[|e.calls| - 1])
    ensures SameTarget(e.calls, cfg, files)
    ensures |e.calls| == 2 <==> UsesWheels(cfg, fs) && !attempt(e.calls[0]).Ok?
    ensures e.outcome.Ok? || e.calls[|e.calls| - 1] == OnlineRequest(cfg, files)
  {
    if !UsesWheels(cfg, fs) then
      var online := OnlineRequest(cfg, files);
      Execution([online], attempt(online))
    else
      var offline := OfflineRequest(cfg, files);
      match attempt(offline)
      case Ok => Execution([offline], Ok)
      case _ =>
        var online := OnlineRequest(cfg, files);
        Execution([offline, online], attempt(online))
  }

  function ExecuteIntended(p: Paths.Platform, cfg: Config, fs: Requirements.FileSystem,
                           attempt: Pip.InstallRequest -> Outcome): (e: Execution)
    ensures RequirementFiles(p, cfg, fs).Failure? ==>
              e == Execution([], RequirementFiles(p, cfg, fs).error)
    ensures RequirementFiles(p, cfg, fs).Success? ==>
              e == DecideIntended(cfg, fs, RequirementFiles(p, cfg, fs).value, attempt)
  {
    match RequirementFiles(p, cfg, fs)
    case Failure(err) => Execution([], err)
    case Success(files) => DecideIntended(cfg, fs, files, attempt)
  }

  /** The two decisions differ only when the offline attempt ends with
      `sys.exit`. */
  lemma DecisionsAgreeUnlessOfflineExits(cfg: Config, fs: Requirements.FileSystem, files: seq<string>,
                                         attempt: Pip.InstallRequest -> Outcome)
    ensures Decide(cfg, fs, files, attempt) == DecideIntended(cfg, fs, files, attempt)
            <==> !(UsesWheels(cfg, fs) && attempt(OfflineRequest(cfg, files)).Exit?)
  {
    if UsesWheels(cfg, fs) && attempt(OfflineRequest(cfg, files)).Exit? {
      assert |Decide(cfg, fs, files, attempt).calls| == 1;
      assert |DecideIntended(cfg, fs, files, attempt).calls| == 2;
    }
  }

  /** The installer with `install_module` for `attempt`. */
  function InstallRun(p: Paths.Platform, cfg: Config, fs: Requirements.FileSystem,
                      env: Pip.PipEnv, run: string -> Pip.RunResult): Execution
  {
    Execute(p, cfg, fs, req => Pip.InstallModule(req, env, run))
  }

  function InstallRunIntended(p: Paths.Platform, cfg: Config, fs: Requirements.FileSystem,
                              env: Pip.PipEnv, run: string -> Pip.RunResult): Execution
  {
    ExecuteIntended(p, cfg, fs, req => Pip.InstallModule(req, env, run))
  }

  /** With no wheels directory (or online mode forced), exactly one pip
      command runs: the online one. */
  lemma OnlineOnlyWithoutWheels(p: Paths.Platform, cfg: Config, fs: Requirements.FileSystem,
                                env: Pip.PipEnv, run: string -> Pip.RunResult)
    requires RequirementFiles(p, cfg, fs).Success?
    requires !UsesWheels(cfg, fs)
    ensures var files := RequirementFiles(p, cfg, fs).value;
            var e := InstallRun(p, cfg, fs, env, run);
            e.calls == [OnlineRequest(cfg, files)]
            && e.outcome == Pip.InstallModule(OnlineRequest(cfg, files), env, run)
  {
  }

  /** A successful offline pip run is the only command. */
  lemma OfflineSuccessIsFinal(p: Paths.Platform, cfg: Config, fs: Requirements.FileSystem,
                              env: Pip.PipEnv, run: string -> Pip.RunResult)
    requires RequirementFiles(p, cfg, fs).Success?
    requires UsesWheels(cfg, fs)
    requires run(Pip.CommandLine(OfflineRequest(cfg, RequirementFiles(p, cfg, fs).value), env)) == Pip.Exited(0)
    ensures var e := InstallRun(p, cfg, fs, env, run);
            |e.calls| == 1 && e.outcome == Ok
  {
  }

  /** As written, a failed offline pip run ends the program at once with the
      offline module's exit message: no online install is attempted. */
  lemma OfflinePipFailureEndsProgram(p: Paths.Platform, cfg: Config, fs: Requirements.FileSystem,
                                     env: Pip.PipEnv, run: string -> Pip.RunResult, code: int)
    requires RequirementFiles(p, cfg, fs).Success?
    requires UsesWheels(cfg, fs)
    requires code != 0
    requires run(Pip.CommandLine(OfflineRequest(cfg, RequirementFiles(p, cfg, fs).value), env)) == Pip.Exited(code)
    ensures var e := InstallRun(p, cfg, fs, env, run);
            && e.calls == [OfflineRequest(cfg, RequirementFiles(p, cfg, fs).value)]
            && e.outcome == Exit(Text(Pip.FailurePrefix + TargetModule(cfg) + "."))
  {
  }

  /** As written, an exception from the offline call (not a pip failure)
      leads to exactly one online call, whose outcome is final. */
  lemma OfflineExceptionFallsBack(p: Paths.Platform, cfg: Config, fs: Requirements.FileSystem,
                                  env: Pip.PipEnv, run: string -> Pip.RunResult, error: string)
    requires RequirementFiles(p, cfg, fs).Success?
    requires UsesWheels(cfg, fs)
    requires run(Pip.CommandLine(OfflineRequest(cfg, RequirementFiles(p, cfg, fs).value), env)) == Pip.Threw(error)
    ensures var files := RequirementFiles(p, cfg, fs).value;
            var e := InstallRun(p, cfg, fs, env, run);
            && e.calls == [OfflineRequest(cfg, files), OnlineRequest(cfg, files)]
            && e.outcome == Pip.InstallModule(OnlineRequest(cfg, files), env, run)
  {
  }

  /** Intended behaviour: a failed offline pip run is followed by exactly one
      online run, and a successful online run ends in success. */
  lemma IntendedFallbackAfterPipFailure(p: Paths.Platform, cfg: Config, fs: Requirements.FileSystem,
                                        env: Pip.PipEnv, run: string -> Pip.RunResult, code: int)
    requires RequirementFiles(p, cfg, fs).Success?
    requires UsesWheels(cfg, fs)
    requires code != 0
    requires run(Pip.CommandLine(OfflineRequest(cfg, RequirementFiles(p, cfg, fs).value), env)) == Pip.Exited(code)
    ensures var files := RequirementFiles(p, cfg, fs).value;
            var e := InstallRunIntended(p, cfg, fs, env, run);
            && e.calls == [OfflineRequest(cfg, files), OnlineRequest(cfg, files)]
            && (run(Pip.CommandLine(OnlineRequest(cfg, files), env)) == Pip.Exited(0) ==> e.outcome == Ok)
  {
  }

  /** Intended behaviour: when both pip runs fail, the program exits with a
      message naming the module, with its version pin when one is set. */
  lemma IntendedFatalNamesModule(p: Paths.Platform, cfg: Config, fs: Requirements.FileSystem,
                                 env: Pip.PipEnv, run: string -> Pip.RunResult, c1: int, c2: int)
    requires RequirementFiles(p, cfg, fs).Success?
    requires UsesWheels(cfg, fs)
    requires c1 != 0 && c2 != 0
    requires var files := RequirementFiles(p, cfg, fs).value;
             && run(Pip.CommandLine(OfflineRequest(cfg, files), env)) == Pip.Exited(c1)
             && run(Pip.CommandLine(OnlineRequest(cfg, files), env)) == Pip.Exited(c2)
    ensures var e := InstallRunIntended(p, cfg, fs, env, run);
            var spec := if cfg.version != "" then TargetModule(cfg) + "==" + cfg.version else TargetModule(cfg);
            && |e.calls| == 2
            && e.outcome == Exit(Text(Pip.FailurePrefix + spec + "."))
  {
  }

  /** The command printed for activating the virtualenv: `<bin>/activate.bat`
      on Windows, `source <bin>/activate` elsewhere. */
  const ActivateScript: string := "activate"
  const BatchSuffix: string := ".bat"
  const SourcePrefix: string := "source "

  function ActivateCommand(p: Paths.Platform, binPath: string): (cmd: string)
    ensures p == Paths.Windows ==>
              var n := |binPath| + |ActivateScript| + |BatchSuffix|;
              && Strings.StartsWith(cmd, binPath) && Strings.EndsWith(cmd, ActivateScript + BatchSuffix)
              && (|cmd| == n <==> binPath == "" || Paths.IsSeparator(p, binPath[|binPath| - 1]))
              && (|cmd| != n ==> |cmd| == n + 1 && cmd[|binPath|] == Paths.Separator(p))
    ensures p != Paths.Windows ==>
              var n := |SourcePrefix| + |binPath| + |ActivateScript|;
              && Strings.StartsWith(cmd, SourcePrefix + binPath) && Strings.EndsWith(cmd, ActivateScript)
              && (|cmd| == n <==> binPath == "" || Paths.IsSeparator(p, binPath[|binPath| - 1]))
              && (|cmd| != n ==> |cmd| == n + 1 && cmd[|SourcePrefix| + |binPath|] == Paths.Separator(p))
  {
    var path := Paths.Join(p, binPath, ActivateScript);
    if p == Paths.Windows then
      Strings.AppendKeepsPrefix(path, binPath, BatchSuffix);
      Strings.AppendExtendsSuffix(path, ActivateScript, BatchSuffix);
      path + BatchSuffix
    else
      Strings.PrependToBoth(SourcePrefix, path, binPath, ActivateScript);
      SourcePrefix + path
  }

  /** Outside Windows the printed command sources the file named `activate`
      in the bin directory: what follows `source ` has base name `activate`
      and starts with the bin path. */
  lemma ActivateSourcesScript(p: Paths.Platform, binPath: string)
    requires p != Paths.Windows
    ensures var cmd := ActivateCommand(p, binPath);
            && Strings.StartsWith(cmd, SourcePrefix)
            && Paths.Basename(cmd[|SourcePrefix|..]) == ActivateScript
            && Strings.StartsWith(cmd[|SourcePrefix|..], binPath)
  {
    var path := Paths.Join(p, binPath, ActivateScript);
    assert ActivateCommand(p, binPath) == SourcePrefix + path;
    Paths.JoinOutsideWindows(p, binPath, ActivateScript);
    assert (SourcePrefix + path)[|SourcePrefix|..] == path;
    Paths.JoinBasename(binPath, ActivateScript);
  }

  /** What `install_pythondev` does for a distribution. */
  datatype PythonDevStep = RunCommand(command: string) | NotRequired | Unsupported(arg: ExitArg)

  const DebianFamily: set<string> := {"ubuntu", "debian"}
  const RedHatFamily: set<string> := {"centos", "redhat", "fedora"}
  const PythonDevUnsupported: string := "python-dev package installation not supported in current distribution."

  function PythonDev(distro: string, archRelease: bool, p: Paths.Platform): (step: PythonDevStep)
    ensures step.RunCommand? <==> distro in DebianFamily || distro in RedHatFamily || archRelease
    ensures distro in DebianFamily ==> step == RunCommand("apt-get install -y gcc python-dev")
    ensures distro !in DebianFamily && distro in RedHatFamily ==> step == RunCommand("yum -y install gcc python-devel")
    ensures distro !in DebianFamily && distro !in RedHatFamily && archRelease ==> step == RunCommand("pacman -S gcc --noconfirm")
    ensures step.NotRequired? <==> !step.RunCommand? && p == Paths.Darwin
    ensures step.Unsupported? ==> step.arg == Text(PythonDevUnsupported)
  {
    if distro in DebianFamily then RunCommand("apt-get install -y gcc python-dev")
    else if distro in RedHatFamily then RunCommand("yum -y install gcc python-devel")
    else if archRelease then RunCommand("pacman -S gcc --noconfirm")
    else if p == Paths.Darwin then NotRequired
    else Unsupported(Text(PythonDevUnsupported))
  }

  /** A distribution of a known family gets that family's command whatever
      the platform and whether `/etc/arch-release` exists. */
  lemma PythonDevByFamily(d1: string, d2: string, arch1: bool, arch2: bool, p1: Paths.Platform, p2: Paths.Platform)
    requires (d1 in DebianFamily && d2 in DebianFamily) || (d1 in RedHatFamily && d2 in RedHatFamily)
    ensures PythonDev(d1, arch1, p1) == PythonDev(d2, arch2, p2)
    ensures PythonDev(d1, arch1, p1).RunCommand?
  {
  }

  /** For any other distribution the step depends only on whether
      `/etc/arch-release` exists and on the platform. */
  lemma PythonDevOtherDistributions(d1: string, d2: string, arch: bool, p: Paths.Platform)
    requires d1 !in DebianFamily && d1 !in RedHatFamily
    requires d2 !in DebianFamily && d2 !in RedHatFamily
    ensures PythonDev(d1, arch, p) == PythonDev(d2, arch, p)
    ensures PythonDev(d1, arch, p).Unsupported? <==> !arch && p != Paths.Darwin
  {
  }
}
