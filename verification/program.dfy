/**
 * The run as a whole: the settings record built once from the parsed
 * arguments and the probe results, the checks that end the run with exit
 * code 1, then the setup pipeline.
 */
module Program {
  import opened Wrappers
  import opened CommandLine
  import opened Manifest
  import opened PackageManager
  import opened Platform
  import opened Directory
  import opened Pipeline

  /** The parsed command line. */
  datatype Invocation = Invocation(
    projectName: Option<string>,     // the `<project-directory>` argument
    yes: bool,                       // `-y, --yes`
    lintOverride: Option<string>)    // `-c, --commitlint-config <name>`

  /** What the environment answered: tool probes and the host platform. */
  datatype Probes = Probes(yarn: bool, npm: bool, git: bool, gitIgnoreDotIo: bool, platform: string)

  /** The settings record, built once and read-only afterwards. */
  datatype Settings = Settings(
    projectName: string,
    yes: bool,
    lintConfig: string,
    packageManager: Option<PmCommand>,
    git: Option<Command>,
    gitIgnoreDotIo: Option<Command>)

  /** Why a run ended with exit code 1 before any setup step. */
  datatype Abort =
    | MissingProjectDirectory
    | NoPackageManager
    | NoGit
    | UnsafeDirectory(conflicts: seq<string>)

  /**
   * `Aborted` runs exit with code 1. An installed run's exit code is not
   * modelled: a failing step is only logged.
   */
  datatype RunResult = Aborted(reason: Abort) | Installed(report: Report)

  const GitInit: Command := Command("git", [Text("init")])

  /** The platform argument: the generator's tag, or `undefined` on other platforms. */
  function PlatformArg(platform: string): (a: Arg)
    ensures a == Undefined <==> platform !in KnownPlatforms
    ensures platform in KnownPlatforms ==> a == Text(GitIgnorePlatform(platform).value)
  {
    match GitIgnorePlatform(platform)
    case Some(tag) => Text(tag)
    case None => Undefined
  }

  function GitIgnoreCommand(platform: string): Command {
    Command("gitignore-dot-io", [Text("node"), PlatformArg(platform)])
  }

  /** The settings for a run that has a project name. */
  function MakeSettings(projectName: string, inv: Invocation, probes: Probes): (s: Settings)
    ensures s.packageManager == Resolve(probes.yarn, probes.npm, inv.yes, inv.lintOverride)
    ensures s.git.Some? <==> probes.git
    ensures probes.git ==> s.git == Some(Command("git", [Text("init")]))
    ensures s.gitIgnoreDotIo.Some? <==> probes.gitIgnoreDotIo
    ensures probes.gitIgnoreDotIo ==>
      s.gitIgnoreDotIo == Some(Command("gitignore-dot-io", [Text("node"), PlatformArg(probes.platform)]))
    ensures s.lintConfig == (if inv.lintOverride.Some? then inv.lintOverride.value else DefaultLintConfig)
  {
    Settings(
      projectName,
      inv.yes,
      LintConfig(inv.lintOverride),
      Resolve(probes.yarn, probes.npm, inv.yes, inv.lintOverride),
      if probes.git then Some(GitInit) else None,
      if probes.gitIgnoreDotIo then Some(GitIgnoreCommand(probes.platform)) else None)
  }

  /** The setup steps of a run whose settings passed every check. */
  function Steps(s: Settings): seq<Step>
    requires s.packageManager.Some? && s.git.Some?
  {
    SetupSteps(s.git.value, s.packageManager.value, CommitizenPatch(s.lintConfig), s.gitIgnoreDotIo)
  }

  /**
   * One run. `entries` is the target directory's listing, `outcomes[i]` how
   * the i-th setup step ends, and `manifest` the manifest as the package
   * manager's own steps leave it (None when the file is missing).
   */
  function Main(inv: Invocation, probes: Probes, entries: seq<string>,
                outcomes: seq<Outcome>, manifest: Option<Object>): (r: RunResult)
    requires |outcomes| >= 6
    ensures inv.projectName.None? ==> r == Aborted(MissingProjectDirectory)
    ensures inv.projectName.Some? && !probes.yarn && !probes.npm ==> r == Aborted(NoPackageManager)
    ensures inv.projectName.Some? && (probes.yarn || probes.npm) && !probes.git ==> r == Aborted(NoGit)
    ensures r.Installed? <==>
      && inv.projectName.Some? && (probes.yarn || probes.npm) && probes.git
      && forall i :: 0 <= i < |entries| ==> Allowed(entries[i])
    ensures inv.projectName.Some? && (probes.yarn || probes.npm) && probes.git
            && !(forall i :: 0 <= i < |entries| ==> Allowed(entries[i]))
            ==> r == Aborted(UnsafeDirectory(Conflicts(entries)))
    ensures r.Aborted? && r.reason.UnsafeDirectory? ==>
      |r.reason.conflicts| > 0 && r.reason.conflicts == Conflicts(entries)
    ensures r.Installed? ==>
      r.report == Run(Steps(MakeSettings(inv.projectName.value, inv, probes)), outcomes, manifest)
  {
    match inv.projectName
    case None => Aborted(MissingProjectDirectory)
    case Some(name) =>
      var s := MakeSettings(name, inv, probes);
      if s.packageManager.None? then Aborted(NoPackageManager)
      else if s.git.None? then Aborted(NoGit)
      else match IsSafeToCreateProjectIn(entries)
        case Unsafe(conflicts) => Aborted(UnsafeDirectory(conflicts))
        case Safe => Installed(Run(Steps(s), outcomes, manifest))
  }

  /**
   * A non-zero exit of the install step ends the run after three steps,
   * before the manifest is touched, and the intended log line is text from
   * which the manager and every install argument can be read back.
   */
  lemma InstallFailureReport(name: string, inv: Invocation, probes: Probes,
                             outcomes: seq<Outcome>, manifest: Option<Object>, errorText: string)
    requires |outcomes| >= 6
    requires (probes.yarn || probes.npm) && probes.git
    requires outcomes[0] == Exited(0) && outcomes[1] == Exited(0)
    requires outcomes[2].Exited? && outcomes[2].code != 0
    requires NoSpace(LintConfig(inv.lintOverride))
    ensures var s := MakeSettings(name, inv, probes);
      var r := Run(Steps(s), outcomes, manifest);
      && r.attempted == 3
      && r.manifest == manifest
      && r.failure.Some? && r.failure.value.CommandFailed?
      && Split(Logged(r.failure.value, errorText))
         == [s.packageManager.value.command] + s.packageManager.value.installArgs
  {
    var s := MakeSettings(name, inv, probes);
    var pm := s.packageManager.value;
    InstallStepFails(s.git.value, pm, CommitizenPatch(s.lintConfig), s.gitIgnoreDotIo, outcomes, manifest);
    ResolvedInstallHasNoSpace(probes.yarn, probes.npm, inv.yes, inv.lintOverride);
    RenderSplitRoundTrip(pm.command, pm.installArgs);
  }

  /**
   * The end-to-end run on an empty directory with git and npm present, no
   * `.gitignore` generator, the non-interactive flag set and every step
   * succeeding: all five steps run, nothing fails, and the manifest carries
   * the commit and release scripts and the commitizen path.
   */
  lemma EmptyDirectoryScenario(outcomes: seq<Outcome>, manifest: Option<Object>)
    requires |outcomes| >= 6 && forall i :: 0 <= i < 5 ==> outcomes[i] == Exited(0)
    ensures var r := Main(Invocation(Some("myapp"), true, None),
                          Probes(false, true, true, false, "linux"), [], outcomes, manifest);
      && r.Installed?
      && r.report == Report(5, None, r.report.manifest)
      && r.report.manifest.Some?
      && At(r.report.manifest.value, ["scripts", "commit"]) == Some(JStr("git-cz"))
      && At(r.report.manifest.value, ["scripts", "release"]) == Some(JStr("standard-version"))
      && At(r.report.manifest.value, ["config", "commitizen", "path"]) == Some(JStr(CommitizenPath))
  {
    var inv := Invocation(Some("myapp"), true, None);
    var probes := Probes(false, true, true, false, "linux");
    var s := MakeSettings("myapp", inv, probes);
    AllStepsSucceed(s.git.value, s.packageManager.value, CommitizenPatch(s.lintConfig), s.gitIgnoreDotIo, outcomes, manifest);
    PatchSetsScripts(manifest, s.lintConfig);
    PatchSetsConfig(manifest, s.lintConfig);
  }
}
