/**
 * Package-manager selection and the argument lists handed to it. Tool
 * availability is an input: the result of probing `yarnpkg --version` and
 * `npm --version`.
 */
module PackageManager {
  import opened Wrappers

  datatype Manager = Yarn | Npm

  /** The chosen manager as the rest of the program sees it. */
  datatype PmCommand = PmCommand(command: string, installArgs: seq<string>, initArgs: seq<string>)

  /** The development dependencies every project gets, in declared order. */
  const Dependencies: seq<string> := [
    "@commitlint/cli", "commitizen", "cz-conventional-changelog", "husky", "standard-version"
  ]

  /** The lint-config package used when `--commitlint-config` is not given. */
  const DefaultLintConfig: string := "@commitlint/config-angular"

  /** The lint-config package: the override when one was given, else the default. */
  function LintConfig(override: Option<string>): string {
    override.GetOr(DefaultLintConfig)
  }

  /** The full dependency list after the lint-config package has been pushed onto it. */
  function AllDependencies(lintConfig: string): (deps: seq<string>)
    ensures |deps| == |Dependencies| + 1
    ensures deps[..|Dependencies|] == Dependencies && deps[|Dependencies|] == lintConfig
  {
    Dependencies + [lintConfig]
  }

  /** Fixed priority: yarn first, npm as the fallback, nothing otherwise. */
  function Select(yarnAvailable: bool, npmAvailable: bool): (m: Option<Manager>)
    ensures yarnAvailable ==> m == Some(Yarn)
    ensures m == Some(Npm) <==> !yarnAvailable && npmAvailable
    ensures m == None <==> !yarnAvailable && !npmAvailable
  {
    if yarnAvailable then Some(Yarn)
    else if npmAvailable then Some(Npm)
    else None
  }

  function Executable(m: Manager): string {
    match m
    case Yarn => "yarnpkg"
    case Npm => "npm"
  }

  /** The manager-specific subcommand and dev-dependency flag of the install step. */
  function InstallPrefix(m: Manager): seq<string> {
    match m
    case Yarn => ["add", "--dev"]
    case Npm => ["install", "--save-dev"]
  }

  /** `init`, then `--yes` exactly when the non-interactive flag is set. */
  function InitArgs(yes: bool): (args: seq<string>)
    ensures |args| == (if yes then 2 else 1)
    ensures args[0] == "init"
    ensures yes ==> args[1] == "--yes"
  {
    if yes then ["init", "--yes"] else ["init"]
  }

  /** The manager prefix, the fixed dependencies, then the lint-config package last. */
  function InstallArgs(m: Manager, lintConfig: string): (args: seq<string>)
    ensures |args| == 8
    ensures args[..2] == InstallPrefix(m)
    ensures args[2..7] == Dependencies
    ensures args[7] == lintConfig
  {
    InstallPrefix(m) + AllDependencies(lintConfig)
  }

  /**
   * The package manager the run uses, or None when neither tool answered.
   * The init arguments do not depend on which manager was chosen.
   */
  function Resolve(yarnAvailable: bool, npmAvailable: bool, yes: bool, override: Option<string>)
    : (pm: Option<PmCommand>)
    ensures pm == None <==> !yarnAvailable && !npmAvailable
    ensures pm.Some? ==> pm.value.command == (if yarnAvailable then "yarnpkg" else "npm")
    ensures pm.Some? ==> pm.value.initArgs == InitArgs(yes)
    ensures pm.Some? ==>
      pm.value.installArgs == InstallArgs(if yarnAvailable then Yarn else Npm, LintConfig(override))
    ensures pm.Some? && override.None? ==> pm.value.installArgs[7] == DefaultLintConfig
  {
    match Select(yarnAvailable, npmAvailable)
    case None => None
    case Some(m) =>
      Some(PmCommand(Executable(m), InstallArgs(m, LintConfig(override)), InitArgs(yes)))
  }

  /** No argument of the install step holds a space unless the lint-config package does. */
  lemma InstallArgsHaveNoSpace(m: Manager, lintConfig: string)
    requires ' ' !in lintConfig
    ensures forall i :: 0 <= i < |InstallArgs(m, lintConfig)| ==> ' ' !in InstallArgs(m, lintConfig)[i]
  {
    var args := InstallArgs(m, lintConfig);
    forall i | 0 <= i < |args|
      ensures ' ' !in args[i]
    {
      if i < 2 {
        assert args[i] == args[..2][i];
      } else if i < 7 {
        assert args[i] == args[2..7][i - 2];
      }
    }
  }

  /** The chosen manager's install command line holds no space unless the lint-config package does. */
  lemma ResolvedInstallHasNoSpace(yarnAvailable: bool, npmAvailable: bool, yes: bool, override: Option<string>)
    requires yarnAvailable || npmAvailable
    requires ' ' !in LintConfig(override)
    ensures var pm := Resolve(yarnAvailable, npmAvailable, yes, override).value;
      && ' ' !in pm.command
      && forall i :: 0 <= i < |pm.installArgs| ==> ' ' !in pm.installArgs[i]
  {
    InstallArgsHaveNoSpace(if yarnAvailable then Yarn else Npm, LintConfig(override));
  }
}
