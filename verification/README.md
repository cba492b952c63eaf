# create-conventional-pkg: a Dafny model of the setup script

`create-conventional-pkg` is a command-line script (`index.js`). It turns a
directory into a project wired for conventional commits. The script does three
things in order:

1. It checks its preconditions: a project directory argument, a package
   manager (yarn or npm) and git.
2. It refuses a target directory that already holds files outside a fixed
   allow-list.
3. It runs a fixed pipeline of steps and stops at the first failing step:
   - `git init`;
   - the package manager's `init`;
   - the package manager's install of the commit tooling;
   - a copy of the commitlint template;
   - a patch of `package.json`;
   - the `.gitignore` generator, when that tool is installed.

The `package.json` patch is a shallow `Object.assign` of a fixed object.

This project models the script's decision rules as pure functions over
abstract inputs:

- The probes are booleans: is yarn, npm, git or the generator installed?
- The host platform is a string.
- The directory listing is a sequence of names.
- The way each step ends is an `Outcome`: an exit code, a kill by a signal, or
  an error.
- The manifest is an ordered JSON object.

Modules:

- `Directory`: the allow-list validator, `isSafeToCreateProjectIn`.
- `PackageManager`: the yarn-over-npm priority, the `init` and install
  argument lists, the dependency list and the lint-config default.
- `Platform`: the platform tag for the `.gitignore` generator.
- `Manifest`: JSON objects with their fields in insertion order, and
  `Object.assign` as a fold of single-field assignments (`Put`, `Assign`).
  `ToMap` gives the order-free map view. The module also holds the
  commitizen/commitlint patch.
- `CommandLine`: spawn arguments, including JavaScript's `undefined`. It also
  covers the text of a failed command (`command + ' ' + args.join(' ')`) and
  the proof that splitting that text at spaces gives the command back.
- `Pipeline`: the step list and the run. The run is a fold that stops at the
  first failure. The module also holds the failure value that the `catch`
  receives and the line it logs.
- `Program`: builds the settings record once from the parsed arguments and
  the probes, then applies the three precondition exits, the directory check
  and the pipeline, in the script's order.

Decisions taken where the script's own behaviour is subtle:

- **A failing step does not set an exit code.** The `catch` of `install`
  only logs (index.js:313-315), so the process ends normally. `Installed`
  results carry no exit code, and only the four precondition failures are
  `Aborted` (exit 1).
- **The manifest patch never stops the pipeline.** `updateJson` is started
  without `await` (index.js:266), so the model's patch step cannot fail.
- **A signal counts as a failed command.** A child closed by a signal has the
  code `null`, and `null !== 0`. It is reported exactly like a non-zero exit
  (index.js:211-214).
- **An unknown platform passes `undefined`.** The generator's argument list
  becomes `['node', undefined]`, and `join` renders `undefined` as the empty
  string (`Arg.Undefined`).

## Model

| member | source | states |
|---|---|---|
| Directory.Conflicts | index.js:118-120 | the conflicts are taken from the listing and hold no allow-listed name |
| Directory.ConflictsCount | index.js:103-120 | a name that is not on the allow-list occurs among the conflicts exactly as often as in the listing; an allow-listed name never occurs |
| Directory.ConflictsAreSubsequence | index.js:118-120 | the conflicts keep the listing's order (they are a subsequence of it) |
| Directory.ConflictsSnoc | index.js:118-120 | one more entry in the listing adds itself to the end of the conflicts exactly when it is not allow-listed |
| Directory.NoConflictsIffAllAllowed | index.js:118-123 | no conflicts exactly when every entry is one of the 11 allow-listed names |
| Directory.IsSafeToCreateProjectIn | index.js:101-138 | safe iff every entry is allow-listed, so an empty directory is safe; an unsafe verdict carries the non-empty conflict list that is printed |
| PackageManager.Select | index.js:62-76 | yarn whenever it is available; npm exactly when yarn is not and npm is; none exactly when neither is |
| PackageManager.InitArgs | index.js:58-61 | `init`, then `--yes` exactly when the flag is set |
| PackageManager.AllDependencies | index.js:157-163 | the five fixed dependencies in declared order, then the lint-config package pushed last |
| PackageManager.InstallArgs | index.js:62-75 | the manager's prefix (`add --dev` or `install --save-dev`), the five dependencies, then the lint-config package: eight arguments |
| PackageManager.Resolve | index.js:57-77 | absent exactly when neither manager is available; otherwise `yarnpkg` or `npm` by priority, init arguments the same for both managers, and the default lint config `@commitlint/config-angular` last when no override is given |
| PackageManager.InstallArgsHaveNoSpace | index.js:12-18 | no install argument holds a space unless the lint-config package does |
| PackageManager.ResolvedInstallHasNoSpace | index.js:57-77 | the chosen executable and its install arguments hold no space unless the lint-config package does |
| Platform.GitIgnorePlatform | index.js:79-90 | `darwin` to `osx`, `linux` to `linux`, `win32` to `windows`, nothing for any other platform; the mapping can be inverted |
| Manifest.Put | index.js:242 | assigning one field: a new key goes last, and an existing key keeps its place |
| Manifest.PutLookup | index.js:242 | after assigning one field, the key holds the new value and every other key is unchanged |
| Manifest.AssignUnique | index.js:242 | merging two objects whose keys are unique gives an object whose keys are unique |
| Manifest.AssignLookup | index.js:241-242 | last writer wins: each patch key holds the patch's value (nested objects are replaced wholesale), and every other key holds the target's value |
| Manifest.AssignKeys | index.js:242 | field order after the merge: the target's keys in place, then the patch's new keys in the patch's order |
| Manifest.AssignKeySet | index.js:242 | the merged object's keys are the keys of either side |
| Manifest.AssignIsMapUnion | index.js:241-242 | as maps, the merge is the right-biased union `ToMap(target) + ToMap(patch)` |
| Manifest.AssignIdempotent | index.js:242 | merging the same patch twice gives the same object as merging it once |
| Manifest.AssignFreshKeys | index.js:242 | when no patch key is present, the merge appends the patch's fields |
| Manifest.PatchMissingFile | index.js:239-242 | a missing manifest counts as `{}`, so the result is exactly the patch |
| Manifest.CommitizenPatch | index.js:266-296 | the patch has the two top-level keys `config` and `scripts`, once each |
| Manifest.ConfigContents | index.js:269-273 | the config block points commitizen at `./node_modules/cz-conventional-changelog` and extends the chosen lint-config package |
| Manifest.PatchTopLevel | index.js:266-296 | after the patch, `config` and `scripts` hold the patch's blocks, whatever the manifest held there before |
| Manifest.PatchSetsScripts | index.js:291-295 | after the patch, `scripts` holds exactly `commit: git-cz`, `commitmsg: commitlint -e` and `release: standard-version`, and earlier scripts are gone |
| Manifest.PatchSetsConfig | index.js:269-290 | after the patch, `config.commitizen.path` is the adapter path and `config.commitLint.extends` is `[lintConfig]` |
| Manifest.PatchKeepsOtherKeys | index.js:241-242 | every top-level key other than `config` and `scripts` keeps its value |
| CommandLine.JoinSplitRoundTrip | index.js:213 | joining words without spaces with single spaces, then splitting at spaces, gives the words back |
| CommandLine.RenderSplitRoundTrip | index.js:211-214 | the reported text of a failed command splits back into the executable followed by its arguments |
| Pipeline.SpawnFailure | index.js:203-221 | a spawned command succeeds exactly on a close with code 0; an error is a spawn failure; any other close (a non-zero or `null` code) reports the command line |
| Pipeline.StepFailure | index.js:250-298 | the template copy fails exactly on an error; the manifest patch, which is not awaited, never fails; spawned steps fail as their command does |
| Pipeline.RunFrom | index.js:250-316 | a run that reports no failure started every step; a failing run started at least one step |
| Pipeline.RunFromStopsAtFirstFailure | index.js:250-316 | from any step on: no failure exactly when every step succeeds; otherwise every earlier step succeeded and the reported failure is the failure of the last step started |
| Pipeline.RunStopsAtFirstFailure | index.js:250-316 | the failure rule for a whole run: a step that fails is the last one started, and its failure is the one reported |
| Pipeline.RunFromSkipsSucceeding | index.js:250-311 | steps that succeed are passed over; the run carries on from the first step after them |
| Pipeline.ManifestBetweenUnchanged | index.js:250-264 | steps other than the patch leave the manifest as it was |
| Pipeline.ManifestBetweenOnePatch | index.js:266-298 | over a range with a single patch step, the manifest is what that step makes of it |
| Pipeline.SetupSteps | index.js:250-311 | the step order: git init, package-manager init, package-manager install, template copy, manifest patch, then the generator only when it was detected |
| Pipeline.FirstFailureEndsRun | index.js:250-316 | when steps 0..k-1 succeed and step k fails, exactly k+1 steps start and step k's failure is reported |
| Pipeline.PatchedOnceCopied | index.js:261-311 | once the template copy succeeds, the manifest is patched and every remaining step starts, whatever the generator does |
| Pipeline.AllStepsSucceed | index.js:250-312 | when every step exits 0, every step starts, nothing fails and the manifest ends up patched |
| Pipeline.InstallStepFails | index.js:250-260 | a non-zero exit of the install step ends the run after three steps; it reports the install command line and leaves the manifest untouched |
| Pipeline.LoggedAsWritten | index.js:313-315 | as written, the `catch` logs a failed command as `[object Object]` |
| Pipeline.LoggedAsWrittenLosesCommand | index.js:313-315 | as written, no reading of the log line recovers the failing command |
| Pipeline.Logged | index.js:213 | as intended, the log line of a failed command is its command line |
| Pipeline.LoggedKeepsCommand | index.js:213 | as intended, two failed commands whose executables and arguments hold no space log the same text exactly when they have the same executable and the same arguments |
| Program.PlatformArg | index.js:178-180 | the generator's second argument is the platform's tag, and `undefined` exactly when the platform has no tag |
| Program.MakeSettings | index.js:170-180 | the settings record: the package manager as resolved; `git init` exactly when git is present; `gitignore-dot-io node <tag>` exactly when the generator is present; the default lint config when none is given |
| Program.Main | index.js:157-201 | a missing project name, then a missing package manager, then missing git each exit 1 before the directory is examined; the pipeline runs exactly when all three are present and every entry is allow-listed; an unsafe directory exits 1 with its conflicts |
| Program.InstallFailureReport | index.js:203-260 | a non-zero exit of the install step ends the run after three steps, before the manifest is touched, and the intended log line splits back into the manager and every install argument |
| Program.EmptyDirectoryScenario | index.js:165-312 | project `myapp`, an empty directory, npm and git present, no generator, `--yes`: all five steps run, none fails, and the manifest has `scripts.commit`, `scripts.release` and `config.commitizen.path` |

## Left out

- Process probes and spawning (`execSync`, `cross-spawn`) are not modelled. Tool availability is a boolean input, and how each step ends is an `Outcome` input.
- File-system effects (`fs.ensureDir`, `readdirSync`, `fs.copy`, `require` of `package.json`, `writeJson`) are not modelled. The listing is an input, and so is the manifest as the package manager's own steps leave it (`None` when the file is missing).
- The manifest is patched in memory only. Writing it back with two-space indentation, and the wrong `.then(resolve()).catch(reject())` around that write, are not modelled.
- Console output and colours are not modelled: the warnings, the conflict listing, the success messages and the usage text. The ANSI colour codes around the logged failure are left out too.
- Commander's argument parsing is not modelled. In particular, `-c` given without a value yields `true` rather than a package name; the override is modelled as an optional string.
- `path.resolve` and `path.basename` of the project name are not modelled. The project name is carried through unchanged.
- Promise timing is not modelled:
  - The unawaited `fs.ensureDir` races with `readdirSync`.
  - The unawaited `updateJson` completes some time after later steps start.
  - An unhandled rejection from `require` of a malformed `package.json` can occur.
  The model treats the patch as an in-order step that cannot fail.
- The exit code of a run whose pipeline fails is not modelled, because the `catch` only logs.
- JSON numbers are modelled as integers.
- Objects are modelled in plain insertion order. JavaScript puts integer-like keys first; that ordering is not modelled.
- A top-level manifest that is not an object is not modelled.
- The text of a spawn or copy error is not computed; it is the `errorText` parameter.

## Findings

| source | as written | input that shows it | evidently intended | confidence | as-written member | corrected member |
|---|---|---|---|---|---|---|
| index.js:213, 313-315 | A failed command rejects with the plain object `{ command }`. The `catch` logs `chalk.red(e)`, which converts its argument to a string, so the object becomes `[object Object]`. | `npm install --save-dev …` exits with code 1: the log line is `[object Object]`, and the command line built at index.js:213 is never shown | the log line names the failing command and its arguments | high for chalk releases that convert their argument with `String`/`'' +`; not executed | Pipeline.LoggedAsWritten (Pipeline.LoggedAsWrittenLosesCommand) | Pipeline.Logged (Pipeline.LoggedKeepsCommand, Program.InstallFailureReport) |
