/**
 * The setup pipeline: a fixed list of steps run one after another, stopping
 * at the first step that fails. How each spawned process or file copy ends is
 * an input (`Outcome`); spawning and the file system are not modelled.
 */
module Pipeline {
  import opened Wrappers
  import opened CommandLine
  import opened Manifest
  import opened PackageManager

  /**
   * How a step ended: a close event with an exit code, a close event with a
   * null code (the process was killed by a signal), or an error (an `error`
   * event, an exception while spawning, or a failed copy).
   */
  datatype Outcome = Exited(code: int) | Killed | Errored

  /** What the pipeline's `catch` receives. */
  datatype Failure =
    | CommandFailed(commandLine: string)  // rejected with `{ command }`
    | SpawnFailed                         // rejected with the spawn error
    | CopyFailed                          // the template copy rejected

  /**
   * The text the pipeline's `catch` logs for a failure, as the code is
   * written: the rejected value goes through the colouring function, which
   * turns the plain `{ command }` object into "[object Object]". `errorText`
   * is the string form of a spawn or copy error, which is not modelled.
   */
  function LoggedAsWritten(f: Failure, errorText: string): (t: string)
    ensures f.CommandFailed? ==> t == "[object Object]"
    ensures !f.CommandFailed? ==> t == errorText
  {
    match f
    case CommandFailed(_) => "[object Object]"
    case _ => errorText
  }

  /** The log line for a failure as evidently intended: the failing command line itself. */
  function Logged(f: Failure, errorText: string): (t: string)
    ensures f.CommandFailed? ==> t == f.commandLine
    ensures !f.CommandFailed? ==> t == errorText
  {
    match f
    case CommandFailed(commandLine) => commandLine
    case _ => errorText
  }

  /**
   * As written, nothing can read the failing command back from the log:
   * whatever `recover` does, some command line is not recovered.
   */
  lemma LoggedAsWrittenLosesCommand(recover: string -> string, errorText: string)
    ensures exists c :: recover(LoggedAsWritten(CommandFailed(c), errorText)) != c
  {
    var seen := recover("[object Object]");
    assert LoggedAsWritten(CommandFailed("git init"), errorText) == "[object Object]";
    assert LoggedAsWritten(CommandFailed("npm init"), errorText) == "[object Object]";
    if seen == "git init" {
      assert recover(LoggedAsWritten(CommandFailed("npm init"), errorText)) != "npm init";
    } else {
      assert recover(LoggedAsWritten(CommandFailed("git init"), errorText)) != "git init";
    }
  }

  /**
   * The intended log line tells commands apart: when executables and
   * arguments hold no space, two failed commands log the same text exactly
   * when they are the same executable with the same arguments.
   */
  lemma LoggedKeepsCommand(e1: string, w1: seq<string>, e2: string, w2: seq<string>, errorText: string)
    requires NoSpace(e1) && |w1| >= 1 && forall i :: 0 <= i < |w1| ==> NoSpace(w1[i])
    requires NoSpace(e2) && |w2| >= 1 && forall i :: 0 <= i < |w2| ==> NoSpace(w2[i])
    ensures Logged(CommandFailed(Render(Command(e1, Texts(w1)))), errorText)
         == Logged(CommandFailed(Render(Command(e2, Texts(w2)))), errorText)
        <==> e1 == e2 && w1 == w2
  {
    var l1 := Logged(CommandFailed(Render(Command(e1, Texts(w1)))), errorText);
    var l2 := Logged(CommandFailed(Render(Command(e2, Texts(w2)))), errorText);
    RenderSplitRoundTrip(e1, w1);
    RenderSplitRoundTrip(e2, w2);
    if l1 == l2 {
      assert [e1] + w1 == [e2] + w2;
      assert e1 == ([e1] + w1)[0] && e2 == ([e2] + w2)[0];
      assert w1 == ([e1] + w1)[1..] && w2 == ([e2] + w2)[1..];
    }
  }

  datatype Step =
    | Spawn(cmd: Command)
    | CopyTemplate
    | PatchManifest(patch: Object)

  /**
   * The settling of a spawned command: it succeeds only on a close with exit
   * code 0; any other close is reported as the command line.
   */
  function SpawnFailure(cmd: Command, o: Outcome): (f: Option<Failure>)
    ensures f == None <==> o == Exited(0)
    ensures o.Errored? ==> f == Some(SpawnFailed)
    ensures (o.Exited? && o.code != 0) || o.Killed? ==> f == Some(CommandFailed(Render(cmd)))
  {
    match o
    case Errored => Some(SpawnFailed)
    case Killed => Some(CommandFailed(Render(cmd)))
    case Exited(code) => if code != 0 then Some(CommandFailed(Render(cmd))) else None
  }

  /**
   * The failure a step reports. The copy fails only by an error. The manifest
   * patch is started without being awaited, so nothing it does can stop the
   * pipeline.
   */
  function StepFailure(step: Step, o: Outcome): (f: Option<Failure>)
    ensures step.PatchManifest? ==> f == None
    ensures step.CopyTemplate? ==> (f == None <==> !o.Errored?)
    ensures step.Spawn? ==> f == SpawnFailure(step.cmd, o)
  {
    match step
    case Spawn(cmd) => SpawnFailure(cmd, o)
    case CopyTemplate => if o.Errored? then Some(CopyFailed) else None
    case PatchManifest(_) => None
  }

  /** The manifest after a step: only the patch step changes it. */
  function StepManifest(step: Step, manifest: Option<Object>): Option<Object> {
    match step
    case PatchManifest(patch) => Some(Patch(manifest, patch))
    case _ => manifest
  }

  /**
   * The result of a run: how many steps were started, the failure that ended
   * the run if one did, and the manifest as the steps left it.
   */
  datatype Report = Report(attempted: nat, failure: Option<Failure>, manifest: Option<Object>)

  /** How far a run got: the steps started and the failure that stopped it, if any. */
  datatype Progress = Progress(attempted: nat, failure: Option<Failure>)

  predicate Succeeds(step: Step, o: Outcome) {
    StepFailure(step, o).None?
  }

  /** True iff steps `from` up to (not including) `to` all succeed. */
  predicate SucceedBetween(steps: seq<Step>, outcomes: seq<Outcome>, from: nat, to: nat)
    requires from <= to <= |steps| <= |outcomes|
  {
    forall i :: from <= i < to ==> Succeeds(steps[i], outcomes[i])
  }

  /**
   * Run the steps from index `i` on, `outcomes[j]` being how step `j` ends,
   * stopping at the first step that fails.
   */
  function RunFrom(steps: seq<Step>, outcomes: seq<Outcome>, i: nat): (p: Progress)
    requires i <= |steps| <= |outcomes|
    ensures i <= p.attempted <= |steps|
    ensures p.failure.None? ==> p.attempted == |steps|
    ensures p.failure.Some? ==> p.attempted > i
    decreases |steps| - i
  {
    if i == |steps| then Progress(i, None)
    else
      match StepFailure(steps[i], outcomes[i])
      case Some(f) => Progress(i + 1, Some(f))
      case None => RunFrom(steps, outcomes, i + 1)
  }

  /** The manifest after steps `from` up to (not including) `to` have run. */
  function ManifestBetween(steps: seq<Step>, from: nat, to: nat, manifest: Option<Object>): Option<Object>
    requires from <= to <= |steps|
    decreases |steps| - from
  {
    if from == to then manifest
    else ManifestBetween(steps, from + 1, to, StepManifest(steps[from], manifest))
  }

  /** The whole pipeline: every step from the first, and what the started steps did to the manifest. */
  function Run(steps: seq<Step>, outcomes: seq<Outcome>, manifest: Option<Object>): Report
    requires |steps| <= |outcomes|
  {
    var p := RunFrom(steps, outcomes, 0);
    Report(p.attempted, p.failure, ManifestBetween(steps, 0, p.attempted, manifest))
  }

  /**
   * The failure rule: every step before the last one started succeeded; the
   * run ends early exactly when a step fails, and then reports that step's
   * failure; the steps after it never start.
   */
  lemma {:induction false} RunFromStopsAtFirstFailure(steps: seq<Step>, outcomes: seq<Outcome>, i: nat)
    requires i <= |steps| <= |outcomes|
    ensures var p := RunFrom(steps, outcomes, i);
      && (p.failure.None? <==> SucceedBetween(steps, outcomes, i, |steps|))
      && (p.failure.Some? ==>
            && SucceedBetween(steps, outcomes, i, p.attempted - 1)
            && p.failure == StepFailure(steps[p.attempted - 1], outcomes[p.attempted - 1]))
    decreases |steps| - i
  {
    if i < |steps| && Succeeds(steps[i], outcomes[i]) {
      RunFromStopsAtFirstFailure(steps, outcomes, i + 1);
    }
  }

  lemma RunStopsAtFirstFailure(steps: seq<Step>, outcomes: seq<Outcome>, manifest: Option<Object>)
    requires |steps| <= |outcomes|
    ensures var r := Run(steps, outcomes, manifest);
      && r.attempted <= |steps|
      && (r.failure.None? <==> r.attempted == |steps| && SucceedBetween(steps, outcomes, 0, |steps|))
      && (r.failure.Some? ==>
            && r.attempted >= 1
            && SucceedBetween(steps, outcomes, 0, r.attempted - 1)
            && r.failure == StepFailure(steps[r.attempted - 1], outcomes[r.attempted - 1]))
  {
    RunFromStopsAtFirstFailure(steps, outcomes, 0);
  }

  /** Steps that succeed are passed over: the run goes on from the first step after them. */
  lemma {:induction false} RunFromSkipsSucceeding(steps: seq<Step>, outcomes: seq<Outcome>, i: nat, k: nat)
    requires i <= k <= |steps| <= |outcomes|
    requires SucceedBetween(steps, outcomes, i, k)
    ensures RunFrom(steps, outcomes, i) == RunFrom(steps, outcomes, k)
    decreases |steps| - i
  {
    if i < k {
      assert Succeeds(steps[i], outcomes[i]);
      RunFromSkipsSucceeding(steps, outcomes, i + 1, k);
    }
  }

  /** Steps that are not patch steps leave the manifest as it was. */
  lemma {:induction false} ManifestBetweenUnchanged(
    steps: seq<Step>, from: nat, to: nat, manifest: Option<Object>)
    requires from <= to <= |steps|
    requires forall j :: from <= j < to ==> !steps[j].PatchManifest?
    ensures ManifestBetween(steps, from, to, manifest) == manifest
    decreases |steps| - from
  {
    if from < to {
      assert StepManifest(steps[from], manifest) == manifest;
      ManifestBetweenUnchanged(steps, from + 1, to, manifest);
    }
  }

  /** When a single step in the range is a patch step, the manifest is what that step makes of it. */
  lemma {:induction false} ManifestBetweenOnePatch(
    steps: seq<Step>, from: nat, at: nat, to: nat, manifest: Option<Object>)
    requires from <= at < to <= |steps|
    requires forall j :: from <= j < to && j != at ==> !steps[j].PatchManifest?
    ensures ManifestBetween(steps, from, to, manifest) == StepManifest(steps[at], manifest)
    decreases |steps| - from
  {
    if from < at {
      assert StepManifest(steps[from], manifest) == manifest;
      ManifestBetweenOnePatch(steps, from + 1, at, to, manifest);
    } else {
      ManifestBetweenUnchanged(steps, from + 1, to, StepManifest(steps[from], manifest));
    }
  }

  /** The five fixed steps, then the `.gitignore` generator when it was detected. */
  function SetupSteps(git: Command, pm: PmCommand, patch: Object, gitIgnore: Option<Command>)
    : (steps: seq<Step>)
    ensures |steps| == if gitIgnore.Some? then 6 else 5
    ensures steps[0] == Spawn(git)
    ensures steps[1] == Spawn(Command(pm.command, Texts(pm.initArgs)))
    ensures steps[2] == Spawn(Command(pm.command, Texts(pm.installArgs)))
    ensures steps[3] == CopyTemplate
    ensures steps[4] == PatchManifest(patch)
    ensures gitIgnore.Some? ==> steps[5] == Spawn(gitIgnore.value)
  {
    [ Spawn(git),
      Spawn(Command(pm.command, Texts(pm.initArgs))),
      Spawn(Command(pm.command, Texts(pm.installArgs))),
      CopyTemplate,
      PatchManifest(patch)
    ] + match gitIgnore
        case Some(c) => [Spawn(c)]
        case None => []
  }

  /** A run stops at the first failing step and reports that step's failure. */
  lemma FirstFailureEndsRun(steps: seq<Step>, outcomes: seq<Outcome>, manifest: Option<Object>, k: nat)
    requires k < |steps| <= |outcomes|
    requires SucceedBetween(steps, outcomes, 0, k)
    requires !Succeeds(steps[k], outcomes[k])
    ensures Run(steps, outcomes, manifest).attempted == k + 1
    ensures Run(steps, outcomes, manifest).failure == StepFailure(steps[k], outcomes[k])
  {
    RunFromSkipsSucceeding(steps, outcomes, 0, k);
  }

  /**
   * Once the template copy has succeeded the manifest is patched and every
   * remaining step runs, whatever becomes of the `.gitignore` generator.
   */
  lemma PatchedOnceCopied(
    git: Command, pm: PmCommand, patch: Object, gitIgnore: Option<Command>,
    outcomes: seq<Outcome>, manifest: Option<Object>)
    requires |outcomes| >= 6
    requires SucceedBetween(SetupSteps(git, pm, patch, gitIgnore), outcomes, 0, 4)
    ensures var r := Run(SetupSteps(git, pm, patch, gitIgnore), outcomes, manifest);
      && r.manifest == Some(Patch(manifest, patch))
      && r.attempted == |SetupSteps(git, pm, patch, gitIgnore)|
  {
    var steps := SetupSteps(git, pm, patch, gitIgnore);
    assert Succeeds(steps[4], outcomes[4]);
    RunFromSkipsSucceeding(steps, outcomes, 0, 5);
    ManifestBetweenOnePatch(steps, 0, 4, |steps|, manifest);
  }

  /** When every setup step succeeds, all of them run, nothing fails and the manifest ends up patched. */
  lemma AllStepsSucceed(
    git: Command, pm: PmCommand, patch: Object, gitIgnore: Option<Command>,
    outcomes: seq<Outcome>, manifest: Option<Object>)
    requires |outcomes| >= 6
    requires forall i :: 0 <= i < |SetupSteps(git, pm, patch, gitIgnore)| ==> outcomes[i] == Exited(0)
    ensures Run(SetupSteps(git, pm, patch, gitIgnore), outcomes, manifest)
         == Report(|SetupSteps(git, pm, patch, gitIgnore)|, None, Some(Patch(manifest, patch)))
  {
    var steps := SetupSteps(git, pm, patch, gitIgnore);
    assert SucceedBetween(steps, outcomes, 0, |steps|) by {
      forall i | 0 <= i < |steps|
        ensures Succeeds(steps[i], outcomes[i])
      {
      }
    }
    PatchedOnceCopied(git, pm, patch, gitIgnore, outcomes, manifest);
    RunStopsAtFirstFailure(steps, outcomes, manifest);
  }

  /** A non-zero exit of the install step ends the run after three steps, reporting the install command. */
  lemma InstallStepFails(
    git: Command, pm: PmCommand, patch: Object, gitIgnore: Option<Command>,
    outcomes: seq<Outcome>, manifest: Option<Object>)
    requires |outcomes| >= 6
    requires outcomes[0] == Exited(0) && outcomes[1] == Exited(0)
    requires outcomes[2].Exited? && outcomes[2].code != 0
    ensures var r := Run(SetupSteps(git, pm, patch, gitIgnore), outcomes, manifest);
      && r.attempted == 3
      && r.failure == Some(CommandFailed(Render(Command(pm.command, Texts(pm.installArgs)))))
      && r.manifest == manifest
  {
    var steps := SetupSteps(git, pm, patch, gitIgnore);
    assert Succeeds(steps[0], outcomes[0]) && Succeeds(steps[1], outcomes[1]);
    FirstFailureEndsRun(steps, outcomes, manifest, 2);
    ManifestBetweenUnchanged(steps, 0, 3, manifest);
  }
}
