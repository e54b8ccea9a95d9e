/**
 From the runs to the bundle: the capture evals are run, their evidence files become artifacts, and
 a bundle is made of these and of the artifacts of the other evals. Proves that this succeeds
 exactly where every answer to every run is as it should be and the artifacts fit together.
 */
module AcceptanceRuns {
  import opened Outcome
  import opened EvalJson
  import opened AcceptanceValidators
  import opened AcceptanceBundle
  import CaptureLog
  import Retained = RetainedCaptureRun
  import Restore = CaptureRestoreRun
  import Lifecycle = CaptureLifecycleRun

  type World = CaptureLog.World

  /** What the capture evals are run with, and every answer they get. */
  datatype Plan = Plan(
    retained: Retained.Config, retainedWorld: World,
    multi: Retained.Config, multiWorld: World,
    prepare: Restore.Config, prepareWorld: World, fileAfter: Answer<Dict>,
    resume: Restore.Config, resumeWorld: World, before: Answer<Dict>, after: Answer<Dict>, missing: Raised,
    revocation: Lifecycle.Config, revocationWorld: World)
  {
    /** Every answer to the run of spec `i` is as it should be. */
    ghost predicate Good(i: nat) {
      if i == 0 then Retained.GoodRun(retained, retainedWorld)
      else if i == 1 then Retained.GoodRun(multi, multiWorld) && multi.requireMultiOutput
      else if i == 2 then
        Restore.GoodRestart(prepare, prepareWorld, fileAfter, resume, resumeWorld, before, after)
      else Lifecycle.GoodRun(revocation, revocationWorld)
    }

    /** The world the run begins in, and the one it ends in. */
    function First(i: nat): World {
      if i == 0 then retainedWorld else if i == 1 then multiWorld else if i == 2 then prepareWorld else revocationWorld
    }

    function Last(i: nat): World {
      if i == 2 then resumeWorld else First(i)
    }
  }

  /** What a file system shows of a file with this content. */
  datatype Disk = Disk(bytes: Dict -> int, sha256: Dict -> string)

  const CAPTURE_RUNS: nat := 4

  // ---------- The evidence of a run ----------

  /** The evidence left by a run that can be passed, from the first world to the last. */
  predicate PassedAs(i: nat, evidence: Dict, first: World, last: World)
    requires i < |SPECS|
  {
    && Records(SPECS[i], evidence)
    && first.workspace.Gives? && Get(evidence, Workspace) == first.workspace.value
    && Get(evidence, StartedUnixMs) == Int(first.startedMs) && Get(evidence, EndedUnixMs) == Int(last.endedMs)
  }

  /** The run left evidence that its spec takes if and only if it was good, and that says when and
      on which workspace it ran. */
  ghost predicate Left(i: nat, stored: Option<Dict>, plan: Plan)
    requires i < |SPECS|
  {
    && (stored.Some? && Records(SPECS[i], stored.value) <==> plan.Good(i))
    && (plan.Good(i) ==> PassedAs(i, stored.value, plan.First(i), plan.Last(i)))
  }

  /** Evidence that the spec of a capture eval takes reads passed. */
  lemma RecordsPassed(i: nat, evidence: Dict)
    requires i < CAPTURE_RUNS && |SPECS| == 8 && Records(SPECS[i], evidence)
    ensures Get(evidence, Status) == Str("passed")
  {
    hide ValidMultiOutput, IsNumber;
    MultiIsRetained(evidence);
  }

  lemma MultiIsRetained(evidence: Dict)
    ensures ValidMultiOutput(evidence) ==> Get(evidence, Status) == Str("passed")
  {
  }

  method LeaveRetained(plan: Plan) returns (stored: Option<Dict>)
    ensures |SPECS| == 8 && Left(0, stored, plan)
  {
    hide SPECS, Records, Get, Retained.GoodRun;
    CaptureSpecs();
    var outcome, calls;
    outcome, stored, calls := Retained.RunCaptureEval(plan.retained, plan.retainedWorld);
    if stored.Some? && Records(SPECS[0], stored.value) { RecordsPassed(0, stored.value); }
  }

  method LeaveMultiOutput(plan: Plan) returns (stored: Option<Dict>)
    ensures |SPECS| == 8 && Left(1, stored, plan)
  {
    hide SPECS, Records, Get, Retained.GoodRun;
    CaptureSpecs();
    var outcome, calls;
    outcome, stored, calls := Retained.RunCaptureEval(plan.multi, plan.multiWorld);
    if stored.Some? && Records(SPECS[1], stored.value) { RecordsPassed(1, stored.value); }
  }

  method LeaveRestart(plan: Plan) returns (stored: Option<Dict>)
    ensures |SPECS| == 8 && Left(2, stored, plan)
  {
    hide SPECS, Records, Get, Restore.GoodRestart;
    CaptureSpecs();
    var prepareCalls, resumeCalls;
    stored, prepareCalls, resumeCalls := Restore.RunRestoreEval(
      plan.prepare, plan.prepareWorld, plan.fileAfter,
      plan.resume, plan.resumeWorld, plan.before, plan.after, plan.missing);
    if stored.Some? && Records(SPECS[2], stored.value) { RecordsPassed(2, stored.value); }
    RestartHasWorkspace(plan);
  }

  lemma RestartHasWorkspace(plan: Plan)
    ensures plan.Good(2) ==> plan.prepareWorld.workspace.Gives?
  {
    hide Restore.OpensWithFrame, Restore.SameFileIdentity, Restore.RestoreFileWasReplaced;
  }

  method LeaveRevocation(plan: Plan) returns (stored: Option<Dict>)
    ensures |SPECS| == 8 && Left(3, stored, plan)
  {
    hide SPECS, Records, Get, Lifecycle.GoodRun;
    CaptureSpecs();
    var outcome, calls;
    outcome, stored, calls := Lifecycle.RunLifecycleEval(plan.revocation, plan.revocationWorld);
    if stored.Some? && Records(SPECS[3], stored.value) { RecordsPassed(3, stored.value); }
  }

  // ---------- The artifacts ----------

  function Store(artifacts: ArtifactSet, name: string, stored: Option<Dict>, disk: Disk): ArtifactSet {
    match stored
    case None => artifacts
    case Some(evidence) =>
      artifacts[name := ArtifactFile(disk.bytes(evidence), disk.sha256(evidence), Gives(Obj(evidence)))]
  }

  /** The artifact of a run is what its evidence was stored as. */
  predicate StoredAs(artifacts: ArtifactSet, name: string, stored: Option<Dict>) {
    && (name in artifacts <==> stored.Some?)
    && (stored.Some? ==> artifacts[name].content == Gives(Obj(stored.value)))
  }

  lemma DistinctNames()
    ensures |SPECS| == 8
    ensures forall i, j :: 0 <= i < j < 8 ==> SPECS[i].name != SPECS[j].name
  {
  }

  /** The artifacts with what the first runs left. */
  function StoreAll(artifacts: ArtifactSet, stored: seq<Option<Dict>>, disk: Disk): ArtifactSet
    requires |stored| <= |SPECS|
  {
    if stored == [] then artifacts
    else
      var n := |stored| - 1;
      Store(StoreAll(artifacts, stored[..n], disk), SPECS[n].name, stored[n], disk)
  }

  lemma {:induction false} OthersKept(others: ArtifactSet, stored: seq<Option<Dict>>, disk: Disk, name: string)
    requires |stored| <= |SPECS| && forall i :: 0 <= i < |stored| ==> name != SPECS[i].name
    ensures var artifacts := StoreAll(others, stored, disk);
      (name in artifacts <==> name in others) && (name in others ==> artifacts[name] == others[name])
    decreases |stored|
  {
    hide SPECS;
    if stored != [] { OthersKept(others, stored[..|stored| - 1], disk, name); }
  }

  lemma {:induction false} StoredEach(others: ArtifactSet, stored: seq<Option<Dict>>, disk: Disk, i: nat)
    requires i < |stored| <= |SPECS| && SPECS[i].name !in others
    ensures StoredAs(StoreAll(others, stored, disk), SPECS[i].name, stored[i])
    decreases |stored|
  {
    hide SPECS;
    DistinctNames();
    var n := |stored| - 1;
    if i < n {
      StoredEach(others, stored[..n], disk, i);
    } else {
      OthersKept(others, stored[..n], disk, SPECS[i].name);
    }
  }

  /** A good run fits the bundle: it was on the workspace expected, its times are in order, it ended
      in time, and its file is small enough. */
  ghost predicate GoodAndRecent(plan: Plan, i: nat, artifacts: ArtifactSet, workspace: Dict, limits: Limits)
    requires i < |SPECS|
  {
    && plan.Good(i) && SPECS[i].name in artifacts && artifacts[SPECS[i].name].bytes <= MAX_ARTIFACT_BYTES
    && plan.First(i).workspace.Gives? && ValidateWorkspace(plan.First(i).workspace.value) == Some(workspace)
    && 0 <= plan.First(i).startedMs <= plan.Last(i).endedMs
    && limits.now - limits.maxAgeMs <= plan.Last(i).endedMs <= limits.now + FUTURE_TOLERANCE_MS
  }

  lemma FitsExactly(i: nat, stored: Option<Dict>, plan: Plan, artifacts: ArtifactSet, workspace: Dict, limits: Limits)
    requires i < CAPTURE_RUNS && |SPECS| == 8 && Left(i, stored, plan) && StoredAs(artifacts, SPECS[i].name, stored)
    ensures ArtifactFits(artifacts, i, workspace, limits) <==> GoodAndRecent(plan, i, artifacts, workspace, limits)
  {
    hide SPECS, Records, ValidateWorkspace, Genuine, Recent, Get;
    if stored.Some? {
      var file := artifacts[SPECS[i].name];
      var started, ended := plan.First(i).startedMs, plan.Last(i).endedMs;
      RunFitsExactly(i, stored.value, started, ended, file, workspace, limits);
    }
  }

  /** What the runs leave, and the other artifacts. */
  ghost predicate Recorded(plan: Plan, others: ArtifactSet, artifacts: ArtifactSet) {
    && (forall i, workspace, limits :: 0 <= i < CAPTURE_RUNS ==>
          (ArtifactFits(artifacts, i, workspace, limits) <==> GoodAndRecent(plan, i, artifacts, workspace, limits)))
    && (forall name :: (forall i :: 0 <= i < CAPTURE_RUNS ==> name != SPECS[i].name) ==>
          (name in artifacts <==> name in others) && (name in others ==> artifacts[name] == others[name]))
  }

  /** The four capture evals, and the artifacts of the others. Each artifact of a capture eval fits
      the bundle if and only if its run was good and recent. */
  method RecordCaptures(plan: Plan, disk: Disk, others: ArtifactSet) returns (artifacts: ArtifactSet)
    requires forall i :: 0 <= i < CAPTURE_RUNS ==> SPECS[i].name !in others
    ensures Recorded(plan, others, artifacts)
  {
    hide SPECS, ArtifactFits, GoodAndRecent, Left, StoredAs, StoreAll;
    DistinctNames();
    var s0 := LeaveRetained(plan);
    var s1 := LeaveMultiOutput(plan);
    var s2 := LeaveRestart(plan);
    var s3 := LeaveRevocation(plan);
    var stored := [s0, s1, s2, s3];
    artifacts := StoreAll(others, stored, disk);
    forall i, workspace, limits | 0 <= i < CAPTURE_RUNS
      ensures ArtifactFits(artifacts, i, workspace, limits) <==> GoodAndRecent(plan, i, artifacts, workspace, limits)
    {
      assert Left(i, stored[i], plan);
      StoredEach(others, stored, disk, i);
      FitsExactly(i, stored[i], plan, artifacts, workspace, limits);
    }
    forall name | forall i :: 0 <= i < CAPTURE_RUNS ==> name != SPECS[i].name
      ensures (name in artifacts <==> name in others) && (name in others ==> artifacts[name] == others[name])
    {
      OthersKept(others, stored, disk, name);
    }
  }

  // ---------- The bundle ----------

  /** The names of the artifacts that are not of a capture eval. */
  function OtherNames(): set<string> {
    set i | CAPTURE_RUNS <= i < |SPECS| :: SPECS[i].name
  }

  /** Every run was good and recent, the other artifacts fit, and no artifact ends more than the span
      after another starts. */
  ghost predicate FitTogether(plan: Plan, others: ArtifactSet, artifacts: ArtifactSet, workspace: Dict,
                              limits: Limits) {
    && others.Keys == OtherNames()
    && (forall i :: 0 <= i < CAPTURE_RUNS ==> GoodAndRecent(plan, i, artifacts, workspace, limits))
    && (forall i :: CAPTURE_RUNS <= i < |SPECS| ==> ArtifactFits(others, i, workspace, limits))
    && (forall i :: 0 <= i < |SPECS| ==> SPECS[i].name in artifacts)
    && WithinSpan(artifacts, limits.maxSpanMs)
  }

  lemma AcceptableExactly(
    plan: Plan, others: ArtifactSet, artifacts: ArtifactSet, expected: Json, workspace: Dict, limits: Limits)
    requires forall i :: 0 <= i < CAPTURE_RUNS ==> SPECS[i].name !in others
    requires Recorded(plan, others, artifacts) && ValidateWorkspace(expected) == Some(workspace)
    requires limits.maxAgeMs > 0 && limits.maxSpanMs > 0
    ensures Acceptable(artifacts, expected, limits) <==> FitTogether(plan, others, artifacts, workspace, limits)
  {
    hide SPECS, ValidateWorkspace, Genuine, Recent, WithinSpan, GoodAndRecent;
    DistinctNames();
    if Acceptable(artifacts, expected, limits) {
      OthersNamed(others, artifacts);
      forall i | CAPTURE_RUNS <= i < |SPECS| ensures ArtifactFits(others, i, workspace, limits) {
        assert ArtifactFits(artifacts, i, workspace, limits);
      }
    }
    if FitTogether(plan, others, artifacts, workspace, limits) {
      AllNamed(others, artifacts);
      forall i | 0 <= i < |SPECS| ensures ArtifactFits(artifacts, i, workspace, limits) {
        if i >= CAPTURE_RUNS { assert ArtifactFits(others, i, workspace, limits); }
      }
    }
  }

  lemma OthersNamed(others: ArtifactSet, artifacts: ArtifactSet)
    requires artifacts.Keys == SpecNames()
    requires forall i :: 0 <= i < CAPTURE_RUNS ==> SPECS[i].name !in others
    requires forall name :: (forall i :: 0 <= i < CAPTURE_RUNS ==> name != SPECS[i].name) ==>
      (name in artifacts <==> name in others)
    ensures others.Keys == OtherNames()
  {
    hide SPECS;
    DistinctNames();
    forall name | name in others ensures name in OtherNames() {
      assert name in artifacts.Keys;
      var i :| 0 <= i < |SPECS| && SPECS[i].name == name;
    }
    forall name | name in OtherNames() ensures name in others {
      var i :| CAPTURE_RUNS <= i < |SPECS| && SPECS[i].name == name;
      assert name in SpecNames();
    }
  }

  lemma AllNamed(others: ArtifactSet, artifacts: ArtifactSet)
    requires others.Keys == OtherNames()
    requires forall i :: 0 <= i < |SPECS| ==> SPECS[i].name in artifacts
    requires forall name :: (forall i :: 0 <= i < CAPTURE_RUNS ==> name != SPECS[i].name) ==>
      (name in artifacts <==> name in others)
    ensures artifacts.Keys == SpecNames()
  {
    hide SPECS;
    DistinctNames();
    forall name | name in artifacts ensures name in SpecNames() {
      if forall i :: 0 <= i < CAPTURE_RUNS ==> name != SPECS[i].name {
        assert name in others.Keys;
      }
    }
  }

  /** The capture evals are run and bundled with the artifacts of the others: exactly where every
      answer to every run is as it should be and all the artifacts fit together. */
  method BundleRuns(plan: Plan, disk: Disk, others: ArtifactSet, expected: Json, limits: Limits)
    returns (r: Result<Dict, Raised>, artifacts: ArtifactSet)
    requires forall i :: 0 <= i < CAPTURE_RUNS ==> SPECS[i].name !in others
    ensures r.Ok? <==>
      && limits.maxAgeMs > 0 && limits.maxSpanMs > 0
      && ValidateWorkspace(expected).Some?
      && FitTogether(plan, others, artifacts, ValidateWorkspace(expected).value, limits)
  {
    hide SPECS, ValidateWorkspace, WithinSpan, ArtifactFits, GoodAndRecent, FitTogether;
    artifacts := RecordCaptures(plan, disk, others);
    r := BuildBundle(artifacts, expected, limits);
    if ValidateWorkspace(expected).Some? && limits.maxAgeMs > 0 && limits.maxSpanMs > 0 {
      AcceptableExactly(plan, others, artifacts, expected, ValidateWorkspace(expected).value, limits);
    }
  }
}
