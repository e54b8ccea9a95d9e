/**
 The acceptance bundle: one evidence artifact per spec, all valid, recent, close together in time
 and recorded from one workspace revision. Proves exactly which artifact sets are bundled.
 */
module AcceptanceBundle {
  import opened Outcome
  import opened EvalJson
  import opened AcceptanceValidators

  const MAX_ARTIFACT_BYTES: int := 4 * 1024 * 1024
  const FUTURE_TOLERANCE_MS: int := 5 * 60 * 1000

  /** An evidence file: its size, and what reading it gives. */
  datatype ArtifactFile = ArtifactFile(bytes: int, sha256: string, content: Answer<Json>)

  datatype Limits = Limits(now: int, maxAgeMs: int, maxSpanMs: int)

  // ---------- One artifact ----------

  predicate IsHex(s: string, n: nat) {
    |s| == n && forall i :: 0 <= i < n ==> '0' <= s[i] <= '9' || 'a' <= s[i] <= 'f'
  }

  function ValidateWorkspace(value: Json): Option<Dict> {
    if !value.Obj? then None
    else
      var head, tree, dirty := Get(value.fields, GitHead), Get(value.fields, TreeSha256), Get(value.fields, Dirty);
      if head.Str? && IsHex(head.s, 40) && tree.Str? && IsHex(tree.s, 64) && dirty.Bool?
      then Some(map[GitHead := head, TreeSha256 := tree, Dirty := dirty])
      else None
  }

  /** When the evidence was recorded; booleans are no timestamps. */
  function EvidenceInterval(evidence: Dict): (r: Option<(int, int)>)
    ensures forall a, b :: r == Some((a, b)) <==>
      && 0 <= a <= b
      && (if Get(evidence, Type) == Str("seatgeist_computer_use_baseline") then
            && Get(evidence, Filters).Obj?
            && Get(Get(evidence, Filters).fields, StartUnixMs) == Int(a)
            && Get(Get(evidence, Filters).fields, EndUnixMs) == Int(b)
          else Get(evidence, StartedUnixMs) == Int(a) && Get(evidence, EndedUnixMs) == Int(b))
  {
    var filtered := Get(evidence, Type) == Str("seatgeist_computer_use_baseline");
    if filtered && !Get(evidence, Filters).Obj? then None
    else
      var start := if filtered then Get(Get(evidence, Filters).fields, StartUnixMs) else Get(evidence, StartedUnixMs);
      var end := if filtered then Get(Get(evidence, Filters).fields, EndUnixMs) else Get(evidence, EndedUnixMs);
      if start.Int? && end.Int? && 0 <= start.n <= end.n then Some((start.n, end.n)) else None
  }

  function EvidenceOf(file: ArtifactFile): Dict {
    if file.content.Gives? && file.content.value.Obj? then file.content.value.fields else map[]
  }

  /** A readable artifact of the spec's type and version, from the workspace expected. */
  predicate Genuine(file: ArtifactFile, spec: ArtifactSpec, workspace: Dict) {
    && file.bytes <= MAX_ARTIFACT_BYTES
    && file.content.Gives? && file.content.value.Obj?
    && ValidateWorkspace(Get(EvidenceOf(file), Workspace)) == Some(workspace)
    && Records(spec, EvidenceOf(file))
  }

  predicate Recent(file: ArtifactFile, limits: Limits) {
    match EvidenceInterval(EvidenceOf(file))
    case None => false
    case Some((_, end)) => limits.now - limits.maxAgeMs <= end <= limits.now + FUTURE_TOLERANCE_MS
  }

  function StartOf(file: ArtifactFile): int {
    match EvidenceInterval(EvidenceOf(file)) case Some((start, _)) => start case None => 0
  }

  function EndOf(file: ArtifactFile): int {
    match EvidenceInterval(EvidenceOf(file)) case Some((_, end)) => end case None => 0
  }

  /** The evidence of a run from `started` to `ended` fits the bundle: it reads as its spec says, is
      small enough, is about the workspace expected, and ended in time. */
  predicate RunFits(evidence: Dict, spec: ArtifactSpec, started: int, ended: int, bytes: int, workspace: Dict,
                    limits: Limits) {
    && Records(spec, evidence) && bytes <= MAX_ARTIFACT_BYTES
    && ValidateWorkspace(Get(evidence, Workspace)) == Some(workspace)
    && 0 <= started <= ended && limits.now - limits.maxAgeMs <= ended <= limits.now + FUTURE_TOLERANCE_MS
  }

  /** The first four specs are those of the capture evals, whose evidence says when they ran. */
  lemma RunFitsExactly(i: nat, evidence: Dict, started: int, ended: int, file: ArtifactFile, workspace: Dict,
                       limits: Limits)
    requires i < 4 && file.content == Gives(Obj(evidence))
    requires Records(SPECS[i], evidence) ==>
      Get(evidence, StartedUnixMs) == Int(started) && Get(evidence, EndedUnixMs) == Int(ended)
    ensures Genuine(file, SPECS[i], workspace) && Recent(file, limits)
       <==> RunFits(evidence, SPECS[i], started, ended, file.bytes, workspace, limits)
    ensures RunFits(evidence, SPECS[i], started, ended, file.bytes, workspace, limits) ==>
      StartOf(file) == started && EndOf(file) == ended
  {
    hide Accepts, ValidateWorkspace, IsNumber, SPECS;
    CaptureSpecs();
    if Records(SPECS[i], evidence) && 0 <= started <= ended {
      assert EvidenceInterval(evidence) == Some((started, ended));
    }
  }

  lemma CaptureSpecs()
    ensures |SPECS| == 8
    ensures forall i :: 0 <= i < 4 ==> SPECS[i].evidenceType != "seatgeist_computer_use_baseline"
  {
    assert |"seatgeist_retained_capture_eval"| == 31 && |"seatgeist_computer_use_baseline"| == 31;
    assert "seatgeist_retained_capture_eval"[10] == 'r' && "seatgeist_computer_use_baseline"[10] == 'c';
    assert |"seatgeist_capture_restore_restart_eval"| == 38 && |"seatgeist_capture_lifecycle_eval"| == 32;
  }

  // ---------- The whole bundle ----------

  type ArtifactSet = map<string, ArtifactFile>

  function SpecNames(): set<string> {
    set i | 0 <= i < |SPECS| :: SPECS[i].name
  }

  predicate ArtifactFits(artifacts: ArtifactSet, i: nat, workspace: Dict, limits: Limits)
    requires i < |SPECS|
  {
    && SPECS[i].name in artifacts
    && Genuine(artifacts[SPECS[i].name], SPECS[i], workspace)
    && Recent(artifacts[SPECS[i].name], limits)
  }

  /** No artifact ends more than the span after any artifact starts. */
  predicate WithinSpan(artifacts: ArtifactSet, maxSpanMs: int)
    requires forall i :: 0 <= i < |SPECS| ==> SPECS[i].name in artifacts
  {
    forall i, j :: 0 <= i < |SPECS| && 0 <= j < |SPECS| ==>
      EndOf(artifacts[SPECS[i].name]) - StartOf(artifacts[SPECS[j].name]) <= maxSpanMs
  }

  /** What a bundle stands for. */
  predicate Acceptable(artifacts: ArtifactSet, expected: Json, limits: Limits) {
    && artifacts.Keys == SpecNames()
    && ValidateWorkspace(expected).Some?
    && limits.maxAgeMs > 0 && limits.maxSpanMs > 0
    && (forall i :: 0 <= i < |SPECS| ==> ArtifactFits(artifacts, i, ValidateWorkspace(expected).value, limits))
    && WithinSpan(artifacts, limits.maxSpanMs)
  }

  function Summary(spec: ArtifactSpec, file: ArtifactFile): Json {
    Obj(map[
      Name := Str(spec.name),
      Type := Str(spec.evidenceType),
      Version := Int(spec.version),
      StartedUnixMs := Int(StartOf(file)),
      EndedUnixMs := Int(EndOf(file)),
      Bytes := Int(file.bytes),
      Sha256 := Str(file.sha256)])
  }

  function Max(s: seq<int>): (m: int)
    requires s != []
    ensures m in s && forall x :: x in s ==> x <= m
  {
    if |s| == 1 then s[0] else
      var rest := Max(s[1..]);
      assert forall x :: x in s ==> x == s[0] || x in s[1..];
      if s[0] > rest then s[0] else rest
  }

  function Min(s: seq<int>): (m: int)
    requires s != []
    ensures m in s && forall x :: x in s ==> m <= x
  {
    if |s| == 1 then s[0] else
      var rest := Min(s[1..]);
      assert forall x :: x in s ==> x == s[0] || x in s[1..];
      if s[0] < rest then s[0] else rest
  }

  /** The extremes bound the span exactly where every pair does. */
  lemma SpanOfExtremes(artifacts: ArtifactSet, starts: seq<int>, ends: seq<int>, maxSpanMs: int)
    requires |starts| == |ends| == |SPECS| > 0
    requires forall i :: 0 <= i < |SPECS| ==> SPECS[i].name in artifacts
    requires forall i :: 0 <= i < |SPECS| ==> starts[i] == StartOf(artifacts[SPECS[i].name])
    requires forall i :: 0 <= i < |SPECS| ==> ends[i] == EndOf(artifacts[SPECS[i].name])
    ensures Max(ends) - Min(starts) <= maxSpanMs <==> WithinSpan(artifacts, maxSpanMs)
  {
    hide Max, Min, SPECS, StartOf, EndOf;
    var i :| 0 <= i < |ends| && ends[i] == Max(ends);
    var j :| 0 <= j < |starts| && starts[j] == Min(starts);
    if WithinSpan(artifacts, maxSpanMs) {
      assert EndOf(artifacts[SPECS[i].name]) - StartOf(artifacts[SPECS[j].name]) <= maxSpanMs;
    }
    if Max(ends) - Min(starts) <= maxSpanMs {
      forall k, l | 0 <= k < |SPECS| && 0 <= l < |SPECS|
        ensures EndOf(artifacts[SPECS[k].name]) - StartOf(artifacts[SPECS[l].name]) <= maxSpanMs
      {
        assert ends[k] in ends && starts[l] in starts;
      }
    }
  }

  lemma NamedArtifacts(artifacts: ArtifactSet)
    requires artifacts.Keys == SpecNames()
    ensures |SPECS| == 8 && forall i :: 0 <= i < |SPECS| ==> SPECS[i].name in artifacts
  {
    forall i | 0 <= i < |SPECS| ensures SPECS[i].name in artifacts {
      assert SPECS[i].name in SpecNames();
    }
  }

  /** The loop over the specs: the first artifact that does not fit ends it. */
  method Summarize(artifacts: ArtifactSet, workspace: Dict, limits: Limits)
    returns (fits: bool, summaries: seq<Json>, starts: seq<int>, ends: seq<int>)
    requires forall i :: 0 <= i < |SPECS| ==> SPECS[i].name in artifacts
    ensures fits <==> forall i :: 0 <= i < |SPECS| ==> ArtifactFits(artifacts, i, workspace, limits)
    ensures fits ==> |summaries| == |starts| == |ends| == |SPECS|
    ensures fits ==> forall k :: 0 <= k < |SPECS| ==>
      && starts[k] == StartOf(artifacts[SPECS[k].name])
      && ends[k] == EndOf(artifacts[SPECS[k].name])
      && summaries[k] == Summary(SPECS[k], artifacts[SPECS[k].name])
  {
    hide SPECS, Genuine, Recent, StartOf, EndOf, Summary;
    fits, summaries, starts, ends := true, [], [], [];
    for i := 0 to |SPECS|
      invariant fits && forall k :: 0 <= k < i ==> ArtifactFits(artifacts, k, workspace, limits)
      invariant |summaries| == |starts| == |ends| == i
      invariant forall k :: 0 <= k < i ==> starts[k] == StartOf(artifacts[SPECS[k].name])
      invariant forall k :: 0 <= k < i ==> ends[k] == EndOf(artifacts[SPECS[k].name])
      invariant forall k :: 0 <= k < i ==> summaries[k] == Summary(SPECS[k], artifacts[SPECS[k].name])
    {
      var spec := SPECS[i];
      var file := artifacts[spec.name];
      if !Genuine(file, spec, workspace) || !Recent(file, limits) {
        fits := false;
        assert !ArtifactFits(artifacts, i, workspace, limits);
        return;
      }
      starts := starts + [StartOf(file)];
      ends := ends + [EndOf(file)];
      summaries := summaries + [Summary(spec, file)];
    }
  }

  function BundleOf(workspace: Dict, limits: Limits, summaries: seq<Json>): (bundle: Dict)
    ensures Get(bundle, Status) == Str("passed") && Get(bundle, AcceptanceComplete) == TRUE
    ensures Get(bundle, Workspace) == Obj(workspace) && Get(bundle, Artifacts) == Arr(summaries)
    ensures Get(bundle, Type) == Str("seatgeist_cooperative_use_acceptance_bundle") && Get(bundle, Version) == Int(1)
    ensures Get(bundle, GeneratedUnixMs) == Int(limits.now)
    ensures Get(bundle, MaxAgeMs) == Int(limits.maxAgeMs) && Get(bundle, MaxSpanMs) == Int(limits.maxSpanMs)
  {
    map[
      Type := Str("seatgeist_cooperative_use_acceptance_bundle"),
      Version := Int(1),
      Status := Str("passed"),
      AcceptanceComplete := TRUE,
      GeneratedUnixMs := Int(limits.now),
      Workspace := Obj(workspace),
      MaxAgeMs := Int(limits.maxAgeMs),
      MaxSpanMs := Int(limits.maxSpanMs),
      Artifacts := Arr(summaries)]
  }

  /** What the bundle says of an artifact: which it is, when it was recorded, and its file. */
  predicate Summarized(summary: Json, spec: ArtifactSpec, file: ArtifactFile) {
    && summary.Obj?
    && Get(summary.fields, Name) == Str(spec.name) && Get(summary.fields, Type) == Str(spec.evidenceType)
    && Get(summary.fields, Version) == Int(spec.version)
    && (EvidenceInterval(EvidenceOf(file)).Some? ==>
          var (start, end) := EvidenceInterval(EvidenceOf(file)).value;
          Get(summary.fields, StartedUnixMs) == Int(start) && Get(summary.fields, EndedUnixMs) == Int(end))
    && Get(summary.fields, Bytes) == Int(file.bytes) && Get(summary.fields, Sha256) == Str(file.sha256)
  }

  lemma SummarySays(spec: ArtifactSpec, file: ArtifactFile)
    ensures Summarized(Summary(spec, file), spec, file)
  {
    hide EvidenceInterval, EvidenceOf;
  }

  lemma AllSummarized(artifacts: ArtifactSet, summaries: seq<Json>)
    requires |summaries| == |SPECS| && forall i :: 0 <= i < |SPECS| ==> SPECS[i].name in artifacts
    requires forall i :: 0 <= i < |SPECS| ==> summaries[i] == Summary(SPECS[i], artifacts[SPECS[i].name])
    ensures forall i :: 0 <= i < |SPECS| ==> Summarized(summaries[i], SPECS[i], artifacts[SPECS[i].name])
  {
    hide SPECS, Summary, Summarized;
    forall i | 0 <= i < |SPECS| ensures Summarized(summaries[i], SPECS[i], artifacts[SPECS[i].name]) {
      SummarySays(SPECS[i], artifacts[SPECS[i].name]);
    }
  }

  /** Bundles the artifacts exactly where they are acceptable, summarised in the order of the specs. */
  method BuildBundle(artifacts: ArtifactSet, expected: Json, limits: Limits) returns (r: Result<Dict, Raised>)
    ensures r.Ok? <==> Acceptable(artifacts, expected, limits)
    ensures r.Ok? ==>
      && Get(r.value, Status) == Str("passed") && Get(r.value, AcceptanceComplete) == TRUE
      && Get(r.value, Workspace) == Obj(ValidateWorkspace(expected).value)
      && Get(r.value, Artifacts).Arr?
      && var summaries := Get(r.value, Artifacts).items;
         && |summaries| == |SPECS|
         && forall i :: 0 <= i < |SPECS| ==>
              SPECS[i].name in artifacts && Summarized(summaries[i], SPECS[i], artifacts[SPECS[i].name])
    ensures r.Ok? ==>
      && Get(r.value, Type) == Str("seatgeist_cooperative_use_acceptance_bundle")
      && Get(r.value, Version) == Int(1) && Get(r.value, GeneratedUnixMs) == Int(limits.now)
      && Get(r.value, MaxAgeMs) == Int(limits.maxAgeMs) && Get(r.value, MaxSpanMs) == Int(limits.maxSpanMs)
  {
    hide SPECS, ValidateWorkspace, WithinSpan, ArtifactFits, StartOf, EndOf, SpecNames, Summary, Summarized;
    hide BundleOf, Max, Min, Get;
    if artifacts.Keys != SpecNames() {
      return Err(REJECTED);
    }
    NamedArtifacts(artifacts);
    var workspace := ValidateWorkspace(expected);
    if workspace.None? || limits.maxAgeMs <= 0 || limits.maxSpanMs <= 0 {
      return Err(REJECTED);
    }
    var fits, summaries, starts, ends := Summarize(artifacts, workspace.value, limits);
    if !fits {
      return Err(REJECTED);
    }
    SpanOfExtremes(artifacts, starts, ends, limits.maxSpanMs);
    if Max(ends) - Min(starts) > limits.maxSpanMs {
      return Err(REJECTED);
    }
    AllSummarized(artifacts, summaries);
    r := Ok(BundleOf(workspace.value, limits, summaries));
  }
}
