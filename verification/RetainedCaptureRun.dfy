/**
 The retained-capture eval: one capture session, a frame per scenario, and evidence written
 however the run ends. Proves that the session is closed exactly once wherever an exception
 strikes, and that passed evidence satisfies the acceptance validators.
 */
module RetainedCaptureRun {
  import opened Outcome
  import opened EvalJson
  import opened CaptureChecks
  import opened CaptureLog
  import opened AcceptanceValidators

  const SCENARIOS: seq<string> := [
    "focused_visible", "unfocused_visible", "partially_occluded", "fully_occluded",
    "minimized", "popup_or_dialog", "moved_resized", "monitor_or_scale_change"]

  datatype Config = Config(windowId: string, scenarios: seq<string>, maxEdge: int, requireMultiOutput: bool)

  const VERDICTS: set<string> := {"pass", "fail", "skip"}

  // ---------- Scenario entries ----------

  function Entry(name: string, verdict: string, frame: Json): Json {
    Obj(map[Name := Str(name), VisualVerdict := Str(verdict), Frame := frame])
  }

  function FrameField(entry: Json, f: Field): Json {
    if entry.Obj? && Get(entry.fields, Frame).Obj? then Get(Get(entry.fields, Frame).fields, f) else Null
  }

  /** The revision waited past in the k-th scenario: that of the last frame before it. */
  function RevisionBefore(entries: seq<Json>, initial: Json, k: nat): Json
    requires k <= |entries|
  {
    if k == 0 then initial
    else if FrameField(entries[k - 1], Revision) != Null then FrameField(entries[k - 1], Revision)
    else RevisionBefore(entries, initial, k - 1)
  }

  /** A scenario skipped without a frame, or judged on a frame that is fresh only where its
      revision is not the one waited past. */
  predicate SoundEntry(entry: Json, name: string, previous: Json) {
    && entry.Obj? && Get(entry.fields, Name) == Str(name)
    && Get(entry.fields, VisualVerdict).Str? && Get(entry.fields, VisualVerdict).s in VERDICTS
    && if Get(entry.fields, Frame).Obj? then
         && NonEmptyStr(FrameField(entry, Revision))
         && (FrameField(entry, FreshFrame) == TRUE ==> FrameField(entry, Revision) != previous)
       else Get(entry.fields, Frame) == Null && Get(entry.fields, VisualVerdict) == Str("skip")
  }

  /** One sound entry per scenario so far, in order. */
  predicate Sampled(entries: seq<Json>, names: seq<string>, initial: Json) {
    && |entries| <= |names|
    && forall k :: 0 <= k < |entries| ==> SoundEntry(entries[k], names[k], RevisionBefore(entries, initial, k))
  }

  lemma SampledAtStart(names: seq<string>, initial: Json)
    ensures Sampled([], names, initial) && RevisionBefore([], initial, 0) == initial
  {
  }

  lemma {:induction false} RevisionBeforeAppend(entries: seq<Json>, entry: Json, initial: Json, k: nat)
    requires k <= |entries|
    ensures RevisionBefore(entries + [entry], initial, k) == RevisionBefore(entries, initial, k)
  {
    if k > 0 { RevisionBeforeAppend(entries, entry, initial, k - 1); }
  }

  lemma AppendEntry(entries: seq<Json>, entry: Json, names: seq<string>, initial: Json)
    requires Sampled(entries, names, initial) && |entries| < |names|
    requires SoundEntry(entry, names[|entries|], RevisionBefore(entries, initial, |entries|))
    ensures Sampled(entries + [entry], names, initial)
    ensures RevisionBefore(entries + [entry], initial, |entries| + 1)
         == if FrameField(entry, Revision) != Null then FrameField(entry, Revision)
            else RevisionBefore(entries, initial, |entries|)
  {
    hide RevisionBefore, SoundEntry;
    var all := entries + [entry];
    forall k | 0 <= k < |all| ensures SoundEntry(all[k], names[k], RevisionBefore(all, initial, k)) {
      RevisionBeforeAppend(entries, entry, initial, k);
    }
    RevisionBeforeAppend(entries, entry, initial, |entries|);
    LastRevision(all, initial);
  }

  lemma SkippedEntry(name: string, previous: Json)
    ensures SoundEntry(Entry(name, "skip", Null), name, previous)
    ensures FrameField(Entry(name, "skip", Null), Revision) == Null
    ensures !ScenarioPassed(Entry(name, "skip", Null))
  {
  }

  lemma JudgedEntry(name: string, verdict: string, frame: Dict, previous: string)
    requires verdict in VERDICTS && NonEmptyStr(Get(frame, Revision))
    requires Get(frame, FreshFrame) == TRUE ==> Get(frame, Revision) != Str(previous)
    ensures SoundEntry(Entry(name, verdict, Obj(frame)), name, Str(previous))
    ensures FrameField(Entry(name, verdict, Obj(frame)), Revision) == Get(frame, Revision)
    ensures ScenarioPassed(Entry(name, verdict, Obj(frame))) <==> verdict == "pass" && Get(frame, FreshFrame) == TRUE
  {
    hide VERDICTS;
  }

  lemma LastRevision(entries: seq<Json>, initial: Json)
    requires entries != []
    ensures RevisionBefore(entries, initial, |entries|)
         == if FrameField(entries[|entries| - 1], Revision) != Null then FrameField(entries[|entries| - 1], Revision)
            else RevisionBefore(entries, initial, |entries| - 1)
  {
  }

  // ---------- The verdict on a run ----------

  predicate CaptureAcceptanceComplete(entries: seq<Json>, selected: seq<string>): (complete: bool)
    ensures complete ==> selected == SCENARIOS && |entries| == |SCENARIOS|
  {
    && selected == SCENARIOS && |entries| == |SCENARIOS|
    && AllPassed(entries)
  }

  function StatusOf(failed: bool, complete: bool, entries: seq<Json>): (status: string)
    ensures status == "failed" <==> failed
    ensures status == "passed" <==> !failed && complete
  {
    if failed then "failed"
    else if complete then "passed"
    else if exists k :: 0 <= k < |entries| && !SampledFresh(entries[k]) then "incomplete"
    else "partial"
  }

  /** Neither failed nor skipped, and with a fresh frame. */
  predicate SampledFresh(entry: Json) {
    && entry.Obj?
    && Get(entry.fields, VisualVerdict) != Str("fail") && Get(entry.fields, VisualVerdict) != Str("skip")
    && FrameField(entry, FreshFrame) == TRUE
  }

  // ---------- The answers a run has to be given to pass ----------

  function RevisionText(frame: Result<Dict, Raised>): string {
    if frame.Ok? && Get(frame.value, Revision).Str? then Get(frame.value, Revision).s else ""
  }

  /** The revision the k-th scenario waits past, where none before it was skipped. */
  function AwaitedRevision(config: Config, world: World, sessionId: string, k: nat): string {
    if k == 0 then RevisionText(FrameAt(world, 3, sessionId, None, config.maxEdge))
    else
      var before := Some(AwaitedRevision(config, world, sessionId, k - 1));
      RevisionText(FrameAt(world, 3 + k, sessionId, before, config.maxEdge))
  }

  function ScenarioFrame(config: Config, world: World, sessionId: string, k: nat): Result<Dict, Raised> {
    FrameAt(world, 4 + k, sessionId, Some(AwaitedRevision(config, world, sessionId, k)), config.maxEdge)
  }

  /** The k-th scenario is sampled, gives a fresh frame, and is judged a pass. */
  predicate GoodScenario(config: Config, world: World, sessionId: string, k: nat) {
    var frame := ScenarioFrame(config, world, sessionId, k);
    && world.prompt(2 * k).Gives? && world.prompt(2 * k).value !in {"s", "skip"}
    && frame.Ok? && Get(frame.value, FreshFrame) == TRUE
    && world.prompt(2 * k + 1).Gives? && NormalizeVisualVerdict(world.prompt(2 * k + 1).value) == Some("pass")
  }

  predicate GoodScenarios(config: Config, world: World, sessionId: string, n: nat) {
    forall k :: 0 <= k < n ==> GoodScenario(config, world, sessionId, k)
  }

  /** The layout is acceptable, no capture is active, the open is as requested, and its first
      frame is sound. */
  predicate GoodStart(config: Config, world: World) {
    && world.cli(0).Gives? && LayoutOf(world.cli(0).value, config.requireMultiOutput).Ok?
    && SawNoneActive(world.cli(1))
    && OpensSoundly(world.cli(2), config.windowId) && ActiveId(world.cli(2)).Some?
    && FrameAt(world, 3, ActiveId(world.cli(2)).value, None, config.maxEdge).Ok?
  }

  /** Every answer is as it should be, up to that to the close. */
  predicate GoodRun(config: Config, world: World) {
    && config.scenarios == SCENARIOS
    && world.workspace.Gives? && world.targetHash.Gives?
    && GoodStart(config, world)
    && GoodScenarios(config, world, ActiveId(world.cli(2)).value, |SCENARIOS|)
    && ClosedBy(world.cli(4 + |SCENARIOS|))
  }

  predicate AllPassed(entries: seq<Json>) {
    forall k :: 0 <= k < |entries| ==> ScenarioPassed(entries[k])
  }

  // ---------- The body under `try` ----------

  function NameList(names: seq<string>): (list: Json)
    ensures list.Arr?
  {
    Arr(seq(|names|, i requires 0 <= i < |names| => Str(names[i])))
  }

  function StartEvidence(config: Config, world: World, workspace: Json, targetHash: string): Dict {
    map[
      Type := Str("seatgeist_retained_capture_eval"),
      Version := Int(1),
      Status := Str("running"),
      AcceptanceComplete := FALSE,
      Workspace := workspace,
      StartedUnixMs := Int(world.startedMs),
      EndedUnixMs := Null,
      TargetWindowSha256 := Str(targetHash),
      SocketIdentity := world.socket,
      SelectedScenarios := NameList(config.scenarios),
      AllScenariosSelected := Bool(config.scenarios == SCENARIOS),
      PortalOpenCount := Int(0),
      ExplicitFocusCallCount := Int(0),
      Session := Null,
      MonitorLayout := Null,
      LayoutRequirement := Str(if config.requireMultiOutput then "multi_output_nonzero_origin" else "none"),
      InitialFrame := Null,
      Scenarios := Arr([]),
      SessionClosed := FALSE,
      Errors := Arr([])]
  }

  predicate ChangedInBody(f: Field) {
    f.PortalOpenCount? || f.Session? || f.MonitorLayout? || f.InitialFrame? || f.Scenarios?
  }

  /** The body has changed nothing but its own fields. */
  ghost predicate SameElsewhere(evidence: Dict, start: Dict) {
    forall f: Field :: !ChangedInBody(f) ==> Get(evidence, f) == Get(start, f)
  }

  lemma SameAtStart(start: Dict)
    ensures SameElsewhere(start, start)
  {
  }

  lemma SameAfter(evidence: Dict, start: Dict, f: Field, value: Json)
    requires SameElsewhere(evidence, start) && ChangedInBody(f)
    ensures SameElsewhere(evidence[f := value], start)
  {
  }

  /** The layout noted is that of a monitor list, and meets the requirement where there is one. */
  predicate LayoutNoted(layout: Json, required: bool) {
    && layout.Obj?
    && Get(layout.fields, MonitorCount).Int?
    && (required ==> Get(layout.fields, MonitorCount).n >= 2 && Get(layout.fields, HasNonzeroLogicalOrigin) == TRUE)
  }

  lemma LayoutIsNoted(response: Dict, required: bool)
    requires LayoutOf(response, required).Ok?
    ensures LayoutNoted(Obj(LayoutOf(response, required).value), required)
  {
    hide SoundMonitor, CleanMonitor, AnyOrigin;
  }

  /** Evidence of a body that ran to its end. */
  predicate Finished(evidence: Dict, config: Config, entries: seq<Json>) {
    && Get(evidence, PortalOpenCount) == Int(1)
    && LayoutNoted(Get(evidence, MonitorLayout), config.requireMultiOutput)
    && Get(evidence, InitialFrame).Obj?
    && Get(evidence, Scenarios) == Arr(entries)
    && |entries| == |config.scenarios|
    && Sampled(entries, config.scenarios, Get(Get(evidence, InitialFrame).fields, Revision))
  }

  /** From the monitor list to the first frame. */
  method BeginCapture(config: Config, world: World, start: Dict)
    returns (evidence: Dict, calls: seq<Call>, sessionId: Option<string>, failure: Option<Raised>)
    requires Get(start, Scenarios) == Arr([])
    ensures Holds(calls, world, sessionId)
    ensures SameElsewhere(evidence, start) && Get(evidence, Scenarios) == Arr([])
    ensures failure.None? <==> GoodStart(config, world)
    ensures failure.None? ==>
      && |calls| == 4 && sessionId.Some? && sessionId == ActiveId(world.cli(2))
      && Get(evidence, PortalOpenCount) == Int(1)
      && LayoutNoted(Get(evidence, MonitorLayout), config.requireMultiOutput)
      && Get(evidence, InitialFrame) == Obj(FrameAt(world, 3, sessionId.value, None, config.maxEdge).value)
      && NonEmptyStr(Get(Get(evidence, InitialFrame).fields, Revision))
  {
    hide Holds, NonEmptyStr, SameElsewhere, LayoutOf, LayoutNoted, OpenAsRequested, FrameAt, ActiveId, OpensSoundly,
         SawNoneActive, ReferenceIn;
    SameAtStart(start);
    evidence, calls, sessionId, failure := start, [], None, None;
    HoldsAtStart(world);
    var monitors := world.cli(0);
    calls := [ListMonitors];
    HoldsOn([], ListMonitors, world, None);
    assert [] + [ListMonitors] == calls;
    if monitors.Raises? {
      failure := Some(monitors.raised);
      return;
    }
    var layout := SanitizedMonitorLayout(monitors.value, config.requireMultiOutput);
    if layout.Err? {
      failure := Some(layout.error);
      return;
    }
    LayoutIsNoted(monitors.value, config.requireMultiOutput);
    SameAfter(evidence, start, MonitorLayout, Obj(layout.value));
    evidence := evidence[MonitorLayout := Obj(layout.value)];
    calls, failure := CheckNoneActive(world, calls);
    if failure.Some? {
      return;
    }
    var answered, session;
    calls, answered, sessionId, session := OpenCapture(config.windowId, world, calls);
    if answered {
      SameAfter(evidence, start, PortalOpenCount, Int(1));
      evidence := evidence[PortalOpenCount := Int(1)];
    }
    if session.Err? {
      failure := Some(session.error);
      return;
    }
    SameAfter(evidence, start, Session, Obj(session.value));
    evidence := evidence[Session := Obj(session.value)];
    var frame;
    calls, frame := CaptureFrame(sessionId.value, None, config.maxEdge, world, calls);
    if frame.Err? {
      failure := Some(frame.error);
      return;
    }
    SameAfter(evidence, start, InitialFrame, Obj(frame.value));
    evidence := evidence[InitialFrame := Obj(frame.value)];
  }

  /** A frame and a verdict per scenario, or a note that the operator skipped it. */
  method SampleScenarios(config: Config, world: World, begun: Dict, sessionId: string, log: seq<Call>)
    returns (evidence: Dict, calls: seq<Call>, entries: seq<Json>, failure: Option<Raised>)
    requires Holds(log, world, Some(sessionId)) && |log| == 4
    requires Get(begun, Scenarios) == Arr([])
    requires Get(begun, InitialFrame).Obj? && NonEmptyStr(Get(Get(begun, InitialFrame).fields, Revision))
    requires FrameAt(world, 3, sessionId, None, config.maxEdge) == Ok(Get(begun, InitialFrame).fields)
    ensures Holds(calls, world, Some(sessionId))
    ensures evidence == begun[Scenarios := Arr(entries)]
    ensures Sampled(entries, config.scenarios, Get(Get(begun, InitialFrame).fields, Revision))
    ensures if failure.None? then |entries| == |config.scenarios| else |entries| < |config.scenarios|
    ensures failure.None? && AllPassed(entries) <==> GoodScenarios(config, world, sessionId, |config.scenarios|)
    ensures failure.None? && AllPassed(entries) ==> |calls| == 4 + |config.scenarios|
  {
    hide Holds, RevisionBefore, Sampled, SoundEntry, FrameField, FrameAt, GoodScenario, ScenarioPassed,
         AwaitedRevision, AllPassed;
    var initial := Get(Get(begun, InitialFrame).fields, Revision);
    evidence, calls, entries, failure := begun[Scenarios := Arr([])], log, [], None;
    NonePassed();
    SampledAtStart(config.scenarios, initial);
    FirstAwaited(config, world, sessionId);
    var previousRevision := initial.s;
    var prompts := 0;
    for index := 0 to |config.scenarios|
      invariant Holds(calls, world, Some(sessionId))
      invariant evidence == begun[Scenarios := Arr(entries)]
      invariant |entries| == index && Sampled(entries, config.scenarios, initial)
      invariant Str(previousRevision) == RevisionBefore(entries, initial, index)
      invariant AllPassed(entries) <==> GoodScenarios(config, world, sessionId, index)
      invariant AllPassed(entries) ==>
        && |calls| == 4 + index && prompts == 2 * index
        && previousRevision == AwaitedRevision(config, world, sessionId, index)
    {
      GoodNext(config, world, sessionId, index);
      var name := config.scenarios[index];
      var ready := world.prompt(prompts);
      prompts := prompts + 1;
      if ready.Raises? {
        failure := Some(ready.raised);
        return;
      }
      var entry;
      if ready.value in {"s", "skip"} {
        entry := Entry(name, "skip", Null);
        SkippedEntry(name, Str(previousRevision));
      } else {
        var frame;
        calls, frame := CaptureFrame(sessionId, Some(previousRevision), config.maxEdge, world, calls);
        if frame.Err? {
          failure := Some(frame.error);
          return;
        }
        ghost var before := previousRevision;
        previousRevision := Get(frame.value, Revision).s;
        var answer := world.prompt(prompts);
        prompts := prompts + 1;
        if answer.Raises? {
          failure := Some(answer.raised);
          return;
        }
        var verdict := NormalizeVisualVerdict(answer.value);
        if verdict.None? {
          failure := Some(REJECTED);
          return;
        }
        entry := Entry(name, verdict.value, Obj(frame.value));
        JudgedEntry(name, verdict.value, frame.value, before);
      }
      AppendEntry(entries, entry, config.scenarios, initial);
      PassedNext(entries, entry);
      entries := entries + [entry];
      evidence := evidence[Scenarios := Arr(entries)];
    }
  }

  lemma NonePassed()
    ensures AllPassed([])
  {
  }

  lemma PassedNext(entries: seq<Json>, entry: Json)
    ensures AllPassed(entries + [entry]) <==> AllPassed(entries) && ScenarioPassed(entry)
  {
    hide ScenarioPassed;
    var all := entries + [entry];
    assert all[|entries|] == entry;
    assert forall k :: 0 <= k < |entries| ==> all[k] == entries[k];
  }

  lemma FirstAwaited(config: Config, world: World, sessionId: string)
    ensures AwaitedRevision(config, world, sessionId, 0)
            == RevisionText(FrameAt(world, 3, sessionId, None, config.maxEdge))
  {
  }

  /** What makes the next scenario good, and what the one after it waits past. */
  lemma GoodNext(config: Config, world: World, sessionId: string, k: nat)
    ensures GoodScenario(config, world, sessionId, k) <==>
      && world.prompt(2 * k).Gives? && world.prompt(2 * k).value !in {"s", "skip"}
      && ScenarioFrame(config, world, sessionId, k).Ok?
      && Get(ScenarioFrame(config, world, sessionId, k).value, FreshFrame) == TRUE
      && world.prompt(2 * k + 1).Gives? && NormalizeVisualVerdict(world.prompt(2 * k + 1).value) == Some("pass")
    ensures AwaitedRevision(config, world, sessionId, k + 1) == RevisionText(ScenarioFrame(config, world, sessionId, k))
  {
  }

  /** The body under `try`. */
  method CaptureBody(config: Config, world: World, start: Dict)
    returns (evidence: Dict, calls: seq<Call>, sessionId: Option<string>, entries: seq<Json>, failure: Option<Raised>)
    requires Get(start, Scenarios) == Arr([])
    ensures Holds(calls, world, sessionId)
    ensures SameElsewhere(evidence, start) && Get(evidence, Scenarios) == Arr(entries)
    ensures if failure.None? then sessionId.Some? && Finished(evidence, config, entries)
            else entries == [] || |entries| < |config.scenarios|
    ensures failure.None? && AllPassed(entries) <==>
            GoodStart(config, world) && GoodScenarios(config, world, ActiveId(world.cli(2)).value, |config.scenarios|)
    ensures failure.None? ==> |entries| == |config.scenarios|
    ensures failure.None? && AllPassed(entries) ==> |calls| == 4 + |config.scenarios|
  {
    hide Holds, SameElsewhere, LayoutNoted, Sampled, NonEmptyStr, GoodScenario, FrameAt, ActiveId, ScenarioPassed,
         LayoutOf, OpensSoundly, SawNoneActive;
    entries := [];
    evidence, calls, sessionId, failure := BeginCapture(config, world, start);
    if failure.None? {
      var begun := evidence;
      evidence, calls, entries, failure := SampleScenarios(config, world, begun, sessionId.value, calls);
      SameAfter(begun, start, Scenarios, Arr(entries));
    }
  }

  // ---------- The whole run ----------

  /** Every frame of the run shows a revision other than the one shown before it. */
  predicate RevisionsMoveOn(evidence: Dict) {
    && Get(evidence, InitialFrame).Obj? && Get(evidence, Scenarios).Arr?
    && var entries := Get(evidence, Scenarios).items;
       forall k :: 0 <= k < |entries| ==> MovesOn(entries, Get(Get(evidence, InitialFrame).fields, Revision), k)
  }

  predicate MovesOn(entries: seq<Json>, initial: Json, k: nat)
    requires k < |entries|
  {
    FrameField(entries[k], Revision) != if k == 0 then initial else FrameField(entries[k - 1], Revision)
  }

  // ---------- Passed evidence is acceptable ----------

  lemma StartSays(config: Config, world: World, workspace: Json, targetHash: string)
    ensures var start := StartEvidence(config, world, workspace, targetHash);
      && Get(start, Type) == Str("seatgeist_retained_capture_eval")
      && Get(start, Version) == Int(1)
      && Get(start, Workspace) == workspace
      && Get(start, StartedUnixMs) == Int(world.startedMs)
      && Get(start, AllScenariosSelected) == Bool(config.scenarios == SCENARIOS)
      && Get(start, SelectedScenarios) == NameList(config.scenarios)
  {
    hide SCENARIOS, NameList;
  }

  lemma StartSaysMore(config: Config, world: World, workspace: Json, targetHash: string)
    ensures var start := StartEvidence(config, world, workspace, targetHash);
      && Get(start, ExplicitFocusCallCount) == Int(0)
      && Get(start, LayoutRequirement)
         == Str(if config.requireMultiOutput then "multi_output_nonzero_origin" else "none")
      && Get(start, Scenarios) == Arr([])
  {
    hide SCENARIOS, NameList;
  }

  lemma KeptFromStart(config: Config, world: World, workspace: Json, targetHash: string, body: Dict)
    requires SameElsewhere(body, StartEvidence(config, world, workspace, targetHash))
    ensures Get(body, Type) == Str("seatgeist_retained_capture_eval")
    ensures Get(body, Version) == Int(1)
    ensures Get(body, Workspace) == workspace
    ensures Get(body, StartedUnixMs) == Int(world.startedMs)
    ensures Get(body, AllScenariosSelected) == Bool(config.scenarios == SCENARIOS)
    ensures Get(body, SelectedScenarios) == NameList(config.scenarios)
    ensures Get(body, ExplicitFocusCallCount) == Int(0)
    ensures Get(body, LayoutRequirement)
            == Str(if config.requireMultiOutput then "multi_output_nonzero_origin" else "none")
  {
    hide SCENARIOS, NameList, StartEvidence, Get;
    StartSays(config, world, workspace, targetHash);
    StartSaysMore(config, world, workspace, targetHash);
  }

  lemma TwoSpecs()
    ensures |SPECS| > 1
    ensures SPECS[0].evidenceType == SPECS[1].evidenceType == "seatgeist_retained_capture_eval"
    ensures SPECS[0].version == SPECS[1].version == 1
    ensures SPECS[0].validator == Retained && SPECS[1].validator == MultiOutput
  {
  }

  lemma AllScenarios()
    ensures |SCENARIOS| == |RETAINED_SCENARIOS| == 8
    ensures forall name :: name in RETAINED_SCENARIOS <==> name in SCENARIOS
  {
    assert |RETAINED_SCENARIOS - {"focused_visible", "unfocused_visible", "partially_occluded", "fully_occluded"}| == 4;
  }

  /** The names of the eight selected scenarios, and of their entries, are those acceptance asks for. */
  lemma NamesAsRequired(entries: seq<Json>, initial: Json)
    requires Sampled(entries, SCENARIOS, initial) && |entries| == |SCENARIOS|
    ensures |entries| == |RETAINED_SCENARIOS|
    ensures Elements(NameList(SCENARIOS).items) == AsStrings(RETAINED_SCENARIOS)
    ensures NamesOf(entries) == AsStrings(RETAINED_SCENARIOS)
  {
    hide RevisionBefore, SCENARIOS, RETAINED_SCENARIOS, VERDICTS, FrameField;
    AllScenarios();
    var wanted, listed := AsStrings(RETAINED_SCENARIOS), NameList(SCENARIOS).items;
    forall j | j in wanted ensures j in Elements(listed) && j in NamesOf(entries) {
      var k :| 0 <= k < |SCENARIOS| && SCENARIOS[k] == j.s;
      assert listed[k] == j;
      assert SoundEntry(entries[k], SCENARIOS[k], RevisionBefore(entries, initial, k));
    }
    forall j | j in Elements(listed) ensures j in wanted {
    }
    forall j | j in NamesOf(entries) ensures j in wanted {
      var k :| 0 <= k < |entries| && entries[k].Obj? && Get(entries[k].fields, Name) == j;
      assert SoundEntry(entries[k], SCENARIOS[k], RevisionBefore(entries, initial, k));
      assert SCENARIOS[k] in SCENARIOS;
    }
  }

  lemma PassedMovesOn(entries: seq<Json>, names: seq<string>, initial: Json, k: nat)
    requires Sampled(entries, names, initial) && k < |entries|
    requires forall i :: 0 <= i < |entries| ==> ScenarioPassed(entries[i])
    ensures MovesOn(entries, initial, k)
  {
    hide VERDICTS;
    assert SoundEntry(entries[k], names[k], RevisionBefore(entries, initial, k)) && ScenarioPassed(entries[k]);
    if k > 0 {
      assert SoundEntry(entries[k - 1], names[k - 1], RevisionBefore(entries, initial, k - 1))
        && ScenarioPassed(entries[k - 1]);
    }
  }

  lemma AllMoveOn(evidence: Dict, entries: seq<Json>, names: seq<string>)
    requires Get(evidence, InitialFrame).Obj? && Get(evidence, Scenarios) == Arr(entries)
    requires Sampled(entries, names, Get(Get(evidence, InitialFrame).fields, Revision))
    requires forall i :: 0 <= i < |entries| ==> ScenarioPassed(entries[i])
    ensures RevisionsMoveOn(evidence)
  {
    hide Sampled, ScenarioPassed, MovesOn;
    var initial := Get(Get(evidence, InitialFrame).fields, Revision);
    forall k | 0 <= k < |entries| ensures MovesOn(entries, initial, k) {
      PassedMovesOn(entries, names, initial, k);
    }
  }

  /** What passed evidence stands for: both retained validators' verdict, the run's workspace and
      times, and a new revision in every frame. */
  predicate PassedEvidence(evidence: Dict, config: Config, world: World) {
    && world.workspace.Gives? && Get(evidence, Workspace) == world.workspace.value
    && Get(evidence, StartedUnixMs) == Int(world.startedMs) && Get(evidence, EndedUnixMs) == Int(world.endedMs)
    && RevisionsMoveOn(evidence)
    && Records(SPECS[0], evidence)
    && (Records(SPECS[1], evidence) <==> config.requireMultiOutput)
  }

  /** The verdict of the run, written over its evidence. */
  function Concluded(body: Dict, closed: bool, errors: seq<Json>, complete: bool, status: string,
                     endedMs: int): (final: Dict)
    ensures Get(final, SessionClosed) == Bool(closed) && Get(final, Errors) == Arr(errors)
    ensures Get(final, AcceptanceComplete) == Bool(complete) && Get(final, Status) == Str(status)
    ensures Get(final, EndedUnixMs) == Int(endedMs)
    ensures forall f: Field ::
      !f.SessionClosed? && !f.Errors? && !f.AcceptanceComplete? && !f.Status? && !f.EndedUnixMs? ==>
        Get(final, f) == Get(body, f)
  {
    body[SessionClosed := Bool(closed)][Errors := Arr(errors)][AcceptanceComplete := Bool(complete)]
        [Status := Str(status)][EndedUnixMs := Int(endedMs)]
  }

  lemma PassedIsRetained(config: Config, world: World, workspace: Json, targetHash: string, body: Dict,
                         entries: seq<Json>, final: Dict)
    requires SameElsewhere(body, StartEvidence(config, world, workspace, targetHash))
    requires Finished(body, config, entries) && CaptureAcceptanceComplete(entries, config.scenarios)
    requires final == Concluded(body, true, [], true, "passed", world.endedMs)
    ensures ValidRetained(final)
  {
    hide Sampled, ScenarioPassed, StartEvidence, SCENARIOS, RETAINED_SCENARIOS, Elements, NamesOf, AsStrings,
         NameList, SameElsewhere, Concluded, LayoutNoted, Get;
    KeptFromStart(config, world, workspace, targetHash, body);
    NamesAsRequired(entries, Get(Get(body, InitialFrame).fields, Revision));
  }

  lemma PassedIsValid(config: Config, world: World, workspace: Json, targetHash: string, body: Dict,
                      entries: seq<Json>, final: Dict)
    requires SameElsewhere(body, StartEvidence(config, world, workspace, targetHash))
    requires Finished(body, config, entries) && CaptureAcceptanceComplete(entries, config.scenarios)
    requires final == Concluded(body, true, [], true, "passed", world.endedMs)
    ensures world.workspace == Gives(workspace) ==> PassedEvidence(final, config, world)
  {
    hide Sampled, ScenarioPassed, StartEvidence, SCENARIOS, RevisionsMoveOn, SameElsewhere, ValidRetained, Concluded,
         SPECS, NameList, Get;
    TwoSpecs();
    KeptFromStart(config, world, workspace, targetHash, body);
    PassedIsRetained(config, world, workspace, targetHash, body, entries, final);
    AllMoveOn(final, entries, config.scenarios);
  }

  /** The run: how it ends, the evidence file it leaves, and its CLI calls. */
  method RunCaptureEval(config: Config, world: World)
    returns (outcome: Answer<Dict>, stored: Option<Dict>, calls: seq<Call>)
    ensures Settled(calls, world)
    ensures outcome.Gives? ==> stored == Some(outcome.value)
    ensures stored.Some? ==>
      && (Get(stored.value, Status) == Str("failed") <==> Get(stored.value, Errors) != Arr([]))
      && Get(stored.value, Scenarios).Arr?
      && (Get(stored.value, Status) == Str("passed") <==>
            && Get(stored.value, Errors) == Arr([])
            && CaptureAcceptanceComplete(Get(stored.value, Scenarios).items, config.scenarios))
    ensures (stored.Some? && Get(stored.value, Status) == Str("passed")) <==> GoodRun(config, world)
    ensures stored.Some? && Get(stored.value, Status) == Str("passed") ==>
      outcome.Gives? && PassedEvidence(stored.value, config, world)
  {
    hide Holds, Settled, PassedEvidence, SameElsewhere, Sampled, ScenarioPassed, SampledFresh, SCENARIOS,
         RETAINED_SCENARIOS, Concluded, StartEvidence, Get, Finished, StatusOf, AllPassed, GoodStart, GoodScenarios,
         ClosedBy, ActiveId;
    stored, calls := None, [];
    HoldsAtStart(world);
    SettledByClose([], world, None);
    if world.workspace.Raises? {
      return Raises(world.workspace.raised), stored, calls;
    }
    if world.targetHash.Raises? {
      return Raises(world.targetHash.raised), stored, calls;
    }
    var start := StartEvidence(config, world, world.workspace.value, world.targetHash.value);
    StartSaysMore(config, world, world.workspace.value, world.targetHash.value);
    var evidence, sessionId, entries, failure;
    evidence, calls, sessionId, entries, failure := CaptureBody(config, world, start);
    var errors: seq<Json> := [];
    if failure.Some? && failure.value != Crash {
      errors := [Str(if failure.value.EvalError? then failure.value.message else "")];
    }
    var closed, noted, escaped;
    calls, closed, noted, escaped := CloseOpened(sessionId, world, calls);
    if escaped.Some? {
      return Raises(escaped.value), stored, calls;
    }
    if noted.Some? {
      errors := errors + [noted.value];
    }
    var complete := CaptureAcceptanceComplete(entries, config.scenarios);
    var status := StatusOf(errors != [], complete, entries);
    ghost var body := evidence;
    evidence := Concluded(evidence, closed, errors, complete, status, world.endedMs);
    stored := Some(evidence);
    outcome := if failure == Some(Crash) then Raises(Crash) else Gives(evidence);
    AllScenarios();
    if status == "passed" {
      PassedIsValid(config, world, world.workspace.value, world.targetHash.value, body, entries, evidence);
    }
  }
}
