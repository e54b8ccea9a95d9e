/**
 What the answers to a passing eval run say, field by field: the status, the session opened, every
 frame, the closing, the files and sockets. The conditions are written over the raw responses, and
 proved to be those under which the runs pass.
 */
module CaptureAnswers {
  import opened Outcome
  import opened Positions
  import opened EvalJson
  import opened CaptureChecks
  import opened CaptureLog
  import Retained = RetainedCaptureRun
  import Restore = CaptureRestoreRun
  import Lifecycle = CaptureLifecycleRun

  // ---------- Fields of a response ----------

  /** The value behind a path of fields, or null. */
  function At2(d: Dict, a: Field, b: Field): Json {
    if Get(d, a).Obj? then Get(Get(d, a).fields, b) else Null
  }

  function At3(d: Dict, a: Field, b: Field, c: Field): Json {
    if At2(d, a, b).Obj? then Get(At2(d, a, b).fields, c) else Null
  }

  function At4(d: Dict, a: Field, b: Field, c: Field, e: Field): Json {
    if At3(d, a, b, c).Obj? then Get(At3(d, a, b, c).fields, e) else Null
  }

  /** A text that is not empty. */
  predicate Named(j: Json) {
    j.Str? && |j.s| > 0
  }

  /** A whole number of at least 1; Python's true is one. */
  predicate Positive(j: Json) {
    j == Bool(true) || (j.Int? && j.n > 0)
  }

  /** A positive number of at most `bound`. */
  predicate Bounded(j: Json, bound: int) {
    if j == Bool(true) then bound >= 1 else j.Int? && 0 < j.n <= bound
  }

  // ---------- Sessions ----------

  predicate IsStatus(response: Dict) {
    Get(response, Type) == Str("capture_session_status") && Get(response, Data).Obj?
  }

  /** No session is active, and none is being opened. */
  predicate ShowsNone(answer: Answer<Dict>) {
    && answer.Gives? && IsStatus(answer.value)
    && At2(answer.value, Data, Active) != Bool(true) && At2(answer.value, Data, Opening) != Bool(true)
  }

  predicate ShowsClosed(answer: Answer<Dict>) {
    answer.Gives? && IsStatus(answer.value) && At2(answer.value, Data, Active) == Bool(false)
  }

  /** The session `id` is active on the window asked for, over PipeWire, without occlusion. */
  predicate ShowsOpened(answer: Answer<Dict>, windowId: string, id: string) {
    && answer.Gives? && IsStatus(answer.value)
    && var r := answer.value;
       && At2(r, Data, Active) == Bool(true)
       && At2(r, Data, SessionId) == Str(id) && id != ""
       && At2(r, Data, Backend) == Str("portal_screencast_pipewire")
       && At2(r, Data, SourceType) == Str("window")
       && At2(r, Data, RequestedWindowId) == Str(windowId)
       && At2(r, Data, TargetWindowId) == Str(windowId)
       && At2(r, Data, StickyTargetBound) == Bool(true)
       && At2(r, Data, OcclusionPossible) == Bool(false)
       && At2(r, Data, LastEndReason) == Null
       && (At2(r, Data, RestoreTokenReference) == Null || Named(At2(r, Data, RestoreTokenReference)))
  }

  lemma NamedIsText(j: Json)
    ensures Named(j) <==> NonEmptyStr(j)
  {
  }

  lemma NoneExactly(answer: Answer<Dict>)
    ensures SawNoneActive(answer) <==> ShowsNone(answer)
  {
    assert |"error"| != |"capture_session_status"|;
  }

  lemma ClosedExactly(answer: Answer<Dict>)
    ensures ClosedBy(answer) <==> ShowsClosed(answer)
  {
    assert |"error"| != |"capture_session_status"|;
  }

  lemma OpenedExactly(answer: Answer<Dict>, windowId: string, id: string)
    ensures OpensSoundly(answer, windowId) && ActiveId(answer) == Some(id) <==> ShowsOpened(answer, windowId, id)
  {
    assert |"error"| != |"capture_session_status"|;
    if answer.Gives? { NamedIsText(At2(answer.value, Data, RestoreTokenReference)); }
  }

  // ---------- Frames ----------

  /** A field of the frame a response carries: a wait has its frame in a field. */
  function FrameAtField(response: Dict, wait: bool, f: Field): Json {
    if wait then At3(response, Data, Frame, f) else At2(response, Data, f)
  }

  /** A field of the frame's screenshot. */
  function ShotField(response: Dict, wait: bool, f: Field): Json {
    if wait then At4(response, Data, Frame, Screenshot, f) else At3(response, Data, Screenshot, f)
  }

  /** The frame has changed since the revision waited past, if any was. */
  predicate Moved(response: Dict, wait: bool, after: Option<string>) {
    && (wait ==> At2(response, Data, Changed) == Bool(true))
    && (after.Some? ==> FrameAtField(response, wait, Revision) != Str(after.value))
  }

  /** A complete PipeWire frame of the session, within the bounds, whose file is where it may be. */
  predicate ShowsFrame(response: Dict, wait: bool, id: string, file: ArtifactFile, maxEdge: int,
                       after: Option<string>) {
    && Get(response, Type) == Str(if wait then "capture_wait" else "capture_frame")
    && FrameAtField(response, wait, SessionId) == Str(id)
    && FrameAtField(response, wait, Complete) == Bool(true)
    && Named(FrameAtField(response, wait, Revision))
    && Positive(FrameAtField(response, wait, Sequence))
    && ShotField(response, wait, Backend) == Str("portal_screencast_pipewire")
    && Positive(ShotField(response, wait, SourceWidth)) && Positive(ShotField(response, wait, SourceHeight))
    && Bounded(ShotField(response, wait, OutputWidth), maxEdge)
    && Bounded(ShotField(response, wait, OutputHeight), maxEdge)
    && Named(ShotField(response, wait, Path))
    && file.inside && file.info.Gives? && (Moved(response, wait, after) ==> file.requested)
  }

  function NumberOrNull(j: Json): Json {
    if j.Int? || j.Bool? then j else Null
  }

  /** The evidence kept of it. */
  predicate KeepsFrame(evidence: Dict, response: Dict, wait: bool, file: ArtifactFile, after: Option<string>) {
    && file.info.Gives? && Get(evidence, Artifact) == file.info.value
    && Get(evidence, Revision) == FrameAtField(response, wait, Revision)
    && Get(evidence, Sequence) == FrameAtField(response, wait, Sequence)
    && Get(evidence, FreshFrame) == Bool(Moved(response, wait, after))
    && Get(evidence, Changed) == Bool(wait ==> At2(response, Data, Changed) == Bool(true))
    && Get(evidence, TimedOut) == Bool(wait && At2(response, Data, TimedOut) == Bool(true))
    && Get(evidence, ElapsedMs) == (if wait then NumberOrNull(At2(response, Data, ElapsedMs)) else Int(0))
    && Get(evidence, DamagePresent) == Bool(FrameAtField(response, wait, DamagePresent) == Bool(true))
    && At2(evidence, Dimensions, SourceWidth) == ShotField(response, wait, SourceWidth)
    && At2(evidence, Dimensions, SourceHeight) == ShotField(response, wait, SourceHeight)
    && At2(evidence, Dimensions, OutputWidth) == ShotField(response, wait, OutputWidth)
    && At2(evidence, Dimensions, OutputHeight) == ShotField(response, wait, OutputHeight)
  }

  lemma DimensionExactly(j: Json, bound: int)
    ensures IsDimension(j) <==> Positive(j)
    ensures Positive(j) && IntOf(j).value <= bound <==> Bounded(j, bound)
  {
  }

  lemma FrameExactly(response: Dict, wait: bool, id: string, file: ArtifactFile, maxEdge: int, after: Option<string>)
    ensures var frame := FrameOf(response, wait, id, file, maxEdge, after);
      && (frame.Ok? <==> ShowsFrame(response, wait, id, file, maxEdge, after))
      && (frame.Ok? ==> KeepsFrame(frame.value, response, wait, file, after))
      && (frame.Err? && file.info.Gives? ==> frame.error == REJECTED)
  {
    hide SoundHeader, SoundScreenshot, Positive, Bounded, Named, FrameEvidence, DimensionsOf, DIMENSION_FIELDS;
    hide FrameIn, FrameAtField, ShotField, KeepsFrame, Moved, IsFresh;
    FrameFound(response, wait);
    var found := FrameIn(response, wait);
    if found.Some? {
      var (frame, around) := found.value;
      HeaderSound(response, wait, id, frame);
      MovedIsFresh(response, wait, frame, around, after);
      if SoundHeader(frame, id) {
        HeaderNamesScreenshot(frame, id);
        var shot := Get(frame, Screenshot).fields;
        ShotAt(response, wait, frame);
        ShotSound(shot, maxEdge);
        if file.info.Gives? { FrameKept(response, wait, file, after, frame, around); }
      }
    } else {
      NothingShown(response, wait, id);
    }
  }

  /** `frame` and `around` are where a response has its frame. */
  predicate HasFrame(response: Dict, wait: bool, frame: Dict) {
    Get(response, Data).Obj?
    && if wait then At2(response, Data, Frame) == Obj(frame) else Get(response, Data) == Obj(frame)
  }

  lemma HeaderSound(response: Dict, wait: bool, id: string, frame: Dict)
    requires HasFrame(response, wait, frame)
    ensures SoundHeader(frame, id) <==>
      && FrameAtField(response, wait, SessionId) == Str(id)
      && FrameAtField(response, wait, Complete) == Bool(true)
      && Named(FrameAtField(response, wait, Revision))
      && Positive(FrameAtField(response, wait, Sequence))
      && ShotField(response, wait, Backend) == Str("portal_screencast_pipewire")
  {
    NamedIsText(Get(frame, Revision));
    DimensionExactly(Get(frame, Sequence), 1);
  }

  lemma MovedIsFresh(response: Dict, wait: bool, frame: Dict, around: Dict, after: Option<string>)
    requires HasFrame(response, wait, frame)
    requires Get(around, Changed) == if wait then At2(response, Data, Changed) else Bool(true)
    ensures IsFresh(frame, around, after) <==> Moved(response, wait, after)
  {
  }

  lemma ShotAt(response: Dict, wait: bool, frame: Dict)
    requires HasFrame(response, wait, frame) && Get(frame, Screenshot).Obj?
    ensures forall f :: ShotField(response, wait, f) == Get(Get(frame, Screenshot).fields, f)
  {
  }

  lemma NothingShown(response: Dict, wait: bool, id: string)
    requires Get(response, Type) != Str(if wait then "capture_wait" else "capture_frame")
          || !Get(response, Data).Obj? || (wait && !At2(response, Data, Frame).Obj?)
    ensures Get(response, Type) != Str(if wait then "capture_wait" else "capture_frame")
         || FrameAtField(response, wait, SessionId) != Str(id)
  {
  }

  lemma FrameKept(response: Dict, wait: bool, file: ArtifactFile, after: Option<string>, frame: Dict, around: Dict)
    requires HasFrame(response, wait, frame) && Get(frame, Screenshot).Obj? && file.info.Gives?
    requires Get(around, Changed) == if wait then At2(response, Data, Changed) else Bool(true)
    requires Get(around, TimedOut) == if wait then At2(response, Data, TimedOut) else Bool(false)
    requires Get(around, ElapsedMs) == if wait then At2(response, Data, ElapsedMs) else Int(0)
    ensures var dimensions := DimensionsOf(Get(frame, Screenshot).fields);
      KeepsFrame(FrameEvidence(frame, around, after, dimensions, file.info.value), response, wait, file, after)
  {
    hide IsFresh, Moved, FrameEvidence, DimensionsOf;
    MovedIsFresh(response, wait, frame, around, after);
    var shot := Get(frame, Screenshot).fields;
    EvidenceSays(frame, around, after, DimensionsOf(shot), file.info.value);
    DimensionsSay(shot);
    ShotAt(response, wait, frame);
  }

  lemma EvidenceSays(frame: Dict, around: Dict, after: Option<string>, dimensions: Dict, info: Json)
    ensures var evidence := FrameEvidence(frame, around, after, dimensions, info);
      && Get(evidence, Revision) == Get(frame, Revision) && Get(evidence, Sequence) == Get(frame, Sequence)
      && Get(evidence, Changed) == Bool(Get(around, Changed) == TRUE)
      && Get(evidence, TimedOut) == Bool(Get(around, TimedOut) == TRUE)
      && Get(evidence, FreshFrame) == Bool(IsFresh(frame, around, after))
      && Get(evidence, ElapsedMs) == NumberOrNull(Get(around, ElapsedMs))
      && Get(evidence, DamagePresent) == Bool(Get(frame, DamagePresent) == TRUE)
      && Get(evidence, Dimensions) == Obj(dimensions) && Get(evidence, Artifact) == info
  {
    hide IsFresh;
  }

  lemma DimensionsSay(shot: Dict)
    ensures var dimensions := DimensionsOf(shot);
      && Get(dimensions, SourceWidth) == Get(shot, SourceWidth)
      && Get(dimensions, SourceHeight) == Get(shot, SourceHeight)
      && Get(dimensions, OutputWidth) == Get(shot, OutputWidth)
      && Get(dimensions, OutputHeight) == Get(shot, OutputHeight)
  {
    FourFields();
  }

  lemma IntDefinition(j: Json)
    ensures IsDimension(j) <==> IntOf(j).Some? && IntOf(j).value >= 1
  {
  }

  lemma FourFields()
    ensures forall f :: f in DIMENSION_FIELDS <==>
            f == SourceWidth || f == SourceHeight || f == OutputWidth || f == OutputHeight
  {
  }

  lemma FrameFound(response: Dict, wait: bool)
    ensures var found := FrameIn(response, wait);
      && (found.Some? <==>
            && Get(response, Type) == Str(if wait then "capture_wait" else "capture_frame")
            && Get(response, Data).Obj? && (wait ==> At2(response, Data, Frame).Obj?))
      && (found.Some? ==>
            && HasFrame(response, wait, found.value.0)
            && Get(found.value.1, Changed) == (if wait then At2(response, Data, Changed) else Bool(true))
            && Get(found.value.1, TimedOut) == (if wait then At2(response, Data, TimedOut) else Bool(false))
            && Get(found.value.1, ElapsedMs) == (if wait then At2(response, Data, ElapsedMs) else Int(0)))
  {
    assert |"error"| != |"capture_wait"| && |"error"| != |"capture_frame"|;
  }

  lemma ShotSound(shot: Dict, maxEdge: int)
    ensures SoundScreenshot(shot, maxEdge) <==>
      && Positive(Get(shot, SourceWidth)) && Positive(Get(shot, SourceHeight))
      && Bounded(Get(shot, OutputWidth), maxEdge) && Bounded(Get(shot, OutputHeight), maxEdge)
      && Named(Get(shot, Path))
  {
    hide Positive, Bounded, IsDimension, Named, DIMENSION_FIELDS;
    FourFields();
    NamedIsText(Get(shot, Path));
    DimensionExactly(Get(shot, SourceWidth), maxEdge);
    DimensionExactly(Get(shot, SourceHeight), maxEdge);
    DimensionExactly(Get(shot, OutputWidth), maxEdge);
    DimensionExactly(Get(shot, OutputHeight), maxEdge);
    IntDefinition(Get(shot, OutputWidth));
    IntDefinition(Get(shot, OutputHeight));
  }

  // ---------- Monitor layouts ----------

  /** A monitor with whole origins, positive size and positive scale. */
  predicate ShowsMonitor(j: Json) {
    && j.Obj?
    && (Get(j.fields, LogicalOriginX).Int? || Get(j.fields, LogicalOriginX).Bool?)
    && (Get(j.fields, LogicalOriginY).Int? || Get(j.fields, LogicalOriginY).Bool?)
    && Positive(Get(j.fields, LogicalWidth)) && Positive(Get(j.fields, LogicalHeight))
    && match Get(j.fields, ScaleFactor)
       case Float(x) => x > 0.0
       case scale => Positive(scale)
  }

  predicate NonZero(j: Json) {
    j == Bool(true) || (j.Int? && j.n != 0)
  }

  predicate Negative(j: Json) {
    j.Int? && j.n < 0
  }

  predicate OffOrigin(j: Json) {
    j.Obj? && (NonZero(Get(j.fields, LogicalOriginX)) || NonZero(Get(j.fields, LogicalOriginY)))
  }

  predicate BelowOrigin(j: Json) {
    j.Obj? && (Negative(Get(j.fields, LogicalOriginX)) || Negative(Get(j.fields, LogicalOriginY)))
  }

  /** Monitors, all of them sound, and two or more with one off the origin where that is required. */
  predicate ShowsLayout(response: Dict, multi: bool) {
    && Get(response, Type) == Str("monitors") && Get(response, Data).Arr?
    && var monitors := Get(response, Data).items;
       && |monitors| >= 1 && (forall i :: 0 <= i < |monitors| ==> ShowsMonitor(monitors[i]))
       && (multi ==> |monitors| >= 2 && exists i :: 0 <= i < |monitors| && OffOrigin(monitors[i]))
  }

  /** What is kept of them: how many, the two flags, and every monitor's geometry with its scale as a
      float. */
  predicate KeepsLayout(layout: Dict, response: Dict)
    requires Get(response, Data).Arr?
  {
    var monitors := Get(response, Data).items;
    && Get(layout, MonitorCount) == Int(|monitors|)
    && Get(layout, HasNonzeroLogicalOrigin) == Bool(exists i :: 0 <= i < |monitors| && OffOrigin(monitors[i]))
    && Get(layout, HasNegativeLogicalOrigin) == Bool(exists i :: 0 <= i < |monitors| && BelowOrigin(monitors[i]))
    && Get(layout, Monitors).Arr? && |Get(layout, Monitors).items| == |monitors|
    && forall i :: 0 <= i < |monitors| ==> KeepsMonitor(Get(layout, Monitors).items[i], monitors[i])
  }

  predicate KeepsMonitor(kept: Json, shown: Json) {
    && kept.Obj? && shown.Obj?
    && Get(kept.fields, LogicalOriginX) == Get(shown.fields, LogicalOriginX)
    && Get(kept.fields, LogicalOriginY) == Get(shown.fields, LogicalOriginY)
    && Get(kept.fields, LogicalWidth) == Get(shown.fields, LogicalWidth)
    && Get(kept.fields, LogicalHeight) == Get(shown.fields, LogicalHeight)
    && match Get(shown.fields, ScaleFactor)
       case Int(n) => Get(kept.fields, ScaleFactor) == Float(n as real)
       case Bool(b) => Get(kept.fields, ScaleFactor) == Float(if b then 1.0 else 0.0)
       case scale => Get(kept.fields, ScaleFactor) == scale
  }

  lemma MonitorExactly(j: Json)
    ensures SoundMonitor(j) <==> ShowsMonitor(j)
    ensures j.Obj? ==> KeepsMonitor(CleanMonitor(j), j)
    ensures OriginAt(j, false) <==> OffOrigin(j)
    ensures OriginAt(j, true) <==> BelowOrigin(j)
  {
  }

  lemma LayoutExactly(response: Dict, multi: bool)
    ensures var layout := LayoutOf(response, multi);
      && (layout.Ok? <==> ShowsLayout(response, multi))
      && (layout.Ok? ==> KeepsLayout(layout.value, response))
      && (layout.Err? ==> layout.error == REJECTED)
  {
    hide SoundMonitor, ShowsMonitor, CleanMonitor, KeepsMonitor, OriginAt, OffOrigin, BelowOrigin;
    if Get(response, Data).Arr? {
      var monitors := Get(response, Data).items;
      forall i | 0 <= i < |monitors|
        ensures SoundMonitor(monitors[i]) <==> ShowsMonitor(monitors[i])
        ensures SoundMonitor(monitors[i]) ==> KeepsMonitor(CleanMonitor(monitors[i]), monitors[i])
        ensures OriginAt(monitors[i], false) <==> OffOrigin(monitors[i])
        ensures OriginAt(monitors[i], true) <==> BelowOrigin(monitors[i])
      {
        MonitorExactly(monitors[i]);
      }
    }
  }

  // ---------- The retained run ----------

  /** A snapshot of the session among the answers. */
  predicate ShowsSnapshot(world: World, i: nat, id: string, maxEdge: int) {
    world.cli(i).Gives? && ShowsFrame(world.cli(i).value, false, id, world.file(i), maxEdge, None)
  }

  /** A frame of the session with another revision than the one waited past. */
  predicate ShowsFresh(world: World, i: nat, id: string, maxEdge: int, after: string) {
    && world.cli(i).Gives? && ShowsFrame(world.cli(i).value, true, id, world.file(i), maxEdge, Some(after))
    && Moved(world.cli(i).value, true, Some(after))
  }

  function RevisionIn(answer: Answer<Dict>, wait: bool): string {
    if answer.Gives? && FrameAtField(answer.value, wait, Revision).Str? then
      FrameAtField(answer.value, wait, Revision).s
    else
      ""
  }

  lemma SnapshotExactly(world: World, i: nat, id: string, maxEdge: int)
    ensures FrameAt(world, i, id, None, maxEdge).Ok? <==> ShowsSnapshot(world, i, id, maxEdge)
    ensures FrameAt(world, i, id, None, maxEdge).Ok? ==>
      Retained.RevisionText(FrameAt(world, i, id, None, maxEdge)) == RevisionIn(world.cli(i), false)
  {
    hide FrameOf, ShowsFrame, FrameAtField;
    if world.cli(i).Gives? { FrameExactly(world.cli(i).value, false, id, world.file(i), maxEdge, None); }
  }

  lemma FreshExactly(world: World, i: nat, id: string, maxEdge: int, after: string)
    ensures var frame := FrameAt(world, i, id, Some(after), maxEdge);
      && (frame.Ok? && Get(frame.value, FreshFrame) == TRUE <==> ShowsFresh(world, i, id, maxEdge, after))
      && (frame.Ok? ==> Retained.RevisionText(frame) == RevisionIn(world.cli(i), true))
  {
    hide FrameOf, ShowsFrame, FrameAtField, Moved;
    if world.cli(i).Gives? { FrameExactly(world.cli(i).value, true, id, world.file(i), maxEdge, Some(after)); }
  }

  /** The eight scenarios, in the order they are run in. */
  const EIGHT_SCENARIOS: seq<string> := [
    "focused_visible", "unfocused_visible", "partially_occluded", "fully_occluded",
    "minimized", "popup_or_dialog", "moved_resized", "monitor_or_scale_change"]

  /** What the operator's answers stand for. */
  lemma VerdictExactly(answer: string, verdict: string)
    ensures NormalizeVisualVerdict(answer) == Some(verdict) <==>
      || (verdict == "pass" && (answer == "y" || answer == "yes" || answer == "pass"))
      || (verdict == "fail" && (answer == "n" || answer == "no" || answer == "fail"))
      || (verdict == "skip" && (answer == "s" || answer == "skip"))
  {
  }

  /** Scenario `k` is not skipped, its frame is a new one of the session, and the operator says yes. */
  predicate ScenarioShown(config: Retained.Config, world: World, id: string, k: nat) {
    && world.prompt(2 * k).Gives? && world.prompt(2 * k).value != "s" && world.prompt(2 * k).value != "skip"
    && ShowsFresh(world, 4 + k, id, config.maxEdge, RevisionIn(world.cli(3 + k), k > 0))
    && world.prompt(2 * k + 1).Gives? && world.prompt(2 * k + 1).value in {"y", "yes", "pass"}
  }

  /** Everything a retained run has to be answered to pass, over the session `id`. */
  predicate RetainedTranscript(config: Retained.Config, world: World, id: string) {
    && config.scenarios == EIGHT_SCENARIOS
    && world.workspace.Gives? && world.targetHash.Gives?
    && world.cli(0).Gives? && ShowsLayout(world.cli(0).value, config.requireMultiOutput)
    && ShowsNone(world.cli(1))
    && ShowsOpened(world.cli(2), config.windowId, id)
    && ShowsSnapshot(world, 3, id, config.maxEdge)
    && (forall k :: 0 <= k < 8 ==> ScenarioShown(config, world, id, k))
    && ShowsClosed(world.cli(12))
  }

  lemma {:induction false} RevisionsAwaited(config: Retained.Config, world: World, id: string, k: nat)
    requires ShowsSnapshot(world, 3, id, config.maxEdge)
    requires forall j :: 0 <= j < k ==> Retained.ScenarioFrame(config, world, id, j).Ok?
    ensures Retained.AwaitedRevision(config, world, id, k) == RevisionIn(world.cli(3 + k), k > 0)
  {
    hide FrameAt, ShowsSnapshot, RevisionIn, Retained.RevisionText;
    SnapshotExactly(world, 3, id, config.maxEdge);
    if k > 0 {
      RevisionsAwaited(config, world, id, k - 1);
      var before := Retained.AwaitedRevision(config, world, id, k - 1);
      FreshExactly(world, 3 + k, id, config.maxEdge, before);
      assert Retained.ScenarioFrame(config, world, id, k - 1)
          == FrameAt(world, 3 + k, id, Some(before), config.maxEdge);
    }
  }

  lemma ScenarioExactly(config: Retained.Config, world: World, id: string, k: nat)
    requires Retained.AwaitedRevision(config, world, id, k) == RevisionIn(world.cli(3 + k), k > 0)
    ensures Retained.GoodScenario(config, world, id, k) <==> ScenarioShown(config, world, id, k)
  {
    hide FrameAt, ShowsFresh, RevisionIn, Retained.AwaitedRevision;
    FreshExactly(world, 4 + k, id, config.maxEdge, RevisionIn(world.cli(3 + k), k > 0));
  }

  lemma {:induction false} ScenariosExactly(config: Retained.Config, world: World, id: string, n: nat)
    requires ShowsSnapshot(world, 3, id, config.maxEdge)
    ensures Retained.GoodScenarios(config, world, id, n) <==>
            forall k :: 0 <= k < n ==> ScenarioShown(config, world, id, k)
  {
    hide ShowsSnapshot, ScenarioShown, Retained.AwaitedRevision, RevisionIn, FrameAt;
    if n > 0 {
      ScenariosExactly(config, world, id, n - 1);
      if Retained.GoodScenarios(config, world, id, n - 1) {
        assert forall k :: 0 <= k < n - 1 ==> Retained.GoodScenario(config, world, id, k);
        forall j | 0 <= j < n - 1 ensures Retained.ScenarioFrame(config, world, id, j).Ok? {
          assert Retained.GoodScenario(config, world, id, j);
        }
        RevisionsAwaited(config, world, id, n - 1);
        ScenarioExactly(config, world, id, n - 1);
      }
    }
  }

  /** A retained run passes if and only if it gets such answers, all of one session. */
  lemma RetainedExactly(config: Retained.Config, world: World)
    ensures Retained.GoodRun(config, world) <==> exists id :: RetainedTranscript(config, world, id)
  {
    hide LayoutOf, ShowsLayout, SawNoneActive, ShowsNone, OpensSoundly, ShowsOpened, FrameAt, ShowsSnapshot;
    hide Retained.GoodScenarios, ScenarioShown, ClosedBy, ShowsClosed, ActiveId;
    assert Retained.SCENARIOS == EIGHT_SCENARIOS && |EIGHT_SCENARIOS| == 8;
    if world.cli(0).Gives? { LayoutExactly(world.cli(0).value, config.requireMultiOutput); }
    NoneExactly(world.cli(1));
    ClosedExactly(world.cli(12));
    forall id
      ensures OpensSoundly(world.cli(2), config.windowId) && ActiveId(world.cli(2)) == Some(id)
         <==> ShowsOpened(world.cli(2), config.windowId, id)
      ensures FrameAt(world, 3, id, None, config.maxEdge).Ok? <==> ShowsSnapshot(world, 3, id, config.maxEdge)
      ensures ShowsSnapshot(world, 3, id, config.maxEdge) ==>
        (Retained.GoodScenarios(config, world, id, 8) <==>
           forall k :: 0 <= k < 8 ==> ScenarioShown(config, world, id, k))
    {
      OpenedExactly(world.cli(2), config.windowId, id);
      SnapshotExactly(world, 3, id, config.maxEdge);
      if ShowsSnapshot(world, 3, id, config.maxEdge) { ScenariosExactly(config, world, id, 8); }
    }
    if Retained.GoodRun(config, world) {
      assert RetainedTranscript(config, world, ActiveId(world.cli(2)).value);
    }
  }

  // ---------- The restore run ----------

  /** The whole number a value is to Python, or -1. */
  function Whole(j: Json): int {
    match j
    case Int(n) => n
    case Bool(b) => if b then 1 else 0
    case _ => -1
  }

  predicate Natural(j: Json) {
    Whole(j) >= 0
  }

  /** Two identities of different files: device or inode differ, and all four are known. */
  predicate OtherInode(a: Dict, b: Dict) {
    && Natural(Get(a, Device)) && Natural(Get(a, Inode)) && Natural(Get(b, Device)) && Natural(Get(b, Inode))
    && (Whole(Get(a, Device)) != Whole(Get(b, Device)) || Whole(Get(a, Inode)) != Whole(Get(b, Inode)))
  }

  predicate SameKnown(a: Dict, b: Dict, f: Field) {
    Natural(Get(a, f)) && Whole(Get(a, f)) == Whole(Get(b, f))
  }

  /** The same file, unchanged: device, inode, size and time agree. */
  predicate SameFile(a: Dict, b: Dict) {
    SameKnown(a, b, Device) && SameKnown(a, b, Inode) && SameKnown(a, b, Bytes) && SameKnown(a, b, MtimeNs)
  }

  lemma IdentityFields(d: Dict)
    ensures Restore.IsIdentity(d, Restore.SOCKET_FIELDS) <==> Natural(Get(d, Device)) && Natural(Get(d, Inode))
    ensures Restore.IsIdentity(d, Restore.FILE_FIELDS) <==>
      Natural(Get(d, Device)) && Natural(Get(d, Inode)) && Natural(Get(d, Bytes)) && Natural(Get(d, MtimeNs))
  {
    assert Device in Restore.SOCKET_FIELDS && Inode in Restore.SOCKET_FIELDS;
    assert Device in Restore.FILE_FIELDS && Inode in Restore.FILE_FIELDS;
    assert Restore.FILE_FIELDS[2] == Bytes && Restore.FILE_FIELDS[3] == MtimeNs;
  }

  lemma AgreeFields(a: Dict, b: Dict)
    requires Restore.IsIdentity(a, Restore.SOCKET_FIELDS) && Restore.IsIdentity(b, Restore.SOCKET_FIELDS)
    ensures Restore.Agree(a, b, Restore.SOCKET_FIELDS) <==>
      Whole(Get(a, Device)) == Whole(Get(b, Device)) && Whole(Get(a, Inode)) == Whole(Get(b, Inode))
  {
    assert Device in Restore.SOCKET_FIELDS && Inode in Restore.SOCKET_FIELDS;
  }

  lemma ReplacedExactly(a: Dict, b: Dict)
    ensures Restore.RestoreFileWasReplaced(a, b) <==> OtherInode(a, b)
  {
    hide Restore.IsIdentity, Restore.Agree, Natural, Whole;
    IdentityFields(a);
    IdentityFields(b);
    if Restore.IsIdentity(a, Restore.SOCKET_FIELDS) && Restore.IsIdentity(b, Restore.SOCKET_FIELDS) {
      AgreeFields(a, b);
    }
  }

  lemma SameFileExactly(a: Dict, b: Dict)
    ensures Restore.SameFileIdentity(a, b) <==> SameFile(a, b)
  {
    hide Restore.IsIdentity, Restore.Agree, SameKnown, Natural, IntOf;
    IdentityFields(a);
    IdentityFields(b);
    AgreeFile(a, b);
    KnownExactly(a, b, Device);
    KnownExactly(a, b, Inode);
    KnownExactly(a, b, Bytes);
    KnownExactly(a, b, MtimeNs);
  }

  lemma AgreeFile(a: Dict, b: Dict)
    ensures Restore.Agree(a, b, Restore.FILE_FIELDS) <==>
      && IntOf(Get(a, Device)) == IntOf(Get(b, Device)) && IntOf(Get(a, Inode)) == IntOf(Get(b, Inode))
      && IntOf(Get(a, Bytes)) == IntOf(Get(b, Bytes)) && IntOf(Get(a, MtimeNs)) == IntOf(Get(b, MtimeNs))
  {
    hide IntOf, Get;
    assert Device in Restore.FILE_FIELDS && Inode in Restore.FILE_FIELDS;
    assert Restore.FILE_FIELDS[2] == Bytes && Restore.FILE_FIELDS[3] == MtimeNs;
  }

  lemma KnownExactly(a: Dict, b: Dict, f: Field)
    ensures SameKnown(a, b, f) <==> Natural(Get(a, f)) && Natural(Get(b, f)) && IntOf(Get(a, f)) == IntOf(Get(b, f))
  {
  }

  /** The window opened in the session `id`, with a restore reference, and its first frame. */
  predicate ShowsReopened(world: World, config: Restore.Config, id: string) {
    && ShowsOpened(world.cli(1), config.windowId, id)
    && Named(At2(world.cli(1).value, Data, RestoreTokenReference))
    && ShowsSnapshot(world, 2, id, config.maxEdge)
  }

  /** Everything both phases have to be answered to pass. */
  predicate RestoreTranscript(config: Restore.Config, first: World, file: Answer<Dict>, again: Restore.Config,
                              second: World, before: Answer<Dict>, after: Answer<Dict>, id: string, next: string) {
    && first.workspace.Gives? && first.targetHash.Gives?
    && ShowsNone(first.cli(0)) && ShowsReopened(first, config, id) && ShowsClosed(first.cli(3))
    && file.Gives? && before.Gives? && after.Gives?
    && second.workspace == first.workspace && second.targetHash == first.targetHash
    && first.socket.Obj? && second.socket.Obj? && OtherInode(first.socket.fields, second.socket.fields)
    && SameFile(file.value, before.value) && OtherInode(before.value, after.value)
    && ShowsNone(second.cli(0)) && ShowsReopened(second, again, next) && ShowsClosed(second.cli(3))
    && At2(second.cli(1).value, Data, RestoreTokenReference) == At2(first.cli(1).value, Data, RestoreTokenReference)
    && second.prompt(0).Gives? && (second.prompt(0).value == "n" || second.prompt(0).value == "no")
  }

  lemma ReopenedExactly(world: World, config: Restore.Config, asks: bool)
    ensures Restore.OpensWithFrame(config, world, 1, asks) <==>
      && (exists id :: ShowsReopened(world, config, id))
      && (asks ==> world.prompt(0).Gives? && world.prompt(0).value in {"n", "no", "y", "yes"})
    ensures (exists id :: ShowsReopened(world, config, id)) ==>
      ReferenceIn(world.cli(1)) == At2(world.cli(1).value, Data, RestoreTokenReference)
  {
    hide FrameAt, ShowsSnapshot;
    forall id
      ensures OpensSoundly(world.cli(1), config.windowId) && ActiveId(world.cli(1)) == Some(id)
         <==> ShowsOpened(world.cli(1), config.windowId, id)
      ensures FrameAt(world, 2, id, None, config.maxEdge).Ok? <==> ShowsSnapshot(world, 2, id, config.maxEdge)
    {
      OpenedExactly(world.cli(1), config.windowId, id);
      SnapshotExactly(world, 2, id, config.maxEdge);
    }
    assert |"error"| != |"capture_session_status"|;
    if Restore.OpensWithFrame(config, world, 1, asks) {
      assert ShowsReopened(world, config, ActiveId(world.cli(1)).value);
    }
  }

  /** Both phases pass if and only if they get such answers, each over one session. */
  lemma RestoreExactly(config: Restore.Config, first: World, file: Answer<Dict>, again: Restore.Config,
                       second: World, before: Answer<Dict>, after: Answer<Dict>)
    ensures Restore.GoodRestart(config, first, file, again, second, before, after) <==>
      exists id, next :: RestoreTranscript(config, first, file, again, second, before, after, id, next)
  {
    hide Restore.OpensWithFrame, ShowsReopened, SawNoneActive, ShowsNone, ClosedBy, ShowsClosed, ReferenceIn;
    hide Restore.SameFileIdentity, SameFile, OtherInode, Restore.RestoreFileWasReplaced;
    NoneExactly(first.cli(0));
    NoneExactly(second.cli(0));
    ClosedExactly(first.cli(3));
    ClosedExactly(second.cli(3));
    ReopenedExactly(first, config, false);
    ReopenedExactly(second, again, true);
    if first.socket.Obj? && second.socket.Obj? { ReplacedExactly(first.socket.fields, second.socket.fields); }
    if file.Gives? && before.Gives? { SameFileExactly(file.value, before.value); }
    if before.Gives? && after.Gives? { ReplacedExactly(before.value, after.value); }
    if Restore.GoodRestart(config, first, file, again, second, before, after) {
      var id :| ShowsReopened(first, config, id);
      var next :| ShowsReopened(second, again, next);
      assert RestoreTranscript(config, first, file, again, second, before, after, id, next);
    }
  }

  // ---------- The revocation run ----------

  predicate ShowsStillOpen(answer: Answer<Dict>) {
    answer.Gives? && IsStatus(answer.value) && At2(answer.value, Data, Active) != Bool(false)
  }

  predicate StillOpenAt(world: World, q: nat) {
    ShowsStillOpen(world.cli(3 + q))
  }

  /** The portal closed the session, and nothing is left of it. */
  predicate ShowsRevoked(answer: Answer<Dict>) {
    && answer.Gives? && IsStatus(answer.value)
    && var r := answer.value;
       && At2(r, Data, Active) == Bool(false) && At2(r, Data, Opening) == Bool(false)
       && At2(r, Data, SessionId) == Null && At2(r, Data, TargetWindowId) == Null
       && At2(r, Data, LastEndReason) == Str("portal_closed")
       && At2(r, Data, StickyTargetBound) != Bool(true)
  }

  predicate StandsAt(message: string, i: nat, text: string) {
    i + |text| <= |message| && message[i..i + |text|] == text
  }

  predicate Says(message: string, text: string) {
    exists i :: 0 <= i <= |message| && StandsAt(message, i, text)
  }

  /** The CLI refuses a session that has ended or belongs to another. */
  predicate ShowsRefused(answer: Answer<Dict>) {
    && answer.Raises? && answer.raised.EvalError?
    && var message := answer.raised.message;
       || Says(message, "session owner mismatch") || Says(message, "sessionownermismatch")
       || Says(message, "no active capture session") || Says(message, "session ended")
  }

  lemma RevokedExactly(answer: Answer<Dict>)
    ensures Lifecycle.ClosedByPortal(answer) <==> ShowsRevoked(answer)
    ensures Lifecycle.StillOpen(answer) <==> ShowsStillOpen(answer)
  {
    assert |"error"| != |"capture_session_status"|;
  }

  /** Everything a revocation run has to be answered to pass: the closing at poll `p` of session `id`. */
  predicate RevocationTranscript(config: Lifecycle.Config, world: World, id: string, p: nat) {
    && world.workspace.Gives? && world.targetHash.Gives? && world.socket != Null
    && ShowsNone(world.cli(0)) && ShowsOpened(world.cli(1), config.windowId, id)
    && ShowsSnapshot(world, 2, id, config.maxEdge)
    && world.prompt(0).Gives? && world.prompt(0).value != "s" && world.prompt(0).value != "skip"
    && p < config.polls && (forall q :: 0 <= q < p ==> StillOpenAt(world, q))
    && ShowsRevoked(world.cli(3 + p))
    && ShowsRefused(world.cli(4 + p)) && !config.staleWritten
  }

  lemma ContainsExactly(message: string, text: string)
    ensures Contains(message, text) <==> Says(message, text)
  {
    forall i | 0 <= i <= |message| ensures At(message, i, text) <==> StandsAt(message, i, text) {
      if i + |text| <= |message| {
        var cut := message[i..i + |text|];
        assert forall k :: 0 <= k < |text| ==> cut[k] == message[i + k];
      }
    }
  }

  /** The reason noted: another owner's session, else an ended one, else none that is known. */
  lemma RejectionExactly(message: string)
    ensures Lifecycle.RejectionKind(message) ==
      if Says(message, "session owner mismatch") || Says(message, "sessionownermismatch") then
        Some("session_owner_mismatch")
      else if Says(message, "no active capture session") || Says(message, "session ended") then Some("session_ended")
      else None
  {
    hide Contains, Says;
    ContainsExactly(message, "session owner mismatch");
    ContainsExactly(message, "sessionownermismatch");
    ContainsExactly(message, "no active capture session");
    ContainsExactly(message, "session ended");
  }

  lemma RefusedExactly(answer: Answer<Dict>)
    ensures Lifecycle.Refused(answer) <==> ShowsRefused(answer)
  {
    hide Contains, Says;
    if answer.Raises? && answer.raised.EvalError? {
      ContainsExactly(answer.raised.message, "session owner mismatch");
      ContainsExactly(answer.raised.message, "sessionownermismatch");
      ContainsExactly(answer.raised.message, "no active capture session");
      ContainsExactly(answer.raised.message, "session ended");
    }
  }

  lemma ClosingExactly(config: Lifecycle.Config, world: World, p: nat)
    ensures Lifecycle.GoodEnd(config, world, p) <==>
      && p < config.polls && (forall q :: 0 <= q < p ==> StillOpenAt(world, q))
      && ShowsRevoked(world.cli(3 + p)) && ShowsRefused(world.cli(4 + p)) && !config.staleWritten
  {
    hide Lifecycle.ClosedByPortal, Lifecycle.StillOpen, Lifecycle.Refused, ShowsStillOpen, ShowsRevoked, ShowsRefused;
    RevokedExactly(world.cli(3 + p));
    RefusedExactly(world.cli(4 + p));
    forall q | 0 <= q < p ensures Lifecycle.StillOpen(Lifecycle.PollAnswer(world, q)) <==> StillOpenAt(world, q) {
      RevokedExactly(world.cli(3 + q));
    }
  }

  /** A revocation run passes if and only if it gets such answers. */
  lemma RevocationExactly(config: Lifecycle.Config, world: World)
    ensures Lifecycle.GoodRun(config, world) <==> exists id, p :: RevocationTranscript(config, world, id, p)
  {
    hide Lifecycle.GoodEnd, FrameAt, ShowsSnapshot, ShowsOpened, OpensSoundly, SawNoneActive, ShowsNone, ActiveId;
    hide StillOpenAt, ShowsRevoked, ShowsRefused;
    NoneExactly(world.cli(0));
    forall id
      ensures OpensSoundly(world.cli(1), config.windowId) && ActiveId(world.cli(1)) == Some(id)
         <==> ShowsOpened(world.cli(1), config.windowId, id)
      ensures FrameAt(world, 2, id, None, config.maxEdge).Ok? <==> ShowsSnapshot(world, 2, id, config.maxEdge)
    {
      OpenedExactly(world.cli(1), config.windowId, id);
      SnapshotExactly(world, 2, id, config.maxEdge);
    }
    if Lifecycle.GoodRun(config, world) {
      var p :| 0 <= p < config.polls && Lifecycle.GoodEnd(config, world, p);
      ClosingExactly(config, world, p);
      assert RevocationTranscript(config, world, ActiveId(world.cli(1)).value, p);
    }
    if id, p :| RevocationTranscript(config, world, id, p) {
      ClosingExactly(config, world, p);
    }
  }
}
