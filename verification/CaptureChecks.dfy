/** The checks the capture evals share: open sessions, frames, monitor layouts. */
module CaptureChecks {
  import opened Outcome
  import opened EvalJson

  const STATUS_TYPE: string := "capture_session_status"
  const PIPEWIRE: Json := Str("portal_screencast_pipewire")

  // ---------- Sessions ----------

  function StatusData(response: Dict): (r: Result<Dict, Raised>)
    ensures r.Err? ==> r.error == REJECTED
  {
    ResponseData(response, STATUS_TYPE)
  }

  function RequireNoActiveCapture(response: Dict): (failure: Option<Raised>)
    ensures failure.Some? ==> failure.value == REJECTED
  {
    match StatusData(response)
    case Err(e) => Some(e)
    case Ok(data) => if Get(data, Active) == TRUE || Get(data, Opening) == TRUE then Some(REJECTED) else None
  }

  function SessionIdForCleanup(response: Dict): (r: Result<Option<string>, Raised>)
    ensures r.Err? ==> r.error == REJECTED
  {
    match StatusData(response)
    case Err(e) => Err(e)
    case Ok(data) =>
      Ok(if Get(data, Active) == TRUE && NonEmptyStr(Get(data, SessionId)) then Some(Get(data, SessionId).s) else None)
  }

  predicate OpenAsRequested(data: Dict, windowId: string) {
    && Get(data, Active) == TRUE && NonEmptyStr(Get(data, SessionId))
    && Get(data, Backend) == PIPEWIRE
    && Get(data, SourceType) == Str("window")
    && Get(data, RequestedWindowId) == Str(windowId)
    && Get(data, StickyTargetBound) == TRUE
    && Get(data, TargetWindowId) == Str(windowId)
    && Get(data, OcclusionPossible) == FALSE
    && Get(data, LastEndReason) == Null
    && (Get(data, RestoreTokenReference) == Null || NonEmptyStr(Get(data, RestoreTokenReference)))
  }

  function ValidateOpenSession(response: Dict, windowId: string): (r: Result<Dict, Raised>)
    ensures r.Ok? <==> StatusData(response).Ok? && OpenAsRequested(StatusData(response).value, windowId)
    ensures r.Err? ==> r.error == REJECTED
    ensures r.Ok? ==>
      && SessionId in r.value && NonEmptyStr(r.value[SessionId])
      && SessionIdForCleanup(response) == Ok(Some(r.value[SessionId].s))
      && StatusData(response).Ok?
      && Get(r.value, RestoreTokenReference) == Get(StatusData(response).value, RestoreTokenReference)
  {
    match StatusData(response)
    case Err(e) => Err(e)
    case Ok(data) =>
      if !OpenAsRequested(data, windowId) then Err(REJECTED)
      else Ok(map[
        SessionId := Get(data, SessionId),
        Backend := Get(data, Backend),
        SourceType := Get(data, SourceType),
        SourceIdPresent := Bool(NonEmptyStr(Get(data, SourceId))),
        RestoreTokenReference := Get(data, RestoreTokenReference),
        StickyTargetBound := TRUE,
        OcclusionPossible := FALSE])
  }

  // ---------- Frames ----------

  /** What the file a frame names turns out to be: inside the run's directory, the file asked
      for, and a private PNG or the exception reading it raises. */
  datatype ArtifactFile = ArtifactFile(inside: bool, requested: bool, info: Answer<Json>)

  const DIMENSION_FIELDS: seq<Field> := [SourceWidth, SourceHeight, OutputWidth, OutputHeight]

  predicate IsDimension(j: Json) {
    IntOf(j).Some? && IntOf(j).value >= 1
  }

  predicate SoundHeader(frame: Dict, sessionId: string) {
    && Get(frame, SessionId) == Str(sessionId)
    && NonEmptyStr(Get(frame, Revision))
    && IntOf(Get(frame, Sequence)).Some? && IntOf(Get(frame, Sequence)).value >= 1
    && Get(frame, Complete) == TRUE
    && Get(frame, Screenshot).Obj?
    && Get(Get(frame, Screenshot).fields, Backend) == PIPEWIRE
  }

  predicate SoundScreenshot(screenshot: Dict, maxEdge: int) {
    && (forall f :: f in DIMENSION_FIELDS ==> IsDimension(Get(screenshot, f)))
    && SmallEnough(screenshot, maxEdge)
    && NonEmptyStr(Get(screenshot, Path))
  }

  predicate SmallEnough(screenshot: Dict, maxEdge: int) {
    && IntOf(Get(screenshot, OutputWidth)).Some? && IntOf(Get(screenshot, OutputWidth)).value <= maxEdge
    && IntOf(Get(screenshot, OutputHeight)).Some? && IntOf(Get(screenshot, OutputHeight)).value <= maxEdge
  }

  predicate IsFresh(frame: Dict, around: Dict, after: Option<string>) {
    Get(around, Changed) == TRUE && (after.None? || Get(frame, Revision) != Str(after.value))
  }

  /** The frame a response carries, and the answer's other data: a wait holds its frame in a field. */
  function FrameIn(response: Dict, wait: bool): Option<(Dict, Dict)> {
    match ResponseData(response, if wait then "capture_wait" else "capture_frame")
    case Err(_) => None
    case Ok(data) =>
      if !wait then Some((data, map[Changed := TRUE, TimedOut := FALSE, ElapsedMs := Int(0)]))
      else if Get(data, Frame).Obj? then Some((Get(data, Frame).fields, data))
      else None
  }

  function DimensionsOf(screenshot: Dict): Dict {
    map f | f in DIMENSION_FIELDS :: Get(screenshot, f)
  }

  function FrameEvidence(frame: Dict, around: Dict, after: Option<string>, dimensions: Dict, info: Json): Dict {
    map[
      Revision := Get(frame, Revision),
      Sequence := Get(frame, Sequence),
      Changed := Bool(Get(around, Changed) == TRUE),
      TimedOut := Bool(Get(around, TimedOut) == TRUE),
      FreshFrame := Bool(IsFresh(frame, around, after)),
      ElapsedMs := if IntOf(Get(around, ElapsedMs)).Some? then Get(around, ElapsedMs) else Null,
      DamagePresent := Bool(Get(frame, DamagePresent) == TRUE),
      Dimensions := Obj(dimensions),
      Artifact := info]
  }

  /** The evidence for a frame, or why it is refused. */
  function FrameOf(response: Dict, wait: bool, sessionId: string, file: ArtifactFile, maxEdge: int,
                   after: Option<string>): Result<Dict, Raised>
  {
    match FrameIn(response, wait)
    case None => Err(REJECTED)
    case Some((frame, around)) =>
      if !SoundHeader(frame, sessionId) then Err(REJECTED)
      else
        var screenshot := Get(frame, Screenshot).fields;
        if !SoundScreenshot(screenshot, maxEdge) || !file.inside then Err(REJECTED)
        else if IsFresh(frame, around, after) && !file.requested then Err(REJECTED)
        else if file.info.Raises? then Err(file.info.raised)
        else Ok(FrameEvidence(frame, around, after, DimensionsOf(screenshot), file.info.value))
  }

  /** The four dimensions, one after the other. */
  method ReadDimensions(screenshot: Dict) returns (r: Option<Dict>)
    ensures r == if forall f :: f in DIMENSION_FIELDS ==> IsDimension(Get(screenshot, f))
                 then Some(DimensionsOf(screenshot)) else None
  {
    hide IsDimension;
    var dimensions: Dict := map[];
    for i := 0 to |DIMENSION_FIELDS|
      invariant forall k :: 0 <= k < i ==> IsDimension(Get(screenshot, DIMENSION_FIELDS[k]))
      invariant forall k :: 0 <= k < i ==> DIMENSION_FIELDS[k] in dimensions
      invariant forall f :: f in dimensions ==> f in DIMENSION_FIELDS && dimensions[f] == Get(screenshot, f)
    {
      var value := Get(screenshot, DIMENSION_FIELDS[i]);
      if !IsDimension(value) {
        return None;
      }
      dimensions := dimensions[DIMENSION_FIELDS[i] := value];
    }
    assert dimensions == DimensionsOf(screenshot);
    r := Some(dimensions);
  }

  method ValidateFrame(response: Dict, wait: bool, sessionId: string, file: ArtifactFile, maxEdge: int,
                       after: Option<string>) returns (r: Result<Dict, Raised>)
    ensures r == FrameOf(response, wait, sessionId, file, maxEdge, after)
  {
    hide FrameIn, SoundHeader, NonEmptyStr, DimensionsOf, FrameEvidence, IsDimension, DIMENSION_FIELDS;
    var found := FrameIn(response, wait);
    if found.None? {
      return Err(REJECTED);
    }
    var frame, around := found.value.0, found.value.1;
    if !SoundHeader(frame, sessionId) {
      return Err(REJECTED);
    }
    HeaderNamesScreenshot(frame, sessionId);
    var screenshot := Get(frame, Screenshot).fields;
    var dimensions := ReadDimensions(screenshot);
    if dimensions.None? || !SmallEnough(screenshot, maxEdge) || !NonEmptyStr(Get(screenshot, Path)) || !file.inside {
      return Err(REJECTED);
    }
    if IsFresh(frame, around, after) && !file.requested {
      return Err(REJECTED);
    }
    if file.info.Raises? {
      return Err(file.info.raised);
    }
    r := Ok(FrameEvidence(frame, around, after, dimensions.value, file.info.value));
  }

  lemma HeaderNamesScreenshot(frame: Dict, sessionId: string)
    requires SoundHeader(frame, sessionId)
    ensures Get(frame, Screenshot).Obj? && NonEmptyStr(Get(frame, Revision))
  {
  }

  /** What an accepted frame says: a revision, fresh exactly when it changed and, in a wait, is not
      the revision waited past; a snapshot's frame is always fresh. */
  lemma FrameSays(response: Dict, wait: bool, sessionId: string, file: ArtifactFile, maxEdge: int,
                  after: Option<string>)
    requires FrameOf(response, wait, sessionId, file, maxEdge, after).Ok?
    ensures var frame := FrameOf(response, wait, sessionId, file, maxEdge, after).value;
      && NonEmptyStr(Get(frame, Revision))
      && Get(frame, FreshFrame).Bool?
      && (Get(frame, FreshFrame) == TRUE ==> after.None? || Get(frame, Revision) != Str(after.value))
      && (!wait && after.None? ==> Get(frame, FreshFrame) == TRUE)
      && (Get(frame, FreshFrame) == TRUE ==> file.requested)
  {
    hide SoundHeader, SoundScreenshot, DimensionsOf, DIMENSION_FIELDS;
    var (frame, around) := FrameIn(response, wait).value;
    HeaderNamesScreenshot(frame, sessionId);
  }

  // ---------- Monitor layouts ----------

  predicate IsPositive(j: Json) {
    match j
    case Float(x) => x > 0.0
    case _ => IntOf(j).Some? && IntOf(j).value > 0
  }

  predicate SoundMonitor(j: Json): (sound: bool)
    ensures sound ==> j.Obj?
  {
    && j.Obj?
    && IntOf(Get(j.fields, LogicalOriginX)).Some?
    && IntOf(Get(j.fields, LogicalOriginY)).Some?
    && IsDimension(Get(j.fields, LogicalWidth))
    && IsDimension(Get(j.fields, LogicalHeight))
    && IsPositive(Get(j.fields, ScaleFactor))
  }

  function AsFloat(j: Json): Json {
    if j.Float? || IntOf(j).None? then j else Float(IntOf(j).value as real)
  }

  function CleanMonitor(j: Json): Json
    requires j.Obj?
  {
    Obj(map[
      LogicalOriginX := Get(j.fields, LogicalOriginX),
      LogicalOriginY := Get(j.fields, LogicalOriginY),
      LogicalWidth := Get(j.fields, LogicalWidth),
      LogicalHeight := Get(j.fields, LogicalHeight),
      ScaleFactor := AsFloat(Get(j.fields, ScaleFactor))])
  }

  predicate IsOff(n: int, negative: bool) {
    if negative then n < 0 else n != 0
  }

  /** A coordinate of the monitor's origin is negative, or just not zero. */
  predicate OriginAt(j: Json, negative: bool) {
    && j.Obj?
    && ( || (IntOf(Get(j.fields, LogicalOriginX)).Some? && IsOff(IntOf(Get(j.fields, LogicalOriginX)).value, negative))
         || (IntOf(Get(j.fields, LogicalOriginY)).Some? && IsOff(IntOf(Get(j.fields, LogicalOriginY)).value, negative)))
  }

  predicate AnyOrigin(monitors: seq<Json>, negative: bool) {
    exists i :: 0 <= i < |monitors| && OriginAt(monitors[i], negative)
  }

  /** The evidence for the monitors of a response, or none where any of them is malformed. */
  function LayoutOf(response: Dict, requireMultiOutput: bool): Result<Dict, Raised> {
    if Get(response, Type) != Str("monitors") || !Get(response, Data).Arr? || Get(response, Data).items == [] then
      Err(REJECTED)
    else
      var monitors := Get(response, Data).items;
      if !(forall i :: 0 <= i < |monitors| ==> SoundMonitor(monitors[i])) then Err(REJECTED)
      else
        var negative := AnyOrigin(monitors, true);
        var nonzero := AnyOrigin(monitors, false);
        if requireMultiOutput && (|monitors| < 2 || !nonzero) then Err(REJECTED)
        else Ok(map[
          MonitorCount := Int(|monitors|),
          HasNegativeLogicalOrigin := Bool(negative),
          HasNonzeroLogicalOrigin := Bool(nonzero),
          Monitors := Arr(
            seq(|monitors|, i requires 0 <= i < |monitors| && SoundMonitor(monitors[i]) => CleanMonitor(monitors[i])))])
  }

  method SanitizedMonitorLayout(response: Dict, requireMultiOutput: bool) returns (r: Result<Dict, Raised>)
    ensures r == LayoutOf(response, requireMultiOutput)
  {
    hide SoundMonitor, CleanMonitor, OriginAt;
    if Get(response, Type) == Str("error") || Get(response, Type) != Str("monitors") || !Get(response, Data).Arr? {
      return Err(REJECTED);
    }
    var monitors := Get(response, Data).items;
    if monitors == [] {
      return Err(REJECTED);
    }
    var sanitized: seq<Json> := [];
    var negative, nonzero := false, false;
    for i := 0 to |monitors|
      invariant forall k :: 0 <= k < i ==> SoundMonitor(monitors[k])
      invariant |sanitized| == i && forall k :: 0 <= k < i ==> sanitized[k] == CleanMonitor(monitors[k])
      invariant negative <==> exists k :: 0 <= k < i && OriginAt(monitors[k], true)
      invariant nonzero <==> exists k :: 0 <= k < i && OriginAt(monitors[k], false)
    {
      if !SoundMonitor(monitors[i]) {
        return Err(REJECTED);
      }
      sanitized := sanitized + [CleanMonitor(monitors[i])];
      negative := negative || OriginAt(monitors[i], true);
      nonzero := nonzero || OriginAt(monitors[i], false);
    }
    if requireMultiOutput && (|sanitized| < 2 || !nonzero) {
      return Err(REJECTED);
    }
    assert sanitized
      == seq(|monitors|, i requires 0 <= i < |monitors| && SoundMonitor(monitors[i]) => CleanMonitor(monitors[i]));
    r := Ok(map[
      MonitorCount := Int(|sanitized|),
      HasNegativeLogicalOrigin := Bool(negative),
      HasNonzeroLogicalOrigin := Bool(nonzero),
      Monitors := Arr(sanitized)]);
  }

  // ---------- Answers of the operator ----------

  /** The answer comes stripped and in lower case. */
  function NormalizeVisualVerdict(answer: string): Option<string> {
    if answer in {"y", "yes", "pass"} then Some("pass")
    else if answer in {"n", "no", "fail"} then Some("fail")
    else if answer in {"s", "skip"} then Some("skip")
    else None
  }
}
