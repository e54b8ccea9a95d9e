/**
 JSON objects as the Python eval scripts see them. A field name is a constructor of its own; an
 absent field reads as null, as `dict.get` does.
 */
module EvalJson {
  import opened Outcome

  datatype Field =
    | Type | Data | Version | Status | AcceptanceComplete | Errors | Workspace
    | StartedUnixMs | EndedUnixMs | TargetWindowSha256 | SocketIdentity
    // retained capture
    | SelectedScenarios | AllScenariosSelected | Scenarios | Name | VisualVerdict
    | PortalOpenCount | ExplicitFocusCallCount | RawInputCallCount | Session | SessionClosed
    | MonitorLayout | LayoutRequirement | InitialFrame
    // capture session status
    | Active | Opening | SessionId | Backend | SourceType | SourceId | SourceIdPresent
    | RequestedWindowId | StickyTargetBound | TargetWindowId | OcclusionPossible | LastEndReason
    | RestoreTokenReference
    // frames
    | Frame | Changed | TimedOut | ElapsedMs | Revision | Sequence | Screenshot | Complete
    | DamagePresent | SourceWidth | SourceHeight | OutputWidth | OutputHeight | Path | Dimensions
    | Artifact | FreshFrame
    // monitor layouts
    | LogicalOriginX | LogicalOriginY | LogicalWidth | LogicalHeight | ScaleFactor
    | MonitorCount | HasNegativeLogicalOrigin | HasNonzeroLogicalOrigin | Monitors
    // capture restore
    | PreparedSocketIdentity | ResumedSocketIdentity | Prepare | PrepareSessionClosed
    | DaemonRestartProven | Resume | ResumeSessionClosed | RestoreFileAfterOpen
    | RestoreFileBeforeOpen | RestoreFileReplaced | PortalChooserAvoided
    | Device | Inode | Bytes | MtimeNs
    // capture lifecycle
    | InitialFrameCaptured | StatusPollCount | EndedStatus | StaleSessionRejected
    | StaleSessionRejectionKind | CleanupCloseCalled
    // other acceptance evidence
    | PostReopenStatus | Replacement | SessionCleanup | Scenario | NonTargetFocusBefore
    | NonTargetFocusAfter | SemanticActionSucceeded | VisualChangeConfirmed
    | OperatorTargetNeverFocusedConfirmed | JournalMatchCount | Budget | Metrics
    | Filters | StartUnixMs | EndUnixMs | GitHead | TreeSha256 | Dirty | Sha256
    | StickyBudgetApplicable | ReliabilityBelow5Percent | ModelFocusPollingZero
    | AutomaticFocusVerificationFailuresZero | SuccessfulStickyActionsAllVerified
    | SuccessfulStickyActionsAllActivityChecked | RepeatedPortalPromptsZero
    | StickyRawActionCount | ModelFocusPollRequestCount | PortalOpenRequestCount
    | FocusRestoreSuccessCount | InputActivityCheckCount | ReliabilityFailureCount
    // acceptance bundles
    | GeneratedUnixMs | MaxAgeMs | MaxSpanMs | Artifacts
    | Other(name: string)

  datatype Json =
    | Null
    | Bool(b: bool)
    | Int(n: int)
    | Float(x: real)
    | Str(s: string)
    | Arr(items: seq<Json>)
    | Obj(fields: Dict)

  type Dict = map<Field, Json>

  const TRUE: Json := Bool(true)
  const FALSE: Json := Bool(false)

  function Get(d: Dict, f: Field): Json {
    if f in d then d[f] else Null
  }

  /** What `isinstance(value, int)` lets through: Python's booleans are integers too. */
  function IntOf(j: Json): Option<int> {
    match j
    case Int(n) => Some(n)
    case Bool(b) => Some(if b then 1 else 0)
    case _ => None
  }

  /** Python's `value == n`, which takes true for 1 and 1.0 for 1. */
  predicate IsNumber(j: Json, n: int) {
    IntOf(j) == Some(n) || j == Float(n as real)
  }

  predicate NonEmptyStr(j: Json) {
    j.Str? && j.s != ""
  }

  // ---------- Exceptions ----------

  /** `Crash` is any exception no script catches. The message of an `EvalError` is in lower case. */
  datatype Raised = EvalError(message: string) | Eof | Interrupt | Crash

  datatype Answer<+T> = Gives(value: T) | Raises(raised: Raised)

  /** The answer raises what the scripts that catch an `EvalError` do not catch. */
  predicate EscapesIn<T(!new)>(answer: Answer<T>) {
    answer.Raises? && !answer.raised.EvalError?
  }

  /** A failed check; message texts are not part of this model. */
  const REJECTED: Raised := EvalError("")

  /** The data of a response of the expected type. */
  function ResponseData(response: Dict, expected: string): (r: Result<Dict, Raised>)
    ensures r.Ok? <==> Get(response, Type) == Str(expected) != Str("error") && Get(response, Data).Obj?
    ensures r.Ok? ==> r.value == Get(response, Data).fields
    ensures r.Err? ==> r.error == REJECTED
  {
    if Get(response, Type) == Str("error") then Err(REJECTED)
    else if Get(response, Type) != Str(expected) || !Get(response, Data).Obj? then Err(REJECTED)
    else Ok(Get(response, Data).fields)
  }
}
