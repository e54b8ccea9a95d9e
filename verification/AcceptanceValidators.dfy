/** What evidence the cooperative-use acceptance takes, one validator per artifact. */
module AcceptanceValidators {
  import opened EvalJson

  const RETAINED_SCENARIOS: set<string> := {
    "focused_visible", "unfocused_visible", "partially_occluded", "fully_occluded",
    "minimized", "popup_or_dialog", "moved_resized", "monitor_or_scale_change" }

  const REQUIRED_BUDGETS: set<Field> := {
    StickyBudgetApplicable, ReliabilityBelow5Percent, ModelFocusPollingZero,
    AutomaticFocusVerificationFailuresZero, SuccessfulStickyActionsAllVerified,
    SuccessfulStickyActionsAllActivityChecked, RepeatedPortalPromptsZero }

  predicate Common(evidence: Dict) {
    && Get(evidence, Status) == Str("passed")
    && Get(evidence, AcceptanceComplete) == TRUE
    && Get(evidence, Errors) == Arr([])
  }

  predicate ScenarioPassed(scenario: Json) {
    && scenario.Obj?
    && Get(scenario.fields, VisualVerdict) == Str("pass")
    && Get(scenario.fields, Frame).Obj?
    && Get(Get(scenario.fields, Frame).fields, FreshFrame) == TRUE
  }

  /** The values of a list as a set. */
  function Elements(items: seq<Json>): set<Json> {
    set i | 0 <= i < |items| :: items[i]
  }

  function NamesOf(scenarios: seq<Json>): set<Json> {
    set i | 0 <= i < |scenarios| && scenarios[i].Obj? :: Get(scenarios[i].fields, Name)
  }

  function AsStrings(names: set<string>): set<Json> {
    set name | name in names :: Str(name)
  }

  predicate ValidRetained(evidence: Dict) {
    && Common(evidence)
    && Get(evidence, AllScenariosSelected) == TRUE
    && Get(evidence, SelectedScenarios).Arr?
    && Elements(Get(evidence, SelectedScenarios).items) == AsStrings(RETAINED_SCENARIOS)
    && Get(evidence, Scenarios).Arr?
    && |Get(evidence, Scenarios).items| == |RETAINED_SCENARIOS|
    && NamesOf(Get(evidence, Scenarios).items) == AsStrings(RETAINED_SCENARIOS)
    && (forall i :: 0 <= i < |Get(evidence, Scenarios).items| ==> ScenarioPassed(Get(evidence, Scenarios).items[i]))
    && IsNumber(Get(evidence, PortalOpenCount), 1)
    && IsNumber(Get(evidence, ExplicitFocusCallCount), 0)
    && Get(evidence, SessionClosed) == TRUE
  }

  predicate ValidMultiOutput(evidence: Dict) {
    && ValidRetained(evidence)
    && Get(evidence, LayoutRequirement) == Str("multi_output_nonzero_origin")
    && Get(evidence, MonitorLayout).Obj?
    && IntOf(Get(Get(evidence, MonitorLayout).fields, MonitorCount)).Some?
    && IntOf(Get(Get(evidence, MonitorLayout).fields, MonitorCount)).value >= 2
    && Get(Get(evidence, MonitorLayout).fields, HasNonzeroLogicalOrigin) == TRUE
  }

  predicate ValidRestore(evidence: Dict) {
    && Common(evidence)
    && Get(evidence, DaemonRestartProven) == TRUE
    && Get(evidence, PrepareSessionClosed) == TRUE
    && Get(evidence, ResumeSessionClosed) == TRUE
    && Get(evidence, Resume).Obj?
    && Get(Get(evidence, Resume).fields, PortalChooserAvoided) == TRUE
    && Get(Get(evidence, Resume).fields, RestoreFileReplaced) == TRUE
  }

  predicate ValidLifecycle(evidence: Dict) {
    && Common(evidence)
    && Get(evidence, EndedStatus).Obj?
    && Get(Get(evidence, EndedStatus).fields, LastEndReason) == Str("portal_closed")
    && Get(evidence, StaleSessionRejected) == TRUE
    && Get(evidence, CleanupCloseCalled) == FALSE
    && IsNumber(Get(evidence, ExplicitFocusCallCount), 0)
    && IsNumber(Get(evidence, RawInputCallCount), 0)
  }

  /** Python's truth of a value. */
  predicate Truthy(j: Json) {
    match j
    case Null => false
    case Bool(b) => b
    case Int(n) => n != 0
    case Float(x) => x != 0.0
    case Str(s) => s != ""
    case Arr(items) => items != []
    case Obj(fields) => fields != map[]
  }

  predicate ValidReopen(evidence: Dict) {
    && Common(evidence)
    && Truthy(Get(evidence, Replacement))
    && Get(evidence, PostReopenStatus).Obj?
    && Get(Get(evidence, PostReopenStatus).fields, StickyTargetBound) == FALSE
    && (Get(evidence, SessionCleanup) == Str("client_closed") || Get(evidence, SessionCleanup) == Str("portal_ended"))
    && IsNumber(Get(evidence, ExplicitFocusCallCount), 0)
    && IsNumber(Get(evidence, RawInputCallCount), 0)
  }

  predicate ValidBackground(evidence: Dict, scenario: string) {
    && Common(evidence)
    && Get(evidence, Scenario) == Str(scenario)
    && Get(evidence, NonTargetFocusBefore) == TRUE
    && Get(evidence, NonTargetFocusAfter) == TRUE
    && Get(evidence, SemanticActionSucceeded) == TRUE
    && Get(evidence, VisualChangeConfirmed) == TRUE
    && Get(evidence, OperatorTargetNeverFocusedConfirmed) == TRUE
    && IsNumber(Get(evidence, JournalMatchCount), 1)
    && IsNumber(Get(evidence, ExplicitFocusCallCount), 0)
    && IsNumber(Get(evidence, RawInputCallCount), 0)
  }

  predicate ValidCooperative(evidence: Dict) {
    && Get(evidence, Scenario) == Str("firefox-sticky-live")
    && Get(evidence, Budget).Obj?
    && (forall name :: name in REQUIRED_BUDGETS ==> Get(Get(evidence, Budget).fields, name) == TRUE)
    && Get(evidence, Metrics).Obj?
    && CooperativeMetrics(Get(evidence, Metrics).fields)
  }

  predicate CooperativeMetrics(metrics: Dict) {
    var sticky := IntOf(Get(metrics, StickyRawActionCount));
    && sticky.Some? && sticky.value >= 20
    && IsNumber(Get(metrics, ModelFocusPollRequestCount), 0)
    && IsNumber(Get(metrics, PortalOpenRequestCount), 1)
    && IsNumber(Get(metrics, FocusRestoreSuccessCount), sticky.value)
    && IsNumber(Get(metrics, InputActivityCheckCount), sticky.value)
    && IsNumber(Get(metrics, ReliabilityFailureCount), 0)
  }

  // ---------- The artifacts of a bundle ----------

  datatype Validator =
    | Retained | MultiOutput | Restore | Lifecycle | Reopen | Background(scenario: string) | Cooperative

  datatype ArtifactSpec = ArtifactSpec(name: string, evidenceType: string, version: int, validator: Validator)

  const SPECS: seq<ArtifactSpec> := [
    ArtifactSpec("retained_capture", "seatgeist_retained_capture_eval", 1, Retained),
    ArtifactSpec("retained_capture_multi_output", "seatgeist_retained_capture_eval", 1, MultiOutput),
    ArtifactSpec("capture_restore_restart", "seatgeist_capture_restore_restart_eval", 1, Restore),
    ArtifactSpec("capture_revocation", "seatgeist_capture_lifecycle_eval", 1, Lifecycle),
    ArtifactSpec("target_reopen", "seatgeist_target_reopen_eval", 1, Reopen),
    ArtifactSpec("background_semantic_firefox", "seatgeist_background_semantic_eval", 2, Background("firefox")),
    ArtifactSpec("background_semantic_kde", "seatgeist_background_semantic_eval", 2, Background("kde")),
    ArtifactSpec("cooperative_sticky", "seatgeist_computer_use_baseline", 2, Cooperative)]

  predicate Accepts(validator: Validator, evidence: Dict) {
    match validator
    case Retained => ValidRetained(evidence)
    case MultiOutput => ValidMultiOutput(evidence)
    case Restore => ValidRestore(evidence)
    case Lifecycle => ValidLifecycle(evidence)
    case Reopen => ValidReopen(evidence)
    case Background(scenario) => ValidBackground(evidence, scenario)
    case Cooperative => ValidCooperative(evidence)
  }

  /** Evidence of the type and version the spec names, that its validator accepts. */
  predicate Records(spec: ArtifactSpec, evidence: Dict) {
    && Get(evidence, Type) == Str(spec.evidenceType)
    && IsNumber(Get(evidence, Version), spec.version)
    && Accepts(spec.validator, evidence)
  }

  /** The same kind of evidence, about the same workspace, begun at the same time. */
  predicate SameHead(a: Dict, b: Dict) {
    && Get(a, Type) == Get(b, Type)
    && Get(a, Version) == Get(b, Version)
    && Get(a, Workspace) == Get(b, Workspace)
    && Get(a, StartedUnixMs) == Get(b, StartedUnixMs)
  }
}
