/**
 From a journal to the last artifact of the bundle: which journals the baseline report of a
 cooperative run is accepted for.
 */
module CooperativeRun {
  import opened Outcome
  import opened EvalJson
  import opened AcceptanceBundle
  import opened AcceptanceValidators

  import Counts = JournalCounts
  import Journal = JournalMetrics

  /** A budget that does not apply is null. */
  function Flag(budget: Option<bool>): Json {
    match budget
    case None => Null
    case Some(met) => Bool(met)
  }

  function MetricFields(m: Journal.Metrics): Dict {
    map[StickyRawActionCount := Int(m.stickyRawActionCount),
        ModelFocusPollRequestCount := Int(m.modelFocusPollRequestCount),
        PortalOpenRequestCount := Int(m.portalOpenRequestCount),
        FocusRestoreSuccessCount := Int(m.focusRestoreSuccessCount),
        InputActivityCheckCount := Int(m.inputActivityCheckCount),
        ReliabilityFailureCount := Int(m.reliabilityFailureCount)]
  }

  function BudgetFields(b: Journal.Budget): Dict {
    map[StickyBudgetApplicable := Bool(b.stickyBudgetApplicable),
        ReliabilityBelow5Percent := Bool(b.reliabilityBelow5Percent),
        ModelFocusPollingZero := Bool(b.modelFocusPollingZero),
        AutomaticFocusVerificationFailuresZero := Flag(b.automaticFocusVerificationFailuresZero),
        SuccessfulStickyActionsAllVerified := Flag(b.successfulStickyActionsAllVerified),
        SuccessfulStickyActionsAllActivityChecked := Flag(b.successfulStickyActionsAllActivityChecked),
        RepeatedPortalPromptsZero := Bool(b.repeatedPortalPromptsZero)]
  }

  /** The report as it is written, without the metrics that acceptance does not look at. */
  function Evidence(scenario: string, workspace: Json, f: Journal.Filter, m: Journal.Metrics, b: Journal.Budget): Dict {
    map[Type := Str("seatgeist_computer_use_baseline"), Version := Int(2), Scenario := Str(scenario),
        Workspace := workspace, Filters := Obj(map[StartUnixMs := Time(f.start), EndUnixMs := Time(f.end)]),
        Metrics := Obj(MetricFields(m)), Budget := Obj(BudgetFields(b))]
  }

  function Time(at: Option<int>): Json {
    match at
    case None => Null
    case Some(ms) => Int(ms)
  }

  /** Twenty sticky actions or more, each with its focus restored and its activity checked in number,
      each successful one with an id verified and checked; one portal prompt, no polling for the
      focus, and no failure but the expected ones. */
  predicate CooperativeJournal(entries: seq<Journal.Entry>, f: Journal.Filter) {
    var sticky := |Counts.Chosen(entries, f, Journal.StickyRaw)|;
    && sticky >= 20
    && |Counts.Steps(entries, f, Journal.MethodSucceeded("interaction_restore_verify"))| == sticky
    && |Counts.Steps(entries, f, Journal.MethodAmong({"interaction_input_activity"}))| == sticky
    && Counts.Steps(entries, f, Journal.MethodFailed("interaction_focus_verify")) == {}
    && Counts.Unchecked(entries, f, "interaction_focus_verify") == {}
    && Counts.Unchecked(entries, f, "interaction_input_activity") == {}
    && |Counts.Chosen(entries, f, Journal.MethodAmong({"window_capture_open"}))| == 1
    && Counts.Chosen(entries, f, Journal.MethodAmong({"active_window", "focus_window"})) == {}
    && Counts.Chosen(entries, f, Journal.UnexpectedFailure) == {}
  }

  /** The report on a journal is taken for the cooperative artifact if and only if it is on the
      scenario asked for and the journal is one of a cooperative run. */
  lemma AcceptedJournals(entries: seq<Journal.Entry>, f: Journal.Filter, scenario: string, workspace: Json)
    requires Journal.BuildReport(entries, f).Some?
    ensures var (m, b) := Journal.BuildReport(entries, f).value;
      Records(SPECS[7], Evidence(scenario, workspace, f, m, b)) <==>
      scenario == "firefox-sticky-live" && CooperativeJournal(entries, f)
  {
    hide Journal.BuildReport, CooperativeJournal;
    var (m, b) := Journal.BuildReport(entries, f).value;
    LastSpec(Evidence(scenario, workspace, f, m, b));
    MetricsRead(m);
    BudgetsRead(b);
    JournalAccepted(entries, f);
  }

  /** The artifact fits the bundle if, besides, its file is small enough, its workspace the one
      expected, and the report was asked for between two times in order, the later one recent. */
  lemma FitsExactly(entries: seq<Journal.Entry>, f: Journal.Filter, scenario: string, workspace: Json,
                    file: ArtifactFile, expected: Dict, limits: Limits)
    requires Journal.BuildReport(entries, f).Some?
    requires var (m, b) := Journal.BuildReport(entries, f).value;
      file.content == Gives(Obj(Evidence(scenario, workspace, f, m, b)))
    ensures Genuine(file, SPECS[7], expected) && Recent(file, limits) <==>
      && scenario == "firefox-sticky-live" && CooperativeJournal(entries, f)
      && file.bytes <= 4194304 && ValidateWorkspace(workspace) == Some(expected)
      && f.start.Some? && f.end.Some? && 0 <= f.start.value <= f.end.value
      && limits.now - limits.maxAgeMs <= f.end.value <= limits.now + 300000
  {
    hide CooperativeJournal, Records, ValidateWorkspace, Journal.BuildReport;
    AcceptedJournals(entries, f, scenario, workspace);
    var (m, b) := Journal.BuildReport(entries, f).value;
    IntervalRead(scenario, workspace, f, m, b);
  }

  lemma IntervalRead(scenario: string, workspace: Json, f: Journal.Filter, m: Journal.Metrics, b: Journal.Budget)
    ensures EvidenceInterval(Evidence(scenario, workspace, f, m, b)) ==
      if f.start.Some? && f.end.Some? && 0 <= f.start.value <= f.end.value
      then Some((f.start.value, f.end.value)) else None
    ensures Get(Evidence(scenario, workspace, f, m, b), Workspace) == workspace
  {
    hide MetricFields, BudgetFields;
  }

  lemma LastSpec(evidence: Dict)
    ensures Records(SPECS[7], evidence) <==>
      && Get(evidence, Type) == Str("seatgeist_computer_use_baseline")
      && IsNumber(Get(evidence, Version), 2)
      && ValidCooperative(evidence)
  {
    hide ValidCooperative;
  }

  lemma MetricsRead(m: Journal.Metrics)
    ensures CooperativeMetrics(MetricFields(m)) <==>
      && m.stickyRawActionCount >= 20 && m.modelFocusPollRequestCount == 0 && m.portalOpenRequestCount == 1
      && m.focusRestoreSuccessCount == m.inputActivityCheckCount == m.stickyRawActionCount
      && m.reliabilityFailureCount == 0
  {
  }

  /** All seven budgets are asked for. */
  predicate AllMet(b: Journal.Budget) {
    && b.stickyBudgetApplicable && b.reliabilityBelow5Percent && b.modelFocusPollingZero
    && b.automaticFocusVerificationFailuresZero == Some(true)
    && b.successfulStickyActionsAllVerified == Some(true)
    && b.successfulStickyActionsAllActivityChecked == Some(true)
    && b.repeatedPortalPromptsZero
  }

  lemma BudgetsRead(b: Journal.Budget)
    ensures (forall name :: name in REQUIRED_BUDGETS ==> Get(BudgetFields(b), name) == TRUE) <==> AllMet(b)
  {
    var fields := BudgetFields(b);
    if forall name :: name in REQUIRED_BUDGETS ==> Get(fields, name) == TRUE {
      assert StickyBudgetApplicable in REQUIRED_BUDGETS && ReliabilityBelow5Percent in REQUIRED_BUDGETS;
      assert ModelFocusPollingZero in REQUIRED_BUDGETS && RepeatedPortalPromptsZero in REQUIRED_BUDGETS;
      assert AutomaticFocusVerificationFailuresZero in REQUIRED_BUDGETS;
      assert SuccessfulStickyActionsAllVerified in REQUIRED_BUDGETS;
      assert SuccessfulStickyActionsAllActivityChecked in REQUIRED_BUDGETS;
    }
  }

  lemma JournalAccepted(entries: seq<Journal.Entry>, f: Journal.Filter)
    requires Journal.BuildReport(entries, f).Some?
    ensures var (m, b) := Journal.BuildReport(entries, f).value;
      (&& m.stickyRawActionCount >= 20 && m.modelFocusPollRequestCount == 0 && m.portalOpenRequestCount == 1
       && m.focusRestoreSuccessCount == m.inputActivityCheckCount == m.stickyRawActionCount
       && m.reliabilityFailureCount == 0 && AllMet(b)) <==> CooperativeJournal(entries, f)
  {
    hide Counts.Chosen, Counts.Steps, Counts.Unchecked, Journal.MetricsOf, Journal.BudgetOf;
    Counts.CountsExactly(entries, f);
    Counts.RatesExactly(entries, f);
    Counts.BudgetsExactly(entries, f);
  }
}
