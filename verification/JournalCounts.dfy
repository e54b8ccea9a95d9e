/**
 The baseline report counted entry by entry: every metric and every budget as a number of positions
 of the journal, with the conditions on an entry written out.
 */
module JournalCounts {
  import opened Outcome
  import opened JournalMetrics

  // ---------- The conditions on an entry, written out ----------

  predicate Wanted(f: Filter, e: Entry) {
    && (f.tool == None || e.tool == Text(f.tool.value))
    && (f.pid == None || e.pid == Some(f.pid.value))
    && InTime(f, e)
  }

  predicate InTime(f: Filter, e: Entry) {
    && (f.start == None || (e.unixTimeMs.Some? && f.start.value <= e.unixTimeMs.value))
    && (f.end == None || (e.unixTimeMs.Some? && e.unixTimeMs.value <= f.end.value))
  }

  predicate Controls(e: Entry) {
    || e.safetyClass == Text("control_pointer") || e.safetyClass == Text("control_keyboard")
    || e.safetyClass == Text("control_semantic") || e.safetyClass == Text("destructive_action")
    || e.safetyClass == Text("secret_field")
  }

  /** Raw input in a session. */
  predicate Sticky(e: Entry) {
    && e.sessionId.Some?
    && ( || e.methodName == Text("type_text") || e.methodName == Text("key_combo")
         || e.methodName == Text("move_pointer") || e.methodName == Text("click_pointer")
         || e.methodName == Text("drag_pointer") || e.methodName == Text("scroll_pointer"))
  }

  /** A refusal by policy, user or portal, or a lost target: no fault of the implementation. */
  predicate ExpectedOutcome(e: Entry) {
    NormalizedKind(e) in {
      "policypromptrequired", "policydenied", "appdenied", "humaninputpause", "panicstop", "targetlost",
      "targetmismatch", "consentcancelled", "sessionownermismatch"}
  }

  /** What each condition asks of an entry. */
  predicate Meets(t: Test, e: Entry) {
    match t
    case Matches(f) => Wanted(f, e)
    case InternalTo(ids, f) => e.tool == Absent && InTime(f, e) && e.actionId.Some? && e.actionId.value in ids
    case Failed => !e.ok
    case Succeeded => e.ok
    case Control => Controls(e)
    case ControlFailed => Controls(e) && !e.ok
    case GuardedControl => Controls(e) && e.guardPresent
    case MethodAmong(methods) => exists name :: name in methods && e.methodName == Text(name)
    case MethodFailed(name) => e.methodName == Text(name) && !e.ok
    case MethodSucceeded(name) => e.methodName == Text(name) && e.ok
    case WindowChanged => e.windowBefore != None && e.windowAfter != None && e.windowBefore != e.windowAfter
    case StickyRaw => Sticky(e)
    case StickySucceeded => Sticky(e) && e.ok
    case ExpectedFailure => !e.ok && ExpectedOutcome(e)
    case UnexpectedFailure => !e.ok && !ExpectedOutcome(e)
    case KeyIs(key, value) => KeyOf(key, e) == value
  }

  lemma HoldsExactly(t: Test, e: Entry)
    ensures Holds(t, e) <==> Meets(t, e)
  {
    hide NormalizedKind, KeyOf;
    if t.MethodAmong? && e.methodName.Text? { assert Text(e.methodName.s) == e.methodName; }
  }

  // ---------- Counting positions ----------

  /** The positions of the wanted entries that meet a condition. */
  function Chosen(entries: seq<Entry>, f: Filter, t: Test): set<nat> {
    set i: nat | i < |entries| && Wanted(f, entries[i]) && Meets(t, entries[i])
  }

  /** A step of the daemon itself, within the times, for an action of a wanted entry. */
  predicate OwnStep(entries: seq<Entry>, f: Filter, e: Entry) {
    && e.tool == Absent && InTime(f, e) && e.actionId.Some?
    && exists i :: 0 <= i < |entries| && Wanted(f, entries[i]) && entries[i].actionId == e.actionId
  }

  function Steps(entries: seq<Entry>, f: Filter, t: Test): set<nat> {
    set i: nat | i < |entries| && OwnStep(entries, f, entries[i]) && Meets(t, entries[i])
  }

  /** The positions of all entries that meet two conditions. */
  function Both(entries: seq<Entry>, outer: Test, inner: Test): set<nat> {
    set i: nat | i < |entries| && Meets(outer, entries[i]) && Meets(inner, entries[i])
  }

  lemma BothNext(entries: seq<Entry>, e: Entry, outer: Test, inner: Test)
    ensures |Both(entries + [e], outer, inner)|
         == |Both(entries, outer, inner)| + if Meets(outer, e) && Meets(inner, e) then 1 else 0
  {
    hide Meets, Both;
    var all, before := entries + [e], Both(entries, outer, inner);
    var more: set<nat> := if Meets(outer, e) && Meets(inner, e) then {|entries|} else {};
    forall i: nat ensures i in Both(all, outer, inner) <==> i in before + more { BothAt(entries, e, outer, inner, i); }
    assert Both(all, outer, inner) == before + more;
    BothAt(entries, e, outer, inner, |entries|);
  }

  lemma BothAt(entries: seq<Entry>, e: Entry, outer: Test, inner: Test, i: nat)
    ensures i in Both(entries + [e], outer, inner) <==>
      i in Both(entries, outer, inner) || (i == |entries| && Meets(outer, e) && Meets(inner, e))
    ensures i in Both(entries, outer, inner) ==> i < |entries|
  {
    hide Meets;
    if i < |entries| { assert (entries + [e])[i] == entries[i]; }
  }

  /** Selecting and then counting is counting the positions that meet both conditions. */
  lemma {:induction false} CountsBoth(entries: seq<Entry>, outer: Test, inner: Test)
    ensures Count(Select(entries, outer), inner) == |Both(entries, outer, inner)|
    decreases |entries|
  {
    hide Holds, Meets, Both, Select;
    if entries == [] {
      NothingCounted(outer, inner);
    } else {
      var rest, last := entries[..|entries| - 1], entries[|entries| - 1];
      assert entries == rest + [last];
      CountsBoth(rest, outer, inner);
      BothNext(rest, last, outer, inner);
      HoldsExactly(outer, last);
      HoldsExactly(inner, last);
      SelectNext(rest, last, outer);
      SelectNext(Select(rest, outer), last, inner);
      assert Select(rest, outer) + [] == Select(rest, outer);
    }
  }

  lemma NothingCounted(outer: Test, inner: Test)
    ensures Count(Select([], outer), inner) == 0 && Both([], outer, inner) == {}
  {
  }

  lemma ChosenExactly(entries: seq<Entry>, f: Filter, t: Test)
    ensures Count(Selected(entries, f), t) == |Chosen(entries, f, t)|
  {
    hide Holds, Wanted, Select;
    CountsBoth(entries, Matches(f), t);
    assert Both(entries, Matches(f), t) == Chosen(entries, f, t);
  }

  lemma IdsExactly(entries: seq<Entry>, f: Filter, t: Test, id: string)
    ensures id in ActionIds(Selected(entries, f), t) <==>
            exists i :: 0 <= i < |entries| && Wanted(f, entries[i]) && Meets(t, entries[i])
                        && entries[i].actionId == Some(id)
  {
    hide Holds, Wanted;
    forall e ensures (Holds(Matches(f), e) <==> Wanted(f, e)) && (Holds(t, e) <==> Meets(t, e)) {
      HoldsExactly(Matches(f), e);
      HoldsExactly(t, e);
    }
    if i :| 0 <= i < |entries| && Wanted(f, entries[i]) && Meets(t, entries[i]) && entries[i].actionId == Some(id) {
      assert entries[i] in Selected(entries, f);
    }
  }

  lemma StepExactly(entries: seq<Entry>, f: Filter, e: Entry)
    ensures Meets(InternalTo(ActionIds(Selected(entries, f), Matches(f)), f), e) <==> OwnStep(entries, f, e)
  {
    hide ActionIds, Wanted, InTime;
    if e.actionId.Some? { IdsExactly(entries, f, Matches(f), e.actionId.value); }
  }

  lemma StepsExactly(entries: seq<Entry>, f: Filter, t: Test)
    ensures Count(InternalSteps(entries, f), t) == |Steps(entries, f, t)|
  {
    hide Holds, OwnStep, Select, ActionIds;
    var own := InternalTo(ActionIds(Selected(entries, f), Matches(f)), f);
    CountsBoth(entries, own, t);
    forall e ensures Meets(own, e) <==> OwnStep(entries, f, e) { StepExactly(entries, f, e); }
    assert Both(entries, own, t) == Steps(entries, f, t);
  }

  // ---------- The metrics ----------

  /** The requests that only ask how things stand. */
  const PREFLIGHT: set<string> := {
    "health", "capabilities", "policy_status", "safety_status", "desktop_session_status", "computer_use_readiness",
    "panic_stop_status", "kwin_bridge_status", "uinput_status", "input_backend_status",
    "remote_desktop_eis_session_status", "capture_backend_status", "pointer_calibration",
    "clipboard_backend_status", "accessibility_quality_status"}

  /** The requests that look at the desktop. */
  const OBSERVATIONS: set<string> := {
    "list_monitors", "list_windows", "active_window", "observe", "screenshot", "screenshot_tile", "wait_for_change",
    "focused_accessibility_tree", "accessibility_find", "accessibility_text_attributes"}

  lemma SameTables()
    ensures PREFLIGHT == PREFLIGHT_METHODS && OBSERVATIONS == OBSERVATION_METHODS
  {
  }

  /** The counts over the wanted entries. */
  predicate ChosenCounts(m: Metrics, entries: seq<Entry>, f: Filter) {
    && m.requestCount == |Chosen(entries, f, Matches(f))|
    && m.successCount == |Chosen(entries, f, Succeeded)|
    && m.failureCount == |Chosen(entries, f, Failed)|
    && m.reliabilityFailureCount == |Chosen(entries, f, UnexpectedFailure)|
    && m.preflightRequestCount == |Chosen(entries, f, MethodAmong(PREFLIGHT))|
    && m.observationRequestCount == |Chosen(entries, f, MethodAmong(OBSERVATIONS))|
    && m.captureRequestCount == |Chosen(entries, f, MethodAmong({"screenshot", "screenshot_tile", "wait_for_change"}))|
    && m.activeWindowCheckCount == |Chosen(entries, f, MethodAmong({"active_window"}))|
    && m.focusRequestCount == |Chosen(entries, f, MethodAmong({"focus_window"}))|
    && m.focusFailureCount == |Chosen(entries, f, MethodFailed("focus_window"))|
    && m.modelFocusPollRequestCount == |Chosen(entries, f, MethodAmong({"active_window", "focus_window"}))|
    && m.portalOpenRequestCount == |Chosen(entries, f, MethodAmong({"window_capture_open"}))|
  }

  predicate ControlCounts(m: Metrics, entries: seq<Entry>, f: Filter) {
    && m.focusContextChangeCount == |Chosen(entries, f, WindowChanged)|
    && m.stickyRawActionCount == |Chosen(entries, f, StickyRaw)|
    && m.controlRequestCount == |Chosen(entries, f, Control)|
    && m.controlFailureCount == |Chosen(entries, f, ControlFailed)|
    && m.guardedControlCount == |Chosen(entries, f, GuardedControl)|
    && m.unguardedControlCount == |Chosen(entries, f, Control) - Chosen(entries, f, GuardedControl)|
  }

  /** The counts over the daemon's own steps. */
  predicate StepCounts(m: Metrics, entries: seq<Entry>, f: Filter) {
    && m.internalActionStepCount == |Steps(entries, f, Succeeded)| + |Steps(entries, f, Failed)|
    && m.automaticFocusRequestCount == |Steps(entries, f, MethodAmong({"interaction_focus"}))|
    && m.automaticFocusVerifyFailureCount == |Steps(entries, f, MethodFailed("interaction_focus_verify"))|
    && m.inputActivityCheckCount == |Steps(entries, f, MethodAmong({"interaction_input_activity"}))|
    && m.inputActivityConflictCount == |Steps(entries, f, MethodFailed("interaction_input_activity"))|
    && m.focusRestoreRequestCount == |Steps(entries, f, MethodAmong({"interaction_restore_focus"}))|
    && m.focusRestoreSuccessCount == |Steps(entries, f, MethodSucceeded("interaction_restore_verify"))|
  }

  /** The actions whose raw input went through but whose check by the daemon did not, or was not made. */
  function Unchecked(entries: seq<Entry>, f: Filter, step: string): set<string> {
    set i | 0 <= i < |entries| && Wanted(f, entries[i]) && Sticky(entries[i]) && entries[i].ok
            && entries[i].actionId.Some? && !Checked(entries, f, step, entries[i].actionId.value)
          :: entries[i].actionId.value
  }

  predicate Checked(entries: seq<Entry>, f: Filter, step: string, id: string) {
    exists i :: 0 <= i < |entries| && OwnStep(entries, f, entries[i]) && entries[i].actionId == Some(id)
                && entries[i].methodName == Text(step) && entries[i].ok
  }

  lemma DisjointSum(a: set<nat>, b: set<nat>, c: set<nat>)
    requires a == b + c && b !! c
    ensures |a| == |b| + |c|
  {
  }

  lemma SizeCount(entries: seq<Entry>)
    ensures |entries| == Count(entries, Succeeded) + Count(entries, Failed)
    decreases |entries|
  {
    if entries != [] {
      var rest, last := entries[..|entries| - 1], entries[|entries| - 1];
      assert entries == rest + [last];
      SizeCount(rest);
      SelectNext(rest, last, Succeeded);
      SelectNext(rest, last, Failed);
    }
  }

  lemma ChosenAll(entries: seq<Entry>, f: Filter)
    ensures |Selected(entries, f)| == |Chosen(entries, f, Matches(f))|
    ensures |Selected(entries, f)| == |Chosen(entries, f, Succeeded)| + |Chosen(entries, f, Failed)|
  {
    hide Holds, Wanted, Select;
    SizeCount(Selected(entries, f));
    ChosenExactly(entries, f, Succeeded);
    ChosenExactly(entries, f, Failed);
    DisjointSum(Chosen(entries, f, Matches(f)), Chosen(entries, f, Succeeded), Chosen(entries, f, Failed));
  }

  lemma PollsAddUp(entries: seq<Entry>, f: Filter)
    ensures |Chosen(entries, f, MethodAmong({"active_window", "focus_window"}))|
         == |Chosen(entries, f, MethodAmong({"active_window"}))| + |Chosen(entries, f, MethodAmong({"focus_window"}))|
  {
    hide Wanted;
    assert "active_window"[0] != "focus_window"[0];
    DisjointSum(Chosen(entries, f, MethodAmong({"active_window", "focus_window"})),
                Chosen(entries, f, MethodAmong({"active_window"})), Chosen(entries, f, MethodAmong({"focus_window"})));
  }

  lemma UnguardedExactly(entries: seq<Entry>, f: Filter)
    ensures |Chosen(entries, f, Control) - Chosen(entries, f, GuardedControl)|
         == |Chosen(entries, f, Control)| - |Chosen(entries, f, GuardedControl)|
  {
    hide Wanted, Controls;
    assert Chosen(entries, f, GuardedControl) <= Chosen(entries, f, Control);
    DisjointSum(Chosen(entries, f, Control), Chosen(entries, f, GuardedControl),
                Chosen(entries, f, Control) - Chosen(entries, f, GuardedControl));
  }

  lemma ChosenCountsHold(entries: seq<Entry>, f: Filter)
    ensures ChosenCounts(MetricsOf(Selected(entries, f), InternalSteps(entries, f)), entries, f)
  {
    hide Chosen, Selected, InternalSteps, Count, Duration, Tally, Ratio, UnmatchedSticky, Select;
    hide PREFLIGHT_METHODS, OBSERVATION_METHODS, PREFLIGHT, OBSERVATIONS, Holds;
    SameTables();
    ChosenAll(entries, f);
    PollsAddUp(entries, f);
    ChosenExactly(entries, f, Failed);
    ChosenExactly(entries, f, UnexpectedFailure);
    ChosenExactly(entries, f, MethodAmong(PREFLIGHT_METHODS));
    ChosenExactly(entries, f, MethodAmong(OBSERVATION_METHODS));
    ChosenExactly(entries, f, MethodAmong(CAPTURE_METHODS));
    ChosenExactly(entries, f, MethodAmong({"active_window"}));
    ChosenExactly(entries, f, MethodAmong({"focus_window"}));
    ChosenExactly(entries, f, MethodFailed("focus_window"));
    ChosenExactly(entries, f, MethodAmong({"window_capture_open"}));
  }

  lemma ControlCountsHold(entries: seq<Entry>, f: Filter)
    ensures ControlCounts(MetricsOf(Selected(entries, f), InternalSteps(entries, f)), entries, f)
  {
    hide Chosen, Selected, InternalSteps, Count, Duration, Tally, Ratio, UnmatchedSticky, Select, Holds;
    UnguardedExactly(entries, f);
    ChosenExactly(entries, f, WindowChanged);
    ChosenExactly(entries, f, StickyRaw);
    ChosenExactly(entries, f, Control);
    ChosenExactly(entries, f, ControlFailed);
    ChosenExactly(entries, f, GuardedControl);
  }

  lemma StepCountsHold(entries: seq<Entry>, f: Filter)
    ensures StepCounts(MetricsOf(Selected(entries, f), InternalSteps(entries, f)), entries, f)
  {
    hide Steps, Selected, InternalSteps, Count, Duration, Tally, Ratio, UnmatchedSticky, Select, Holds;
    SizeCount(InternalSteps(entries, f));
    StepsExactly(entries, f, Succeeded);
    StepsExactly(entries, f, Failed);
    StepsExactly(entries, f, MethodAmong({"interaction_focus"}));
    StepsExactly(entries, f, MethodFailed("interaction_focus_verify"));
    StepsExactly(entries, f, MethodAmong({"interaction_input_activity"}));
    StepsExactly(entries, f, MethodFailed("interaction_input_activity"));
    StepsExactly(entries, f, MethodAmong({"interaction_restore_focus"}));
    StepsExactly(entries, f, MethodSucceeded("interaction_restore_verify"));
  }

  /** Every metric of a report is a count of positions of the journal. */
  lemma CountsExactly(entries: seq<Entry>, f: Filter)
    ensures var m := MetricsOf(Selected(entries, f), InternalSteps(entries, f));
      ChosenCounts(m, entries, f) && ControlCounts(m, entries, f) && StepCounts(m, entries, f)
  {
    hide MetricsOf, ChosenCounts, ControlCounts, StepCounts, Selected, InternalSteps;
    ChosenCountsHold(entries, f);
    ControlCountsHold(entries, f);
    StepCountsHold(entries, f);
  }

  /** The rates are the failures over the requests, the expected outcomes left out of the second. */
  lemma RatesExactly(entries: seq<Entry>, f: Filter)
    ensures var m := MetricsOf(Selected(entries, f), InternalSteps(entries, f));
      var base := |Chosen(entries, f, Matches(f))| - |Chosen(entries, f, ExpectedFailure)|;
      && m.failureRate * m.requestCount as real == m.failureCount as real
      && (m.requestCount == 0 ==> m.failureRate == 0.0)
      && m.reliabilityFailureRate * base as real == m.reliabilityFailureCount as real
      && (base == 0 ==> m.reliabilityFailureRate == 0.0)
      && base >= m.reliabilityFailureCount
  {
    hide Chosen, Selected, InternalSteps, Count, Duration, Tally, UnmatchedSticky, Select;
    var selected := Selected(entries, f);
    ChosenAll(entries, f);
    ChosenExactly(entries, f, ExpectedFailure);
    FailuresSplit(selected);
    SizeCount(selected);
    RatioTimes(Count(selected, Failed), |selected|);
    RatioTimes(Count(selected, UnexpectedFailure), ReliabilityBase(selected));
  }

  lemma RatioTimes(n: nat, d: int)
    requires n <= d
    ensures Ratio(n, d) * d as real == n as real
  {
  }

  lemma UncheckedExactly(entries: seq<Entry>, f: Filter, step: string)
    ensures UnmatchedSticky(Selected(entries, f), InternalSteps(entries, f), step) == |Unchecked(entries, f, step)|
  {
    hide Select, Wanted, OwnStep, Sticky, Checked;
    var done := ActionIds(Selected(entries, f), StickySucceeded);
    var checked := ActionIds(InternalSteps(entries, f), MethodSucceeded(step));
    forall id ensures id in done - checked <==> id in Unchecked(entries, f, step) {
      IdsExactly(entries, f, StickySucceeded, id);
      CheckedExactly(entries, f, step, id);
    }
    assert done - checked == Unchecked(entries, f, step);
  }

  lemma CheckedExactly(entries: seq<Entry>, f: Filter, step: string, id: string)
    ensures id in ActionIds(InternalSteps(entries, f), MethodSucceeded(step)) <==> Checked(entries, f, step, id)
  {
    hide OwnStep, ActionIds;
    var own := InternalTo(ActionIds(Selected(entries, f), Matches(f)), f);
    var internal := InternalSteps(entries, f);
    forall e ensures Holds(own, e) <==> OwnStep(entries, f, e) {
      HoldsExactly(own, e);
      StepExactly(entries, f, e);
    }
    AmongIds(internal, MethodSucceeded(step), id);
    if i :| 0 <= i < |entries| && OwnStep(entries, f, entries[i]) && entries[i].actionId == Some(id)
            && entries[i].methodName == Text(step) && entries[i].ok {
      assert entries[i] in internal;
    }
    if e :| e in internal && e.actionId == Some(id) && e.methodName == Text(step) && e.ok {
      var i :| 0 <= i < |entries| && entries[i] == e;
      assert OwnStep(entries, f, entries[i]);
    }
  }

  lemma AmongIds(entries: seq<Entry>, t: Test, id: string)
    ensures id in ActionIds(entries, t) <==> exists e :: e in entries && Holds(t, e) && e.actionId == Some(id)
  {
  }

  // ---------- The budgets ----------

  /** What each budget says of the journal; the last three ask for sticky actions. */
  predicate BudgetSays(b: Budget, entries: seq<Entry>, f: Filter) {
    var sticky := Chosen(entries, f, StickyRaw) != {};
    var base := |Chosen(entries, f, Matches(f))| - |Chosen(entries, f, ExpectedFailure)|;
    && b.stickyBudgetApplicable == sticky
    && b.reliabilityBelow5Percent == (20 * |Chosen(entries, f, UnexpectedFailure)| < base || base == 0)
    && b.modelFocusPollingZero == (Chosen(entries, f, MethodAmong({"active_window", "focus_window"})) == {})
    && b.repeatedPortalPromptsZero == (|Chosen(entries, f, MethodAmong({"window_capture_open"}))| < 2)
    && b.automaticFocusVerificationFailuresZero
       == (if sticky then Some(Steps(entries, f, MethodFailed("interaction_focus_verify")) == {}) else None)
    && b.successfulStickyActionsAllVerified
       == (if sticky then Some(Unchecked(entries, f, "interaction_focus_verify") == {}) else None)
    && b.successfulStickyActionsAllActivityChecked
       == (if sticky then Some(Unchecked(entries, f, "interaction_input_activity") == {}) else None)
  }

  /** There is a report exactly where an entry is wanted, and its budgets say so. */
  lemma BudgetsExactly(entries: seq<Entry>, f: Filter)
    ensures BuildReport(entries, f).Some? <==> exists i :: 0 <= i < |entries| && Wanted(f, entries[i])
    ensures BuildReport(entries, f).Some? ==> BudgetSays(BuildReport(entries, f).value.1, entries, f)
  {
    hide Chosen, Steps, Unchecked, Selected, InternalSteps, Count, Duration, Tally, Ratio, UnmatchedSticky, Select;
    hide Wanted, ChosenCounts, ControlCounts, StepCounts;
    AnyWanted(entries, f);
    var selected, internal := Selected(entries, f), InternalSteps(entries, f);
    CountsExactly(entries, f);
    CountsSay(MetricsOf(selected, internal), entries, f);
    ChosenAll(entries, f);
    ChosenExactly(entries, f, ExpectedFailure);
    FailuresSplit(selected);
    SizeCount(selected);
    UncheckedExactly(entries, f, "interaction_focus_verify");
    UncheckedExactly(entries, f, "interaction_input_activity");
    ChosenExactly(entries, f, UnexpectedFailure);
    BelowFivePercent(Count(selected, UnexpectedFailure), ReliabilityBase(selected));
  }

  lemma CountsSay(m: Metrics, entries: seq<Entry>, f: Filter)
    requires ChosenCounts(m, entries, f) && ControlCounts(m, entries, f) && StepCounts(m, entries, f)
    ensures m.stickyRawActionCount == |Chosen(entries, f, StickyRaw)|
    ensures m.modelFocusPollRequestCount == |Chosen(entries, f, MethodAmong({"active_window", "focus_window"}))|
    ensures m.portalOpenRequestCount == |Chosen(entries, f, MethodAmong({"window_capture_open"}))|
    ensures m.automaticFocusVerifyFailureCount == |Steps(entries, f, MethodFailed("interaction_focus_verify"))|
  {
  }

  lemma BelowFivePercent(n: nat, d: int)
    requires n <= d
    ensures Ratio(n, d) < 0.05 <==> 20 * n < d || d == 0
  {
    hide Ratio;
    if d > 0 {
      RatioTimes(n, d);
      TimesOrdered(Ratio(n, d), 0.05, d as real);
      assert n as real < 0.05 * d as real <==> (20 * n) as real < d as real;
    } else {
      NoRatio(n);
    }
  }

  lemma NoRatio(n: nat)
    ensures Ratio(n, 0) == 0.0
  {
  }

  lemma TimesOrdered(a: real, b: real, d: real)
    requires d > 0.0
    ensures a < b <==> a * d < b * d
  {
    assert a < b ==> (b - a) * d > 0.0;
    assert a >= b ==> (a - b) * d >= 0.0;
  }

  lemma AnyWanted(entries: seq<Entry>, f: Filter)
    ensures Selected(entries, f) != [] <==> exists i :: 0 <= i < |entries| && Wanted(f, entries[i])
  {
    hide Wanted, Holds, Meets;
    forall e ensures Holds(Matches(f), e) <==> Wanted(f, e) { MatchesExactly(f, e); }
    if Selected(entries, f) != [] {
      var e := Selected(entries, f)[0];
      assert e in Selected(entries, f);
      var i :| 0 <= i < |entries| && entries[i] == e;
    }
    if i :| 0 <= i < |entries| && Wanted(f, entries[i]) {
      assert entries[i] in Selected(entries, f);
    }
  }

  lemma MatchesExactly(f: Filter, e: Entry)
    ensures Holds(Matches(f), e) <==> Wanted(f, e)
  {
    hide Wanted;
    HoldsExactly(Matches(f), e);
  }

  // ---------- The counters and the duration ----------

  /** What an entry is counted under: its method's name where it has one. */
  predicate CountedUnder(key: Key, e: Entry, name: string) {
    match key
    case ByMethod =>
      (e.methodName == Text(name) && name != "")
      || (name == "unknown" && e.methodName in {Absent, OtherValue, Text("")})
    case ByKind => name == ErrorKind(e)
    case ByCategory => name == CategoryOf(NormalizedKind(e))
  }

  /** The positions of the wanted entries under a name, of all of them or of the failed ones. */
  function Under(entries: seq<Entry>, f: Filter, key: Key, name: string, failed: bool): set<nat> {
    set i: nat | i < |entries| && Wanted(f, entries[i]) && (failed ==> !entries[i].ok)
                 && CountedUnder(key, entries[i], name)
  }

  /** A counter has a name exactly where an entry is counted under it, and how many are. */
  ghost predicate CounterSays(counts: map<string, nat>, entries: seq<Entry>, f: Filter, key: Key, failed: bool) {
    forall name :: if name in counts then counts[name] == |Under(entries, f, key, name, failed)| > 0
                   else Under(entries, f, key, name, failed) == {}
  }

  lemma UnderExactly(entries: seq<Entry>, f: Filter, key: Key, name: string)
    ensures Count(Selected(entries, f), KeyIs(key, name)) == |Under(entries, f, key, name, false)|
    ensures Count(Select(Selected(entries, f), Failed), KeyIs(key, name)) == |Under(entries, f, key, name, true)|
  {
    hide Holds, Wanted, Select, ErrorKind, NormalizedKind, CategoryOf;
    ChosenExactly(entries, f, KeyIs(key, name));
    assert Chosen(entries, f, KeyIs(key, name)) == Under(entries, f, key, name, false);
    FailedWithin(entries, f, KeyIs(key, name));
    assert FailedChosen(entries, f, KeyIs(key, name)) == Under(entries, f, key, name, true);
  }

  function FailedChosen(entries: seq<Entry>, f: Filter, t: Test): set<nat> {
    set i: nat | i < |entries| && Wanted(f, entries[i]) && !entries[i].ok && Meets(t, entries[i])
  }

  lemma {:induction false} FailedWithin(entries: seq<Entry>, f: Filter, t: Test)
    ensures Count(Select(Selected(entries, f), Failed), t) == |FailedChosen(entries, f, t)|
    decreases |entries|
  {
    hide Wanted, Select;
    if entries == [] {
      NothingCounted(Matches(f), Failed);
      NothingCounted(Failed, t);
      NoneSelected(f, t);
    } else {
      var rest, e := entries[..|entries| - 1], entries[|entries| - 1];
      assert entries == rest + [e];
      FailedWithin(rest, f, t);
      FailedNext(rest, e, f, t);
      SelectNext(rest, e, Matches(f));
      SelectNext(Selected(rest, f), e, Failed);
      SelectNext(Select(Selected(rest, f), Failed), e, t);
      MatchesExactly(f, e);
      HoldsExactly(t, e);
      assert Selected(rest, f) + [] == Selected(rest, f);
      assert Select(Selected(rest, f), Failed) + [] == Select(Selected(rest, f), Failed);
    }
  }

  lemma NoneSelected(f: Filter, t: Test)
    ensures Count(Select(Selected([], f), Failed), t) == 0 && FailedChosen([], f, t) == {}
  {
  }

  lemma FailedNext(rest: seq<Entry>, e: Entry, f: Filter, t: Test)
    ensures |FailedChosen(rest + [e], f, t)|
         == |FailedChosen(rest, f, t)| + if Wanted(f, e) && !e.ok && Meets(t, e) then 1 else 0
  {
    hide Wanted, Meets;
    assert FailedChosen(rest + [e], f, t)
        == FailedChosen(rest, f, t) + if Wanted(f, e) && !e.ok && Meets(t, e) then {|rest|} else {};
  }

  lemma TallySays(entries: seq<Entry>, key: Key, name: string)
    ensures name in Tally(entries, key) <==> Count(entries, KeyIs(key, name)) > 0
    ensures name in Tally(entries, key) ==> Tally(entries, key)[name] == Count(entries, KeyIs(key, name))
  {
    hide KeyOf;
    var selected := Select(entries, KeyIs(key, name));
    if |selected| > 0 { assert selected[0] in selected; }
    if name in KeysOf(entries, key) {
      var e :| e in entries && KeyOf(key, e) == name;
      assert e in selected;
    }
  }

  /** The four counters of a report. */
  lemma CountersExactly(entries: seq<Entry>, f: Filter)
    ensures var m := MetricsOf(Selected(entries, f), InternalSteps(entries, f));
      && CounterSays(m.methodRequests, entries, f, ByMethod, false)
      && CounterSays(m.methodFailures, entries, f, ByMethod, true)
      && CounterSays(m.failureKinds, entries, f, ByKind, true)
      && CounterSays(m.failureCategories, entries, f, ByCategory, true)
  {
    hide Selected, InternalSteps, Count, Select, Tally, Under, Duration, Ratio, UnmatchedSticky;
    forall key, name
      ensures name in Tally(Selected(entries, f), key) <==> |Under(entries, f, key, name, false)| > 0
      ensures name in Tally(Selected(entries, f), key) ==>
        Tally(Selected(entries, f), key)[name] == |Under(entries, f, key, name, false)|
      ensures name in Tally(Select(Selected(entries, f), Failed), key) <==> |Under(entries, f, key, name, true)| > 0
      ensures name in Tally(Select(Selected(entries, f), Failed), key) ==>
        Tally(Select(Selected(entries, f), Failed), key)[name] == |Under(entries, f, key, name, true)|
    {
      UnderExactly(entries, f, key, name);
      TallySays(Selected(entries, f), key, name);
      TallySays(Select(Selected(entries, f), Failed), key, name);
    }
  }

  /** A wanted entry was written at `t`. */
  predicate WrittenAt(entries: seq<Entry>, f: Filter, t: int) {
    exists i :: 0 <= i < |entries| && Wanted(f, entries[i]) && entries[i].unixTimeMs == Some(t)
  }

  /** The duration reaches from the first time to the last. */
  lemma DurationExactly(entries: seq<Entry>, f: Filter, first: int, last: int)
    requires WrittenAt(entries, f, first) && WrittenAt(entries, f, last)
    requires forall t :: WrittenAt(entries, f, t) ==> first <= t <= last
    ensures Duration(Selected(entries, f)) == last - first
  {
    hide Select, Wanted;
    var selected := Selected(entries, f);
    forall t ensures t in Times(selected) <==> WrittenAt(entries, f, t) { TimeExactly(entries, f, t); }
    assert first in Times(selected) && last in Times(selected);
  }

  lemma NoDuration(entries: seq<Entry>, f: Filter)
    requires forall t :: !WrittenAt(entries, f, t)
    ensures Duration(Selected(entries, f)) == 0
  {
    hide Select, Wanted;
    forall t ensures t !in Times(Selected(entries, f)) { TimeExactly(entries, f, t); }
    assert Times(Selected(entries, f)) == {};
  }

  lemma TimeExactly(entries: seq<Entry>, f: Filter, t: int)
    ensures t in Times(Selected(entries, f)) <==> WrittenAt(entries, f, t)
  {
    hide Wanted, Holds;
    forall e ensures Holds(Matches(f), e) <==> Wanted(f, e) { MatchesExactly(f, e); }
    if i :| 0 <= i < |entries| && Wanted(f, entries[i]) && entries[i].unixTimeMs == Some(t) {
      assert entries[i] in Selected(entries, f);
    }
    if t in Times(Selected(entries, f)) {
      var e :| e in Selected(entries, f) && e.unixTimeMs == Some(t);
      var i :| 0 <= i < |entries| && entries[i] == e;
    }
  }

  // ---------- Kinds and categories ----------

  predicate Letter(c: char) {
    'a' <= c <= 'z' || 'A' <= c <= 'Z'
  }

  /** A name as an error kind is written: a letter, then letters, digits and underscores. */
  predicate KindName(name: string) {
    && name != "" && Letter(name[0])
    && forall i :: 0 <= i < |name| ==> Letter(name[i]) || '0' <= name[i] <= '9' || name[i] == '_'
  }

  /** The kind is the name between "error kind=" and a colon at the start of the summary. */
  lemma KindRead(e: Entry, name: string, rest: string)
    requires KindName(name) && e.summary == Text("error kind=" + name + ":" + rest)
    ensures ErrorKind(e) == name
  {
    var s, from := e.summary.s, |"error kind="|;
    assert s[..from] == "error kind=" && s[from..from + |name|] == name && s[from + |name|] == ':';
    assert forall i :: 0 <= i < |name| ==> s[from + i] == name[i];
    KindEndAt(s, from, from + |name|);
  }

  lemma {:induction false} KindEndAt(s: string, i: nat, end: nat)
    requires i <= end < |s| && !IsKindChar(s[end]) && forall k :: i <= k < end ==> IsKindChar(s[k])
    ensures KindEnd(s, i) == end
    decreases end - i
  {
    if i < end { KindEndAt(s, i + 1, end); }
  }

  /** Every other failure is unclassified. */
  lemma KindReadOnly(e: Entry) returns (rest: string)
    ensures ErrorKind(e) == "Unclassified" ||
      (KindName(ErrorKind(e)) && e.summary == Text("error kind=" + ErrorKind(e) + ":" + rest))
  {
    rest := "";
    if ErrorKind(e) != "Unclassified" {
      var s, from := e.summary.s, |KIND_PREFIX|;
      var end := KindEnd(s, from);
      rest := s[end + 1..];
      KindChars(s, from);
      assert s == s[..from] + s[from..end] + [s[end]] + s[end + 1..];
    }
  }

  lemma {:induction false} KindChars(s: string, i: nat)
    requires i <= |s|
    ensures forall k :: i <= k < KindEnd(s, i) ==> IsKindChar(s[k])
    decreases |s| - i
  {
    if i < |s| && IsKindChar(s[i]) { KindChars(s, i + 1); }
  }

  /** Kinds are compared by their letters and digits, in lower case. */
  lemma {:induction false} SqueezedJoin(a: string, b: string)
    ensures Squeezed(a + b) == Squeezed(a) + Squeezed(b)
    decreases |a|
  {
    hide Squeezed;
    if a == "" {
      assert a + b == b;
      NothingSqueezed();
      assert "" + Squeezed(b) == Squeezed(b);
    } else {
      var first, rest := [a[0]], a[1..];
      SqueezedJoin(rest, b);
      SqueezedFirst(a[0], rest);
      SqueezedFirst(a[0], rest + b);
      assert a == first + rest && a + b == first + (rest + b);
      assert Squeezed(first) + (Squeezed(rest) + Squeezed(b)) == Squeezed(first) + Squeezed(rest) + Squeezed(b);
    }
  }

  lemma NothingSqueezed()
    ensures Squeezed("") == ""
  {
  }

  lemma SqueezedFirst(c: char, s: string)
    ensures Squeezed([c] + s) == Squeezed([c]) + Squeezed(s)
  {
    hide Lower;
    assert ([c] + s)[1..] == s && [c][1..] == "";
  }

  lemma SqueezedOne(c: char)
    ensures 'a' <= c <= 'z' || '0' <= c <= '9' ==> Squeezed([c]) == [c]
    ensures 'A' <= c <= 'Z' ==> |Squeezed([c])| == 1 && Squeezed([c])[0] - 'a' == c - 'A'
    ensures !('a' <= c <= 'z' || '0' <= c <= '9' || 'A' <= c <= 'Z') ==> Squeezed([c]) == ""
  {
    assert [c][1..] == "";
  }

  /** Each category has its kinds, and a kind without one is a defect or unclassified. */
  predicate BelongsTo(kind: string, category: string) {
    || (kind in {"policypromptrequired", "policydenied", "appdenied"} && category == "policy_or_approval")
    || (kind in {"consentcancelled"} && category == "user_consent_cancelled")
    || (kind in {"targetlost", "targetmismatch"} && category == "target_lost_or_ambiguous")
    || (kind in {"sessionownermismatch"} && category == "parallel_owner_conflict")
    || (kind in {"humaninputpause", "panicstop"} && category == "user_activity_or_stop")
    || (kind in {"focusleaseconflict", "focusguard"} && category == "focus_conflict")
    || (kind in {"accessibilityunavailable", "accessibilityweaktree"} && category == "semantic_capability_missing")
    || (kind in {"portalunavailable", "backendunavailable"} && category == "backend_unavailable")
    || (kind in {"backendfailed"} && category == "backend_failure")
    || (kind in {"ratelimited"} && category == "rate_limit")
    || (kind in {"validation"} && category == "validation")
    || (kind !in EXPECTED_OUTCOME_KINDS
        && kind !in {"focusleaseconflict", "focusguard", "accessibilityunavailable", "accessibilityweaktree",
                     "portalunavailable", "backendunavailable", "backendfailed", "ratelimited", "validation"}
        && category == "implementation_defect_or_unclassified")
  }

  lemma CategoryExactly(kind: string)
    ensures BelongsTo(kind, CategoryOf(kind))
  {
  }
}
