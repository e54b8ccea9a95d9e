/**
 The computer-use baseline: metrics and budgets over a journal of tool calls. Proves that the
 order of the journal does not matter, and that the several classifications of failures account
 for each other.
 */
module JournalMetrics {
  import opened Outcome

  // ---------- Entries ----------

  /** A JSON scalar of an entry: text, absent (or null), or anything else. */
  datatype Scalar = Absent | Text(s: string) | OtherValue

  /** What the metrics read of an entry: `ok` and `guardPresent` where they are true itself, the
      ids and the session where they are texts that are not empty, the numbers where they are
      integers. */
  datatype Entry = Entry(
    ok: bool, methodName: Scalar, tool: Scalar, pid: Option<int>, unixTimeMs: Option<int>, safetyClass: Scalar,
    summary: Scalar, actionId: Option<string>, guardPresent: bool,
    windowBefore: Option<string>, windowAfter: Option<string>, sessionId: Option<string>)

  datatype Filter = Filter(tool: Option<string>, pid: Option<int>, start: Option<int>, end: Option<int>)

  const PREFLIGHT_METHODS: set<string> := {
    "health", "capabilities", "policy_status", "safety_status", "desktop_session_status", "computer_use_readiness",
    "panic_stop_status", "kwin_bridge_status", "uinput_status", "input_backend_status",
    "remote_desktop_eis_session_status", "capture_backend_status", "pointer_calibration",
    "clipboard_backend_status", "accessibility_quality_status" }

  const OBSERVATION_METHODS: set<string> := {
    "list_monitors", "list_windows", "active_window", "observe", "screenshot", "screenshot_tile", "wait_for_change",
    "focused_accessibility_tree", "accessibility_find", "accessibility_text_attributes" }

  const CAPTURE_METHODS: set<string> := {"screenshot", "screenshot_tile", "wait_for_change"}

  const STICKY_RAW_METHODS: set<string> := {
    "type_text", "key_combo", "move_pointer", "click_pointer", "drag_pointer", "scroll_pointer" }

  const CONTROL_CLASSES: set<string> := {
    "control_pointer", "control_keyboard", "control_semantic", "destructive_action", "secret_field" }

  const EXPECTED_OUTCOME_KINDS: set<string> := {
    "policypromptrequired", "policydenied", "appdenied", "humaninputpause", "panicstop", "targetlost",
    "targetmismatch", "consentcancelled", "sessionownermismatch" }

  predicate EntryMatches(e: Entry, f: Filter) {
    && (f.tool.Some? ==> e.tool == Text(f.tool.value))
    && (f.pid.Some? ==> e.pid == f.pid)
    && (f.start.Some? ==> e.unixTimeMs.Some? && e.unixTimeMs.value >= f.start.value)
    && (f.end.Some? ==> e.unixTimeMs.Some? && e.unixTimeMs.value <= f.end.value)
  }

  predicate MethodIn(e: Entry, methods: set<string>) {
    e.methodName.Text? && e.methodName.s in methods
  }

  // ---------- Classifying failures ----------

  predicate IsLetter(c: char) {
    'a' <= c <= 'z' || 'A' <= c <= 'Z'
  }

  predicate IsKindChar(c: char) {
    IsLetter(c) || '0' <= c <= '9' || c == '_'
  }

  function KindEnd(s: string, i: nat): (end: nat)
    requires i <= |s|
    ensures i <= end <= |s|
    decreases |s| - i
  {
    if i < |s| && IsKindChar(s[i]) then KindEnd(s, i + 1) else i
  }

  const KIND_PREFIX: string := "error kind="

  /** The name between "error kind=" and a colon at the start of the summary. */
  function ErrorKind(e: Entry): string {
    if !e.summary.Text? || !(KIND_PREFIX <= e.summary.s) then "Unclassified"
    else
      var s, from := e.summary.s, |KIND_PREFIX|;
      var end := KindEnd(s, from);
      if from < end < |s| && IsLetter(s[from]) && s[end] == ':' then s[from..end] else "Unclassified"
  }

  function Lower(c: char): char {
    if 'A' <= c <= 'Z' then c + 32 as char else c
  }

  /** The lower-case letters and digits of a name in lower case. */
  function Squeezed(s: string): string {
    if s == "" then ""
    else
      var c := Lower(s[0]);
      (if 'a' <= c <= 'z' || '0' <= c <= '9' then [c] else "") + Squeezed(s[1..])
  }

  function NormalizedKind(e: Entry): string {
    Squeezed(ErrorKind(e))
  }

  function CategoryOf(kind: string): string {
    if kind in {"policypromptrequired", "policydenied", "appdenied"} then "policy_or_approval"
    else if kind == "consentcancelled" then "user_consent_cancelled"
    else if kind in {"targetlost", "targetmismatch"} then "target_lost_or_ambiguous"
    else if kind == "sessionownermismatch" then "parallel_owner_conflict"
    else if kind in {"humaninputpause", "panicstop"} then "user_activity_or_stop"
    else if kind in {"focusleaseconflict", "focusguard"} then "focus_conflict"
    else if kind in {"accessibilityunavailable", "accessibilityweaktree"} then "semantic_capability_missing"
    else if kind in {"portalunavailable", "backendunavailable"} then "backend_unavailable"
    else if kind == "backendfailed" then "backend_failure"
    else if kind == "ratelimited" then "rate_limit"
    else if kind == "validation" then "validation"
    else "implementation_defect_or_unclassified"
  }

  function FailureCategory(e: Entry): string {
    CategoryOf(NormalizedKind(e))
  }

  const EXPECTED_CATEGORIES: seq<string> := [
    "policy_or_approval", "user_consent_cancelled", "target_lost_or_ambiguous",
    "parallel_owner_conflict", "user_activity_or_stop"]

  /** The kinds taken for expected outcomes are those of five categories, and of no other. */
  lemma ExpectedByCategory(kind: string)
    ensures kind in EXPECTED_OUTCOME_KINDS <==> CategoryOf(kind) in EXPECTED_CATEGORIES
  {
  }

  // ---------- Counting ----------

  /** What an entry is counted under. */
  datatype Key = ByMethod | ByKind | ByCategory

  function KeyOf(key: Key, e: Entry): string {
    match key
    case ByMethod => if e.methodName.Text? && e.methodName.s != "" then e.methodName.s else "unknown"
    case ByKind => ErrorKind(e)
    case ByCategory => FailureCategory(e)
  }

  datatype Test =
    | Matches(filter: Filter)
    | InternalTo(ids: set<string>, filter: Filter)
    | Failed | Succeeded
    | Control | ControlFailed | GuardedControl
    | MethodAmong(methods: set<string>)
    | MethodFailed(name: string)
    | MethodSucceeded(name: string)
    | WindowChanged
    | StickyRaw | StickySucceeded
    | ExpectedFailure | UnexpectedFailure
    | KeyIs(key: Key, value: string)

  predicate IsControl(e: Entry) {
    e.safetyClass.Text? && e.safetyClass.s in CONTROL_CLASSES
  }

  predicate Holds(t: Test, e: Entry) {
    match t
    case Matches(f) => EntryMatches(e, f)
    case InternalTo(ids, f) =>
      e.tool.Absent? && e.actionId.Some? && e.actionId.value in ids && EntryMatches(e, f.(tool := None, pid := None))
    case Failed => !e.ok
    case Succeeded => e.ok
    case Control => IsControl(e)
    case ControlFailed => IsControl(e) && !e.ok
    case GuardedControl => IsControl(e) && e.guardPresent
    case MethodAmong(methods) => MethodIn(e, methods)
    case MethodFailed(name) => e.methodName == Text(name) && !e.ok
    case MethodSucceeded(name) => e.methodName == Text(name) && e.ok
    case WindowChanged => e.windowBefore.Some? && e.windowAfter.Some? && e.windowBefore != e.windowAfter
    case StickyRaw => MethodIn(e, STICKY_RAW_METHODS) && e.sessionId.Some?
    case StickySucceeded => MethodIn(e, STICKY_RAW_METHODS) && e.sessionId.Some? && e.ok
    case ExpectedFailure => !e.ok && NormalizedKind(e) in EXPECTED_OUTCOME_KINDS
    case UnexpectedFailure => !e.ok && NormalizedKind(e) !in EXPECTED_OUTCOME_KINDS
    case KeyIs(key, value) => KeyOf(key, e) == value
  }

  function Select(entries: seq<Entry>, t: Test): (r: seq<Entry>)
    ensures |r| <= |entries|
    ensures forall e :: e in r <==> e in entries && Holds(t, e)
    decreases |entries|
  {
    if entries == [] then []
    else
      var last := entries[|entries| - 1];
      Select(entries[..|entries| - 1], t) + if Holds(t, last) then [last] else []
  }

  function Count(entries: seq<Entry>, t: Test): nat {
    |Select(entries, t)|
  }

  /** The action ids of the entries that pass the test. */
  function ActionIds(entries: seq<Entry>, t: Test): set<string> {
    set e | e in entries && Holds(t, e) && e.actionId.Some? :: e.actionId.value
  }

  function KeysOf(entries: seq<Entry>, key: Key): set<string> {
    set e | e in entries :: KeyOf(key, e)
  }

  /** A counter: how many entries there are under each key. */
  function Tally(entries: seq<Entry>, key: Key): map<string, nat> {
    map k | k in KeysOf(entries, key) :: Count(entries, KeyIs(key, k))
  }

  function Bumped(counts: map<string, nat>, name: string): map<string, nat> {
    counts[name := (if name in counts then counts[name] else 0) + 1]
  }

  lemma SelectNext(entries: seq<Entry>, e: Entry, t: Test)
    ensures Select(entries + [e], t) == Select(entries, t) + if Holds(t, e) then [e] else []
  {
    assert (entries + [e])[..|entries|] == entries;
  }

  lemma CountUnderNext(entries: seq<Entry>, e: Entry, key: Key, name: string)
    ensures Count(entries + [e], KeyIs(key, name)) == Count(entries, KeyIs(key, name))
            + if KeyOf(key, e) == name then 1 else 0
  {
    hide KeyOf, Select;
    SelectNext(entries, e, KeyIs(key, name));
  }

  lemma KeysNext(entries: seq<Entry>, e: Entry, key: Key)
    ensures KeysOf(entries + [e], key) == KeysOf(entries, key) + {KeyOf(key, e)}
  {
    hide KeyOf;
  }

  lemma TallyNext(entries: seq<Entry>, e: Entry, key: Key)
    ensures Tally(entries + [e], key) == Bumped(Tally(entries, key), KeyOf(key, e))
  {
    hide Count, KeyOf, KeysOf;
    var name := KeyOf(key, e);
    KeysNext(entries, e, key);
    forall k ensures Count(entries + [e], KeyIs(key, k)) == Count(entries, KeyIs(key, k)) + if name == k then 1 else 0 {
      CountUnderNext(entries, e, key, k);
    }
    SomeUnder(entries, key, name);
  }

  lemma SomeUnder(entries: seq<Entry>, key: Key, name: string)
    ensures Count(entries, KeyIs(key, name)) > 0 ==> name in KeysOf(entries, key)
  {
    hide KeyOf;
    if Count(entries, KeyIs(key, name)) > 0 {
      var e := Select(entries, KeyIs(key, name))[0];
      assert e in Select(entries, KeyIs(key, name));
    }
  }

  /** `count_methods`: requests and failures under each method. */
  method CountMethods(entries: seq<Entry>) returns (requests: map<string, nat>, failures: map<string, nat>)
    ensures requests == Tally(entries, ByMethod)
    ensures failures == Tally(Select(entries, Failed), ByMethod)
  {
    hide Tally, Select, KeyOf;
    requests, failures := map[], map[];
    EmptyTally(ByMethod);
    for i := 0 to |entries|
      invariant requests == Tally(entries[..i], ByMethod)
      invariant failures == Tally(Select(entries[..i], Failed), ByMethod)
    {
      var e := entries[i];
      assert entries[..i + 1] == entries[..i] + [e];
      TallyNext(entries[..i], e, ByMethod);
      SelectNext(entries[..i], e, Failed);
      requests := Bumped(requests, KeyOf(ByMethod, e));
      if !e.ok {
        TallyNext(Select(entries[..i], Failed), e, ByMethod);
        failures := Bumped(failures, KeyOf(ByMethod, e));
      } else {
        assert Select(entries[..i], Failed) + [] == Select(entries[..i], Failed);
      }
    }
    assert entries[..|entries|] == entries;
  }

  lemma EmptyTally(key: Key)
    ensures forall entries: seq<Entry> | |entries| == 0 :: Tally(entries, key) == map[] && Select(entries, Failed) == []
  {
    forall entries: seq<Entry> | |entries| == 0 ensures Tally(entries, key) == map[] && Select(entries, Failed) == [] {
      assert KeysOf(entries, key) == {};
    }
  }

  // ---------- The sum of a counter ----------

  ghost function Total(counts: map<string, nat>): nat
    decreases |counts|
  {
    if counts == map[] then 0
    else
      var k :| k in counts;
      counts[k] + Total(counts - {k})
  }

  lemma {:induction false} TotalWithout(counts: map<string, nat>, key: string)
    requires key in counts
    ensures Total(counts) == counts[key] + Total(counts - {key})
    decreases |counts|
  {
    var k :| k in counts && Total(counts) == counts[k] + Total(counts - {k});
    if k != key {
      TotalWithout(counts - {k}, key);
      TotalWithout(counts - {key}, k);
      assert counts - {k} - {key} == counts - {key} - {k};
    }
  }

  lemma TotalBumped(counts: map<string, nat>, key: string)
    ensures Total(Bumped(counts, key)) == Total(counts) + 1
  {
    TotalWithout(Bumped(counts, key), key);
    assert Bumped(counts, key) - {key} == counts - {key};
    if key in counts {
      TotalWithout(counts, key);
    } else {
      assert counts - {key} == counts;
    }
  }

  /** Every entry is counted once, whatever it is counted by. */
  lemma {:induction false} TallyTotal(entries: seq<Entry>, key: Key)
    ensures Total(Tally(entries, key)) == |entries|
    decreases |entries|
  {
    hide KeyOf, Select, Count;
    if entries == [] {
      assert Tally(entries, key) == map[];
    } else {
      var rest, last := entries[..|entries| - 1], entries[|entries| - 1];
      assert entries == rest + [last];
      TallyTotal(rest, key);
      TallyNext(rest, last, key);
      TotalBumped(Tally(rest, key), KeyOf(key, last));
    }
  }

  // ---------- The report ----------

  datatype Metrics = Metrics(
    requestCount: nat, successCount: int, failureCount: nat, failureRate: real,
    reliabilityFailureCount: nat, reliabilityFailureRate: real, durationMs: int,
    preflightRequestCount: nat, observationRequestCount: nat, captureRequestCount: nat,
    activeWindowCheckCount: nat, focusRequestCount: nat, focusFailureCount: nat, focusContextChangeCount: nat,
    modelFocusPollRequestCount: nat, portalOpenRequestCount: nat, stickyRawActionCount: nat,
    stickySuccessWithoutFocusVerificationCount: nat, stickySuccessWithoutInputActivityCheckCount: nat,
    internalActionStepCount: nat, automaticFocusRequestCount: nat, automaticFocusVerifyFailureCount: nat,
    inputActivityCheckCount: nat, inputActivityConflictCount: nat, focusRestoreRequestCount: nat,
    focusRestoreSuccessCount: nat, controlRequestCount: nat, controlFailureCount: nat,
    guardedControlCount: nat, unguardedControlCount: int,
    methodRequests: map<string, nat>, methodFailures: map<string, nat>,
    failureKinds: map<string, nat>, failureCategories: map<string, nat>)

  datatype Budget = Budget(
    stickyBudgetApplicable: bool, reliabilityBelow5Percent: bool, modelFocusPollingZero: bool,
    automaticFocusVerificationFailuresZero: Option<bool>, successfulStickyActionsAllVerified: Option<bool>,
    successfulStickyActionsAllActivityChecked: Option<bool>, repeatedPortalPromptsZero: bool)

  function Ratio(numerator: nat, denominator: int): real {
    if denominator == 0 then 0.0 else numerator as real / denominator as real
  }

  /** The times of the entries that have one. */
  function Times(entries: seq<Entry>): set<int> {
    set e | e in entries && e.unixTimeMs.Some? :: e.unixTimeMs.value
  }

  /** The first of the times that are there, or the last. */
  function Extreme(entries: seq<Entry>, last: bool): (r: Option<int>)
    ensures r.None? <==> Times(entries) == {}
    ensures r.Some? ==> r.value in Times(entries)
    ensures r.Some? ==> forall t :: t in Times(entries) ==> if last then t <= r.value else r.value <= t
    decreases |entries|
  {
    if entries == [] then None
    else
      var e, rest := entries[|entries| - 1], entries[..|entries| - 1];
      TimesNext(rest, e);
      assert entries == rest + [e];
      var before := Extreme(rest, last);
      if before.None? then e.unixTimeMs
      else if e.unixTimeMs.Some?
        && (if last then e.unixTimeMs.value > before.value else e.unixTimeMs.value < before.value)
      then e.unixTimeMs
      else before
  }

  lemma TimesNext(entries: seq<Entry>, e: Entry)
    ensures Times(entries + [e]) == Times(entries) + if e.unixTimeMs.Some? then {e.unixTimeMs.value} else {}
  {
    forall d | d in entries ensures d in entries + [e] {
    }
  }

  /** From the first time to the last. */
  function Duration(entries: seq<Entry>): int {
    if Extreme(entries, false).None? || Extreme(entries, true).None? then 0
    else Extreme(entries, true).value - Extreme(entries, false).value
  }

  function Selected(entries: seq<Entry>, filter: Filter): seq<Entry> {
    Select(entries, Matches(filter))
  }

  /** The steps the daemon took itself for the actions selected. */
  function InternalSteps(entries: seq<Entry>, filter: Filter): seq<Entry> {
    Select(entries, InternalTo(ActionIds(Selected(entries, filter), Matches(filter)), filter))
  }

  function ReliabilityBase(selected: seq<Entry>): int {
    |selected| - Count(selected, ExpectedFailure)
  }

  function UnmatchedSticky(selected: seq<Entry>, internal: seq<Entry>, step: string): nat {
    |ActionIds(selected, StickySucceeded) - ActionIds(internal, MethodSucceeded(step))|
  }

  ghost function MetricsOf(selected: seq<Entry>, internal: seq<Entry>): Metrics {
    Metrics(
      requestCount := |selected|,
      successCount := |selected| - Count(selected, Failed),
      failureCount := Count(selected, Failed),
      failureRate := Ratio(Count(selected, Failed), |selected|),
      reliabilityFailureCount := Count(selected, UnexpectedFailure),
      reliabilityFailureRate := Ratio(Count(selected, UnexpectedFailure), ReliabilityBase(selected)),
      durationMs := Duration(selected),
      preflightRequestCount := Count(selected, MethodAmong(PREFLIGHT_METHODS)),
      observationRequestCount := Count(selected, MethodAmong(OBSERVATION_METHODS)),
      captureRequestCount := Count(selected, MethodAmong(CAPTURE_METHODS)),
      activeWindowCheckCount := Count(selected, MethodAmong({"active_window"})),
      focusRequestCount := Count(selected, MethodAmong({"focus_window"})),
      focusFailureCount := Count(selected, MethodFailed("focus_window")),
      focusContextChangeCount := Count(selected, WindowChanged),
      modelFocusPollRequestCount :=
        Count(selected, MethodAmong({"active_window"})) + Count(selected, MethodAmong({"focus_window"})),
      portalOpenRequestCount := Count(selected, MethodAmong({"window_capture_open"})),
      stickyRawActionCount := Count(selected, StickyRaw),
      stickySuccessWithoutFocusVerificationCount := UnmatchedSticky(selected, internal, "interaction_focus_verify"),
      stickySuccessWithoutInputActivityCheckCount := UnmatchedSticky(selected, internal, "interaction_input_activity"),
      internalActionStepCount := |internal|,
      automaticFocusRequestCount := Count(internal, MethodAmong({"interaction_focus"})),
      automaticFocusVerifyFailureCount := Count(internal, MethodFailed("interaction_focus_verify")),
      inputActivityCheckCount := Count(internal, MethodAmong({"interaction_input_activity"})),
      inputActivityConflictCount := Count(internal, MethodFailed("interaction_input_activity")),
      focusRestoreRequestCount := Count(internal, MethodAmong({"interaction_restore_focus"})),
      focusRestoreSuccessCount := Count(internal, MethodSucceeded("interaction_restore_verify")),
      controlRequestCount := Count(selected, Control),
      controlFailureCount := Count(selected, ControlFailed),
      guardedControlCount := Count(selected, GuardedControl),
      unguardedControlCount := Count(selected, Control) - Count(selected, GuardedControl),
      methodRequests := Tally(selected, ByMethod),
      methodFailures := Tally(Select(selected, Failed), ByMethod),
      failureKinds := Tally(Select(selected, Failed), ByKind),
      failureCategories := Tally(Select(selected, Failed), ByCategory))
  }

  function BudgetOf(m: Metrics): Budget {
    var sticky := m.stickyRawActionCount > 0;
    Budget(
      stickyBudgetApplicable := sticky,
      reliabilityBelow5Percent := m.reliabilityFailureRate < 0.05,
      modelFocusPollingZero := m.modelFocusPollRequestCount == 0,
      automaticFocusVerificationFailuresZero := if sticky then Some(m.automaticFocusVerifyFailureCount == 0) else None,
      successfulStickyActionsAllVerified :=
        if sticky then Some(m.stickySuccessWithoutFocusVerificationCount == 0) else None,
      successfulStickyActionsAllActivityChecked :=
        if sticky then Some(m.stickySuccessWithoutInputActivityCheckCount == 0) else None,
      repeatedPortalPromptsZero := m.portalOpenRequestCount <= 1)
  }

  /** No report where no entry matches the filter. */
  ghost function BuildReport(entries: seq<Entry>, filter: Filter): Option<(Metrics, Budget)> {
    var selected := Selected(entries, filter);
    if selected == [] then None
    else
      var metrics := MetricsOf(selected, InternalSteps(entries, filter));
      Some((metrics, BudgetOf(metrics)))
  }

  // ---------- The order of the journal ----------

  lemma {:induction false} SelectMultiset(entries: seq<Entry>, t: Test, e: Entry)
    ensures multiset(Select(entries, t))[e] == if Holds(t, e) then multiset(entries)[e] else 0
    decreases |entries|
  {
    hide Holds;
    if entries != [] {
      var rest, last := entries[..|entries| - 1], entries[|entries| - 1];
      assert entries == rest + [last];
      SelectMultiset(rest, t, e);
      SelectNext(rest, last, t);
    }
  }

  lemma SelectSame(a: seq<Entry>, b: seq<Entry>, t: Test)
    requires multiset(a) == multiset(b)
    ensures multiset(Select(a, t)) == multiset(Select(b, t))
    ensures Count(a, t) == Count(b, t)
  {
    hide Holds, Select;
    forall e ensures multiset(Select(a, t))[e] == multiset(Select(b, t))[e] {
      SelectMultiset(a, t, e);
      SelectMultiset(b, t, e);
    }
    assert |Select(a, t)| == |multiset(Select(a, t))| && |Select(b, t)| == |multiset(Select(b, t))|;
  }

  lemma SameMembers(a: seq<Entry>, b: seq<Entry>)
    requires multiset(a) == multiset(b)
    ensures |a| == |b| && forall e :: e in a <==> e in b
  {
    assert |multiset(a)| == |a| && |multiset(b)| == |b|;
    forall e ensures e in a <==> e in b {
      assert e in a <==> e in multiset(a);
      assert e in b <==> e in multiset(b);
    }
  }

  lemma TallySame(a: seq<Entry>, b: seq<Entry>, key: Key)
    requires multiset(a) == multiset(b)
    ensures Tally(a, key) == Tally(b, key)
  {
    hide KeyOf, Count;
    SameMembers(a, b);
    assert KeysOf(a, key) == KeysOf(b, key);
    forall k ensures Count(a, KeyIs(key, k)) == Count(b, KeyIs(key, k)) {
      SelectSame(a, b, KeyIs(key, k));
    }
  }

  lemma ActionIdsSame(a: seq<Entry>, b: seq<Entry>, t: Test)
    requires multiset(a) == multiset(b)
    ensures ActionIds(a, t) == ActionIds(b, t)
  {
    hide Holds;
    SameMembers(a, b);
  }

  lemma DurationSame(a: seq<Entry>, b: seq<Entry>)
    requires multiset(a) == multiset(b)
    ensures Duration(a) == Duration(b)
  {
    SameMembers(a, b);
    assert Times(a) == Times(b);
  }

  lemma MetricsSame(s: seq<Entry>, s': seq<Entry>, i: seq<Entry>, i': seq<Entry>)
    requires multiset(s) == multiset(s') && multiset(i) == multiset(i')
    ensures MetricsOf(s, i) == MetricsOf(s', i')
  {
    hide Count, Select, Tally, ActionIds, Duration, Holds, KeyOf, Extreme, Times, PREFLIGHT_METHODS,
         OBSERVATION_METHODS, CAPTURE_METHODS, Ratio;
    SameMembers(s, s');
    SameMembers(i, i');
    DurationSame(s, s');
    forall t ensures Count(s, t) == Count(s', t) && Count(i, t) == Count(i', t) {
      SelectSame(s, s', t);
      SelectSame(i, i', t);
    }
    forall t ensures ActionIds(s, t) == ActionIds(s', t) && ActionIds(i, t) == ActionIds(i', t) {
      ActionIdsSame(s, s', t);
      ActionIdsSame(i, i', t);
    }
    SelectSame(s, s', Failed);
    TallySame(s, s', ByMethod);
    forall key ensures Tally(Select(s, Failed), key) == Tally(Select(s', Failed), key) {
      TallySame(Select(s, Failed), Select(s', Failed), key);
    }
  }

  /** The report of a journal does not depend on the order of its entries, under any filter. */
  lemma OrderIndependent(a: seq<Entry>, b: seq<Entry>, filter: Filter)
    requires multiset(a) == multiset(b)
    ensures BuildReport(a, filter) == BuildReport(b, filter)
  {
    hide Select, MetricsOf, BudgetOf, ActionIds;
    var s, s' := Selected(a, filter), Selected(b, filter);
    SelectSame(a, b, Matches(filter));
    SameMembers(s, s');
    ActionIdsSame(s, s', Matches(filter));
    SelectSame(a, b, InternalTo(ActionIds(s, Matches(filter)), filter));
    MetricsSame(s, s', InternalSteps(a, filter), InternalSteps(b, filter));
  }

  // ---------- Failures accounted for ----------

  function At(counts: map<string, nat>, name: string): nat {
    if name in counts then counts[name] else 0
  }

  /** The requests of all methods sum to the requests; the failures of all methods, of all kinds
      and of all categories each sum to the failures. */
  lemma FailuresConserved(selected: seq<Entry>, internal: seq<Entry>)
    ensures var m := MetricsOf(selected, internal);
      && Total(m.methodRequests) == m.requestCount
      && Total(m.methodFailures) == m.failureCount
      && Total(m.failureKinds) == m.failureCount
      && Total(m.failureCategories) == m.failureCount
      && m.successCount + m.failureCount == m.requestCount
  {
    hide Tally, Select, Duration, UnmatchedSticky, Ratio, PREFLIGHT_METHODS, OBSERVATION_METHODS, CAPTURE_METHODS;
    TallyTotal(selected, ByMethod);
    TallyTotal(Select(selected, Failed), ByMethod);
    TallyTotal(Select(selected, Failed), ByKind);
    TallyTotal(Select(selected, Failed), ByCategory);
  }

  /** One entry among the failures of a category. */
  lemma CategoryTally(selected: seq<Entry>, category: string)
    ensures At(Tally(Select(selected, Failed), ByCategory), category)
         == Count(Select(selected, Failed), KeyIs(ByCategory, category))
  {
    hide Select, KeyOf;
    SomeUnder(Select(selected, Failed), ByCategory, category);
  }

  /** How many of the failures fall into one of the first `n` expected categories. */
  function ExpectedByCategories(failed: seq<Entry>, n: nat): nat
    requires n <= |EXPECTED_CATEGORIES|
  {
    if n == 0 then 0
    else ExpectedByCategories(failed, n - 1) + Count(failed, KeyIs(ByCategory, EXPECTED_CATEGORIES[n - 1]))
  }

  lemma {:induction false} ExpectedNext(failed: seq<Entry>, e: Entry, n: nat)
    requires n <= |EXPECTED_CATEGORIES|
    ensures ExpectedByCategories(failed + [e], n) == ExpectedByCategories(failed, n)
              + if FailureCategory(e) in EXPECTED_CATEGORIES[..n] then 1 else 0
    decreases n
  {
    hide Count, FailureCategory;
    if n > 0 {
      ExpectedNext(failed, e, n - 1);
      CountUnderNext(failed, e, ByCategory, EXPECTED_CATEGORIES[n - 1]);
      assert EXPECTED_CATEGORIES[..n] == EXPECTED_CATEGORIES[..n - 1] + [EXPECTED_CATEGORIES[n - 1]];
      DistinctCategories(n - 1);
    }
  }

  lemma DistinctCategories(n: nat)
    requires n < |EXPECTED_CATEGORIES|
    ensures EXPECTED_CATEGORIES[n] !in EXPECTED_CATEGORIES[..n]
  {
  }

  lemma NoneExpected(failed: seq<Entry>, n: nat)
    requires n <= |EXPECTED_CATEGORIES| && failed == []
    ensures ExpectedByCategories(failed, n) == 0
  {
    if n > 0 { NoneExpected(failed, n - 1); }
  }

  lemma ExpectedEntry(e: Entry)
    ensures NormalizedKind(e) in EXPECTED_OUTCOME_KINDS <==> FailureCategory(e) in EXPECTED_CATEGORIES
  {
    hide EXPECTED_OUTCOME_KINDS, EXPECTED_CATEGORIES, NormalizedKind, CategoryOf;
    ExpectedByCategory(NormalizedKind(e));
  }

  /** A failure is expected or not, and the expected ones are those of the five categories. */
  lemma {:induction false} FailuresSplit(selected: seq<Entry>)
    ensures Count(selected, ExpectedFailure) + Count(selected, UnexpectedFailure) == Count(selected, Failed)
    ensures Count(selected, ExpectedFailure) == ExpectedByCategories(Select(selected, Failed), |EXPECTED_CATEGORIES|)
    decreases |selected|
  {
    hide Select, NormalizedKind, FailureCategory, EXPECTED_OUTCOME_KINDS, EXPECTED_CATEGORIES, ExpectedByCategories;
    if selected == [] {
      NoSelection(Failed);
      NoSelection(ExpectedFailure);
      NoSelection(UnexpectedFailure);
      NoneExpected(Select(selected, Failed), |EXPECTED_CATEGORIES|);
    } else {
      var rest, e := selected[..|selected| - 1], selected[|selected| - 1];
      assert selected == rest + [e];
      FailuresSplit(rest);
      SelectNext(rest, e, Failed);
      SelectNext(rest, e, ExpectedFailure);
      SelectNext(rest, e, UnexpectedFailure);
      ExpectedEntry(e);
      if !e.ok {
        ExpectedNext(Select(rest, Failed), e, |EXPECTED_CATEGORIES|);
        assert EXPECTED_CATEGORIES[..|EXPECTED_CATEGORIES|] == EXPECTED_CATEGORIES;
      } else {
        assert Select(rest, Failed) + [] == Select(rest, Failed);
      }
    }
  }

  lemma NoSelection(t: Test)
    ensures Select([], t) == []
  {
  }

  lemma FiveCategories(failed: seq<Entry>)
    ensures ExpectedByCategories(failed, |EXPECTED_CATEGORIES|) ==
            Count(failed, KeyIs(ByCategory, "policy_or_approval"))
            + Count(failed, KeyIs(ByCategory, "user_consent_cancelled"))
            + Count(failed, KeyIs(ByCategory, "target_lost_or_ambiguous"))
            + Count(failed, KeyIs(ByCategory, "parallel_owner_conflict"))
            + Count(failed, KeyIs(ByCategory, "user_activity_or_stop"))
  {
    hide Count;
    assert ExpectedByCategories(failed, 1) == Count(failed, KeyIs(ByCategory, EXPECTED_CATEGORIES[0]));
    assert ExpectedByCategories(failed, 3) == ExpectedByCategories(failed, 1)
           + Count(failed, KeyIs(ByCategory, EXPECTED_CATEGORIES[1]))
           + Count(failed, KeyIs(ByCategory, EXPECTED_CATEGORIES[2]));
    assert ExpectedByCategories(failed, 5) == ExpectedByCategories(failed, 3)
           + Count(failed, KeyIs(ByCategory, EXPECTED_CATEGORIES[3]))
           + Count(failed, KeyIs(ByCategory, EXPECTED_CATEGORIES[4]));
  }

  /** The reliability failures are the failures less those of the five categories of expected
      outcomes, and their rate lies between none and all. */
  lemma ReliabilityConserved(selected: seq<Entry>, internal: seq<Entry>)
    ensures var m := MetricsOf(selected, internal);
      && m.reliabilityFailureCount == m.failureCount
           - At(m.failureCategories, "policy_or_approval")
           - At(m.failureCategories, "user_consent_cancelled")
           - At(m.failureCategories, "target_lost_or_ambiguous")
           - At(m.failureCategories, "parallel_owner_conflict")
           - At(m.failureCategories, "user_activity_or_stop")
      && 0.0 <= m.reliabilityFailureRate <= 1.0
      && 0.0 <= m.failureRate <= 1.0
  {
    hide Tally, Select, Duration, UnmatchedSticky, Ratio, At, ExpectedByCategories, EXPECTED_CATEGORIES,
         PREFLIGHT_METHODS, OBSERVATION_METHODS, CAPTURE_METHODS;
    FailuresSplit(selected);
    FiveCategories(Select(selected, Failed));
    CategoryTally(selected, "policy_or_approval");
    CategoryTally(selected, "user_consent_cancelled");
    CategoryTally(selected, "target_lost_or_ambiguous");
    CategoryTally(selected, "parallel_owner_conflict");
    CategoryTally(selected, "user_activity_or_stop");
    RatioBounds(Count(selected, UnexpectedFailure), ReliabilityBase(selected));
    RatioBounds(Count(selected, Failed), |selected|);
  }

  lemma RatioBounds(numerator: nat, denominator: int)
    requires numerator <= denominator
    ensures 0.0 <= Ratio(numerator, denominator) <= 1.0
  {
  }

  // ---------- What the sticky budget says ----------

  /** The budget for verified sticky actions is met exactly where there are sticky actions, and
      every successful one that has an action id was followed by a focus check that succeeded. */
  lemma StickyVerifiedExactly(selected: seq<Entry>, internal: seq<Entry>)
    ensures BudgetOf(MetricsOf(selected, internal)).successfulStickyActionsAllVerified == Some(true) <==>
      && Count(selected, StickyRaw) > 0
      && forall e :: e in selected && Holds(StickySucceeded, e) && e.actionId.Some? ==>
           exists i ::
             i in internal && Holds(MethodSucceeded("interaction_focus_verify"), i) && i.actionId == e.actionId
  {
    hide Holds, Count, Tally, Duration, Ratio, PREFLIGHT_METHODS, OBSERVATION_METHODS, CAPTURE_METHODS;
    var done, verified :=
      ActionIds(selected, StickySucceeded), ActionIds(internal, MethodSucceeded("interaction_focus_verify"));
    if done - verified == {} {
      forall e | e in selected && Holds(StickySucceeded, e) && e.actionId.Some?
        ensures exists i ::
          i in internal && Holds(MethodSucceeded("interaction_focus_verify"), i) && i.actionId == e.actionId
      {
        assert e.actionId.value in done;
        assert e.actionId.value !in done - verified;
      }
    }
    assert |done - verified| == 0 <==> done - verified == {};
  }

  /** Every successful sticky action was followed by a focus check of its own that succeeded. */
  ghost predicate EveryStickyVerified(selected: seq<Entry>, internal: seq<Entry>) {
    forall e :: e in selected && Holds(StickySucceeded, e) ==>
      exists i :: i in internal && Holds(MethodSucceeded("interaction_focus_verify"), i)
        && i.actionId.Some? && i.actionId == e.actionId
  }

  /** A successful sticky action without an action id. */
  ghost predicate HasIdless(selected: seq<Entry>) {
    exists e :: e in selected && Holds(StickySucceeded, e) && e.actionId.None?
  }

  /** The budget says that every successful sticky action is verified exactly where it is true of
      those with an id; where one has none, the budget may be met though that one is not. */
  lemma BudgetMeansVerified(entries: seq<Entry>, filter: Filter)
    requires BuildReport(entries, filter).Some?
    ensures var selected, internal := Selected(entries, filter), InternalSteps(entries, filter);
      var met := BuildReport(entries, filter).value.1.successfulStickyActionsAllVerified == Some(true);
      && (met && !HasIdless(selected) <==> Count(selected, StickyRaw) > 0 && EveryStickyVerified(selected, internal))
  {
    hide Holds, Count, MetricsOf, BudgetOf, Select;
    var selected, internal := Selected(entries, filter), InternalSteps(entries, filter);
    StickyVerifiedExactly(selected, internal);
  }

  /** A lone action without an id meets the budget unverified, whatever the filter selects it by. */
  lemma IdlessActionPasses(e: Entry, filter: Filter)
    requires EntryMatches(e, filter) && Holds(StickySucceeded, e) && e.actionId.None?
    ensures BuildReport([e], filter).Some?
    ensures BuildReport([e], filter).value.1.successfulStickyActionsAllVerified == Some(true)
    ensures !EveryStickyVerified(Selected([e], filter), InternalSteps([e], filter))
  {
    hide MetricsOf, BudgetOf, EntryMatches, STICKY_RAW_METHODS, Select;
    SelectOne(e, Matches(filter));
    SelectOne(e, StickyRaw);
    StickyVerifiedExactly([e], InternalSteps([e], filter));
    BudgetMeansVerified([e], filter);
    assert e in [e];
  }

  lemma SelectOne(e: Entry, t: Test)
    ensures Select([e], t) == if Holds(t, e) then [e] else []
  {
    hide Holds;
    SelectNext([], e, t);
    NoSelection(t);
    assert [] + [e] == [e];
  }

  /** Such an action exists. */
  lemma IdlessIsSticky()
    ensures Holds(StickySucceeded, IDLESS) && IDLESS.actionId.None?
    ensures EntryMatches(IDLESS, Filter(Some("seatgeist-mcp"), None, None, None))
  {
    assert "type_text" in STICKY_RAW_METHODS;
  }

  const IDLESS: Entry :=
    Entry(true, Text("type_text"), Text("seatgeist-mcp"), None, None, Absent, Absent, None,
      false, None, None, Some("session"))
}
