/**
 What the acceptance takes, field by field: each validator exactly the values written here, which
 have to be there, and a bundle exactly the artifacts that meet its terms.
 */
module AcceptanceFields {
  import opened Outcome
  import opened EvalJson
  import opened AcceptanceBundle
  import opened AcceptanceValidators

  import Retained = RetainedCaptureRun

  /** The field is there, with this very value. */
  predicate Has(e: Dict, f: Field, value: Json) {
    f in e && e[f] == value
  }

  /** The number as JSON may give it; Python takes false for zero and true for one. */
  predicate HasNumber(e: Dict, f: Field, n: int) {
    && f in e
    && (|| e[f] == Int(n) || e[f] == Float(n as real)
        || (n == 0 && e[f] == Bool(false)) || (n == 1 && e[f] == Bool(true)))
  }

  /** The object in a field, or an empty one. */
  function Inner(e: Dict, f: Field): Dict {
    if f in e && e[f].Obj? then e[f].fields else map[]
  }

  predicate Passed(e: Dict) {
    Has(e, Status, Str("passed")) && Has(e, AcceptanceComplete, Bool(true)) && Has(e, Errors, Arr([]))
  }

  // ---------- Retained capture ----------

  /** The scenario passed on a fresh frame. */
  predicate SoundScenario(j: Json) {
    j.Obj? && Has(j.fields, VisualVerdict, Str("pass")) && Has(Inner(j.fields, Frame), FreshFrame, Bool(true))
  }

  predicate NamedScenario(j: Json, name: string) {
    j.Obj? && Has(j.fields, Name, Str(name))
  }

  /** These scenarios and no other were selected. */
  predicate SelectedAre(e: Dict, names: seq<string>) {
    && SelectedScenarios in e && e[SelectedScenarios].Arr?
    && (forall j :: j in e[SelectedScenarios].items ==> exists name :: name in names && j == Str(name))
    && forall name :: name in names ==> Str(name) in e[SelectedScenarios].items
  }

  /** As many entries as names, each sound and under one of the names, every name among them. */
  predicate ScenariosAre(e: Dict, names: seq<string>) {
    && Scenarios in e && e[Scenarios].Arr? && |e[Scenarios].items| == |names|
    && (forall j :: j in e[Scenarios].items ==>
          SoundScenario(j) && exists name :: name in names && NamedScenario(j, name))
    && forall name :: name in names ==> exists j :: j in e[Scenarios].items && NamedScenario(j, name)
  }

  predicate RetainedFields(e: Dict) {
    && Passed(e)
    && Has(e, AllScenariosSelected, Bool(true)) && Has(e, SessionClosed, Bool(true))
    && HasNumber(e, PortalOpenCount, 1) && HasNumber(e, ExplicitFocusCallCount, 0)
    && SelectedAre(e, Retained.SCENARIOS) && ScenariosAre(e, Retained.SCENARIOS)
  }

  lemma NumberExactly(e: Dict, f: Field, n: int)
    ensures HasNumber(e, f, n) <==> IsNumber(Get(e, f), n)
  {
  }

  lemma NamesExactly(names: set<string>)
    ensures forall j :: j in AsStrings(names) <==> j.Str? && j.s in names
  {
  }

  lemma SelectedExactly(e: Dict)
    ensures SelectedAre(e, Retained.SCENARIOS) <==>
      && Get(e, SelectedScenarios).Arr?
      && Elements(Get(e, SelectedScenarios).items) == AsStrings(RETAINED_SCENARIOS)
  {
    hide Retained.SCENARIOS, RETAINED_SCENARIOS, AsStrings;
    Retained.AllScenarios();
    NamesExactly(RETAINED_SCENARIOS);
    if Get(e, SelectedScenarios).Arr? {
      var items := Get(e, SelectedScenarios).items;
      assert forall j :: j in Elements(items) <==> j in items;
      if SelectedAre(e, Retained.SCENARIOS) { assert Elements(items) == AsStrings(RETAINED_SCENARIOS); }
    }
  }

  lemma ScenariosExactly(e: Dict)
    ensures ScenariosAre(e, Retained.SCENARIOS) <==>
      && Get(e, Scenarios).Arr? && |Get(e, Scenarios).items| == |RETAINED_SCENARIOS|
      && NamesOf(Get(e, Scenarios).items) == AsStrings(RETAINED_SCENARIOS)
      && forall i :: 0 <= i < |Get(e, Scenarios).items| ==> ScenarioPassed(Get(e, Scenarios).items[i])
  {
    hide Retained.SCENARIOS, RETAINED_SCENARIOS, AsStrings;
    Retained.AllScenarios();
    NamesExactly(RETAINED_SCENARIOS);
    if Get(e, Scenarios).Arr? {
      var items := Get(e, Scenarios).items;
      forall j ensures ScenarioPassed(j) <==> SoundScenario(j) { }
      if ScenariosAre(e, Retained.SCENARIOS) {
        NamedAll(items);
      }
      if && NamesOf(items) == AsStrings(RETAINED_SCENARIOS)
         && forall i :: 0 <= i < |items| ==> ScenarioPassed(items[i]) {
        NamesFound(items);
      }
    }
  }

  lemma NamedAll(items: seq<Json>)
    requires forall j :: j in items ==>
      SoundScenario(j) && exists name :: name in Retained.SCENARIOS && NamedScenario(j, name)
    requires forall name :: name in Retained.SCENARIOS ==> exists j :: j in items && NamedScenario(j, name)
    ensures NamesOf(items) == AsStrings(RETAINED_SCENARIOS)
  {
    hide Retained.SCENARIOS, RETAINED_SCENARIOS, AsStrings, SoundScenario;
    Retained.AllScenarios();
    NamesExactly(RETAINED_SCENARIOS);
    forall v | v in NamesOf(items) ensures v in AsStrings(RETAINED_SCENARIOS) {
      var i :| 0 <= i < |items| && items[i].Obj? && Get(items[i].fields, Name) == v;
      assert items[i] in items;
    }
    forall v | v in AsStrings(RETAINED_SCENARIOS) ensures v in NamesOf(items) {
      var j :| j in items && NamedScenario(j, v.s);
      var i :| 0 <= i < |items| && items[i] == j;
      assert Get(items[i].fields, Name) == v;
    }
  }

  lemma NamesFound(items: seq<Json>)
    requires NamesOf(items) == AsStrings(RETAINED_SCENARIOS) && forall j :: j in items ==> j.Obj?
    ensures forall j :: j in items ==> exists name :: name in Retained.SCENARIOS && NamedScenario(j, name)
    ensures forall name :: name in Retained.SCENARIOS ==> exists j :: j in items && NamedScenario(j, name)
  {
    hide Retained.SCENARIOS, RETAINED_SCENARIOS, AsStrings;
    Retained.AllScenarios();
    NamesExactly(RETAINED_SCENARIOS);
    forall j | j in items ensures exists name :: name in Retained.SCENARIOS && NamedScenario(j, name) {
      assert Get(j.fields, Name) in NamesOf(items);
      assert NamedScenario(j, Get(j.fields, Name).s);
    }
    forall name | name in Retained.SCENARIOS ensures exists j :: j in items && NamedScenario(j, name) {
      assert Str(name) in NamesOf(items);
      var i :| 0 <= i < |items| && items[i].Obj? && Get(items[i].fields, Name) == Str(name);
      assert NamedScenario(items[i], name);
    }
  }

  lemma RetainedExactly(e: Dict)
    ensures ValidRetained(e) <==> RetainedFields(e)
  {
    hide IsNumber, HasNumber, SelectedAre, ScenariosAre, ScenarioPassed, Elements, NamesOf, AsStrings;
    hide RETAINED_SCENARIOS, Retained.SCENARIOS;
    NumberExactly(e, PortalOpenCount, 1);
    NumberExactly(e, ExplicitFocusCallCount, 0);
    SelectedExactly(e);
    ScenariosExactly(e);
  }

  // ---------- The other artifacts ----------

  /** Two monitors or more, one of them off the origin. */
  predicate MultiOutputFields(e: Dict) {
    var layout := Inner(e, MonitorLayout);
    && RetainedFields(e)
    && Has(e, LayoutRequirement, Str("multi_output_nonzero_origin"))
    && Has(layout, HasNonzeroLogicalOrigin, Bool(true))
    && MonitorCount in layout && layout[MonitorCount].Int? && layout[MonitorCount].n >= 2
  }

  predicate RestoreFields(e: Dict) {
    && Passed(e)
    && Has(e, DaemonRestartProven, Bool(true))
    && Has(e, PrepareSessionClosed, Bool(true)) && Has(e, ResumeSessionClosed, Bool(true))
    && Has(Inner(e, Resume), PortalChooserAvoided, Bool(true))
    && Has(Inner(e, Resume), RestoreFileReplaced, Bool(true))
  }

  predicate LifecycleFields(e: Dict) {
    && Passed(e)
    && Has(Inner(e, EndedStatus), LastEndReason, Str("portal_closed"))
    && Has(e, StaleSessionRejected, Bool(true)) && Has(e, CleanupCloseCalled, Bool(false))
    && HasNumber(e, ExplicitFocusCallCount, 0) && HasNumber(e, RawInputCallCount, 0)
  }

  /** Anything Python takes for true. */
  predicate HasSome(e: Dict, f: Field) {
    f in e && e[f] !in {Null, Bool(false), Int(0), Float(0.0), Str(""), Arr([]), Obj(map[])}
  }

  predicate ReopenFields(e: Dict) {
    && Passed(e)
    && HasSome(e, Replacement) && Has(Inner(e, PostReopenStatus), StickyTargetBound, Bool(false))
    && (Has(e, SessionCleanup, Str("client_closed")) || Has(e, SessionCleanup, Str("portal_ended")))
    && HasNumber(e, ExplicitFocusCallCount, 0) && HasNumber(e, RawInputCallCount, 0)
  }

  predicate BackgroundFields(e: Dict, scenario: string) {
    && Passed(e)
    && Has(e, Scenario, Str(scenario)) && HasNumber(e, JournalMatchCount, 1)
    && Has(e, NonTargetFocusBefore, Bool(true)) && Has(e, NonTargetFocusAfter, Bool(true))
    && Has(e, SemanticActionSucceeded, Bool(true)) && Has(e, VisualChangeConfirmed, Bool(true))
    && Has(e, OperatorTargetNeverFocusedConfirmed, Bool(true))
    && HasNumber(e, ExplicitFocusCallCount, 0) && HasNumber(e, RawInputCallCount, 0)
  }

  /** What the artifact of each kind has to say. */
  predicate Says(validator: Validator, e: Dict) {
    match validator
    case Retained => RetainedFields(e)
    case MultiOutput => MultiOutputFields(e)
    case Restore => RestoreFields(e)
    case Lifecycle => LifecycleFields(e)
    case Reopen => ReopenFields(e)
    case Background(scenario) => BackgroundFields(e, scenario)
    case Cooperative => ValidCooperative(e)
  }

  lemma CountsExactly(e: Dict)
    ensures HasNumber(e, ExplicitFocusCallCount, 0) <==> IsNumber(Get(e, ExplicitFocusCallCount), 0)
    ensures HasNumber(e, RawInputCallCount, 0) <==> IsNumber(Get(e, RawInputCallCount), 0)
    ensures HasNumber(e, JournalMatchCount, 1) <==> IsNumber(Get(e, JournalMatchCount), 1)
  {
  }

  /** Each validator takes an artifact if and only if the artifact says that. */
  lemma AcceptedExactly(validator: Validator, e: Dict)
    ensures Accepts(validator, e) <==> Says(validator, e)
  {
    hide IsNumber, HasNumber, ValidRetained, RetainedFields;
    RetainedExactly(e);
    CountsExactly(e);
  }

  // ---------- Workspaces and bundles ----------

  const HEX_DIGITS: set<char> := {
    '0', '1', '2', '3', '4', '5', '6', '7', '8', '9', 'a', 'b', 'c', 'd', 'e', 'f'}

  predicate HasHash(e: Dict, f: Field, digits: nat) {
    f in e && e[f].Str? && |e[f].s| == digits && forall i :: 0 <= i < digits ==> e[f].s[i] in HEX_DIGITS
  }

  /** A workspace revision: two hashes and whether it was dirty, which are what is kept of it. */
  predicate Revision(value: Json, kept: Dict) {
    && value.Obj?
    && HasHash(value.fields, GitHead, 40) && HasHash(value.fields, TreeSha256, 64)
    && Dirty in value.fields && value.fields[Dirty].Bool?
    && kept.Keys == {GitHead, TreeSha256, Dirty}
    && kept[GitHead] == value.fields[GitHead] && kept[TreeSha256] == value.fields[TreeSha256]
    && kept[Dirty] == value.fields[Dirty]
  }

  lemma HashExactly(e: Dict, f: Field, digits: nat)
    ensures HasHash(e, f, digits) <==> Get(e, f).Str? && IsHex(Get(e, f).s, digits)
  {
    forall c: char ensures c in HEX_DIGITS <==> '0' <= c <= '9' || 'a' <= c <= 'f' { }
  }

  lemma WorkspaceExactly(value: Json, kept: Dict)
    ensures ValidateWorkspace(value) == Some(kept) <==> Revision(value, kept)
  {
    hide IsHex, HasHash;
    if value.Obj? {
      HashExactly(value.fields, GitHead, 40);
      HashExactly(value.fields, TreeSha256, 64);
      var head, tree := Get(value.fields, GitHead), Get(value.fields, TreeSha256);
      var whole: Dict := map[GitHead := head, TreeSha256 := tree, Dirty := Get(value.fields, Dirty)];
      assert whole.Keys == {GitHead, TreeSha256, Dirty};
      if Revision(value, kept) { assert kept == whole; }
    }
  }

  /** The file holds evidence of the spec's kind, on the workspace, between two times, the later one
      neither too old nor in the future. */
  predicate FileFits(file: ArtifactFile, spec: ArtifactSpec, workspace: Dict, limits: Limits, start: int, end: int) {
    && file.bytes <= 4194304 && file.content.Gives? && file.content.value.Obj?
    && var e := file.content.value.fields;
    && Has(e, Type, Str(spec.evidenceType)) && HasNumber(e, Version, spec.version)
    && Workspace in e && Revision(e[Workspace], workspace) && Says(spec.validator, e)
    && EvidenceInterval(e) == Some((start, end))
    && limits.now - limits.maxAgeMs <= end <= limits.now + 300000
  }

  lemma FitsExactly(file: ArtifactFile, spec: ArtifactSpec, workspace: Dict, limits: Limits)
    ensures Genuine(file, spec, workspace) && Recent(file, limits) <==>
      FileFits(file, spec, workspace, limits, StartOf(file), EndOf(file))
  {
    hide ValidateWorkspace, Accepts, Says, EvidenceInterval, Revision, IsNumber, HasNumber;
    var e := EvidenceOf(file);
    WorkspaceExactly(Get(e, Workspace), workspace);
    NoRevision(workspace);
    AcceptedExactly(spec.validator, e);
    VersionExactly(e, spec.version);
  }

  lemma NoRevision(workspace: Dict)
    ensures !Revision(Null, workspace)
  {
  }

  lemma VersionExactly(e: Dict, n: int)
    ensures HasNumber(e, Version, n) <==> IsNumber(Get(e, Version), n)
  {
  }

  /** The terms of a bundle: an artifact for every spec and no other, all of them on the workspace
      expected, recent, and none ending more than the span after another starts. */
  predicate Terms(artifacts: ArtifactSet, workspace: Dict, limits: Limits) {
    && |SPECS| == 8 && limits.maxAgeMs > 0 && limits.maxSpanMs > 0
    && (forall name :: name in artifacts ==> exists i :: 0 <= i < 8 && SPECS[i].name == name)
    && (forall i :: 0 <= i < 8 ==> SPECS[i].name in artifacts)
    && (forall i :: 0 <= i < 8 ==>
          var file := artifacts[SPECS[i].name];
          FileFits(file, SPECS[i], workspace, limits, StartOf(file), EndOf(file)))
    && forall i, j :: 0 <= i < 8 && 0 <= j < 8 ==>
         EndOf(artifacts[SPECS[i].name]) - StartOf(artifacts[SPECS[j].name]) <= limits.maxSpanMs
  }

  /** A bundle is made if and only if its artifacts meet the terms on the workspace expected. */
  lemma BundledExactly(artifacts: ArtifactSet, expected: Json, limits: Limits)
    ensures Acceptable(artifacts, expected, limits) <==>
      exists workspace :: Revision(expected, workspace) && Terms(artifacts, workspace, limits)
  {
    hide SPECS, ValidateWorkspace, ArtifactFits, WithinSpan, Revision, Terms, SpecNames;
    EightSpecs();
    NamesOfSpecs(artifacts);
    forall workspace ensures ValidateWorkspace(expected) == Some(workspace) <==> Revision(expected, workspace) {
      WorkspaceExactly(expected, workspace);
    }
    if w :| Revision(expected, w) { TermsExactly(artifacts, w, limits); }
    if Acceptable(artifacts, expected, limits) {
      TermsExactly(artifacts, ValidateWorkspace(expected).value, limits);
    }
  }

  lemma TermsExactly(artifacts: ArtifactSet, workspace: Dict, limits: Limits)
    ensures Terms(artifacts, workspace, limits) <==>
      && artifacts.Keys == SpecNames() && limits.maxAgeMs > 0 && limits.maxSpanMs > 0
      && (forall i :: 0 <= i < |SPECS| ==> ArtifactFits(artifacts, i, workspace, limits))
      && WithinSpan(artifacts, limits.maxSpanMs)
  {
    hide SPECS, Genuine, Recent, FileFits, StartOf, EndOf, SpecNames;
    EightSpecs();
    NamesOfSpecs(artifacts);
    if forall i :: 0 <= i < 8 ==> SPECS[i].name in artifacts {
      forall i | 0 <= i < 8
        ensures ArtifactFits(artifacts, i, workspace, limits) <==>
          var file := artifacts[SPECS[i].name];
          FileFits(file, SPECS[i], workspace, limits, StartOf(file), EndOf(file))
      {
        FitsExactly(artifacts[SPECS[i].name], SPECS[i], workspace, limits);
      }
    }
  }

  lemma EightSpecs()
    ensures |SPECS| == 8
  {
  }

  lemma NamesOfSpecs(artifacts: ArtifactSet)
    ensures artifacts.Keys == SpecNames() <==>
      && (forall name :: name in artifacts ==> exists i :: 0 <= i < |SPECS| && SPECS[i].name == name)
      && forall i :: 0 <= i < |SPECS| ==> SPECS[i].name in artifacts
  {
    hide SPECS;
    assert forall name :: name in SpecNames() <==> exists i :: 0 <= i < |SPECS| && SPECS[i].name == name;
    assert forall i :: 0 <= i < |SPECS| ==> SPECS[i].name in SpecNames();
  }
}
