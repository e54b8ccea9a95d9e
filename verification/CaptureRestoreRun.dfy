/**
 The capture-restore eval: a first phase opens a capture and leaves evidence, a second one, after a
 daemon restart, reads that evidence and opens the same window again. Proves what each phase
 closes, what the first hands to the second, and what passed evidence stands for.
 */
module CaptureRestoreRun {
  import opened Outcome
  import opened EvalJson
  import opened CaptureLog
  import opened AcceptanceValidators

  const EVIDENCE_TYPE: Json := Str("seatgeist_capture_restore_restart_eval")

  datatype Config = Config(windowId: string, maxEdge: int)

  // ---------- Identities ----------

  const FILE_FIELDS: seq<Field> := [Device, Inode, Bytes, MtimeNs]
  const SOCKET_FIELDS: seq<Field> := [Device, Inode]

  predicate IsIdentity(d: Dict, fields: seq<Field>) {
    forall f :: f in fields ==> IntOf(Get(d, f)).Some? && IntOf(Get(d, f)).value >= 0
  }

  predicate Agree(left: Dict, right: Dict, fields: seq<Field>) {
    forall f :: f in fields ==> IntOf(Get(left, f)) == IntOf(Get(right, f))
  }

  predicate SameFileIdentity(left: Dict, right: Dict) {
    IsIdentity(left, FILE_FIELDS) && IsIdentity(right, FILE_FIELDS) && Agree(left, right, FILE_FIELDS)
  }

  /** The file is another one than before: what replacing it atomically leaves. */
  predicate RestoreFileWasReplaced(before: Dict, after: Dict) {
    IsIdentity(before, SOCKET_FIELDS) && IsIdentity(after, SOCKET_FIELDS) && !Agree(before, after, SOCKET_FIELDS)
  }

  /** An identity that is no object crashes the check rather than failing it. */
  function RequireDaemonRestart(prepared: Json, current: Json): (failure: Option<Raised>)
    ensures failure.None? <==> prepared.Obj? && current.Obj? && RestoreFileWasReplaced(prepared.fields, current.fields)
  {
    if prepared == Null || current == Null then Some(REJECTED)
    else if !prepared.Obj? || (IsIdentity(prepared.fields, SOCKET_FIELDS) && !current.Obj?) then Some(Crash)
    else if !IsIdentity(prepared.fields, SOCKET_FIELDS) || !IsIdentity(current.fields, SOCKET_FIELDS) then
      Some(REJECTED)
    else if Agree(prepared.fields, current.fields, SOCKET_FIELDS) then Some(REJECTED)
    else None
  }

  // ---------- Evidence checks ----------

  function Reference(session: Dict): Json {
    Get(session, RestoreTokenReference)
  }

  function Part(evidence: Dict, phase: Field, f: Field): Json {
    if Get(evidence, phase).Obj? then Get(Get(evidence, phase).fields, f) else Null
  }

  /** What the second phase asks of the evidence it finds. */
  predicate Prepared(evidence: Dict, targetHash: string) {
    && Get(evidence, Type) == EVIDENCE_TYPE
    && IsNumber(Get(evidence, Version), 1)
    && Get(evidence, Status) == Str("prepared")
    && Get(evidence, TargetWindowSha256) == Str(targetHash)
    && Part(evidence, Prepare, Session).Obj?
    && Part(evidence, Prepare, Frame).Obj?
    && Part(evidence, Prepare, RestoreFileAfterOpen).Obj?
    && NonEmptyStr(Reference(Part(evidence, Prepare, Session).fields))
    && Get(Part(evidence, Prepare, Frame).fields, FreshFrame) == TRUE
    && Get(evidence, PrepareSessionClosed) == TRUE
  }

  /** Whether the restart is accepted; a session without a restore reference raises. */
  function RestartAcceptanceComplete(evidence: Dict): (r: Result<bool, Raised>)
    ensures r == Ok(true) <==>
      && Get(evidence, DaemonRestartProven) == TRUE
      && Get(evidence, PrepareSessionClosed) == TRUE
      && Get(evidence, ResumeSessionClosed) == TRUE
      && Part(evidence, Resume, PortalChooserAvoided) == TRUE
      && Part(evidence, Resume, RestoreFileReplaced) == TRUE
      && Part(evidence, Resume, Frame).Obj? && Get(Part(evidence, Resume, Frame).fields, FreshFrame) == TRUE
      && Part(evidence, Prepare, Session).Obj? && Part(evidence, Resume, Session).Obj?
      && NonEmptyStr(Reference(Part(evidence, Resume, Session).fields))
      && Reference(Part(evidence, Prepare, Session).fields) == Reference(Part(evidence, Resume, Session).fields)
  {
    if !Part(evidence, Prepare, Session).Obj? || !Part(evidence, Resume, Session).Obj?
      || !Part(evidence, Resume, Frame).Obj?
    then Ok(false)
    else
      var before := Reference(Part(evidence, Prepare, Session).fields);
      var after := Reference(Part(evidence, Resume, Session).fields);
      if !NonEmptyStr(before) || !NonEmptyStr(after) then Err(REJECTED)
      else Ok(
        && Get(evidence, DaemonRestartProven) == TRUE
        && Get(evidence, PrepareSessionClosed) == TRUE
        && Get(evidence, ResumeSessionClosed) == TRUE
        && Part(evidence, Resume, PortalChooserAvoided) == TRUE
        && Part(evidence, Resume, RestoreFileReplaced) == TRUE
        && Get(Part(evidence, Resume, Frame).fields, FreshFrame) == TRUE
        && before == after)
  }

  /** The answer comes stripped and in lower case: whether no source chooser appeared. */
  function NormalizeChooserAnswer(answer: string): Option<bool> {
    if answer in {"n", "no"} then Some(true) else if answer in {"y", "yes"} then Some(false) else None
  }

  // ---------- The first phase ----------

  /** The answers from the i-th on open the window as requested, with a restore reference, an
      answer of the operator where one is asked for, and a sound first frame. */
  predicate OpensWithFrame(config: Config, world: World, i: nat, asks: bool) {
    && OpensSoundly(world.cli(i), config.windowId) && NonEmptyStr(ReferenceIn(world.cli(i)))
    && (asks ==> world.prompt(0).Gives? && NormalizeChooserAnswer(world.prompt(0).value).Some?)
    && ActiveId(world.cli(i)).Some?
    && FrameAt(world, i + 1, ActiveId(world.cli(i)).value, None, config.maxEdge).Ok?
  }

  /** The window opens as requested, and then the operator's answer or the first frame raises what
      is not caught. */
  predicate OpensThenEscapes(config: Config, world: World, i: nat, asks: bool) {
    && OpensSoundly(world.cli(i), config.windowId) && NonEmptyStr(ReferenceIn(world.cli(i)))
    && ActiveId(world.cli(i)).Some?
    && var frame := FrameAt(world, i + 1, ActiveId(world.cli(i)).value, None, config.maxEdge);
       || (asks && EscapesIn(world.prompt(0)))
       || (&& (asks ==> world.prompt(0).Gives? && NormalizeChooserAnswer(world.prompt(0).value).Some?)
           && frame.Err? && !frame.error.EvalError?)
  }

  /** The open, the operator's answer and the first frame, as the phases take them. */
  method OpenWithFrame(config: Config, world: World, log: seq<Call>, asks: bool)
    returns (calls: seq<Call>, sessionId: Option<string>, session: Dict, avoided: bool, frame: Dict,
             failure: Option<Raised>)
    requires Holds(log, world, None)
    ensures Holds(calls, world, sessionId)
    ensures failure.None? <==> OpensWithFrame(config, world, |log|, asks)
    ensures failure.Some? && !failure.value.EvalError? <==>
            EscapesIn(world.cli(|log|)) || OpensThenEscapes(config, world, |log|, asks)
    ensures failure.Some? && EscapesIn(world.cli(|log|)) ==> sessionId.None?
    ensures failure.Some? && !asks && OpensThenEscapes(config, world, |log|, asks) ==>
            sessionId.Some? && |calls| == |log| + 2
    ensures failure.None? ==>
      && |calls| == |log| + 2
      && sessionId.Some? && NonEmptyStr(Reference(session)) && Reference(session) == ReferenceIn(world.cli(|log|))
      && Get(frame, FreshFrame) == TRUE
      && (asks ==> world.prompt(0).Gives? && NormalizeChooserAnswer(world.prompt(0).value) == Some(avoided))
  {
    hide Holds, ActiveId, OpensSoundly, ReferenceIn, FrameAt, NormalizeChooserAnswer;
    session, frame, avoided, failure := map[], map[], true, None;
    var answered, validated;
    calls, answered, sessionId, validated := OpenCapture(config.windowId, world, log);
    if validated.Err? {
      failure := Some(validated.error);
      return;
    }
    session := validated.value;
    if !NonEmptyStr(Reference(session)) {
      failure := Some(REJECTED);
      return;
    }
    if asks {
      var answer := world.prompt(0);
      if answer.Raises? {
        failure := Some(answer.raised);
        return;
      }
      var chooser := NormalizeChooserAnswer(answer.value);
      if chooser.None? {
        failure := Some(REJECTED);
        return;
      }
      avoided := chooser.value;
    }
    var taken;
    calls, taken := CaptureFrame(sessionId.value, None, config.maxEdge, world, calls);
    if taken.Err? {
      failure := Some(taken.error);
      return;
    }
    frame := taken.value;
  }

  function StartEvidence(world: World, workspace: Json, targetHash: string): Dict {
    map[
      Type := EVIDENCE_TYPE,
      Version := Int(1),
      Status := Str("running"),
      AcceptanceComplete := FALSE,
      Workspace := workspace,
      StartedUnixMs := Int(world.startedMs),
      EndedUnixMs := Null,
      TargetWindowSha256 := Str(targetHash),
      PreparedSocketIdentity := world.socket,
      Prepare := Null,
      PrepareSessionClosed := FALSE,
      DaemonRestartProven := FALSE,
      Resume := Null,
      ResumeSessionClosed := FALSE,
      Errors := Arr([])]
  }

  /** What a finished first phase notes. */
  predicate PrepareNoted(prepare: Json) {
    && prepare.Obj?
    && Get(prepare.fields, Session).Obj? && NonEmptyStr(Reference(Get(prepare.fields, Session).fields))
    && Get(prepare.fields, Frame).Obj? && Get(Get(prepare.fields, Frame).fields, FreshFrame) == TRUE
    && Get(prepare.fields, RestoreFileAfterOpen).Obj?
  }

  /** What it hands to the second phase: the restore reference and the restore file. */
  predicate HandsOver(prepare: Json, world: World, file: Answer<Dict>) {
    && prepare.Obj? && file.Gives?
    && Get(prepare.fields, RestoreFileAfterOpen) == Obj(file.value)
    && Get(prepare.fields, Session).Obj?
    && Reference(Get(prepare.fields, Session).fields) == ReferenceIn(world.cli(1))
  }

  /** Every answer to the first phase is as it should be, up to that to the close. */
  predicate GoodPrepare(config: Config, world: World, file: Answer<Dict>) {
    && world.workspace.Gives? && world.targetHash.Gives? && world.socket != Null
    && SawNoneActive(world.cli(0)) && OpensWithFrame(config, world, 1, false)
    && file.Gives? && ClosedBy(world.cli(3))
  }

  /** The first phase leaves evidence that reads prepared: every answer is as it should be, or the
      first one that is not raises what the phase does not catch, and what was opened is closed. */
  predicate ReadsPrepared(config: Config, world: World, file: Answer<Dict>) {
    && world.workspace.Gives? && world.targetHash.Gives? && world.socket != Null
    && ( || EscapesIn(world.cli(0))
         || (SawNoneActive(world.cli(0)) && EscapesIn(world.cli(1)))
         || ( && SawNoneActive(world.cli(0))
              && ( || OpensThenEscapes(config, world, 1, false)
                   || (OpensWithFrame(config, world, 1, false) && (file.Gives? || EscapesIn(file))))
              && ClosedBy(world.cli(3))))
  }

  method PrepareBody(config: Config, world: World, file: Answer<Dict>, start: Dict)
    returns (calls: seq<Call>, sessionId: Option<string>, prepare: Json, failure: Option<Raised>)
    ensures Holds(calls, world, sessionId)
    ensures failure.None? <==>
      && Get(start, PreparedSocketIdentity) != Null && SawNoneActive(world.cli(0))
      && OpensWithFrame(config, world, 1, false) && file.Gives?
    ensures failure.None? ==>
            |calls| == 3 && sessionId.Some? && PrepareNoted(prepare) && HandsOver(prepare, world, file)
    ensures failure.Some? ==> prepare == Null
    ensures failure.Some? && !failure.value.EvalError? <==>
      && Get(start, PreparedSocketIdentity) != Null
      && ( || EscapesIn(world.cli(0))
           || (SawNoneActive(world.cli(0)) && EscapesIn(world.cli(1)))
           || (SawNoneActive(world.cli(0)) && OpensThenEscapes(config, world, 1, false))
           || (SawNoneActive(world.cli(0)) && OpensWithFrame(config, world, 1, false) && EscapesIn(file)))
    ensures failure.Some? && !failure.value.EvalError? ==>
      if EscapesIn(world.cli(0)) || EscapesIn(world.cli(1)) then sessionId.None? else sessionId.Some? && |calls| == 3
    ensures Get(start, PreparedSocketIdentity) != Null && world.cli(0).Raises? ==>
      failure == Some(world.cli(0).raised) && sessionId.None?
  {
    hide Holds, OpensWithFrame, OpensThenEscapes;
    calls, sessionId, prepare, failure := [], None, Null, None;
    HoldsAtStart(world);
    if Get(start, PreparedSocketIdentity) == Null {
      failure := Some(REJECTED);
      return;
    }
    calls, failure := CheckNoneActive(world, calls);
    if failure.Some? {
      return;
    }
    var session, avoided, frame;
    calls, sessionId, session, avoided, frame, failure := OpenWithFrame(config, world, calls, false);
    if failure.Some? {
      return;
    }
    if file.Raises? {
      failure := Some(file.raised);
      return;
    }
    prepare := Obj(map[Session := Obj(session), Frame := Obj(frame), RestoreFileAfterOpen := Obj(file.value)]);
  }

  /** The verdict of the first phase, written over its evidence. */
  function PrepareConcluded(start: Dict, prepare: Json, closed: bool, errors: seq<Json>, endedMs: int): Dict {
    start[Prepare := prepare][PrepareSessionClosed := Bool(closed)][Errors := Arr(errors)]
         [Status := Str(if errors == [] then "prepared" else "failed")][EndedUnixMs := Int(endedMs)]
  }

  lemma PrepareConcludedSays(world: World, workspace: Json, targetHash: string, prepare: Json, closed: bool,
                             errors: seq<Json>)
    ensures var start := StartEvidence(world, workspace, targetHash);
      var evidence := PrepareConcluded(start, prepare, closed, errors, world.endedMs);
      && (Prepared(evidence, targetHash) <==> errors == [] && closed && PrepareNoted(prepare))
      && (Get(evidence, Status) == Str("prepared") <==> errors == [])
      && (Get(evidence, Status) == Str("failed") <==> errors != [])
      && Get(evidence, Prepare) == prepare
    ensures Get(StartEvidence(world, workspace, targetHash), PreparedSocketIdentity) == world.socket
  {
  }

  /** The head of the first phase's evidence. */
  predicate PrepareHead(evidence: Dict, world: World) {
    && world.workspace.Gives? && Get(evidence, Workspace) == world.workspace.value
    && world.targetHash.Gives? && Get(evidence, TargetWindowSha256) == Str(world.targetHash.value)
    && Get(evidence, PreparedSocketIdentity) == world.socket
    && Get(evidence, StartedUnixMs) == Int(world.startedMs)
  }

  lemma PrepareConcludedHead(world: World, prepare: Json, closed: bool, errors: seq<Json>)
    requires world.workspace.Gives? && world.targetHash.Gives?
    ensures var start := StartEvidence(world, world.workspace.value, world.targetHash.value);
      var evidence := PrepareConcluded(start, prepare, closed, errors, world.endedMs);
      PrepareHead(evidence, world) && Get(evidence, Status) != Str("passed")
  {
    assert "failed"[0] != "passed"[0] && |"prepared"| != |"passed"|;
  }

  /** The first phase. Its evidence is fit for the second exactly when every answer is as it should
      be. It reads prepared in more cases: an exception the phase does not catch leaves evidence
      that reads prepared too, unless a session is left open, and that the second phase refuses. */
  method PrepareRestoreEval(config: Config, world: World, file: Answer<Dict>)
    returns (outcome: Answer<Dict>, stored: Option<Dict>, calls: seq<Call>)
    ensures Settled(calls, world)
    ensures outcome.Gives? ==> stored == Some(outcome.value)
    ensures stored.Some? ==>
      && world.targetHash.Gives?
      && (Prepared(stored.value, world.targetHash.value) <==>
            outcome.Gives? && Get(stored.value, Status) == Str("prepared"))
    ensures (stored.Some? && Prepared(stored.value, world.targetHash.value)) <==> GoodPrepare(config, world, file)
    ensures (stored.Some? && Get(stored.value, Status) == Str("prepared")) <==> ReadsPrepared(config, world, file)
    ensures stored.Some? && outcome.Raises? ==> Get(stored.value, Prepare) == Null
    ensures stored.Some? ==> PrepareHead(stored.value, world) && Get(stored.value, Status) != Str("passed")
    ensures stored.Some? && Get(stored.value, Status) != Str("prepared") ==> Get(stored.value, Status) == Str("failed")
    ensures stored.Some? && Prepared(stored.value, world.targetHash.value) ==>
      HandsOver(Get(stored.value, Prepare), world, file)
    ensures (&& world.workspace.Gives? && world.targetHash.Gives? && world.socket != Null
             && world.cli(0) == Raises(Interrupt)) ==>
      && outcome == Raises(Interrupt)
      && stored.Some? && Get(stored.value, Status) == Str("prepared") && Get(stored.value, Prepare) == Null
  {
    hide Holds, Settled, Prepared, PrepareNoted, PrepareConcluded, StartEvidence, SawNoneActive, OpensWithFrame;
    hide OpensThenEscapes, ClosedBy, Get, HandsOver, PrepareHead;
    OneWayToFail(config, world);
    stored, calls := None, [];
    HoldsAtStart(world);
    SettledByClose([], world, None);
    if world.workspace.Raises? {
      return Raises(world.workspace.raised), stored, calls;
    }
    if world.targetHash.Raises? {
      return Raises(world.targetHash.raised), stored, calls;
    }
    var start := StartEvidence(world, world.workspace.value, world.targetHash.value);
    PrepareConcludedSays(world, world.workspace.value, world.targetHash.value, Null, false, []);
    var sessionId, prepare, failure;
    calls, sessionId, prepare, failure := PrepareBody(config, world, file, start);
    var errors: seq<Json> := [];
    if failure.Some? && failure.value.EvalError? {
      errors := [Str(failure.value.message)];
    }
    var closed, noted, escaped;
    calls, closed, noted, escaped := CloseOpened(sessionId, world, calls);
    if escaped.Some? {
      return Raises(escaped.value), stored, calls;
    }
    if noted.Some? {
      errors := errors + [noted.value];
    }
    PrepareConcludedSays(world, world.workspace.value, world.targetHash.value, prepare, closed, errors);
    PrepareConcludedHead(world, prepare, closed, errors);
    NullIsNotNoted();
    stored := Some(PrepareConcluded(start, prepare, closed, errors, world.endedMs));
    outcome := if failure.Some? && !failure.value.EvalError? then Raises(failure.value) else Gives(stored.value);
  }

  /** What opens soundly does not raise, and what opens with a frame does not escape behind it. */
  lemma OneWayToFail(config: Config, world: World)
    ensures SawNoneActive(world.cli(0)) ==> !EscapesIn(world.cli(0))
    ensures OpensWithFrame(config, world, 1, false) || OpensThenEscapes(config, world, 1, false) ==>
            !EscapesIn(world.cli(1))
    ensures !(OpensWithFrame(config, world, 1, false) && OpensThenEscapes(config, world, 1, false))
  {
    hide FrameAt, ReferenceIn, ActiveId;
  }

  /** Evidence fit for the second phase reads prepared; an interrupt of the first CLI call shows that
      the converse fails. */
  lemma ReadsPreparedTooOften(config: Config, world: World, file: Answer<Dict>)
    ensures GoodPrepare(config, world, file) ==> ReadsPrepared(config, world, file)
    ensures (&& world.workspace.Gives? && world.targetHash.Gives? && world.socket != Null
             && world.cli(0) == Raises(Interrupt)) ==>
            ReadsPrepared(config, world, file) && !GoodPrepare(config, world, file)
  {
    hide OpensWithFrame, OpensThenEscapes, ClosedBy;
  }

  lemma NullIsNotNoted()
    ensures !PrepareNoted(Null)
  {
  }

  // ---------- The second phase ----------

  /** Everything that has to hold before the second phase opens a capture. */
  predicate MayResume(evidence: Dict, world: World, before: Dict) {
    && world.targetHash.Gives? && Prepared(evidence, world.targetHash.value)
    && world.workspace.Gives? && Get(evidence, Workspace) == world.workspace.value
    && RequireDaemonRestart(Get(evidence, PreparedSocketIdentity), world.socket).None?
    && SameFileIdentity(Part(evidence, Prepare, RestoreFileAfterOpen).fields, before)
  }

  /** The guards, in order. */
  method CheckResume(world: World, evidence: Dict, before: Answer<Dict>)
    returns (calls: seq<Call>, failure: Option<Raised>)
    ensures Holds(calls, world, None)
    ensures failure.None? <==> before.Gives? && MayResume(evidence, world, before.value) && SawNoneActive(world.cli(0))
    ensures failure.None? ==> |calls| == 1
  {
    hide Holds, SawNoneActive, SameFileIdentity, RequireDaemonRestart, Prepared;
    calls, failure := [], None;
    HoldsAtStart(world);
    if world.targetHash.Raises? {
      failure := Some(world.targetHash.raised);
    } else if !Prepared(evidence, world.targetHash.value) {
      failure := Some(REJECTED);
    } else if world.workspace.Raises? {
      failure := Some(world.workspace.raised);
    } else if Get(evidence, Workspace) != world.workspace.value {
      failure := Some(REJECTED);
    } else if RequireDaemonRestart(Get(evidence, PreparedSocketIdentity), world.socket).Some? {
      failure := RequireDaemonRestart(Get(evidence, PreparedSocketIdentity), world.socket);
    } else if before.Raises? {
      failure := Some(before.raised);
    } else {
      PreparedHasFile(evidence, world.targetHash.value);
      if !SameFileIdentity(Part(evidence, Prepare, RestoreFileAfterOpen).fields, before.value) {
        failure := Some(REJECTED);
      } else {
        calls, failure := CheckNoneActive(world, calls);
      }
    }
  }

  lemma PreparedHasFile(evidence: Dict, targetHash: string)
    requires Prepared(evidence, targetHash)
    ensures Part(evidence, Prepare, RestoreFileAfterOpen).Obj? && Part(evidence, Prepare, Session).Obj?
    ensures Get(evidence, PrepareSessionClosed) == TRUE
  {
  }

  /** What a second phase that opened its capture notes; it is sound where no check after it fails. */
  predicate ResumeNoted(resume: Json, before: Dict, after: Answer<Dict>, prepared: Json) {
    && resume.Obj? && prepared.Obj? && after.Gives?
    && Get(resume.fields, Session).Obj?
    && NonEmptyStr(Reference(prepared.fields))
    && Reference(Get(resume.fields, Session).fields) == Reference(prepared.fields)
    && Get(resume.fields, Frame).Obj? && Get(Get(resume.fields, Frame).fields, FreshFrame) == TRUE
    && Get(resume.fields, PortalChooserAvoided) == TRUE
    && Get(resume.fields, RestoreFileReplaced) == TRUE
    && RestoreFileWasReplaced(before, after.value)
  }

  /** The answers to the second phase's open are as they should be. */
  predicate GoodReopen(config: Config, world: World, prepared: Dict, before: Dict, after: Answer<Dict>) {
    && OpensWithFrame(config, world, 1, true)
    && world.prompt(0).Gives? && NormalizeChooserAnswer(world.prompt(0).value) == Some(true)
    && after.Gives? && RestoreFileWasReplaced(before, after.value)
    && ReferenceIn(world.cli(1)) == Reference(prepared)
  }

  /** Every answer to the second phase is as it should be, up to that to the close. */
  predicate GoodResume(config: Config, world: World, persisted: Answer<Dict>, before: Answer<Dict>,
                       after: Answer<Dict>) {
    && persisted.Gives? && before.Gives? && MayResume(persisted.value, world, before.value)
    && SawNoneActive(world.cli(0))
    && Part(persisted.value, Prepare, Session).Obj?
    && GoodReopen(config, world, Part(persisted.value, Prepare, Session).fields, before.value, after)
    && ClosedBy(world.cli(3))
  }

  method ResumeBody(config: Config, world: World, prepared: Dict, before: Dict, after: Answer<Dict>, log: seq<Call>)
    returns (calls: seq<Call>, sessionId: Option<string>, resume: Json, failure: Option<Raised>)
    requires Holds(log, world, None) && |log| == 1
    ensures Holds(calls, world, sessionId)
    ensures failure.None? <==> GoodReopen(config, world, prepared, before, after)
    ensures failure.None? ==> |calls| == 3 && sessionId.Some? && ResumeNoted(resume, before, after, Obj(prepared))
    ensures failure.Some? && !failure.value.EvalError? ==> resume == Null
  {
    hide Holds, RestoreFileWasReplaced, OpensWithFrame, ReferenceIn, NormalizeChooserAnswer;
    resume := Null;
    var session, avoided, frame;
    calls, sessionId, session, avoided, frame, failure := OpenWithFrame(config, world, log, true);
    if failure.Some? {
      return;
    }
    if after.Raises? {
      failure := Some(after.raised);
      return;
    }
    var replaced := RestoreFileWasReplaced(before, after.value);
    resume := Obj(map[
      Session := Obj(session),
      Frame := Obj(frame),
      PortalChooserAvoided := Bool(avoided),
      RestoreFileBeforeOpen := Obj(before),
      RestoreFileAfterOpen := Obj(after.value),
      RestoreFileReplaced := Bool(replaced)]);
    if Reference(prepared) != Reference(session) || !avoided || !replaced {
      failure := Some(REJECTED);
    }
  }

  function ResumeStarted(evidence: Dict, socket: Json): Dict {
    evidence[Status := Str("running")][EndedUnixMs := Null][DaemonRestartProven := TRUE]
            [ResumedSocketIdentity := socket][Resume := Null][ResumeSessionClosed := FALSE][Errors := Arr([])]
  }

  function ResumeNotedIn(evidence: Dict, resume: Json, closed: bool): Dict {
    evidence[Resume := resume][ResumeSessionClosed := Bool(closed)]
  }

  /** The verdict of the second phase, written over its evidence. */
  function ResumeConcluded(body: Dict, errors: seq<Json>, endedMs: int): Dict {
    var complete := RestartAcceptanceComplete(body);
    var all := if complete.Err? then errors + [Str("")] else errors;
    body[Errors := Arr(all)][AcceptanceComplete := Bool(complete == Ok(true))]
        [Status := Str(if complete == Ok(true) && all == [] then "passed" else "failed")]
        [EndedUnixMs := Int(endedMs)]
  }

  lemma StartedKept(evidence: Dict, socket: Json)
    ensures SameHead(ResumeStarted(evidence, socket), evidence)
  {
  }

  lemma ResumeConcludedSays(body: Dict, errors: seq<Json>, endedMs: int, targetHash: string)
    ensures var evidence := ResumeConcluded(body, errors, endedMs);
      && (Get(evidence, Status) == Str("passed") <==> RestartAcceptanceComplete(body) == Ok(true) && errors == [])
      && (Get(evidence, Status) == Str("passed") ==> ValidRestore(evidence) && Get(body, Resume).Obj?)
      && !Prepared(evidence, targetHash)
  {
  }

  lemma ResumeAccepted(evidence: Dict, world: World, before: Dict, after: Answer<Dict>, resume: Json, closed: bool)
    requires MayResume(evidence, world, before)
    requires ResumeNoted(resume, before, after, Part(evidence, Prepare, Session))
    ensures var body := ResumeNotedIn(ResumeStarted(evidence, world.socket), resume, closed);
      RestartAcceptanceComplete(body) == Ok(true) <==> closed
  {
    hide RestoreFileWasReplaced, RequireDaemonRestart, SameFileIdentity, IsNumber;
    var body := ResumeNotedIn(ResumeStarted(evidence, world.socket), resume, closed);
    assert Get(body, Prepare) == Get(evidence, Prepare);
    assert Get(body, PrepareSessionClosed) == TRUE && Get(body, DaemonRestartProven) == TRUE;
  }

  /** The second phase. Passed evidence satisfies its acceptance validator, and stands for a
      daemon restarted since, a restore file untouched since and rotated by this open, the same
      restore reference and no source chooser. No evidence it writes can be resumed again. */
  method ResumeRestoreEval(config: Config, world: World, persisted: Answer<Dict>, before: Answer<Dict>,
                           after: Answer<Dict>)
    returns (outcome: Answer<Dict>, stored: Option<Dict>, calls: seq<Call>)
    ensures Settled(calls, world)
    ensures outcome.Gives? ==> stored == Some(outcome.value)
    ensures stored.Some? ==>
      && world.workspace.Gives?
      && persisted.Gives? && before.Gives? && MayResume(persisted.value, world, before.value)
      && forall hash :: !Prepared(stored.value, hash)
    ensures (stored.Some? && Get(stored.value, Status) == Str("passed")) <==>
            GoodResume(config, world, persisted, before, after)
    ensures stored.Some? && Get(stored.value, Status) == Str("passed") ==>
      && outcome.Gives?
      && Get(stored.value, Workspace) == world.workspace.value
      && Get(stored.value, StartedUnixMs) == Get(persisted.value, StartedUnixMs)
      && Get(stored.value, EndedUnixMs) == Int(world.endedMs)
      && Records(SPECS[2], stored.value)
      && ResumeNoted(Get(stored.value, Resume), before.value, after, Part(persisted.value, Prepare, Session))
  {
    hide Holds, Settled, MayResume, ResumeNoted, ResumeConcluded, ResumeStarted, ValidRestore,
         RestartAcceptanceComplete, Prepared, ResumeNotedIn, Get, SPECS, EVIDENCE_TYPE, Part, SawNoneActive,
         GoodReopen, ClosedBy;
    RestoreSpec();
    stored, calls := None, [];
    HoldsAtStart(world);
    SettledByClose([], world, None);
    if persisted.Raises? {
      return Raises(persisted.raised), stored, calls;
    }
    var failure;
    calls, failure := CheckResume(world, persisted.value, before);
    SettledByClose(calls, world, None);
    if failure.Some? {
      return Raises(failure.value), stored, calls;
    }
    MayResumeFrom(persisted.value, world, before.value);
    var prepared := Part(persisted.value, Prepare, Session).fields;
    var evidence := ResumeStarted(persisted.value, world.socket);
    var sessionId, resume;
    calls, sessionId, resume, failure := ResumeBody(config, world, prepared, before.value, after, calls);
    var errors: seq<Json> := [];
    if failure.Some? && (failure.value.EvalError? || failure.value.Eof?) {
      errors := [Str(if failure.value.EvalError? then failure.value.message else "")];
    }
    var closed, noted, escaped;
    calls, closed, noted, escaped := CloseOpened(sessionId, world, calls);
    if escaped.Some? {
      return Raises(escaped.value), stored, calls;
    }
    if noted.Some? {
      errors := errors + [noted.value];
    }
    var body := ResumeNotedIn(evidence, resume, closed);
    evidence := ResumeConcluded(body, errors, world.endedMs);
    forall hash ensures !Prepared(evidence, hash) {
      ResumeConcludedSays(body, errors, world.endedMs, hash);
    }
    ResumeConcludedSays(body, errors, world.endedMs, "");
    if failure.None? {
      ResumeAccepted(persisted.value, world, before.value, after, resume, closed);
    }
    StartedKept(persisted.value, world.socket);
    ResumeKept(ResumeStarted(persisted.value, world.socket), resume, closed, errors, world.endedMs);
    stored := Some(evidence);
    outcome :=
      if failure.Some? && !failure.value.EvalError? && !failure.value.Eof? then Raises(failure.value)
      else Gives(evidence);
  }

  lemma MayResumeFrom(evidence: Dict, world: World, before: Dict)
    requires MayResume(evidence, world, before)
    ensures Part(evidence, Prepare, Session).Obj?
    ensures Get(evidence, Type) == EVIDENCE_TYPE && IsNumber(Get(evidence, Version), 1)
    ensures world.workspace.Gives? && Get(evidence, Workspace) == world.workspace.value
  {
  }

  lemma RestoreSpec()
    ensures |SPECS| > 2 && EVIDENCE_TYPE == Str(SPECS[2].evidenceType) && SPECS[2].version == 1
            && SPECS[2].validator == Restore
  {
  }

  lemma ResumeKept(evidence: Dict, resume: Json, closed: bool, errors: seq<Json>, endedMs: int)
    ensures Get(ResumeNotedIn(evidence, resume, closed), Resume) == resume
    ensures Get(ResumeConcluded(ResumeNotedIn(evidence, resume, closed), errors, endedMs), Resume) == resume
    ensures SameHead(ResumeConcluded(ResumeNotedIn(evidence, resume, closed), errors, endedMs), evidence)
    ensures Get(ResumeConcluded(ResumeNotedIn(evidence, resume, closed), errors, endedMs), EndedUnixMs) == Int(endedMs)
  {
  }

  // ---------- Both phases ----------

  /** Every answer to both phases is as it should be: the second finds the workspace, the target and
      the restore file of the first and another daemon, and opens under the first one's reference. */
  predicate GoodRestart(config: Config, first: World, file: Answer<Dict>,
                        again: Config, second: World, before: Answer<Dict>, after: Answer<Dict>) {
    && GoodPrepare(config, first, file)
    && second.workspace == first.workspace && second.targetHash == first.targetHash
    && RequireDaemonRestart(first.socket, second.socket).None?
    && before.Gives? && SameFileIdentity(file.value, before.value)
    && SawNoneActive(second.cli(0)) && OpensWithFrame(again, second, 1, true)
    && second.prompt(0).Gives? && NormalizeChooserAnswer(second.prompt(0).value) == Some(true)
    && after.Gives? && RestoreFileWasReplaced(before.value, after.value)
    && ReferenceIn(second.cli(1)) == ReferenceIn(first.cli(1))
    && ClosedBy(second.cli(3))
  }

  /** On what a first phase stored, the second phase's condition is one on the two worlds. */
  lemma ResumesExactly(config: Config, first: World, file: Answer<Dict>, stored: Dict,
                       again: Config, second: World, before: Answer<Dict>, after: Answer<Dict>)
    requires PrepareHead(stored, first)
    requires Prepared(stored, first.targetHash.value) <==> GoodPrepare(config, first, file)
    requires Prepared(stored, first.targetHash.value) ==> HandsOver(Get(stored, Prepare), first, file)
    ensures GoodResume(again, second, Gives(stored), before, after)
       <==> GoodRestart(config, first, file, again, second, before, after)
  {
    hide SameFileIdentity, RestoreFileWasReplaced, RequireDaemonRestart, SawNoneActive, OpensWithFrame;
    hide ReferenceIn, ClosedBy, NormalizeChooserAnswer, IsNumber, GoodPrepare;
    GoodPrepareGives(config, first, file);
  }

  lemma GoodPrepareGives(config: Config, world: World, file: Answer<Dict>)
    ensures GoodPrepare(config, world, file) ==> world.workspace.Gives? && world.targetHash.Gives? && file.Gives?
  {
    hide OpensWithFrame, SawNoneActive, ClosedBy;
  }

  lemma HeadSays(evidence: Dict, world: World)
    requires PrepareHead(evidence, world)
    ensures world.workspace.Gives? && Get(evidence, Workspace) == world.workspace.value
    ensures Get(evidence, StartedUnixMs) == Int(world.startedMs)
  {
  }

  lemma RestartNeedsPrepare(config: Config, first: World, file: Answer<Dict>,
                            again: Config, second: World, before: Answer<Dict>, after: Answer<Dict>)
    ensures GoodRestart(config, first, file, again, second, before, after) ==> GoodPrepare(config, first, file)
  {
    hide GoodPrepare;
  }

  /** The first phase, and the second one on the evidence file the first left; where it left none,
      reading it raises `missing`. What passes stands for both phases, and each closes exactly what
      it opened. */
  method RunRestoreEval(config: Config, first: World, file: Answer<Dict>,
                        again: Config, second: World, before: Answer<Dict>, after: Answer<Dict>, missing: Raised)
    returns (stored: Option<Dict>, prepareCalls: seq<Call>, resumeCalls: seq<Call>)
    ensures Settled(prepareCalls, first) && Settled(resumeCalls, second)
    ensures (stored.Some? && Get(stored.value, Status) == Str("passed"))
       <==> GoodRestart(config, first, file, again, second, before, after)
    ensures stored.Some? && Get(stored.value, Status) == Str("passed") ==>
      && Get(stored.value, Workspace) == first.workspace.value
      && Get(stored.value, StartedUnixMs) == Int(first.startedMs)
      && Get(stored.value, EndedUnixMs) == Int(second.endedMs)
      && Records(SPECS[2], stored.value)
  {
    hide Settled, PrepareHead, HandsOver, Prepared, GoodPrepare, GoodResume, GoodRestart, Records, ResumeNoted, Get;
    var outcome, resumed;
    outcome, stored, prepareCalls := PrepareRestoreEval(config, first, file);
    var persisted := if stored.Some? then Gives(stored.value) else Raises(missing);
    if stored.Some? {
      ResumesExactly(config, first, file, stored.value, again, second, before, after);
      HeadSays(stored.value, first);
    } else {
      RestartNeedsPrepare(config, first, file, again, second, before, after);
    }
    outcome, resumed, resumeCalls := ResumeRestoreEval(again, second, persisted, before, after);
    if resumed.Some? {
      stored := resumed;
    }
  }
}
