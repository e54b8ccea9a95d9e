/**
 The portal-revocation eval: a session is opened, the operator revokes it, and the stale session
 id must be refused. Proves that the client closes the session exactly where it did not see the
 portal close it, and that passed evidence satisfies its acceptance validator.
 */
module CaptureLifecycleRun {
  import opened Outcome
  import opened Positions
  import opened EvalJson
  import opened CaptureChecks
  import opened CaptureLog
  import opened AcceptanceValidators

  /** `polls` is how many status polls start before the deadline, `staleWritten` whether the
      refused snapshot left a file behind. */
  datatype Config = Config(windowId: string, maxEdge: int, polls: nat, staleWritten: bool)

  // ---------- Checks ----------

  function ValidatePortalClosedStatus(response: Dict): Result<Dict, Raised> {
    match StatusData(response)
    case Err(e) => Err(e)
    case Ok(data) =>
      if Get(data, Active) != FALSE || Get(data, Opening) != FALSE then Err(REJECTED)
      else if Get(data, SessionId) != Null then Err(REJECTED)
      else if Get(data, LastEndReason) != Str("portal_closed") then Err(REJECTED)
      else if Get(data, StickyTargetBound) == TRUE || Get(data, TargetWindowId) != Null then Err(REJECTED)
      else Ok(map[Active := FALSE, Opening := FALSE, LastEndReason := Str("portal_closed"), StickyTargetBound := FALSE])
  }

  predicate LifecycleAcceptanceComplete(evidence: Dict) {
    && Get(evidence, EndedStatus).Obj?
    && Get(Get(evidence, EndedStatus).fields, LastEndReason) == Str("portal_closed")
    && Get(evidence, InitialFrameCaptured) == TRUE
    && Get(evidence, StaleSessionRejected) == TRUE
    && Get(evidence, CleanupCloseCalled) == FALSE
    && IsNumber(Get(evidence, ExplicitFocusCallCount), 0)
    && IsNumber(Get(evidence, RawInputCallCount), 0)
  }

  function RejectionKind(message: string): Option<string> {
    if Contains(message, "session owner mismatch") || Contains(message, "sessionownermismatch") then
      Some("session_owner_mismatch")
    else if Contains(message, "no active capture session") || Contains(message, "session ended") then
      Some("session_ended")
    else None
  }

  // ---------- The portal closing the session ----------

  predicate ClosedByPortal(answer: Answer<Dict>) {
    answer.Gives? && ValidatePortalClosedStatus(answer.value).Ok?
  }

  /** A status asked for after the capture was opened shows that the portal closed it. */
  predicate SawPortalClose(calls: seq<Call>, world: World) {
    exists i, j :: 0 <= j < i < |calls| && calls[j].OpenWindow? && calls[i].QueryStatus? && ClosedByPortal(world.cli(i))
  }

  predicate HasOpen(calls: seq<Call>) {
    exists j :: 0 <= j < |calls| && calls[j].OpenWindow?
  }

  lemma SawNext(calls: seq<Call>, call: Call, world: World)
    ensures SawPortalClose(calls + [call], world) <==>
            || SawPortalClose(calls, world)
            || (HasOpen(calls) && call.QueryStatus? && ClosedByPortal(world.cli(|calls|)))
    ensures HasOpen(calls + [call]) <==> HasOpen(calls) || call.OpenWindow?
  {
    hide ClosedByPortal;
    var all := calls + [call];
    if SawPortalClose(calls, world) {
      var i, j :| 0 <= j < i < |calls| && calls[j].OpenWindow? && calls[i].QueryStatus? && ClosedByPortal(world.cli(i));
      assert all[j] == calls[j] && all[i] == calls[i];
    }
    if HasOpen(calls) {
      var j :| 0 <= j < |calls| && calls[j].OpenWindow?;
      assert all[j] == calls[j] && all[|calls|] == call;
    }
    if call.OpenWindow? { assert all[|calls|] == call; }
  }

  /** Where the portal closed the session nothing is left to close; elsewhere the session opened is
      closed once, as in every other eval. */
  ghost predicate ClosedOnce(calls: seq<Call>, world: World) {
    if SawPortalClose(calls, world) then Closes(calls) == [] else Settled(calls, world)
  }

  // ---------- The answers a run has to be given to pass ----------

  /** A status that keeps the polling going. */
  predicate StillOpen(answer: Answer<Dict>) {
    answer.Gives? && StatusData(answer.value).Ok? && Get(StatusData(answer.value).value, Active) != FALSE
  }

  /** The answer to the p-th poll. */
  function PollAnswer(world: World, p: nat): Answer<Dict> {
    world.cli(3 + p)
  }

  /** The p-th poll is the first to see the session inactive, closed by the portal. */
  predicate ClosesAt(world: World, p: nat) {
    (forall q :: 0 <= q < p ==> StillOpen(PollAnswer(world, q))) && ClosedByPortal(PollAnswer(world, p))
  }

  /** The stale session id is refused, for a reason that says so. */
  predicate Refused(answer: Answer<Dict>) {
    answer.Raises? && answer.raised.EvalError? && RejectionKind(answer.raised.message).Some?
  }

  predicate GoodBegin(config: Config, world: World) {
    && world.socket != Null
    && SawNoneActive(world.cli(0))
    && OpensSoundly(world.cli(1), config.windowId) && ActiveId(world.cli(1)).Some?
    && FrameAt(world, 2, ActiveId(world.cli(1)).value, None, config.maxEdge).Ok?
    && world.prompt(0).Gives? && world.prompt(0).value !in {"s", "skip"}
  }

  predicate GoodEnd(config: Config, world: World, p: nat) {
    p < config.polls && ClosesAt(world, p) && Refused(world.cli(4 + p)) && !config.staleWritten
  }

  /** Every answer is as it should be: a share opened, revoked in time, and refused afterwards. */
  predicate GoodRun(config: Config, world: World) {
    && world.workspace.Gives? && world.targetHash.Gives?
    && GoodBegin(config, world)
    && exists p :: 0 <= p < config.polls && GoodEnd(config, world, p)
  }

  lemma OpenIsNotClosed(answer: Answer<Dict>)
    ensures !(StillOpen(answer) && ClosedByPortal(answer))
  {
  }

  /** The portal's closure is seen at one poll at most. */
  lemma OneClosure(world: World, p: nat, q: nat)
    requires ClosesAt(world, p) && ClosesAt(world, q)
    ensures p == q
  {
    hide StillOpen, ClosedByPortal;
    OpenIsNotClosed(PollAnswer(world, p));
    OpenIsNotClosed(PollAnswer(world, q));
  }

  /** What the steps after the first leave alone. */
  predicate Kept(a: Dict, b: Dict) {
    && SameHead(a, b)
    && Get(a, ExplicitFocusCallCount) == Get(b, ExplicitFocusCallCount)
    && Get(a, RawInputCallCount) == Get(b, RawInputCallCount)
    && Get(a, CleanupCloseCalled) == Get(b, CleanupCloseCalled)
  }

  // ---------- The body under `try` ----------

  function StartEvidence(world: World, workspace: Json, targetHash: string): Dict {
    map[
      Type := Str("seatgeist_capture_lifecycle_eval"),
      Version := Int(1),
      Status := Str("running"),
      AcceptanceComplete := FALSE,
      Workspace := workspace,
      StartedUnixMs := Int(world.startedMs),
      EndedUnixMs := Null,
      TargetWindowSha256 := Str(targetHash),
      SocketIdentity := world.socket,
      PortalOpenCount := Int(0),
      InitialFrame := Null,
      InitialFrameCaptured := FALSE,
      StatusPollCount := Int(0),
      EndedStatus := Null,
      StaleSessionRejected := FALSE,
      StaleSessionRejectionKind := Null,
      CleanupCloseCalled := FALSE,
      ExplicitFocusCallCount := Int(0),
      RawInputCallCount := Int(0),
      Errors := Arr([])]
  }

  /** The session, its first frame, and the operator's answer. */
  method BeginLifecycle(config: Config, world: World, start: Dict)
    returns (evidence: Dict, calls: seq<Call>, sessionId: Option<string>, failure: Option<Raised>)
    requires Get(start, SocketIdentity) == world.socket
    ensures Holds(calls, world, sessionId) && !SawPortalClose(calls, world)
    ensures forall f: Field :: !f.PortalOpenCount? && !f.InitialFrame? && !f.InitialFrameCaptured? ==>
            Get(evidence, f) == Get(start, f)
    ensures failure.None? <==> GoodBegin(config, world)
    ensures failure.None? ==>
      && sessionId.Some? && HasOpen(calls) && |calls| == 3 && Get(evidence, InitialFrameCaptured) == TRUE
  {
    hide Holds, SawPortalClose, HasOpen, ClosedByPortal, SawNoneActive, OpensSoundly, FrameAt, ActiveId, ReferenceIn;
    evidence, calls, sessionId, failure := start, [], None, None;
    HoldsAtStart(world);
    SawNothing(world);
    if Get(evidence, SocketIdentity) == Null {
      failure := Some(REJECTED);
      return;
    }
    SawNext(calls, QueryStatus, world);
    calls, failure := CheckNoneActive(world, calls);
    if failure.Some? {
      return;
    }
    SawNext(calls, OpenWindow(config.windowId), world);
    var answered, session;
    calls, answered, sessionId, session := OpenCapture(config.windowId, world, calls);
    if answered {
      evidence := evidence[PortalOpenCount := Int(1)];
    }
    if session.Err? {
      failure := Some(session.error);
      return;
    }
    var frame;
    ghost var log := calls;
    calls, frame := CaptureFrame(sessionId.value, None, config.maxEdge, world, calls);
    SawNext(log, TakeSnapshot(sessionId.value), world);
    if frame.Err? {
      failure := Some(frame.error);
      return;
    }
    evidence := evidence[InitialFrame := Obj(frame.value)][InitialFrameCaptured := TRUE];
    var answer := world.prompt(0);
    if answer.Raises? {
      failure := Some(answer.raised);
    } else if answer.value in {"s", "skip"} {
      failure := Some(REJECTED);
    }
  }

  lemma SawNothing(world: World)
    ensures !SawPortalClose([], world) && !HasOpen([])
  {
  }

  /** One poll: whether the portal's closure was seen. */
  method PollOnce(world: World, before: Dict, polls: nat, sessionId: string, log: seq<Call>)
    returns (evidence: Dict, calls: seq<Call>, ended: bool, failure: Option<Raised>)
    requires Holds(log, world, Some(sessionId)) && HasOpen(log) && !SawPortalClose(log, world)
    requires Get(before, EndedStatus) == Null && |log| == 3 + polls
    ensures Holds(calls, world, Some(sessionId)) && HasOpen(calls) && (SawPortalClose(calls, world) <==> ended)
    ensures |calls| == |log| + 1
    ensures ended <==> ClosedByPortal(PollAnswer(world, polls))
    ensures failure.None? <==> ended || StillOpen(PollAnswer(world, polls))
    ensures if ended then EndedWell(evidence) else Get(evidence, EndedStatus) == Null
    ensures forall f: Field :: !f.StatusPollCount? && !f.EndedStatus? ==> Get(evidence, f) == Get(before, f)
  {
    hide Holds, SawPortalClose, HasOpen, StillOpen, ClosedByPortal, EndedWell;
    evidence, calls, ended, failure := before, log + [QueryStatus], false, None;
    HoldsOn(log, QueryStatus, world, Some(sessionId));
    SawNext(log, QueryStatus, world);
    var answer := world.cli(|log|);
    AnswerKinds(answer);
    if answer.Raises? {
      failure := Some(answer.raised);
      return;
    }
    evidence := evidence[StatusPollCount := Int(polls + 1)];
    var status := StatusData(answer.value);
    if status.Err? {
      failure := Some(status.error);
      return;
    }
    if Get(status.value, Active) == FALSE {
      var closed := ValidatePortalClosedStatus(answer.value);
      if closed.Err? {
        failure := Some(closed.error);
        return;
      }
      evidence := evidence[EndedStatus := Obj(closed.value)];
      EndedByPortal(answer.value, evidence);
      ended := true;
    }
  }

  /** Polls until a status shows the session inactive, or the deadline passes. */
  method PollUntilClosed(config: Config, world: World, begun: Dict, sessionId: string, log: seq<Call>)
    returns (evidence: Dict, calls: seq<Call>, portalEnded: bool, failure: Option<Raised>)
    requires Holds(log, world, Some(sessionId)) && HasOpen(log) && !SawPortalClose(log, world)
    requires Get(begun, EndedStatus) == Null && |log| == 3
    ensures Holds(calls, world, Some(sessionId)) && (SawPortalClose(calls, world) <==> portalEnded)
    ensures portalEnded ==> EndedWell(evidence)
    ensures forall f: Field :: !f.StatusPollCount? && !f.EndedStatus? ==> Get(evidence, f) == Get(begun, f)
    ensures failure.None? <==> portalEnded
    ensures portalEnded ==> |calls| >= 4 && |calls| - 4 < config.polls && ClosesAt(world, |calls| - 4)
    ensures !portalEnded ==> forall p :: 0 <= p < config.polls ==> !ClosesAt(world, p)
  {
    hide Holds, SawPortalClose, HasOpen, StillOpen, ClosedByPortal, EndedWell, Get, PollAnswer;
    evidence, calls, portalEnded, failure := begun, log, false, None;
    var polls := 0;
    while polls < config.polls && !portalEnded
      invariant failure.None? && 0 <= polls <= config.polls && |calls| == 3 + polls
      invariant Holds(calls, world, Some(sessionId)) && HasOpen(calls)
      invariant SawPortalClose(calls, world) <==> portalEnded
      invariant if portalEnded then EndedWell(evidence) else Get(evidence, EndedStatus) == Null
      invariant forall f: Field :: !f.StatusPollCount? && !f.EndedStatus? ==> Get(evidence, f) == Get(begun, f)
      invariant portalEnded ==> polls > 0 && ClosesAt(world, polls - 1)
      invariant !portalEnded ==> forall q :: 0 <= q < polls ==> StillOpen(PollAnswer(world, q))
      decreases config.polls - polls
    {
      NoneBefore(world, polls);
      evidence, calls, portalEnded, failure := PollOnce(world, evidence, polls, sessionId, calls);
      polls := polls + 1;
      if failure.Some? {
        return;
      }
    }
    if !portalEnded {
      NoneBefore(world, config.polls);
      failure := Some(REJECTED);
    }
  }

  predicate EndedWell(evidence: Dict) {
    Get(evidence, EndedStatus).Obj? && Get(Get(evidence, EndedStatus).fields, LastEndReason) == Str("portal_closed")
  }

  lemma EndedByPortal(response: Dict, evidence: Dict)
    requires ValidatePortalClosedStatus(response).Ok?
    requires Get(evidence, EndedStatus) == Obj(ValidatePortalClosedStatus(response).value)
    ensures EndedWell(evidence)
  {
  }

  /** While every poll kept the polling going, none of them saw the closure; nor does a later one
      count once a poll has done neither. */
  lemma NoneBefore(world: World, n: nat)
    requires forall q :: 0 <= q < n ==> StillOpen(PollAnswer(world, q))
    ensures forall p :: 0 <= p < n ==> !ClosesAt(world, p)
    ensures !StillOpen(PollAnswer(world, n)) && !ClosedByPortal(PollAnswer(world, n)) ==>
            forall p :: 0 <= p ==> !ClosesAt(world, p)
  {
    hide StillOpen, ClosedByPortal;
    forall p | 0 <= p < n ensures !ClosesAt(world, p) {
      OpenIsNotClosed(PollAnswer(world, p));
    }
    if !StillOpen(PollAnswer(world, n)) && !ClosedByPortal(PollAnswer(world, n)) {
      forall p | 0 <= p ensures !ClosesAt(world, p) {
        if p < n { OpenIsNotClosed(PollAnswer(world, p)); }
      }
    }
  }

  /** The three ways a poll can go. */
  lemma AnswerKinds(answer: Answer<Dict>)
    ensures answer.Raises? || StatusData(answer.value).Err? ==> !StillOpen(answer) && !ClosedByPortal(answer)
    ensures answer.Gives? && StatusData(answer.value).Ok? ==>
      if Get(StatusData(answer.value).value, Active) == FALSE
      then !StillOpen(answer) && (ClosedByPortal(answer) <==> ValidatePortalClosedStatus(answer.value).Ok?)
      else StillOpen(answer) && !ClosedByPortal(answer)
  {
  }

  /** The stale session id must be refused, for a reason that says so, and leave no file. */
  method ProbeStaleSession(config: Config, world: World, ended: Dict, sessionId: string, log: seq<Call>)
    returns (evidence: Dict, calls: seq<Call>, failure: Option<Raised>)
    requires Holds(log, world, Some(sessionId))
    ensures Holds(calls, world, Some(sessionId))
    ensures calls == log + [TakeSnapshot(sessionId)]
    ensures Get(evidence, EndedStatus) == Get(ended, EndedStatus)
    ensures Kept(evidence, ended) && Get(evidence, InitialFrameCaptured) == Get(ended, InitialFrameCaptured)
    ensures Get(evidence, StaleSessionRejected)
            == if Refused(world.cli(|log|)) then TRUE else Get(ended, StaleSessionRejected)
    ensures failure.None? <==> Refused(world.cli(|log|)) && !config.staleWritten
    ensures Refused(world.cli(|log|)) && config.staleWritten ==> failure == Some(REJECTED)
  {
    hide Holds, Contains;
    evidence, failure := ended, None;
    HoldsOn(log, TakeSnapshot(sessionId), world, Some(sessionId));
    var answer := world.cli(|log|);
    calls := log + [TakeSnapshot(sessionId)];
    if answer.Gives? {
      failure := Some(REJECTED);
      return;
    }
    var kind := if answer.raised.EvalError? then RejectionKind(answer.raised.message) else None;
    if kind.None? {
      failure := Some(answer.raised);
      return;
    }
    evidence := evidence[StaleSessionRejected := TRUE][StaleSessionRejectionKind := Str(kind.value)];
    if config.staleWritten {
      failure := Some(REJECTED);
    }
  }

  /** The body under `try`. */
  method LifecycleBody(config: Config, world: World, start: Dict)
    returns (evidence: Dict, calls: seq<Call>, sessionId: Option<string>, portalEnded: bool, failure: Option<Raised>)
    requires Get(start, EndedStatus) == Null && Get(start, StaleSessionRejected) == FALSE
    requires Get(start, SocketIdentity) == world.socket
    ensures Holds(calls, world, sessionId) && (SawPortalClose(calls, world) <==> portalEnded)
    ensures Kept(evidence, start)
    ensures failure.None? <==>
            GoodBegin(config, world) && exists p :: 0 <= p < config.polls && GoodEnd(config, world, p)
    ensures failure.None? ==>
      && portalEnded && EndedWell(evidence)
      && Get(evidence, InitialFrameCaptured) == TRUE && Get(evidence, StaleSessionRejected) == TRUE
    ensures failure == Some(Crash) ==> Get(evidence, StaleSessionRejected) == FALSE
  {
    hide Holds, SawPortalClose, HasOpen, ClosesAt, Refused, GoodBegin, EndedWell, Get;
    portalEnded := false;
    evidence, calls, sessionId, failure := BeginLifecycle(config, world, start);
    if failure.Some? {
      return;
    }
    evidence, calls, portalEnded, failure := PollUntilClosed(config, world, evidence, sessionId.value, calls);
    if failure.Some? {
      return;
    }
    ghost var p := |calls| - 4;
    forall q | 0 <= q < config.polls && GoodEnd(config, world, q) ensures q == p {
      OneClosure(world, p, q);
    }
    SawNext(calls, TakeSnapshot(sessionId.value), world);
    EndedKept(evidence);
    evidence, calls, failure := ProbeStaleSession(config, world, evidence, sessionId.value, calls);
    EndedKept(evidence);
    assert GoodEnd(config, world, p) <==> failure.None?;
  }

  lemma EndedKept(evidence: Dict)
    ensures EndedWell(evidence) <==>
            && Get(evidence, EndedStatus).Obj?
            && Get(Get(evidence, EndedStatus).fields, LastEndReason) == Str("portal_closed")
  {
  }

  // ---------- The whole run ----------

  /** The clean-up under `finally`. */
  method CloseUnlessEnded(sessionId: Option<string>, portalEnded: bool, world: World, body: Dict, log: seq<Call>)
    returns (evidence: Dict, calls: seq<Call>, noted: Option<Json>, escaped: Option<Raised>)
    requires Holds(log, world, sessionId) && (SawPortalClose(log, world) <==> portalEnded)
    requires Get(body, CleanupCloseCalled) == FALSE
    ensures ClosedOnce(calls, world) && (SawPortalClose(calls, world) <==> portalEnded)
    ensures forall f: Field :: !f.CleanupCloseCalled? ==> Get(evidence, f) == Get(body, f)
    ensures noted.Some? || escaped.Some? ==> !portalEnded
    ensures portalEnded ==> Get(evidence, CleanupCloseCalled) == FALSE
    ensures Get(evidence, CleanupCloseCalled) == TRUE <==> Closes(calls) != []
    ensures Get(evidence, CleanupCloseCalled) == FALSE <==> Closes(calls) == []
  {
    hide Holds, Settled, SawPortalClose, HasOpen, Closes;
    evidence, calls, noted, escaped := body, log, None, None;
    HoldsMeansOpen(log, world, sessionId);
    SettledByClose(log, world, sessionId);
    if sessionId.None? || portalEnded {
      return;
    }
    evidence := evidence[CleanupCloseCalled := TRUE];
    ClosesNext(log, CloseSession(sessionId.value));
    SawNext(log, CloseSession(sessionId.value), world);
    var answer := world.cli(|log|);
    calls := log + [CloseSession(sessionId.value)];
    if answer.Raises? {
      if answer.raised.EvalError? {
        noted := Some(Str(answer.raised.message));
      } else {
        escaped := Some(answer.raised);
      }
    }
  }

  /** The verdict, written over the evidence. */
  function Concluded(body: Dict, errors: seq<Json>, endedMs: int): Dict {
    var complete := LifecycleAcceptanceComplete(body);
    body[Errors := Arr(errors)][AcceptanceComplete := Bool(complete)]
        [Status := Str(if complete && errors == [] then "passed" else "failed")][EndedUnixMs := Int(endedMs)]
  }

  /** The acceptance of the evidence does not depend on the fields written last. */
  lemma ConcludedSays(body: Dict, errors: seq<Json>, endedMs: int)
    ensures var evidence := Concluded(body, errors, endedMs);
      && (Get(evidence, Status) == Str("passed") <==>
         LifecycleAcceptanceComplete(evidence) && Get(evidence, Errors) == Arr([]))
      && (Get(evidence, Status) == Str("passed") ==> ValidLifecycle(evidence) && Get(body, EndedStatus) != Null)
      && Get(evidence, Status) in {Str("passed"), Str("failed")}
      && Get(evidence, CleanupCloseCalled) == Get(body, CleanupCloseCalled)
      && SameHead(evidence, body) && Get(evidence, EndedUnixMs) == Int(endedMs)
      && (Get(evidence, Status) == Str("passed") ==> Get(body, CleanupCloseCalled) == FALSE)
  {
  }

  method RunLifecycleEval(config: Config, world: World)
    returns (outcome: Answer<Dict>, stored: Option<Dict>, calls: seq<Call>)
    ensures ClosedOnce(calls, world)
    ensures outcome.Gives? ==> stored == Some(outcome.value)
    ensures stored.Some? ==>
      && Get(stored.value, Status) in {Str("passed"), Str("failed")}
      && (Get(stored.value, CleanupCloseCalled) == TRUE <==> Closes(calls) != [])
      && (Get(stored.value, Status) == Str("passed") <==>
            LifecycleAcceptanceComplete(stored.value) && Get(stored.value, Errors) == Arr([]))
    ensures (stored.Some? && Get(stored.value, Status) == Str("passed")) <==> GoodRun(config, world)
    ensures stored.Some? && Get(stored.value, Status) == Str("passed") ==>
      && world.workspace.Gives? && Get(stored.value, Workspace) == world.workspace.value
      && Get(stored.value, StartedUnixMs) == Int(world.startedMs)
      && Get(stored.value, EndedUnixMs) == Int(world.endedMs)
      && Records(SPECS[3], stored.value)
      && SawPortalClose(calls, world)
      && Closes(calls) == []
  {
    hide Holds, Settled, SawPortalClose, HasOpen, Closes, ClosedOnce, ValidLifecycle, LifecycleAcceptanceComplete,
         StartEvidence, Concluded, Get, SPECS, GoodBegin, GoodEnd, EndedWell;
    LifecycleSpec();
    stored, calls := None, [];
    HoldsAtStart(world);
    SawNothing(world);
    SettledAtStart(world);
    if world.workspace.Raises? {
      return Raises(world.workspace.raised), stored, calls;
    }
    if world.targetHash.Raises? {
      return Raises(world.targetHash.raised), stored, calls;
    }
    var start := StartEvidence(world, world.workspace.value, world.targetHash.value);
    StartsOpen(world, world.workspace.value, world.targetHash.value);
    var evidence, sessionId, portalEnded, failure;
    evidence, calls, sessionId, portalEnded, failure := LifecycleBody(config, world, start);
    var errors: seq<Json> := [];
    if failure.Some? && failure.value != Crash {
      errors := [Str(if failure.value.EvalError? then failure.value.message else "")];
    }
    var noted, escaped;
    EndedKept(evidence);
    evidence, calls, noted, escaped := CloseUnlessEnded(sessionId, portalEnded, world, evidence, calls);
    if escaped.Some? {
      return Raises(escaped.value), stored, calls;
    }
    if noted.Some? {
      errors := errors + [noted.value];
    }
    EndedKept(evidence);
    PassesExactly(evidence, errors, world.endedMs);
    ConcludedSays(evidence, errors, world.endedMs);
    evidence := Concluded(evidence, errors, world.endedMs);
    stored := Some(evidence);
    outcome := if failure == Some(Crash) then Raises(Crash) else Gives(evidence);
  }

  lemma PassesExactly(body: Dict, errors: seq<Json>, endedMs: int)
    requires Get(body, ExplicitFocusCallCount) == Int(0) && Get(body, RawInputCallCount) == Int(0)
    ensures Get(Concluded(body, errors, endedMs), Status) == Str("passed") <==>
      && errors == [] && EndedWell(body)
      && Get(body, InitialFrameCaptured) == TRUE && Get(body, StaleSessionRejected) == TRUE
      && Get(body, CleanupCloseCalled) == FALSE
  {
  }

  lemma SettledAtStart(world: World)
    ensures ClosedOnce([], world)
  {
  }

  lemma StartsOpen(world: World, workspace: Json, targetHash: string)
    ensures Get(StartEvidence(world, workspace, targetHash), EndedStatus) == Null
    ensures Get(StartEvidence(world, workspace, targetHash), CleanupCloseCalled) == FALSE
    ensures Get(StartEvidence(world, workspace, targetHash), Type) == Str("seatgeist_capture_lifecycle_eval")
    ensures Get(StartEvidence(world, workspace, targetHash), Version) == Int(1)
    ensures Get(StartEvidence(world, workspace, targetHash), SocketIdentity) == world.socket
    ensures Get(StartEvidence(world, workspace, targetHash), StaleSessionRejected) == FALSE
    ensures Get(StartEvidence(world, workspace, targetHash), ExplicitFocusCallCount) == Int(0)
    ensures Get(StartEvidence(world, workspace, targetHash), RawInputCallCount) == Int(0)
    ensures Get(StartEvidence(world, workspace, targetHash), Workspace) == workspace
    ensures Get(StartEvidence(world, workspace, targetHash), StartedUnixMs) == Int(world.startedMs)
  {
  }

  lemma LifecycleSpec()
    ensures |SPECS| > 3
            && SPECS[3] == ArtifactSpec("capture_revocation", "seatgeist_capture_lifecycle_eval", 1, Lifecycle)
  {
  }

  lemma HoldsMeansOpen(calls: seq<Call>, world: World, sessionId: Option<string>)
    requires Holds(calls, world, sessionId)
    ensures Closes(calls) == []
  {
  }
}
