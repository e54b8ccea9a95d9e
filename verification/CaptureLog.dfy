/**
 The CLI calls of an eval run and what the world answers to them. Every run opens at most one
 capture session; `Settled` says that it closes exactly what it opened.
 */
module CaptureLog {
  import opened Outcome
  import opened EvalJson
  import opened CaptureChecks

  datatype Call =
    | ListMonitors
    | QueryStatus
    | OpenWindow(windowId: string)
    | TakeSnapshot(sessionId: string)
    | AwaitFrame(sessionId: string, afterRevision: string)
    | CloseSession(sessionId: string)

  /** The answer to the n-th CLI call and to the n-th prompt, the file the n-th call's answer
      names, and the rest of what a run reads. */
  datatype World = World(
    cli: nat -> Answer<Dict>,
    prompt: nat -> Answer<string>,
    file: nat -> ArtifactFile,
    workspace: Answer<Json>,
    socket: Json,
    targetHash: Answer<string>,
    startedMs: int,
    endedMs: int)

  /** The answer reports `id` as an active session: what a run has to close. */
  predicate ReportsActive(answer: Answer<Dict>, id: string) {
    && answer.Gives?
    && Get(answer.value, Type) == Str(STATUS_TYPE)
    && Get(answer.value, Data).Obj?
    && Get(Get(answer.value, Data).fields, Active) == TRUE
    && Get(Get(answer.value, Data).fields, SessionId) == Str(id)
    && id != ""
  }

  /** The run asked for a capture, and the answer reports `id` as an active session. */
  predicate Opened(calls: seq<Call>, world: World, id: string) {
    exists i :: 0 <= i < |calls| && calls[i].OpenWindow? && ReportsActive(world.cli(i), id)
  }

  /** The sessions closed, in order. */
  function Closes(calls: seq<Call>): seq<string>
    decreases |calls|
  {
    if calls == [] then []
    else
      var call := calls[|calls| - 1];
      Closes(calls[..|calls| - 1]) + if call.CloseSession? then [call.sessionId] else []
  }

  /** Nothing is closed yet, and `sessionId` is the session opened. */
  ghost predicate Holds(calls: seq<Call>, world: World, sessionId: Option<string>) {
    && Closes(calls) == []
    && forall id :: Opened(calls, world, id) <==> sessionId == Some(id)
  }

  /** The one session opened is closed, once; where none was opened none is closed. */
  ghost predicate Settled(calls: seq<Call>, world: World) {
    && (forall id :: Opened(calls, world, id) ==> Closes(calls) == [id])
    && (Closes(calls) == [] || exists id :: Opened(calls, world, id))
  }

  function ActiveId(answer: Answer<Dict>): (id: Option<string>)
    ensures forall other :: ReportsActive(answer, other) <==> id == Some(other)
  {
    if answer.Gives? && SessionIdForCleanup(answer.value).Ok? then SessionIdForCleanup(answer.value).value else None
  }

  lemma OpenedByNext(calls: seq<Call>, call: Call, world: World, id: string)
    ensures Opened(calls + [call], world, id) <==>
            Opened(calls, world, id) || (call.OpenWindow? && ReportsActive(world.cli(|calls|), id))
  {
    hide ReportsActive;
    var all := calls + [call];
    if Opened(calls, world, id) {
      var i :| 0 <= i < |calls| && calls[i].OpenWindow? && ReportsActive(world.cli(i), id);
      assert all[i] == calls[i];
    }
    if call.OpenWindow? && ReportsActive(world.cli(|calls|), id) {
      assert all[|calls|] == call;
    }
  }

  lemma ClosesNext(calls: seq<Call>, call: Call)
    ensures Closes(calls + [call]) == Closes(calls) + if call.CloseSession? then [call.sessionId] else []
  {
    assert (calls + [call])[..|calls|] == calls;
  }

  lemma HoldsAtStart(world: World)
    ensures Holds([], world, None)
  {
  }

  lemma HoldsOn(calls: seq<Call>, call: Call, world: World, sessionId: Option<string>)
    requires Holds(calls, world, sessionId) && !call.OpenWindow? && !call.CloseSession?
    ensures Holds(calls + [call], world, sessionId)
  {
    hide Opened, Closes;
    ClosesNext(calls, call);
    forall id ensures Opened(calls + [call], world, id) <==> Opened(calls, world, id) {
      OpenedByNext(calls, call, world, id);
    }
  }

  lemma HoldsOpened(calls: seq<Call>, windowId: string, world: World)
    requires Holds(calls, world, None)
    ensures Holds(calls + [OpenWindow(windowId)], world, ActiveId(world.cli(|calls|)))
  {
    hide Opened, Closes;
    var call := OpenWindow(windowId);
    ClosesNext(calls, call);
    forall id ensures Opened(calls + [call], world, id) <==> ReportsActive(world.cli(|calls|), id) {
      OpenedByNext(calls, call, world, id);
    }
  }

  lemma SettledByClose(calls: seq<Call>, world: World, sessionId: Option<string>)
    requires Holds(calls, world, sessionId)
    ensures sessionId.Some? ==> Settled(calls + [CloseSession(sessionId.value)], world)
    ensures sessionId.None? ==> Settled(calls, world)
  {
    hide Opened, Closes;
    if sessionId.Some? {
      var call := CloseSession(sessionId.value);
      ClosesNext(calls, call);
      assert Opened(calls, world, sessionId.value);
      forall id ensures Opened(calls + [call], world, id) <==> Opened(calls, world, id) {
        OpenedByNext(calls, call, world, id);
      }
    }
  }

  // ---------- Steps the runs share ----------

  /** The status shows neither an active session nor one being opened. */
  predicate SawNoneActive(answer: Answer<Dict>) {
    answer.Gives? && RequireNoActiveCapture(answer.value).None?
  }

  method CheckNoneActive(world: World, log: seq<Call>) returns (calls: seq<Call>, failure: Option<Raised>)
    requires Holds(log, world, None)
    ensures calls == log + [QueryStatus] && Holds(calls, world, None)
    ensures failure.None? <==> SawNoneActive(world.cli(|log|))
    ensures failure.Some? ==>
      failure.value == if world.cli(|log|).Raises? then world.cli(|log|).raised else REJECTED
  {
    hide Holds;
    calls := log + [QueryStatus];
    HoldsOn(log, QueryStatus, world, None);
    var answer := world.cli(|log|);
    failure := match answer { case Raises(e) => Some(e) case Gives(response) => RequireNoActiveCapture(response) };
  }

  predicate OpensSoundly(answer: Answer<Dict>, windowId: string) {
    answer.Gives? && ValidateOpenSession(answer.value, windowId).Ok?
  }

  /** The restore reference an answer to an open carries. */
  function ReferenceIn(answer: Answer<Dict>): Json {
    if answer.Gives? && StatusData(answer.value).Ok? then
      Get(StatusData(answer.value).value, RestoreTokenReference)
    else
      Null
  }

  /** What the i-th answer is worth as a frame of the session. */
  function FrameAt(world: World, i: nat, sessionId: string, after: Option<string>, maxEdge: int): Result<Dict, Raised> {
    match world.cli(i)
    case Raises(e) => Err(e)
    case Gives(response) => FrameOf(response, after.Some?, sessionId, world.file(i), maxEdge, after)
  }

  /** The answer to a close shows that the session is closed. */
  predicate ClosedBy(answer: Answer<Dict>) {
    answer.Gives? && StatusData(answer.value).Ok? && Get(StatusData(answer.value).value, Active) == FALSE
  }

  /** Asks for a capture of the window. `answered` says that an answer came at all, `sessionId` is
      the session to clean up, and `session` what validation makes of the answer. */
  method OpenCapture(windowId: string, world: World, log: seq<Call>)
    returns (calls: seq<Call>, answered: bool, sessionId: Option<string>, session: Result<Dict, Raised>)
    requires Holds(log, world, None)
    ensures calls == log + [OpenWindow(windowId)] && Holds(calls, world, sessionId)
    ensures sessionId == ActiveId(world.cli(|log|))
    ensures session.Ok? <==> OpensSoundly(world.cli(|log|), windowId)
    ensures session.Err? ==>
      session.error == if world.cli(|log|).Raises? then world.cli(|log|).raised else REJECTED
    ensures session.Ok? ==>
            answered && sessionId.Some? && Get(session.value, RestoreTokenReference) == ReferenceIn(world.cli(|log|))
  {
    hide Holds, OpenAsRequested;
    calls := log + [OpenWindow(windowId)];
    HoldsOpened(log, windowId, world);
    sessionId := None;
    var answer := world.cli(|log|);
    answered := answer.Gives?;
    if answer.Raises? {
      session := Err(answer.raised);
      return;
    }
    var cleanup := SessionIdForCleanup(answer.value);
    if cleanup.Err? {
      session := Err(cleanup.error);
      return;
    }
    sessionId := cleanup.value;
    session := ValidateOpenSession(answer.value, windowId);
    if session.Ok? {
      var validated := session.value[SessionId];
      if sessionId.None? || Str(sessionId.value) != validated {
        session := Err(REJECTED);
        return;
      }
      session := Ok(session.value - {SessionId});
    }
  }

  /** A frame of the session: a snapshot, or the wait for one past a revision. */
  method CaptureFrame(sessionId: string, after: Option<string>, maxEdge: int, world: World, log: seq<Call>)
    returns (calls: seq<Call>, frame: Result<Dict, Raised>)
    requires Holds(log, world, Some(sessionId))
    ensures Holds(calls, world, Some(sessionId))
    ensures calls == log + [if after.Some? then AwaitFrame(sessionId, after.value) else TakeSnapshot(sessionId)]
    ensures frame == FrameAt(world, |log|, sessionId, after, maxEdge)
    ensures frame.Ok? ==>
      && NonEmptyStr(Get(frame.value, Revision))
      && Get(frame.value, FreshFrame).Bool?
      && (Get(frame.value, FreshFrame) == TRUE && after.Some? ==> Get(frame.value, Revision) != Str(after.value))
      && (after.None? ==> Get(frame.value, FreshFrame) == TRUE)
  {
    hide Holds;
    var call := if after.Some? then AwaitFrame(sessionId, after.value) else TakeSnapshot(sessionId);
    calls := log + [call];
    HoldsOn(log, call, world, Some(sessionId));
    var answer := world.cli(|log|);
    if answer.Raises? {
      frame := Err(answer.raised);
      return;
    }
    frame := ValidateFrame(answer.value, after.Some?, sessionId, world.file(|log|), maxEdge, after);
    if frame.Ok? {
      FrameSays(answer.value, after.Some?, sessionId, world.file(|log|), maxEdge, after);
    }
  }

  /** Closes the session, if there is one: whether it is closed, an error to note, and an
      exception that is not caught. */
  method CloseOpened(sessionId: Option<string>, world: World, log: seq<Call>)
    returns (calls: seq<Call>, closed: bool, noted: Option<Json>, escaped: Option<Raised>)
    requires Holds(log, world, sessionId)
    ensures Settled(calls, world)
    ensures closed <==> sessionId.Some? && ClosedBy(world.cli(|log|))
    ensures sessionId.Some? && noted.None? && escaped.None? ==> closed
    ensures sessionId.None? ==> noted.None? && escaped.None?
    ensures closed ==> noted.None? && escaped.None?
  {
    hide Holds, Settled;
    SettledByClose(log, world, sessionId);
    calls, closed, noted, escaped := log, false, None, None;
    if sessionId.None? {
      return;
    }
    calls := log + [CloseSession(sessionId.value)];
    var answer := world.cli(|log|);
    if answer.Raises? {
      if answer.raised.EvalError? {
        noted := Some(Str("capture close failed: " + answer.raised.message));
      } else {
        escaped := Some(answer.raised);
      }
      return;
    }
    var data := StatusData(answer.value);
    if data.Err? {
      noted := Some(Str("capture close failed: "));
      return;
    }
    closed := Get(data.value, Active) == FALSE;
    if !closed {
      noted := Some(Str("capture close left the session active"));
    }
  }
}
