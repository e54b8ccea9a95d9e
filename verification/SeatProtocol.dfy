/**
 The agent-seat plugin as a state machine on values: polling for actions, executing them,
 completing each, and losing or gaining the daemon. Proves what every run keeps.
 */
module SeatProtocol {
  import opened Outcome
  import opened SeatEvents
  import opened SeatActions
  import opened SeatSafety
  import opened LanePool

  datatype Message =
    | RegisterBackend
    | TakePending
    | Complete(id: string, ok: bool, error: Option<SeatError>)

  datatype Reply =
    | ReplyError
    | ReplyEmpty
    | ReplyMalformed
    | ReplyAction(action: Action)

  /** What the compositor answers while a reply is handled; a text that is no UUID reads as 0. */
  datatype World = World(uuidOf: string -> nat, windows: map<nat, Window>, now: int, init: InitOutcome)

  /** `pending` counts the take-action calls without a reply, `rearms` the zero-delay timers that
      have not fired; `sent` is every message sent to the daemon. */
  datatype State = State(
    serviceAvailable: bool,
    pollInFlight: bool,
    timerRunning: bool,
    rearms: nat,
    pending: nat,
    sent: seq<Message>,
    pool: Pool
  )

  datatype Step =
    | TimerTick
    | RearmFires
    | ReplyArrives(reply: Reply, world: World)
    | OwnerChanges(hasOwner: bool)
    | WindowDestroyed(window: WindowId)

  // ---------- What each step computes ----------

  function Started(registered: bool, hasKeymap: bool): State {
    var sent := if registered then [RegisterBackend] else [];
    State(registered, false, registered, 0, 0, sent, Pool(map[], 0, hasKeymap, []))
  }

  function Poll(s: State): State {
    if !s.serviceAvailable || s.pollInFlight then s
    else s.(pollInFlight := true, pending := s.pending + 1, sent := s.sent + [TakePending])
  }

  function Resolve(world: World, windowId: string): Result<Window, SeatError> {
    var uuid := world.uuidOf(windowId);
    if uuid == 0 then Err(InvalidWindowId)
    else if uuid !in world.windows then Err(WindowGone)
    else if world.windows[uuid].isInternal || !world.windows[uuid].hasSurface then Err(NotNativeWayland)
    else Ok(world.windows[uuid])
  }

  /** The action on its lane: the pool afterwards, and the error reported, if any. */
  ghost function Act(p: Pool, a: Action, world: World): (Pool, Option<SeatError>) {
    match Resolve(world, ToString(Value(a, "window_id")))
    case Err(e) => (p, Some(e))
    case Ok(w) =>
      var laneId := ToString(Value(a, "lane_id"));
      var (q, error) := LaneFor(p, laneId, world.uuidOf(laneId), world.now, world.init);
      if error.Some? || laneId !in q.lanes then (q, error)
      else
        var attempt := Perform(q.lanes[laneId], a, w);
        (q.(lanes := q.lanes[laneId := attempt.lane]), attempt.error)
  }

  ghost function Execute(s: State, a: Action, world: World): State {
    var id := ToString(Value(a, "id"));
    if id == "" then s
    else
      var (q, error) := Act(s.pool, a, world);
      s.(pool := q, sent := s.sent + [Complete(id, error.None?, error)])
  }

  ghost function HandleReply(s: State, reply: Reply, world: World): State
    requires s.pending > 0
  {
    var t := s.(pollInFlight := false, pending := s.pending - 1);
    match reply
    case ReplyError => t
    case ReplyAction(a) => var u := Execute(t, a, world); u.(rearms := u.rearms + 1)
    case _ => t.(rearms := t.rearms + 1)
  }

  function ClearAll(p: Pool): Pool {
    p.(lanes := map k | k in p.lanes :: Clear(p.lanes[k]))
  }

  function ChangeOwner(s: State, hasOwner: bool): State {
    var t := s.(serviceAvailable := hasOwner, timerRunning := hasOwner);
    if hasOwner then t.(sent := t.sent + [RegisterBackend]) else t.(pool := ClearAll(t.pool))
  }

  /** A destroyed window is forgotten wherever a lane was bound to it. */
  function Forget(p: Pool, w: WindowId): Pool {
    p.(lanes := map k | k in p.lanes ::
      if p.lanes[k].target == Some(w) then p.lanes[k].(target := None) else p.lanes[k])
  }

  predicate Enabled(s: State, step: Step) {
    match step
    case TimerTick => s.timerRunning
    case RearmFires => s.rearms > 0
    case ReplyArrives(_, _) => s.pending > 0
    case OwnerChanges(_) => true
    case WindowDestroyed(_) => true
  }

  ghost function Next(s: State, step: Step): State
    requires Enabled(s, step)
  {
    match step
    case TimerTick => Poll(s)
    case RearmFires => Poll(s.(rearms := s.rearms - 1))
    case ReplyArrives(reply, world) => HandleReply(s, reply, world)
    case OwnerChanges(hasOwner) => ChangeOwner(s, hasOwner)
    case WindowDestroyed(w) => s.(pool := Forget(s.pool, w))
  }

  /** `steps` is a run from `s` to `t`. */
  ghost predicate Reaches(s: State, steps: seq<Step>, t: State) {
    if steps == [] then s == t
    else
      var init, last := steps[..|steps| - 1], steps[|steps| - 1];
      exists u :: Reaches(s, init, u) && Enabled(u, last) && t == Next(u, last)
  }

  /** The state after `steps`; a step that is not enabled changes nothing, and no run has one. */
  ghost function After(s: State, steps: seq<Step>): State {
    if steps == [] then s
    else
      var u, last := After(s, steps[..|steps| - 1]), steps[|steps| - 1];
      if Enabled(u, last) then Next(u, last) else u
  }

  // ---------- One step ----------

  /** The flag is set exactly while one call is outstanding. */
  predicate OneCall(s: State) {
    s.pending == if s.pollInFlight then 1 else 0
  }

  function Takes(sent: seq<Message>): nat {
    if sent == [] then 0 else Takes(sent[..|sent| - 1]) + if sent[|sent| - 1].TakePending? then 1 else 0
  }

  function CompletedIds(sent: seq<Message>): seq<string> {
    if sent == [] then []
    else CompletedIds(sent[..|sent| - 1]) + match sent[|sent| - 1] { case Complete(id, _, _) => [id] case _ => [] }
  }

  function Completions(sent: seq<Message>): seq<Message> {
    if sent == [] then [] else Completions(sent[..|sent| - 1]) + Completion(sent[|sent| - 1])
  }

  function Completion(m: Message): seq<Message> {
    if m.Complete? then [m] else []
  }

  /** The report each received action is due: its id, with the outcome of acting on the pool as
      it was when the action arrived. */
  ghost function Reports(s: State, steps: seq<Step>): seq<Message> {
    if steps == [] then []
    else
      var init, last := steps[..|steps| - 1], steps[|steps| - 1];
      Reports(s, init) + Report(After(s, init).pool, last)
  }

  ghost function Report(p: Pool, step: Step): seq<Message> {
    if ReceivedId(step) == [] then []
    else
      var error := Act(p, step.reply.action, step.world).1;
      [Complete(ReceivedId(step)[0], error.None?, error)]
  }

  /** The ids of the actions a run received, in order, without the empty ones. */
  function ReceivedIds(steps: seq<Step>): seq<string> {
    if steps == [] then [] else ReceivedIds(steps[..|steps| - 1]) + ReceivedId(steps[|steps| - 1])
  }

  function ReceivedId(step: Step): seq<string> {
    if step.ReplyArrives? && step.reply.ReplyAction? && ToString(Value(step.reply.action, "id")) != "" then
      [ToString(Value(step.reply.action, "id"))]
    else
      []
  }

  function Replies(steps: seq<Step>): nat {
    if steps == [] then 0 else Replies(steps[..|steps| - 1]) + if steps[|steps| - 1].ReplyArrives? then 1 else 0
  }

  lemma SentOne(sent: seq<Message>, m: Message)
    ensures Takes(sent + [m]) == Takes(sent) + if m.TakePending? then 1 else 0
    ensures CompletedIds(sent + [m]) == CompletedIds(sent) + match m { case Complete(id, _, _) => [id] case _ => [] }
    ensures Completions(sent + [m]) == Completions(sent) + Completion(m)
  {
    assert (sent + [m])[..|sent|] == sent;
  }

  lemma StepProtocol(s: State, step: Step)
    requires OneCall(s) && Enabled(s, step)
    ensures var t := Next(s, step);
      && OneCall(t)
      && Takes(t.sent) - t.pending == Takes(s.sent) - s.pending + (if step.ReplyArrives? then 1 else 0)
      && CompletedIds(t.sent) == CompletedIds(s.sent) + ReceivedId(step)
      && Completions(t.sent) == Completions(s.sent) + Report(s.pool, step)
  {
    hide Takes, CompletedIds, Completions, Act, Forget, ClearAll;
    SentOne(s.sent, TakePending);
    SentOne(s.sent, RegisterBackend);
    if step.ReplyArrives? && step.reply.ReplyAction? {
      var a := step.reply.action;
      var error := Act(s.pool, a, step.world).1;
      SentOne(s.sent, Complete(ToString(Value(a, "id")), error.None?, error));
    }
  }

  /** The steps of a run determine where it ends. */
  lemma {:induction false} OneEnd(s: State, steps: seq<Step>, t: State)
    requires Reaches(s, steps, t)
    ensures t == After(s, steps)
    decreases |steps|
  {
    hide Next, Enabled;
    if steps != [] {
      var init, last := steps[..|steps| - 1], steps[|steps| - 1];
      var u :| Reaches(s, init, u) && Enabled(u, last) && t == Next(u, last);
      OneEnd(s, init, u);
    }
  }

  // ---------- What is sent, from the steps alone ----------

  /** The service is there: what the last owner change said, or the start. */
  function Service(registered: bool, steps: seq<Step>): bool {
    if steps == [] then registered
    else if steps[|steps| - 1].OwnerChanges? then steps[|steps| - 1].hasOwner
    else Service(registered, steps[..|steps| - 1])
  }

  /** The calls made: one at every tick and re-arm that finds the service there and every earlier
      call answered. */
  function Calls(registered: bool, steps: seq<Step>): nat {
    if steps == [] then 0
    else
      var init, last := steps[..|steps| - 1], steps[|steps| - 1];
      Calls(registered, init)
      + if (last.TimerTick? || last.RearmFires?) && Service(registered, init)
           && Calls(registered, init) == Replies(init)
        then 1 else 0
  }

  /** The zero-delay timers started and not fired: one for every reply that is no error. */
  function Rearms(steps: seq<Step>): int {
    if steps == [] then 0
    else
      var last := steps[|steps| - 1];
      Rearms(steps[..|steps| - 1])
      + (if last.ReplyArrives? && !last.reply.ReplyError? then 1 else 0) - (if last.RearmFires? then 1 else 0)
  }

  /** Everything sent over a run: a registration at the start and whenever the service appears, a
      call as `Calls` counts them, and the report each received action is due. */
  ghost function Log(registered: bool, hasKeymap: bool, steps: seq<Step>): seq<Message> {
    if steps == [] then if registered then [RegisterBackend] else []
    else
      var init, last := steps[..|steps| - 1], steps[|steps| - 1];
      Log(registered, hasKeymap, init)
      + match last {
          case OwnerChanges(hasOwner) => if hasOwner then [RegisterBackend] else []
          case ReplyArrives(_, _) => Report(After(Started(registered, hasKeymap), init).pool, last)
          case WindowDestroyed(_) => []
          case _ => if Calls(registered, steps) > Calls(registered, init) then [TakePending] else []
        }
  }

  /** A tick or re-arm makes a call exactly if the service is there and no call is in flight. */
  lemma TickCalls(s: State, step: Step)
    requires Enabled(s, step) && (step.TimerTick? || step.RearmFires?)
    ensures var t := Next(s, step);
      if s.serviceAvailable && !s.pollInFlight then
        t.sent == s.sent + [TakePending] && t.pollInFlight && t.pending == s.pending + 1
      else t.sent == s.sent && t.pollInFlight == s.pollInFlight && t.pending == s.pending
  {
  }

  /** What a step does besides acting on a lane. */
  lemma StepBooks(s: State, step: Step)
    requires OneCall(s) && Enabled(s, step)
    ensures var t := Next(s, step);
      && t.serviceAvailable == (if step.OwnerChanges? then step.hasOwner else s.serviceAvailable)
      && t.timerRunning == (if step.OwnerChanges? then step.hasOwner else s.timerRunning)
      && t.rearms == s.rearms + (if step.ReplyArrives? && !step.reply.ReplyError? then 1 else 0)
                   - (if step.RearmFires? then 1 else 0)
      && t.sent == s.sent + match step {
           case OwnerChanges(hasOwner) => if hasOwner then [RegisterBackend] else []
           case ReplyArrives(_, _) => Report(s.pool, step)
           case WindowDestroyed(_) => []
           case _ => if s.serviceAvailable && !s.pollInFlight then [TakePending] else []
         }
      && t.pending == s.pending + (if t.sent == s.sent + [TakePending] then 1 else 0)
                    - (if step.ReplyArrives? then 1 else 0)
  {
    hide Act, Forget, ClearAll;
    assert s.sent + [] == s.sent;
    if step.ReplyArrives? { LastSent(s.sent, Report(s.pool, step)); }
    LastSent(s.sent, [RegisterBackend]);
  }

  lemma LastSent(sent: seq<Message>, more: seq<Message>)
    requires |more| <= 1 && forall m :: m in more ==> !m.TakePending?
    ensures sent + more != sent + [TakePending]
  {
    assert (sent + [TakePending])[|sent|] == TakePending;
    if more != [] { assert (sent + more)[|sent|] == more[0] && more[0] in more; }
  }

  /** Over every run: the messages sent are those of the log, a call goes out whenever one is due,
      and timers and flags follow from the steps alone. */
  lemma {:induction false} RunSends(registered: bool, hasKeymap: bool, steps: seq<Step>, t: State)
    requires Reaches(Started(registered, hasKeymap), steps, t)
    ensures OneCall(t) && t.sent == Log(registered, hasKeymap, steps)
    ensures t.pending == Calls(registered, steps) - Replies(steps) && t.rearms == Rearms(steps)
    ensures t.serviceAvailable == t.timerRunning == Service(registered, steps)
    decreases |steps|
  {
    hide Next, Enabled, Report, Log, Calls, Rearms, Service, After;
    if steps == [] {
      NothingDone(registered, hasKeymap);
    } else {
      var s := Started(registered, hasKeymap);
      var init, last := steps[..|steps| - 1], steps[|steps| - 1];
      assert steps == init + [last];
      var u :| Reaches(s, init, u) && Enabled(u, last) && t == Next(u, last);
      hide Reaches;
      RunSends(registered, hasKeymap, init, u);
      OneEnd(s, init, u);
      StepSends(registered, hasKeymap, init, last, u);
    }
  }

  lemma StepSends(registered: bool, hasKeymap: bool, init: seq<Step>, last: Step, u: State)
    requires u == After(Started(registered, hasKeymap), init) && Enabled(u, last)
    requires OneCall(u) && u.sent == Log(registered, hasKeymap, init)
    requires u.pending == Calls(registered, init) - Replies(init) && u.rearms == Rearms(init)
    requires u.serviceAvailable == u.timerRunning == Service(registered, init)
    ensures var t, steps := Next(u, last), init + [last];
      && OneCall(t) && t.sent == Log(registered, hasKeymap, steps)
      && t.pending == Calls(registered, steps) - Replies(steps) && t.rearms == Rearms(steps)
      && t.serviceAvailable == t.timerRunning == Service(registered, steps)
  {
    hide Next, Report, Log, Calls, Rearms, Service, After, Replies, Started;
    StepProtocol(u, last);
    StepBooks(u, last);
    BooksNext(registered, hasKeymap, init, last);
  }

  lemma NothingDone(registered: bool, hasKeymap: bool)
    ensures var s := Started(registered, hasKeymap);
      && OneCall(s) && s.sent == Log(registered, hasKeymap, []) && s.rearms == Rearms([])
      && s.pending == Calls(registered, []) - Replies([])
      && s.serviceAvailable == s.timerRunning == Service(registered, [])
  {
  }

  lemma BooksNext(registered: bool, hasKeymap: bool, init: seq<Step>, last: Step)
    ensures var steps := init + [last];
      var due := Service(registered, init) && Calls(registered, init) == Replies(init);
      var ticks := last.TimerTick? || last.RearmFires?;
      && Service(registered, steps) == (if last.OwnerChanges? then last.hasOwner else Service(registered, init))
      && Replies(steps) == Replies(init) + (if last.ReplyArrives? then 1 else 0)
      && Calls(registered, steps) == Calls(registered, init) + (if ticks && due then 1 else 0)
      && Rearms(steps) == Rearms(init) + (if last.ReplyArrives? && !last.reply.ReplyError? then 1 else 0)
                        - (if last.RearmFires? then 1 else 0)
      && Log(registered, hasKeymap, steps) == Log(registered, hasKeymap, init) + match last {
           case OwnerChanges(hasOwner) => if hasOwner then [RegisterBackend] else []
           case ReplyArrives(_, _) => Report(After(Started(registered, hasKeymap), init).pool, last)
           case WindowDestroyed(_) => []
           case _ => if due then [TakePending] else []
         }
  {
    hide After, Report;
    assert (init + [last])[..|init|] == init;
  }

  /** With the service gone every lane has left its window; nothing else about the lanes changes. */
  lemma ServiceGone(s: State, k: string)
    requires k in s.pool.lanes
    ensures var t := Next(s, OwnerChanges(false));
      && t.pool.lanes.Keys == s.pool.lanes.Keys && t.pool.retired == s.pool.retired
      && t.pool.lanes[k].target == None
      && t.pool.lanes[k].Seat().keyboard == None && t.pool.lanes[k].Seat().pointer == None
      && t.pool.lanes[k].(target := None, events := []) == s.pool.lanes[k].(target := None, events := [])
    ensures Next(s, OwnerChanges(true)).pool == s.pool
  {
    hide Run;
    ClearIdle(s.pool.lanes[k]);
    assert ClearAll(s.pool).lanes.Keys == s.pool.lanes.Keys;
  }

  /** A window that is destroyed is no lane's target any more, and no lane sends anything for it. */
  lemma WindowForgotten(s: State, w: WindowId, k: string)
    requires k in s.pool.lanes
    ensures var t := Next(s, WindowDestroyed(w));
      && t.pool.lanes.Keys == s.pool.lanes.Keys && t.pool.lanes[k].target != Some(w)
      && t.pool.lanes[k].(target := None) == s.pool.lanes[k].(target := None)
      && (s.pool.lanes[k].target != Some(w) ==> t.pool.lanes[k] == s.pool.lanes[k])
  {
    assert Forget(s.pool, w).lanes.Keys == s.pool.lanes.Keys;
  }

  // ---------- Lanes ----------

  predicate Quiet(l: Lane) {
    l.Seat().Idle()
  }

  /** Nothing is held on any lane, and a destroyed lane has left its window. */
  predicate AllQuiet(p: Pool) {
    && (forall k :: k in p.lanes ==> Quiet(p.lanes[k]))
    && (forall i :: 0 <= i < |p.retired| ==>
        Quiet(p.retired[i]) && p.retired[i].Seat().keyboard == None && p.retired[i].Seat().pointer == None)
  }

  lemma LaneForQuiet(p: Pool, id: string, uuid: nat, now: int, init: InitOutcome)
    requires AllQuiet(p)
    ensures AllQuiet(LaneFor(p, id, uuid, now, init).0)
  {
    hide Clear, Seat.Idle;
    if uuid != 0 && id !in p.lanes {
      MakeRoomQuiet(p);
      FreshQuiet(MakeRoom(p), now, init);
    }
  }

  lemma MakeRoomQuiet(p: Pool)
    requires AllQuiet(p)
    ensures AllQuiet(MakeRoom(p))
  {
    hide Clear, Seat.Idle, Run;
    if |p.lanes| >= MAX_AGENT_LANES {
      ClearIdle(p.lanes[Oldest(p.lanes)]);
    }
  }

  lemma FreshQuiet(p: Pool, now: int, init: InitOutcome)
    ensures Initialize(p, init).1.Ok? ==> Quiet(Initialize(p, init).1.value.(lastUsedMs := now))
  {
  }

  lemma ActQuiet(p: Pool, a: Action, world: World)
    requires AllQuiet(p) && Valid(p)
    ensures AllQuiet(Act(p, a, world).0) && Valid(Act(p, a, world).0)
  {
    hide Perform, LaneFor, DistinctSeats, Quiet;
    var resolved := Resolve(world, ToString(Value(a, "window_id")));
    if resolved.Ok? {
      var laneId := ToString(Value(a, "lane_id"));
      LaneForQuiet(p, laneId, world.uuidOf(laneId), world.now, world.init);
      LaneForValid(p, laneId, world.uuidOf(laneId), world.now, world.init);
      var q := LaneFor(p, laneId, world.uuidOf(laneId), world.now, world.init).0;
      if laneId in q.lanes {
        PerformQuiet(q.lanes[laneId], a, resolved.value);
        ReplaceValid(q, laneId, Perform(q.lanes[laneId], a, resolved.value).lane);
      }
    }
  }

  lemma PerformQuiet(l: Lane, a: Action, w: Window)
    requires Quiet(l)
    ensures Quiet(Perform(l, a, w).lane)
    ensures Perform(l, a, w).lane.seatIndex == l.seatIndex && Perform(l, a, w).lane.xkbReady == l.xkbReady
  {
    hide Perform;
    ActionClean(l, a, w);
  }

  lemma ReplaceValid(q: Pool, k: string, l: Lane)
    requires Valid(q) && k in q.lanes && l.seatIndex == q.lanes[k].seatIndex && l.xkbReady
    ensures Valid(q.(lanes := q.lanes[k := l]))
  {
    hide DistinctSeats;
    assert q.lanes[k := l].Keys == q.lanes.Keys;
    SeatsKept(q, q.(lanes := q.lanes[k := l]));
  }

  lemma ClearAllQuiet(p: Pool)
    requires AllQuiet(p) && Valid(p)
    ensures AllQuiet(ClearAll(p)) && Valid(ClearAll(p))
  {
    hide Clear, Run, Quiet, DistinctSeats;
    assert ClearAll(p).lanes.Keys == p.lanes.Keys;
    forall k | k in p.lanes
      ensures Quiet(Clear(p.lanes[k]))
      ensures Clear(p.lanes[k]).seatIndex == p.lanes[k].seatIndex && Clear(p.lanes[k]).xkbReady == p.lanes[k].xkbReady
    {
      ClearQuiet(p.lanes[k]);
      ClearKeeps(p.lanes[k]);
    }
    SeatsKept(p, ClearAll(p));
  }

  lemma ClearQuiet(l: Lane)
    requires Quiet(l)
    ensures Quiet(Clear(l))
  {
    hide Clear, Run;
    ClearIdle(l);
  }

  lemma ForgetQuiet(p: Pool, w: WindowId)
    requires AllQuiet(p) && Valid(p)
    ensures AllQuiet(Forget(p, w)) && Valid(Forget(p, w))
  {
    hide Run, Quiet, DistinctSeats;
    assert Forget(p, w).lanes.Keys == p.lanes.Keys;
    forall k | k in p.lanes ensures Quiet(Forget(p, w).lanes[k]) {
      ForgetTarget(p.lanes[k]);
    }
    SeatsKept(p, Forget(p, w));
  }

  lemma ForgetTarget(l: Lane)
    requires Quiet(l)
    ensures Quiet(l.(target := None))
  {
    hide Run;
  }

  lemma StepLanes(s: State, step: Step)
    requires Enabled(s, step) && AllQuiet(s.pool) && Valid(s.pool)
    ensures AllQuiet(Next(s, step).pool) && Valid(Next(s, step).pool)
  {
    hide AllQuiet, Valid, Act, ClearAll, Forget;
    match step {
      case TimerTick =>
      case RearmFires =>
      case ReplyArrives(reply, world) =>
        if reply.ReplyAction? { ActQuiet(s.pool, reply.action, world); }
      case OwnerChanges(_) => ClearAllQuiet(s.pool);
      case WindowDestroyed(w) => ForgetQuiet(s.pool, w);
    }
  }

  // ---------- Every run ----------

  /** Over every interleaving of ticks, re-arms, replies and owner changes: at most one call is
      outstanding, exactly while the flag is set; every received action with an id has one
      completion, in order, with the outcome of that action on the pool it met; and no lane, live
      or destroyed, holds a key or a button. */
  lemma {:induction false} EveryRun(registered: bool, hasKeymap: bool, steps: seq<Step>, t: State)
    requires Reaches(Started(registered, hasKeymap), steps, t)
    ensures t.pending <= 1 && (t.pollInFlight <==> t.pending == 1)
    ensures Takes(t.sent) == Replies(steps) + t.pending
    ensures CompletedIds(t.sent) == ReceivedIds(steps)
    ensures Completions(t.sent) == Reports(Started(registered, hasKeymap), steps)
    ensures Takes(t.sent) == Calls(registered, steps) && t.sent == Log(registered, hasKeymap, steps)
    ensures AllQuiet(t.pool) && Valid(t.pool)
    decreases |steps|
  {
    hide Next, Enabled, AllQuiet, Valid, Takes, CompletedIds, Completions, Report, Calls, Log;
    RunSends(registered, hasKeymap, steps, t);
    if steps == [] {
      StartedGood(registered, hasKeymap);
    } else {
      var s := Started(registered, hasKeymap);
      var init, last := steps[..|steps| - 1], steps[|steps| - 1];
      var u :| Reaches(s, init, u) && Enabled(u, last) && t == Next(u, last);
      EveryRun(registered, hasKeymap, init, u);
      OneEnd(s, init, u);
      StepProtocol(u, last);
      StepLanes(u, last);
    }
  }

  lemma StartedGood(registered: bool, hasKeymap: bool)
    ensures var s := Started(registered, hasKeymap);
      && OneCall(s) && Takes(s.sent) == 0 && CompletedIds(s.sent) == [] && Completions(s.sent) == []
      && AllQuiet(s.pool) && Valid(s.pool)
  {
    SentOne([], RegisterBackend);
    assert [] + [RegisterBackend] == [RegisterBackend];
  }

  /** An action is carried out on a native window that is there, on a lane that can be had; it is
      refused for the first of these that fails, and then nothing is done after it. */
  lemma ActSays(p: Pool, a: Action, world: World)
    ensures var uuid, laneId := world.uuidOf(ToString(Value(a, "window_id"))), ToString(Value(a, "lane_id"));
      var (q, error) := Act(p, a, world);
      if uuid == 0 then (q, error) == (p, Some(InvalidWindowId))
      else if uuid !in world.windows then (q, error) == (p, Some(WindowGone))
      else if world.windows[uuid].hasSurface && !world.windows[uuid].isInternal then
        var (l, refused) := LaneFor(p, laneId, world.uuidOf(laneId), world.now, world.init);
        if refused.Some? then (q, error) == (l, refused)
        else
          && laneId in l.lanes && q.lanes.Keys == l.lanes.Keys
          && (forall k :: k in q.lanes && k != laneId ==> q.lanes[k] == l.lanes[k])
          && Perform(l.lanes[laneId], a, world.windows[uuid]) == Attempt(q.lanes[laneId], error)
      else (q, error) == (p, Some(NotNativeWayland))
  {
    hide Perform, MakeRoom;
  }

  /** The steps that can follow a run: a tick while the service is there, a re-arm that was started,
      and the reply to a call that has none. */
  lemma StepsThatFollow(registered: bool, hasKeymap: bool, steps: seq<Step>, t: State)
    requires Reaches(Started(registered, hasKeymap), steps, t)
    ensures Enabled(t, TimerTick) <==> Service(registered, steps)
    ensures Enabled(t, RearmFires) <==> Rearms(steps) >= 1
    ensures forall reply, world :: Enabled(t, ReplyArrives(reply, world)) <==> Calls(registered, steps) > Replies(steps)
  {
    hide Reaches, Log, Calls, Rearms, Service, Replies;
    RunSends(registered, hasKeymap, steps, t);
  }

  /** In one action, input goes to the requested window on the requested lane only: every other
      lane is untouched by it, and a lane may be missing only because it was evicted. */
  lemma ActionTargeted(p: Pool, a: Action, world: World, w: Window, k: string)
    requires Resolve(world, ToString(Value(a, "window_id"))) == Ok(w)
    requires k in Act(p, a, world).0.lanes
    ensures var laneId := ToString(Value(a, "lane_id"));
      var (q, error) := LaneFor(p, laneId, world.uuidOf(laneId), world.now, world.init);
      && k in q.lanes
      && (if k == laneId && error.None? then Clean(q.lanes[k], Act(p, a, world).0.lanes[k], w)
          else Act(p, a, world).0.lanes[k] == q.lanes[k])
  {
    hide Perform, LaneFor, Clean;
    var laneId := ToString(Value(a, "lane_id"));
    var (q, error) := LaneFor(p, laneId, world.uuidOf(laneId), world.now, world.init);
    if laneId in q.lanes {
      ActionClean(q.lanes[laneId], a, w);
    }
  }
}
