/**
 The agent-seat plugin as the object it is: a map of lanes updated in place, and the flags of
 its poll. Every method is proved to compute what `LanePool` and `SeatProtocol` say.
 */
module SeatPlugin {
  import opened Outcome
  import opened SeatActions
  import opened LanePool
  import opened SeatProtocol

  class Plugin {
    var serviceAvailable: bool
    var pollInFlight: bool
    var timerRunning: bool
    var rearms: nat
    var pending: nat
    var sent: seq<Message>
    var lanes: map<string, AgentLane>
    var nextSeat: nat
    const hasKeymap: bool
    ghost var retired: seq<Lane>

    /** No two lane ids share a lane. */
    ghost predicate Owned()
      reads this`lanes
    {
      forall k, j :: k in lanes && j in lanes && k != j ==> lanes[k] != lanes[j]
    }

    ghost function LaneViews(): map<string, Lane>
      reads this`lanes, lanes.Values
    {
      map k | k in lanes :: lanes[k].View()
    }

    ghost function PoolView(): Pool
      reads this`lanes, this`nextSeat, this`retired, lanes.Values
    {
      Pool(LaneViews(), nextSeat, hasKeymap, retired)
    }

    ghost function View(): State
      reads this, lanes.Values
    {
      State(serviceAvailable, pollInFlight, timerRunning, rearms, pending, sent, PoolView())
    }

    constructor (registered: bool, hasKeymap: bool)
      ensures Owned() && View() == Started(registered, hasKeymap)
    {
      serviceAvailable := registered;
      pollInFlight := false;
      timerRunning := registered;
      rearms, pending := 0, 0;
      sent := if registered then [RegisterBackend] else [];
      lanes := map[];
      nextSeat := 0;
      this.hasKeymap := hasKeymap;
      retired := [];
    }

    method RegisterWithDaemon()
      requires Owned()
      modifies this`sent
      ensures Owned()
      ensures View() == old(View()).(sent := old(sent) + if serviceAvailable then [RegisterBackend] else [])
    {
      if serviceAvailable {
        sent := sent + [RegisterBackend];
      }
    }

    method PollDaemon()
      requires Owned()
      modifies this`pollInFlight, this`pending, this`sent
      ensures Owned() && View() == Poll(old(View()))
    {
      if !serviceAvailable || pollInFlight {
        return;
      }
      pollInFlight := true;
      pending := pending + 1;
      sent := sent + [TakePending];
    }

    // ---------- Lanes ----------

    /** The minimum over the map: the earliest use, and among equals the smallest key. */
    method FindOldest() returns (oldest: string)
      requires lanes != map[]
      ensures IsOldest(LaneViews(), oldest)
    {
      var rest := lanes.Keys;
      var first :| first in lanes;
      oldest := first;
      rest := rest - {first};
      while rest != {}
        invariant rest <= lanes.Keys && oldest in lanes && oldest !in rest
        invariant forall j :: j in lanes && j !in rest && j != oldest ==> Before(LaneViews(), oldest, j)
        decreases |rest|
      {
        var k :| k in rest;
        rest := rest - {k};
        KeyTotal(oldest, k);
        if || lanes[k].lastUsedMs < lanes[oldest].lastUsedMs
           || (lanes[k].lastUsedMs == lanes[oldest].lastUsedMs && KeyLess(k, oldest)) {
          forall j | j in lanes && j !in rest && j != k ensures Before(LaneViews(), k, j) {
            if j != oldest { BeforeTransitive(LaneViews(), k, oldest, j); }
          }
          oldest := k;
        }
      }
    }

    method EvictOldest()
      requires Owned() && lanes != map[]
      modifies this`lanes, this`retired, lanes.Values
      ensures Owned() && PoolView() == Evict(old(PoolView()))
      ensures lanes.Values <= old(lanes.Values) && lanes.Keys <= old(lanes.Keys)
    {
      hide Clear, Before;
      ghost var p := PoolView();
      var k := FindOldest();
      OldestUnique(p.lanes, k, Oldest(p.lanes)) by {
        assert k in p.lanes;
      }
      ClearLaneTarget(lanes[k]);
      retired := retired + [lanes[k].View()];
      lanes := lanes - {k};
      assert LaneViews() == p.lanes - {k};
    }

    /** A lane on a fresh seat, or the step that failed. */
    method InitializeLane(init: InitOutcome) returns (r: Result<AgentLane, SeatError>)
      requires Owned()
      modifies this`nextSeat
      ensures Owned() && lanes == old(lanes) && retired == old(retired)
      ensures LaneViews() == old(LaneViews())
      ensures r.Ok? ==> fresh(r.value)
      ensures var (q, lane) := Initialize(old(PoolView()), init);
        && PoolView() == q
        && (match lane
            case Ok(l) => r.Ok? && r.value.View() == l
            case Err(e) => r == Err(e))
    {
      if !hasKeymap {
        return Err(KeymapUnavailable);
      }
      var lane := new AgentLane(nextSeat);
      nextSeat := nextSeat + 1;
      match init {
        case KeymapStringFails => return Err(KeymapStringFailed);
        case XkbStateFails => return Err(XkbStateFailed);
        case Ready =>
          lane.xkbReady := true;
          r := Ok(lane);
      }
    }

    method LaneForId(id: string, uuid: nat, now: int, init: InitOutcome) returns (r: Result<AgentLane, SeatError>)
      requires Owned()
      modifies this`lanes, this`nextSeat, this`retired, lanes.Values
      ensures Owned() && fresh(lanes.Values - old(lanes.Values))
      ensures r.Ok? ==> id in lanes && r.value == lanes[id]
      ensures (PoolView(), if r.Ok? then None else Some(r.error)) == LaneFor(old(PoolView()), id, uuid, now, init)
    {
      hide MakeRoom, Initialize;
      if uuid == 0 {
        return Err(InvalidLaneId);
      }
      if id in lanes {
        TouchLane(id, now);
        return Ok(lanes[id]);
      }
      EnsureRoom();
      r := AdmitLane(id, now, init);
    }

    method TouchLane(id: string, now: int)
      requires Owned() && id in lanes
      modifies lanes[id]
      ensures Owned()
      ensures PoolView() == old(PoolView()).(lanes := old(LaneViews())[id := old(LaneViews())[id].(lastUsedMs := now)])
    {
      lanes[id].lastUsedMs := now;
      assert LaneViews() == old(LaneViews())[id := old(LaneViews())[id].(lastUsedMs := now)];
    }

    method EnsureRoom()
      requires Owned()
      modifies this`lanes, this`retired, lanes.Values
      ensures Owned() && PoolView() == MakeRoom(old(PoolView()))
      ensures lanes.Values <= old(lanes.Values) && lanes.Keys <= old(lanes.Keys)
    {
      hide Evict;
      assert |LaneViews()| == |lanes| by { assert LaneViews().Keys == lanes.Keys; }
      if |lanes| >= MAX_AGENT_LANES {
        EvictOldest();
      }
    }

    /** Initialises a lane and, where that succeeds, puts it into the map. */
    method AdmitLane(id: string, now: int, init: InitOutcome) returns (r: Result<AgentLane, SeatError>)
      requires Owned() && id !in lanes
      modifies this`lanes, this`nextSeat
      ensures Owned() && fresh(lanes.Values - old(lanes.Values))
      ensures r.Ok? ==> id in lanes && r.value == lanes[id]
      ensures var (q, lane) := Initialize(old(PoolView()), init);
        match lane
        case Ok(l) => r.Ok? && PoolView() == q.(lanes := q.lanes[id := l.(lastUsedMs := now)])
        case Err(e) => r == Err(e) && PoolView() == q
    {
      var lane := InitializeLane(init);
      if lane.Err? {
        return Err(lane.error);
      }
      r := AddLane(id, lane.value, now);
    }

    /** Stamps a new lane and puts it into the map. */
    method AddLane(id: string, lane: AgentLane, now: int) returns (r: Result<AgentLane, SeatError>)
      requires Owned() && id !in lanes && lane !in lanes.Values
      modifies this`lanes, lane
      ensures Owned() && lanes == old(lanes)[id := lane] && r == Ok(lane)
      ensures PoolView() == old(PoolView()).(lanes := old(LaneViews())[id := old(lane.View()).(lastUsedMs := now)])
    {
      ghost var views := LaneViews();
      lane.lastUsedMs := now;
      lanes := lanes[id := lane];
      assert LaneViews() == views[id := lane.View()];
      r := Ok(lane);
    }

    // ---------- Actions ----------

    method CompleteAction(id: string, error: Option<SeatError>)
      requires Owned()
      modifies this`sent
      ensures Owned() && View() == old(View()).(sent := old(sent) + [Complete(id, error.None?, error)])
    {
      sent := sent + [Complete(id, error.None?, error)];
    }

    method ExecuteAction(a: Action, world: World)
      requires Owned()
      modifies this`lanes, this`nextSeat, this`retired, this`sent, lanes.Values
      ensures Owned() && fresh(lanes.Values - old(lanes.Values))
      ensures View() == Execute(old(View()), a, world)
    {
      var id := ToString(Value(a, "id"));
      if id == "" {
        return;
      }
      var error := ActOnLane(a, world);
      CompleteAction(id, error);
    }

    method ActOnLane(a: Action, world: World) returns (error: Option<SeatError>)
      requires Owned()
      modifies this`lanes, this`nextSeat, this`retired, lanes.Values
      ensures Owned() && fresh(lanes.Values - old(lanes.Values))
      ensures (PoolView(), error) == Act(old(PoolView()), a, world)
    {
      hide Perform, LaneFor, Resolve;
      var window := Resolve(world, ToString(Value(a, "window_id")));
      if window.Err? {
        return Some(window.error);
      }
      var laneId := ToString(Value(a, "lane_id"));
      var lane := LaneForId(laneId, world.uuidOf(laneId), world.now, world.init);
      if lane.Err? {
        return Some(lane.error);
      }
      ghost var q := PoolView();
      error := PerformAction(a, lane.value, window.value);
      assert LaneViews() == q.lanes[laneId := lane.value.View()];
    }

    method HandlePendingAction(reply: Reply, world: World)
      requires Owned() && pending > 0
      modifies this, lanes.Values
      ensures Owned() && fresh(lanes.Values - old(lanes.Values))
      ensures View() == HandleReply(old(View()), reply, world)
    {
      hide Execute, Clear, Perform, LaneFor, Act;
      TakeReply();
      if reply.ReplyError? {
        return;
      }
      if reply.ReplyAction? {
        ExecuteAction(reply.action, world);
      }
      rearms := rearms + 1;
    }

    method TakeReply()
      requires Owned() && pending > 0
      modifies this`pollInFlight, this`pending
      ensures Owned() && pending == old(pending) - 1
      ensures View() == old(View()).(pollInFlight := false, pending := old(pending) - 1)
    {
      pollInFlight := false;
      pending := pending - 1;
      assert PoolView() == old(PoolView());
    }

    method OwnerChanged(hasOwner: bool)
      requires Owned()
      modifies this, lanes.Values
      ensures Owned() && lanes == old(lanes)
      ensures View() == ChangeOwner(old(View()), hasOwner)
    {
      hide ClearAll;
      serviceAvailable := hasOwner;
      if !hasOwner {
        timerRunning := false;
        assert PoolView() == old(PoolView());
        ClearEveryTarget();
        return;
      }
      RegisterWithDaemon();
      timerRunning := true;
    }

    method ClearEveryTarget()
      requires Owned()
      modifies lanes.Values
      ensures Owned() && PoolView() == ClearAll(old(PoolView()))
    {
      hide Clear;
      var rest := lanes.Keys;
      while rest != {}
        invariant rest <= lanes.Keys
        invariant forall k :: k in lanes ==>
          lanes[k].View() == if k in rest then old(lanes[k].View()) else Clear(old(lanes[k].View()))
        decreases |rest|
      {
        var k :| k in rest;
        ClearLaneTarget(lanes[k]);
        rest := rest - {k};
      }
      assert LaneViews() == ClearAll(old(PoolView())).lanes;
    }
  }
}
