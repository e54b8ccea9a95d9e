/**
 Which lanes survive a run of the plugin: through actions, refused requests, owner changes and
 destroyed windows, the live lanes are those of the lane ids granted most recently.
 */
module SeatLru {
  import opened SeatEvents
  import opened SeatActions
  import opened SeatSafety
  import opened LanePool
  import opened LaneLru
  import opened SeatProtocol

  /** The lane request of a step: an action with an id and a usable window asks for its lane,
      and the lane id has to be a UUID. */
  function Wanted(step: Step): seq<Request> {
    if ReceivedId(step) == [] then []
    else
      var a, world := step.reply.action, step.world;
      var laneId := ToString(Value(a, "lane_id"));
      if Resolve(world, ToString(Value(a, "window_id"))).Err? || world.uuidOf(laneId) == 0 then []
      else [Request(laneId, world.now)]
  }

  /** The request of a step as far as the pool grants it. */
  ghost function Granted(p: Pool, step: Step): seq<Request> {
    if Wanted(step) == [] then []
    else
      var r := Wanted(step)[0];
      if LaneFor(p, r.id, step.world.uuidOf(r.id), r.now, step.world.init).1.None? then [r] else []
  }

  ghost function GrantedRequests(s: State, steps: seq<Step>): seq<Request> {
    if steps == [] then []
    else
      var init, last := steps[..|steps| - 1], steps[|steps| - 1];
      GrantedRequests(s, init) + Granted(After(s, init).pool, last)
  }

  function WantedRequests(steps: seq<Step>): seq<Request> {
    if steps == [] then [] else WantedRequests(steps[..|steps| - 1]) + Wanted(steps[|steps| - 1])
  }

  predicate AlwaysReady(steps: seq<Step>) {
    forall i :: 0 <= i < |steps| && steps[i].ReplyArrives? ==> steps[i].world.init.Ready?
  }

  // ---------- What leaves the ages alone ----------

  predicate SameAges(lanes: map<string, Lane>, other: map<string, Lane>) {
    && other.Keys == lanes.Keys
    && forall k :: k in lanes ==> other[k].lastUsedMs == lanes[k].lastUsedMs
  }

  lemma SameAgesNewest(lanes: map<string, Lane>, other: map<string, Lane>, rs: seq<Request>)
    requires SameAges(lanes, other)
    ensures Newest(lanes, rs) ==> Newest(other, rs)
    ensures NewestIds(lanes, rs) <==> NewestIds(other, rs)
  {
    hide AmongLast, LastUse;
    assert |lanes| == |lanes.Keys| && |other| == |other.Keys|;
    forall k ensures k in other <==> k in lanes {
      assert k in other <==> k in other.Keys;
      assert k in lanes <==> k in lanes.Keys;
    }
  }

  lemma ClearAllAges(p: Pool)
    ensures SameAges(p.lanes, ClearAll(p).lanes)
  {
    assert ClearAll(p).lanes.Keys == p.lanes.Keys;
  }

  lemma ForgetAges(p: Pool, w: WindowId)
    ensures SameAges(p.lanes, Forget(p, w).lanes)
  {
    assert Forget(p, w).lanes.Keys == p.lanes.Keys;
  }

  /** Acting on the lane leaves the pool's ages as the lane request left them. */
  lemma ActAges(p: Pool, step: Step)
    requires ReceivedId(step) != [] && Wanted(step) != []
    ensures var r := Wanted(step)[0];
      var q := LaneFor(p, r.id, step.world.uuidOf(r.id), r.now, step.world.init).0;
      var t := Act(p, step.reply.action, step.world).0;
      SameAges(q.lanes, t.lanes) && t.hasKeymap == q.hasKeymap
  {
    hide LaneFor, Perform;
    var a, world, r := step.reply.action, step.world, Wanted(step)[0];
    var (q, error) := LaneFor(p, r.id, world.uuidOf(r.id), r.now, world.init);
    var w := Resolve(world, ToString(Value(a, "window_id"))).value;
    if error.None? && r.id in q.lanes {
      ActionClean(q.lanes[r.id], a, w);
      assert q.lanes[r.id := Perform(q.lanes[r.id], a, w).lane].Keys == q.lanes.Keys;
    }
  }

  /** Without a usable window or a UUID for the lane, an action does not reach the pool. */
  lemma ActUnwanted(p: Pool, step: Step)
    requires ReceivedId(step) != [] && Wanted(step) == []
    ensures Act(p, step.reply.action, step.world).0 == p
  {
  }

  // ---------- One step ----------

  /** A step that evicts a lane finds ties broken in favour of the lane used first. */
  predicate StepInOrder(p: Pool, step: Step, rs: seq<Request>) {
    Wanted(step) != [] && MakesRoom(p, Wanted(step)[0].id, step.world.uuidOf(Wanted(step)[0].id)) ==>
      TieBroken(rs, MAX_AGENT_LANES)
  }

  /** A step keeps the live lanes the newest if and only if it is in order. */
  lemma StepNewest(s: State, step: Step, rs: seq<Request>)
    requires Enabled(s, step) && Newest(s.pool.lanes, rs) && NonDecreasing(rs) && |s.pool.lanes| <= MAX_AGENT_LANES
    ensures var lanes, served := Next(s, step).pool.lanes, rs + Granted(s.pool, step);
      if StepInOrder(s.pool, step, rs) then Newest(lanes, served) else !NewestIds(lanes, served)
  {
    hide Newest, NewestIds, NonDecreasing, Act, LaneFor, SameAges, Forget, ClearAll, Wanted, TieBroken;
    assert rs + [] == rs;
    if ReceivedId(step) != [] {
      ActNewest(s.pool, step, rs);
    } else {
      UnaskedAges(s, step);
      SameAgesNewest(s.pool.lanes, Next(s, step).pool.lanes, rs);
    }
  }

  lemma ActNewest(p: Pool, step: Step, rs: seq<Request>)
    requires ReceivedId(step) != [] && Newest(p.lanes, rs) && NonDecreasing(rs) && |p.lanes| <= MAX_AGENT_LANES
    ensures var lanes, served := Act(p, step.reply.action, step.world).0.lanes, rs + Granted(p, step);
      if StepInOrder(p, step, rs) then Newest(lanes, served) else !NewestIds(lanes, served)
  {
    hide Newest, NewestIds, NonDecreasing, Act, LaneFor, SameAges, Wanted, MakesRoom, TieBroken;
    assert rs + [] == rs;
    if Wanted(step) == [] {
      ActUnwanted(p, step);
    } else {
      var r, world := Wanted(step)[0], step.world;
      assert r == Request(r.id, r.now);
      ActAges(p, step);
      LaneForNewest(p, rs, r.id, world.uuidOf(r.id), r.now, world.init);
      var q := LaneFor(p, r.id, world.uuidOf(r.id), r.now, world.init).0;
      SameAgesNewest(q.lanes, Act(p, step.reply.action, world).0.lanes, rs + Granted(p, step));
    }
  }

  /** Every step but a received action leaves keys and ages alone. */
  lemma UnaskedAges(s: State, step: Step)
    requires Enabled(s, step) && ReceivedId(step) == []
    ensures SameAges(s.pool.lanes, Next(s, step).pool.lanes) && Next(s, step).pool.hasKeymap == s.pool.hasKeymap
    ensures Wanted(step) == []
  {
    hide Act;
    match step {
      case OwnerChanges(_) => ClearAllAges(s.pool);
      case WindowDestroyed(w) => ForgetAges(s.pool, w);
      case _ =>
    }
  }

  /** With lanes that always initialise, every request wanted is granted. */
  lemma StepFilled(s: State, step: Step, rs: seq<Request>)
    requires Enabled(s, step) && Newest(s.pool.lanes, rs) && Filled(s.pool, rs) && s.pool.hasKeymap
    requires step.ReplyArrives? ==> step.world.init.Ready?
    ensures Granted(s.pool, step) == Wanted(step)
    ensures Filled(Next(s, step).pool, rs + Wanted(step)) && Next(s, step).pool.hasKeymap
  {
    hide Newest, Filled, Act, LaneFor, SameAges, Forget, ClearAll, Wanted;
    assert rs + [] == rs;
    if ReceivedId(step) == [] {
      UnaskedAges(s, step);
      SameAgesFilled(s.pool, Next(s, step).pool, rs);
    } else if Wanted(step) == [] {
      ActUnwanted(s.pool, step);
    } else {
      var p, r, world := s.pool, Wanted(step)[0], step.world;
      WantedUuid(step);
      assert r == Request(r.id, r.now) && Wanted(step) == [r];
      GrantedWhenReady(p, r.id, world.uuidOf(r.id), r.now);
      ActAges(p, step);
      LaneForFilled(p, rs, r.id, world.uuidOf(r.id), r.now, world.init);
      var q := LaneFor(p, r.id, world.uuidOf(r.id), r.now, world.init).0;
      SameAgesFilled(q, Act(p, step.reply.action, world).0, rs + Wanted(step));
    }
  }

  lemma WantedUuid(step: Step)
    requires Wanted(step) != []
    ensures |Wanted(step)| == 1 && step.world.uuidOf(Wanted(step)[0].id) != 0
  {
  }

  lemma SameAgesFilled(p: Pool, q: Pool, rs: seq<Request>)
    requires SameAges(p.lanes, q.lanes) && Filled(p, rs)
    ensures Filled(q, rs)
  {
    hide Ids;
    assert |p.lanes| == |p.lanes.Keys| && |q.lanes| == |q.lanes.Keys|;
  }

  // ---------- Every run ----------

  /** Every step of the run that evicts a lane is in order. */
  ghost predicate RunInOrder(s: State, steps: seq<Step>) {
    forall i :: 0 <= i < |steps| ==> StepInOrder(After(s, steps[..i]).pool, steps[i], GrantedRequests(s, steps[..i]))
  }

  /** All along the run the live lanes are those of the ids granted most recently. */
  ghost predicate RunsLru(s: State, steps: seq<Step>) {
    forall i :: 0 <= i <= |steps| ==> LiveAreLast(After(s, steps[..i]), GrantedRequests(s, steps[..i]))
  }

  /** The live lanes are those of as many of the last distinct ids. */
  ghost predicate LiveAreLast(t: State, rs: seq<Request>) {
    HoldsLast(t.pool.lanes, rs, |t.pool.lanes|)
  }

  lemma HoldsLastMeans(lanes: map<string, Lane>, rs: seq<Request>)
    ensures HoldsLast(lanes, rs, |lanes|) <==> NewestIds(lanes, rs)
  {
    hide AmongLast, WithinLast;
    forall k ensures AmongLast(rs, k, |lanes|) <==> WithinLast(rs, k, |lanes|) { AmongLastMeans(rs, k, |lanes|); }
  }

  lemma RunInOrderLast(s: State, init: seq<Step>, last: Step)
    ensures RunInOrder(s, init + [last]) <==>
            RunInOrder(s, init) && StepInOrder(After(s, init).pool, last, GrantedRequests(s, init))
  {
    hide StepInOrder, After, GrantedRequests;
    var steps := init + [last];
    assert steps[..|init|] == init && steps[|init|] == last;
    forall i | 0 <= i < |init| ensures steps[..i] == init[..i] && steps[i] == init[i] {
    }
  }

  lemma RunsLruLast(s: State, init: seq<Step>, last: Step)
    ensures RunsLru(s, init + [last]) <==>
            RunsLru(s, init) && LiveAreLast(After(s, init + [last]), GrantedRequests(s, init + [last]))
  {
    hide LiveAreLast, After, GrantedRequests;
    var steps := init + [last];
    assert steps[..|steps|] == steps;
    forall i | 0 <= i <= |init| ensures steps[..i] == init[..i] {
    }
  }

  /** The run up to its last step. */
  lemma RunUpTo(registered: bool, hasKeymap: bool, init: seq<Step>, last: Step, t: State) returns (u: State)
    requires Reaches(Started(registered, hasKeymap), init + [last], t)
    ensures var s := Started(registered, hasKeymap);
      && Reaches(s, init, u) && Enabled(u, last) && t == Next(u, last)
      && u == After(s, init) && t == After(s, init + [last])
      && GrantedRequests(s, init + [last]) == GrantedRequests(s, init) + Granted(u.pool, last)
    ensures |u.pool.lanes| <= MAX_AGENT_LANES
  {
    hide Next, Enabled, Granted, After;
    var s, steps := Started(registered, hasKeymap), init + [last];
    assert steps[..|steps| - 1] == init && steps[|steps| - 1] == last;
    u :| Reaches(s, init, u) && Enabled(u, last) && t == Next(u, last);
    OneEnd(s, init, u);
    OneEnd(s, steps, t);
    LaneBound(registered, hasKeymap, init, u);
  }

  lemma LaneBound(registered: bool, hasKeymap: bool, steps: seq<Step>, t: State)
    requires Reaches(Started(registered, hasKeymap), steps, t)
    ensures |t.pool.lanes| <= MAX_AGENT_LANES
  {
    hide Reaches;
    EveryRun(registered, hasKeymap, steps, t);
  }

  lemma {:induction false} RunNewest(registered: bool, hasKeymap: bool, steps: seq<Step>, t: State)
    requires var s := Started(registered, hasKeymap);
      Reaches(s, steps, t) && NonDecreasing(GrantedRequests(s, steps)) && RunInOrder(s, steps)
    ensures Newest(t.pool.lanes, GrantedRequests(Started(registered, hasKeymap), steps))
    decreases |steps|
  {
    hide Next, Enabled, Newest, NonDecreasing, Granted, RunInOrder, StepInOrder, After;
    var s := Started(registered, hasKeymap);
    if steps == [] {
      NothingYet();
    } else {
      hide Reaches, GrantedRequests;
      var init, last := steps[..|steps| - 1], steps[|steps| - 1];
      assert steps == init + [last];
      var u := RunUpTo(registered, hasKeymap, init, last, t);
      Prefix(GrantedRequests(s, init), Granted(u.pool, last));
      RunInOrderLast(s, init, last);
      RunNewest(registered, hasKeymap, init, u);
      StepNewest(u, last, GrantedRequests(s, init));
    }
  }

  /** After any run in order, whatever came between: a lane is live exactly if, from one of its
      granted requests on, no more distinct ids were granted than there are live lanes, four at
      most. */
  lemma LiveLanes(registered: bool, hasKeymap: bool, steps: seq<Step>, t: State)
    requires var s := Started(registered, hasKeymap);
      Reaches(s, steps, t) && NonDecreasing(GrantedRequests(s, steps)) && RunInOrder(s, steps)
    ensures LiveAreLast(t, GrantedRequests(Started(registered, hasKeymap), steps))
    ensures |t.pool.lanes| <= MAX_AGENT_LANES
  {
    hide Reaches, AmongLast, NonDecreasing, GrantedRequests, RunInOrder, NewestIds, HoldsLast;
    RunNewest(registered, hasKeymap, steps, t);
    HoldsLastMeans(t.pool.lanes, GrantedRequests(Started(registered, hasKeymap), steps));
    LaneBound(registered, hasKeymap, steps, t);
  }

  /** Over every run on a clock that does not go back, the live lanes are the most recently granted
      all along if and only if every step that evicts a lane is in order. */
  lemma {:induction false} LiveLanesExactly(registered: bool, hasKeymap: bool, steps: seq<Step>, t: State)
    requires var s := Started(registered, hasKeymap); Reaches(s, steps, t) && NonDecreasing(GrantedRequests(s, steps))
    ensures var s := Started(registered, hasKeymap); RunsLru(s, steps) <==> RunInOrder(s, steps)
    decreases |steps|
  {
    hide HoldsLast, Newest, NewestIds, NonDecreasing, Reaches, After, Next, Enabled, GrantedRequests, Granted;
    hide RunsLru, RunInOrder, StepInOrder;
    var s := Started(registered, hasKeymap);
    if steps == [] {
      NoSteps(registered, hasKeymap);
    } else {
      var init, last := steps[..|steps| - 1], steps[|steps| - 1];
      assert steps == init + [last];
      var u := RunUpTo(registered, hasKeymap, init, last, t);
      Prefix(GrantedRequests(s, init), Granted(u.pool, last));
      LiveLanesExactly(registered, hasKeymap, init, u);
      RunInOrderLast(s, init, last);
      RunsLruLast(s, init, last);
      HoldsLastMeans(t.pool.lanes, GrantedRequests(s, steps));
      if RunInOrder(s, steps) {
        LiveLanes(registered, hasKeymap, steps, t);
      } else if RunInOrder(s, init) {
        RunNewest(registered, hasKeymap, init, u);
        StepNewest(u, last, GrantedRequests(s, init));
      }
    }
  }

  lemma NoSteps(registered: bool, hasKeymap: bool)
    ensures var s := Started(registered, hasKeymap); RunsLru(s, []) && RunInOrder(s, [])
  {
  }

  /** A clock that moves on with every granted request leaves no ties. */
  lemma {:induction false} IncreasingRunInOrder(s: State, steps: seq<Step>)
    requires Increasing(GrantedRequests(s, steps))
    ensures NonDecreasing(GrantedRequests(s, steps)) && RunInOrder(s, steps)
    decreases |steps|
  {
    hide RunInOrder, InOrder, Granted, TieBroken, After;
    IncreasingInOrder(GrantedRequests(s, steps));
    if steps == [] {
      assert RunInOrder(s, []) by { NothingInOrder(s); }
    } else {
      var init, last := steps[..|steps| - 1], steps[|steps| - 1];
      assert steps == init + [last];
      IncreasingPrefix(GrantedRequests(s, init), Granted(After(s, init).pool, last));
      IncreasingRunInOrder(s, init);
      NoTies(GrantedRequests(s, init), MAX_AGENT_LANES);
      RunInOrderLast(s, init, last);
    }
  }

  lemma NothingInOrder(s: State)
    ensures RunInOrder(s, [])
  {
  }

  lemma IncreasingPrefix(rs: seq<Request>, more: seq<Request>)
    requires Increasing(rs + more)
    ensures Increasing(rs)
  {
    assert forall i :: 0 <= i < |rs| ==> (rs + more)[i] == rs[i];
  }

  // ---------- Runs whose lanes can always be initialised ----------

  /** A step of such a run is in order if its request is in order behind those before it. */
  lemma ReadyInOrder(p: Pool, step: Step, rs: seq<Request>)
    requires Newest(p.lanes, rs) && Filled(p, rs) && InOrder(rs + Wanted(step))
    ensures StepInOrder(p, step, rs)
  {
    hide Newest, Filled, TieBroken, InOrder, Evicting, Wanted;
    if Wanted(step) != [] {
      WantedUuid(step);
      var r := Wanted(step)[0];
      assert Wanted(step) == [r];
      InOrderLast(rs, r);
      EvictingMakesRoom(p, rs, r.id);
    }
  }

  lemma InOrderPrefix(rs: seq<Request>, step: Step)
    requires InOrder(rs + Wanted(step))
    ensures InOrder(rs)
  {
    hide InOrder, Wanted, Evicting;
    if Wanted(step) == [] {
      assert rs + [] == rs;
    } else {
      WantedUuid(step);
      assert Wanted(step) == [Wanted(step)[0]];
      InOrderLast(rs, Wanted(step)[0]);
    }
  }

  lemma {:induction false} RunFilled(registered: bool, steps: seq<Step>, t: State)
    requires Reaches(Started(registered, true), steps, t) && AlwaysReady(steps)
    requires NonDecreasing(WantedRequests(steps)) && InOrder(WantedRequests(steps))
    ensures GrantedRequests(Started(registered, true), steps) == WantedRequests(steps)
    ensures t.pool.hasKeymap && Newest(t.pool.lanes, WantedRequests(steps)) && Filled(t.pool, WantedRequests(steps))
    decreases |steps|
  {
    hide Next, Enabled, Newest, Filled, NonDecreasing, InOrder, Granted, Wanted, StepInOrder, After;
    var s := Started(registered, true);
    if steps == [] {
      NothingYet();
      assert t.pool == EMPTY_POOL;
    } else {
      hide Reaches;
      var init, last := steps[..|steps| - 1], steps[|steps| - 1];
      assert steps == init + [last];
      var u := RunUpTo(registered, true, init, last, t);
      Prefix(WantedRequests(init), Wanted(last));
      InOrderPrefix(WantedRequests(init), last);
      RunFilled(registered, init, u);
      ReadyInOrder(u.pool, last, WantedRequests(init));
      StepFilled(u, last, WantedRequests(init));
      StepNewest(u, last, WantedRequests(init));
    }
  }

  /** Where lanes always initialise, the live lanes are those of the last four distinct ids
      requested, and there are as many as ids until there are four. */
  lemma LiveLanesWhenReady(registered: bool, steps: seq<Step>, t: State)
    requires Reaches(Started(registered, true), steps, t) && AlwaysReady(steps)
    requires NonDecreasing(WantedRequests(steps)) && InOrder(WantedRequests(steps))
    ensures HoldsLast(t.pool.lanes, WantedRequests(steps), MAX_AGENT_LANES)
    ensures |t.pool.lanes| == var n := |Ids(WantedRequests(steps))|; if n < MAX_AGENT_LANES then n else MAX_AGENT_LANES
  {
    hide Reaches, AmongLast, NonDecreasing, InOrder, GrantedRequests, WantedRequests, Ids, LastUse, Newest, AlwaysReady;
    hide WithinLast;
    var rs := WantedRequests(steps);
    RunFilled(registered, steps, t);
    FilledTracks(t.pool, rs);
    forall k ensures AmongLast(rs, k, MAX_AGENT_LANES) <==> WithinLast(rs, k, MAX_AGENT_LANES) {
      AmongLastMeans(rs, k, MAX_AGENT_LANES);
    }
  }
}
