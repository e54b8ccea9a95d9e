/**
 The bounded pool of agent lanes on values: at most four lanes, keyed by the requested lane id,
 the one used longest ago evicted first. Proves what every request keeps and whom it costs a lane.
 */
module LanePool {
  import opened Outcome
  import opened SeatEvents
  import opened SeatActions

  const MAX_AGENT_LANES: nat := 4

  /** What the compositor and xkb answer while a lane is being initialised. */
  datatype InitOutcome = Ready | KeymapStringFails | XkbStateFails

  /** `retired` holds the evicted lanes as they were destroyed, in order. */
  datatype Pool = Pool(lanes: map<string, Lane>, nextSeat: nat, hasKeymap: bool, retired: seq<Lane>)

  // ---------- The order of the lane map's keys ----------

  predicate KeyLess(a: string, b: string) {
    if b == [] then false
    else if a == [] then true
    else a[0] < b[0] || (a[0] == b[0] && KeyLess(a[1..], b[1..]))
  }

  lemma {:induction false} KeyTotal(a: string, b: string)
    ensures a == b || KeyLess(a, b) || KeyLess(b, a)
    ensures !(KeyLess(a, b) && KeyLess(b, a)) && !KeyLess(a, a)
    decreases |a|
  {
    if a != [] && b != [] {
      KeyTotal(a[1..], b[1..]);
      assert a == [a[0]] + a[1..] && b == [b[0]] + b[1..];
      KeyTotal(a[1..], a[1..]);
    } else if a != [] {
      KeyTotal(a[1..], a[1..]);
    }
  }

  lemma {:induction false} KeyTransitive(a: string, b: string, c: string)
    requires KeyLess(a, b) && KeyLess(b, c)
    ensures KeyLess(a, c)
    decreases |a|
  {
    if a != [] && a[0] == b[0] == c[0] {
      KeyTransitive(a[1..], b[1..], c[1..]);
    }
  }

  // ---------- The lane used longest ago ----------

  /** `k` comes before `j`: used earlier, or at the same time under the smaller key. */
  predicate Before(lanes: map<string, Lane>, k: string, j: string)
    requires k in lanes && j in lanes
  {
    || lanes[k].lastUsedMs < lanes[j].lastUsedMs
    || (lanes[k].lastUsedMs == lanes[j].lastUsedMs && KeyLess(k, j))
  }

  predicate IsOldest(lanes: map<string, Lane>, k: string) {
    k in lanes && forall j :: j in lanes && j != k ==> Before(lanes, k, j)
  }

  lemma BeforeTransitive(lanes: map<string, Lane>, k: string, j: string, i: string)
    requires k in lanes && j in lanes && i in lanes
    requires Before(lanes, k, j) && Before(lanes, j, i)
    ensures Before(lanes, k, i)
  {
    if KeyLess(k, j) && KeyLess(j, i) { KeyTransitive(k, j, i); }
  }

  lemma OldestUnique(lanes: map<string, Lane>, k: string, j: string)
    requires IsOldest(lanes, k) && IsOldest(lanes, j)
    ensures k == j
  {
    KeyTotal(k, j);
  }

  /** The scan for the minimum: the earliest use, and among equals the smallest key. */
  lemma {:induction false} OldestExists(lanes: map<string, Lane>, keys: set<string>) returns (k: string)
    requires keys <= lanes.Keys && keys != {}
    ensures k in keys && forall j :: j in keys && j != k ==> Before(lanes, k, j)
    decreases |keys|
  {
    var some :| some in keys;
    if keys == {some} {
      k := some;
    } else {
      var best := OldestExists(lanes, keys - {some});
      KeyTotal(best, some);
      k := if Before(lanes, some, best) then some else best;
      forall j | j in keys && j != k ensures Before(lanes, k, j) {
        if k == some && j != best { BeforeTransitive(lanes, some, best, j); }
      }
    }
  }

  ghost function Oldest(lanes: map<string, Lane>): (k: string)
    requires lanes != map[]
    ensures IsOldest(lanes, k)
  {
    assert lanes.Keys != {} by { var x :| x in lanes; assert x in lanes.Keys; }
    var k := OldestKey(lanes);
    k
  }

  ghost function OldestKey(lanes: map<string, Lane>): (k: string)
    requires lanes.Keys != {}
    ensures IsOldest(lanes, k)
  {
    assert exists k :: IsOldest(lanes, k) by {
      var k := OldestExists(lanes, lanes.Keys);
      assert IsOldest(lanes, k);
    }
    var k :| IsOldest(lanes, k);
    k
  }

  // ---------- Requesting a lane ----------

  ghost function Evict(p: Pool): Pool
    requires p.lanes != map[]
  {
    var k := Oldest(p.lanes);
    p.(lanes := p.lanes - {k}, retired := p.retired + [Clear(p.lanes[k])])
  }

  ghost function MakeRoom(p: Pool): Pool {
    if |p.lanes| >= MAX_AGENT_LANES then Evict(p) else p
  }

  /** A new lane on the next seat; the seat's number is spent even where a later step fails. */
  function Initialize(p: Pool, init: InitOutcome): (Pool, Result<Lane, SeatError>) {
    if !p.hasKeymap then (p, Err(KeymapUnavailable))
    else
      var q := p.(nextSeat := p.nextSeat + 1);
      match init
      case KeymapStringFails => (q, Err(KeymapStringFailed))
      case XkbStateFails => (q, Err(XkbStateFailed))
      case Ready => (q, Ok(Lane(p.nextSeat, None, Point(0.0, 0.0), true, 0, [])))
  }

  /** The lane for `id`, whose UUID value is 0 where the text is none. Room is made before the
      new lane is initialised, so a failing initialisation still costs the oldest lane. */
  ghost function LaneFor(p: Pool, id: string, uuid: nat, now: int, init: InitOutcome): (Pool, Option<SeatError>) {
    if uuid == 0 then (p, Some(InvalidLaneId))
    else if id in p.lanes then (p.(lanes := p.lanes[id := p.lanes[id].(lastUsedMs := now)]), None)
    else
      match Initialize(MakeRoom(p), init)
      case (q, Err(e)) => (q, Some(e))
      case (q, Ok(lane)) => (q.(lanes := q.lanes[id := lane.(lastUsedMs := now)]), None)
  }

  // ---------- What holds in every reachable state ----------

  predicate DistinctSeats(p: Pool) {
    && (forall k, j :: k in p.lanes && j in p.lanes && k != j ==> p.lanes[k].seatIndex != p.lanes[j].seatIndex)
    && (forall k :: k in p.lanes ==> p.lanes[k].seatIndex < p.nextSeat)
    && (forall i :: 0 <= i < |p.retired| ==> p.retired[i].seatIndex < p.nextSeat)
    && (forall k, i :: k in p.lanes && 0 <= i < |p.retired| ==> p.lanes[k].seatIndex != p.retired[i].seatIndex)
    && (forall i, j :: 0 <= i < j < |p.retired| ==> p.retired[i].seatIndex != p.retired[j].seatIndex)
  }

  /** At most four lanes, every seat number used once ever, and every lane ready for keys. */
  predicate Valid(p: Pool) {
    && |p.lanes| <= MAX_AGENT_LANES
    && DistinctSeats(p)
    && (forall k :: k in p.lanes ==> p.lanes[k].xkbReady)
  }

  /** Seats stay distinct where lanes change in place, keeping their keys and seat numbers. */
  lemma SeatsKept(p: Pool, q: Pool)
    requires DistinctSeats(p) && q.lanes.Keys == p.lanes.Keys
    requires q.nextSeat == p.nextSeat && q.retired == p.retired
    requires forall k :: k in p.lanes ==> q.lanes[k].seatIndex == p.lanes[k].seatIndex
    ensures DistinctSeats(q)
  {
    forall k | k in q.lanes ensures k in p.lanes {
      assert k in q.lanes.Keys;
    }
  }

  lemma EvictValid(p: Pool)
    requires Valid(p) && p.lanes != map[]
    ensures Valid(Evict(p)) && |Evict(p).lanes| == |p.lanes| - 1
  {
    hide Clear;
    var k, q := Oldest(p.lanes), Evict(p);
    assert q.lanes.Keys == p.lanes.Keys - {k};
    ClearKeeps(p.lanes[k]);
    assert |q.lanes| == |p.lanes| - 1;
  }

  lemma MakeRoomValid(p: Pool)
    requires Valid(p)
    ensures Valid(MakeRoom(p)) && |MakeRoom(p).lanes| < MAX_AGENT_LANES
    ensures MakeRoom(p).lanes.Keys <= p.lanes.Keys
  {
    hide DistinctSeats, Clear;
    if |p.lanes| >= MAX_AGENT_LANES { EvictValid(p); }
  }

  lemma ClearKeeps(l: Lane)
    ensures Clear(l).seatIndex == l.seatIndex && Clear(l).xkbReady == l.xkbReady
  {
  }

  /** Every request, granted or refused, keeps the pool valid. */
  lemma LaneForValid(p: Pool, id: string, uuid: nat, now: int, init: InitOutcome)
    requires Valid(p)
    ensures Valid(LaneFor(p, id, uuid, now, init).0)
    ensures LaneFor(p, id, uuid, now, init).1.None? ==>
            id in LaneFor(p, id, uuid, now, init).0.lanes
            && LaneFor(p, id, uuid, now, init).0.lanes[id].lastUsedMs == now
  {
    hide Evict, Clear, Valid, Initialize;
    if uuid != 0 {
      if id in p.lanes {
        TouchValid(p, id, now);
      } else {
        MakeRoomValid(p);
        AdmitValid(MakeRoom(p), id, now, init);
      }
    }
  }

  lemma TouchValid(p: Pool, id: string, now: int)
    requires Valid(p) && id in p.lanes
    ensures Valid(p.(lanes := p.lanes[id := p.lanes[id].(lastUsedMs := now)]))
  {
    hide DistinctSeats;
    SeatsKept(p, p.(lanes := p.lanes[id := p.lanes[id].(lastUsedMs := now)]));
    assert p.lanes[id := p.lanes[id].(lastUsedMs := now)].Keys == p.lanes.Keys;
  }

  lemma AdmitValid(q: Pool, id: string, now: int, init: InitOutcome)
    requires Valid(q) && |q.lanes| < MAX_AGENT_LANES && id !in q.lanes
    ensures var (r, lane) := Initialize(q, init);
      && Valid(r)
      && (lane.Ok? ==> Valid(r.(lanes := r.lanes[id := lane.value.(lastUsedMs := now)])))
  {
    hide DistinctSeats, Valid;
    SpendValid(q);
    var lane := Lane(q.nextSeat, None, Point(0.0, 0.0), true, now, []);
    AddValid(q, id, lane);
  }

  lemma SpendValid(q: Pool)
    requires Valid(q)
    ensures Valid(q.(nextSeat := q.nextSeat + 1))
  {
  }

  lemma AddValid(q: Pool, id: string, lane: Lane)
    requires Valid(q) && |q.lanes| < MAX_AGENT_LANES && id !in q.lanes
    requires lane.seatIndex == q.nextSeat && lane.xkbReady
    ensures Valid(q.(nextSeat := q.nextSeat + 1, lanes := q.lanes[id := lane]))
  {
    hide DistinctSeats;
    AddDistinct(q, id, lane);
    assert q.lanes[id := lane].Keys == q.lanes.Keys + {id};
  }

  lemma AddDistinct(q: Pool, id: string, lane: Lane)
    requires DistinctSeats(q) && id !in q.lanes && lane.seatIndex == q.nextSeat
    ensures DistinctSeats(q.(nextSeat := q.nextSeat + 1, lanes := q.lanes[id := lane]))
  {
  }

  /** A request touches no other lane: each stays as it was, or is the single lane evicted, and
      then none of the lanes was used earlier. */
  lemma OthersUntouched(p: Pool, id: string, uuid: nat, now: int, init: InitOutcome, k: string)
    requires k in p.lanes && k != id
    ensures var q := LaneFor(p, id, uuid, now, init).0;
      if k in q.lanes then q.lanes[k] == p.lanes[k]
      else
        && uuid != 0 && id !in p.lanes && |p.lanes| >= MAX_AGENT_LANES
        && (forall j :: j in p.lanes ==> p.lanes[k].lastUsedMs <= p.lanes[j].lastUsedMs)
        && p.lanes.Keys - {k} <= q.lanes.Keys
        && q.retired == p.retired + [Clear(p.lanes[k])]
  {
    hide Clear;
  }

  /** A full pool loses a lane to a request that is then refused: exactly when the id is new and
      its lane cannot be initialised. */
  lemma RefusedButEvicted(p: Pool, id: string, uuid: nat, now: int, init: InitOutcome)
    requires Valid(p) && |p.lanes| == MAX_AGENT_LANES
    ensures var (q, error) := LaneFor(p, id, uuid, now, init);
      (error.Some? && |q.lanes| < |p.lanes|) <==> uuid != 0 && id !in p.lanes && !(p.hasKeymap && init.Ready?)
  {
    hide Clear, Valid, DistinctSeats, Evict;
    EvictValid(p);
    assert Evict(p).hasKeymap == p.hasKeymap by { EvictKeepsKeymap(p); }
  }

  lemma EvictKeepsKeymap(p: Pool)
    requires p.lanes != map[]
    ensures Evict(p).hasKeymap == p.hasKeymap
  {
    hide Clear;
  }
}
