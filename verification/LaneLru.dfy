/**
 The lane pool as a least-recently-used cache: over a run of granted requests at non-decreasing
 times the residents stay the last four distinct lane ids requested if and only if every eviction
 that meets lanes of the same millisecond finds the right one under the smallest key.
 */
module LaneLru {
  import opened Outcome
  import opened SeatEvents
  import opened SeatActions
  import opened LanePool

  datatype Request = Request(id: string, now: int)

  const EMPTY_POOL := Pool(map[], 0, true, [])

  /** The pool after the requests, each with a valid UUID and a successful initialisation. */
  ghost function Serve(rs: seq<Request>): Pool {
    if rs == [] then EMPTY_POOL
    else
      var last := rs[|rs| - 1];
      LaneFor(Serve(rs[..|rs| - 1]), last.id, 1, last.now, Ready).0
  }

  predicate Increasing(rs: seq<Request>) {
    forall i, j :: 0 <= i < j < |rs| ==> rs[i].now < rs[j].now
  }

  /** What a monotonic clock of whole milliseconds gives. */
  predicate NonDecreasing(rs: seq<Request>) {
    forall i, j :: 0 <= i < j < |rs| ==> rs[i].now <= rs[j].now
  }

  function Ids(rs: seq<Request>): set<string> {
    set i | 0 <= i < |rs| :: rs[i].id
  }

  /** The ids requested since the last request of `k`, `k` included; none if there was none. */
  function Since(rs: seq<Request>, k: string): set<string> {
    if rs == [] then {}
    else
      var init, last := rs[..|rs| - 1], rs[|rs| - 1];
      if last.id == k then {k}
      else if Since(init, k) == {} then {}
      else Since(init, k) + {last.id}
  }

  /** The time of the last request of `k`. */
  function LastUse(rs: seq<Request>, k: string): int {
    if rs == [] then 0
    else if rs[|rs| - 1].id == k then rs[|rs| - 1].now
    else LastUse(rs[..|rs| - 1], k)
  }

  /** `k` is among the last `n` distinct ids. */
  predicate AmongLast(rs: seq<Request>, k: string, n: nat) {
    1 <= |Since(rs, k)| <= n
  }

  // ---------- The last use orders the ids ----------

  lemma IdsLast(init: seq<Request>, last: Request)
    ensures Ids(init + [last]) == Ids(init) + {last.id}
  {
    var rs := init + [last];
    forall x | x in Ids(init) + {last.id} ensures x in Ids(rs) {
      if x == last.id {
        assert rs[|init|].id == x;
      } else {
        var i :| 0 <= i < |init| && init[i].id == x;
        assert rs[i].id == x;
      }
    }
    forall x | x in Ids(rs) ensures x in Ids(init) + {last.id} {
      var i :| 0 <= i < |rs| && rs[i].id == x;
      if i < |init| { assert init[i].id == x; }
    }
  }

  lemma {:induction false} SinceBasics(rs: seq<Request>, k: string)
    ensures Since(rs, k) != {} <==> k in Ids(rs)
    ensures k in Ids(rs) ==> k in Since(rs, k)
    ensures Since(rs, k) <= Ids(rs)
  {
    if rs != [] {
      var init, last := rs[..|rs| - 1], rs[|rs| - 1];
      assert rs == init + [last];
      IdsLast(init, last);
      SinceBasics(init, k);
    }
  }

  lemma NoIds(rs: seq<Request>, k: string)
    ensures k in Ids(rs) ==> rs != []
  {
  }

  /** Of two ids one was last requested before the other; the ids since the later use are among
      those since the earlier one, and lack the earlier id. */
  lemma {:induction false} SinceChain(rs: seq<Request>, k: string, j: string)
    requires k in Ids(rs) && j in Ids(rs) && k != j
    ensures j in Since(rs, k) <==> k !in Since(rs, j)
    ensures j in Since(rs, k) ==> Since(rs, j) <= Since(rs, k)
    decreases |rs|
  {
    hide Ids, Since, LastUse;
    assert |rs| > 0 by { NoIds(rs, k); }
    var init, last := rs[..|rs| - 1], rs[|rs| - 1];
    assert rs == init + [last];
    IdsLast(init, last);
    SinceBasics(init, k);
    SinceBasics(init, j);
    SinceLast(init, last, k);
    SinceLast(init, last, j);
    if last.id != k && last.id != j {
      SinceChain(init, k, j);
    }
  }

  /** The last use of an id is the time of one of its requests. */
  lemma {:induction false} LastUseAt(rs: seq<Request>, k: string) returns (i: nat)
    requires k in Ids(rs)
    ensures i < |rs| && rs[i].id == k && LastUse(rs, k) == rs[i].now
    decreases |rs|
  {
    hide Ids;
    assert |rs| > 0 by { NoIds(rs, k); }
    var init, last := rs[..|rs| - 1], rs[|rs| - 1];
    assert rs == init + [last];
    IdsLast(init, last);
    if last.id == k {
      i := |rs| - 1;
    } else {
      i := LastUseAt(init, k);
    }
  }

  /** An id requested since `k` was not used earlier. */
  lemma {:induction false} LaterUse(rs: seq<Request>, k: string, j: string)
    requires NonDecreasing(rs) && k in Ids(rs) && j in Since(rs, k)
    ensures LastUse(rs, k) <= LastUse(rs, j)
    decreases |rs|
  {
    hide Ids, Since, LastUse, NonDecreasing;
    assert |rs| > 0 by { NoIds(rs, k); }
    var init, last := rs[..|rs| - 1], rs[|rs| - 1];
    assert rs == init + [last];
    IdsLast(init, last);
    SinceLast(init, last, k);
    SinceLast(init, last, j);
    if last.id != k {
      if last.id == j {
        var i := LastUseAt(init, k);
        NotLater(rs, i, |init|);
      } else {
        Prefix(init, [last]);
        LaterUse(init, k, j);
      }
    }
  }

  lemma NotLater(rs: seq<Request>, i: nat, j: nat)
    requires NonDecreasing(rs) && i < j < |rs|
    ensures rs[i].now <= rs[j].now
  {
  }

  lemma SinceLast(init: seq<Request>, last: Request, k: string)
    ensures Since(init + [last], k) ==
      if last.id == k then {k} else if Since(init, k) == {} then {} else Since(init, k) + {last.id}
    ensures LastUse(init + [last], k) == if last.id == k then last.now else LastUse(init, k)
  {
    assert (init + [last])[..|init|] == init;
  }

  lemma Prefix(rs: seq<Request>, more: seq<Request>)
    requires NonDecreasing(rs + more)
    ensures NonDecreasing(rs)
  {
    assert forall i :: 0 <= i < |rs| ==> (rs + more)[i] == rs[i];
  }

  lemma SubsetSize(a: set<string>, b: set<string>)
    requires a <= b
    ensures |a| <= |b|
    ensures |a| == |b| ==> a == b
  {
    assert b == a + (b - a);
  }

  // ---------- The residents are the newest ids ----------

  /** The lanes are those of the last `|lanes|` distinct ids. */
  ghost predicate NewestIds(lanes: map<string, Lane>, rs: seq<Request>) {
    forall k :: k in lanes <==> AmongLast(rs, k, |lanes|)
  }

  /** The same, and each has its last use. */
  ghost predicate Newest(lanes: map<string, Lane>, rs: seq<Request>) {
    && NewestIds(lanes, rs)
    && (forall k :: k in lanes ==> lanes[k].lastUsedMs == LastUse(rs, k))
  }

  lemma AmongIsRequested(rs: seq<Request>, k: string, n: nat)
    requires AmongLast(rs, k, n)
    ensures k in Ids(rs)
  {
    hide Since;
    SinceBasics(rs, k);
  }

  /** Another id keeps its rank where `last.id` was requested since, and otherwise loses one. */
  lemma Shifted(init: seq<Request>, last: Request, k: string)
    requires k != last.id
    ensures last.id in Since(init, k) ==>
            |Since(init + [last], k)| == |Since(init, k)| && |Since(init, last.id)| < |Since(init, k)|
    ensures last.id !in Since(init, k) && k in Ids(init) ==>
            && |Since(init + [last], k)| == |Since(init, k)| + 1
            && (last.id in Ids(init) ==> |Since(init, last.id)| > |Since(init, k)|)
    ensures k !in Ids(init) ==> Since(init + [last], k) == {}
  {
    hide Since, LastUse, Ids;
    var r := last.id;
    SinceLast(init, last, k);
    SinceBasics(init, k);
    SinceBasics(init, r);
    if k in Ids(init) && r in Ids(init) {
      SinceChain(init, k, r);
      SinceChain(init, r, k);
      ProperSize(Since(init, r), Since(init, k), k);
      ProperSize(Since(init, k), Since(init, r), r);
    }
    if r in Since(init, k) {
      assert Since(init, k) + {r} == Since(init, k);
    }
  }

  lemma ProperSize(a: set<string>, b: set<string>, x: string)
    ensures a <= b && x in b && x !in a ==> |a| < |b|
  {
    if a <= b && x in b && x !in a { SubsetSize(a, b - {x}); }
  }

  /** A request of a resident id moves it to the front; the resident set stays. */
  lemma TouchNewest(lanes: map<string, Lane>, init: seq<Request>, last: Request)
    requires Newest(lanes, init) && last.id in lanes
    ensures Newest(lanes[last.id := lanes[last.id].(lastUsedMs := last.now)], init + [last])
  {
    hide Since, LastUse, Ids;
    var rs := init + [last];
    var q := lanes[last.id := lanes[last.id].(lastUsedMs := last.now)];
    assert q.Keys == lanes.Keys;
    assert |q| == |q.Keys| == |lanes|;
    AmongIsRequested(init, last.id, |lanes|);
    FrontRank(init, last);
    forall k ensures k in lanes <==> AmongLast(rs, k, |lanes|) {
      if k != last.id {
        Shifted(init, last, k);
        SinceBasics(init, k);
      }
    }
    forall k | k in q ensures q[k].lastUsedMs == LastUse(rs, k) {
      SinceLast(init, last, k);
    }
  }

  lemma FrontRank(init: seq<Request>, last: Request)
    ensures |Since(init + [last], last.id)| == 1
  {
    hide Since;
    SinceLast(init, last, last.id);
  }

  /** A new lane comes first, whatever was evicted or refused before it. */
  lemma AdmitNewest(lanes: map<string, Lane>, init: seq<Request>, last: Request, lane: Lane)
    requires Newest(lanes, init) && last.id !in lanes && lane.lastUsedMs == last.now
    ensures Newest(lanes[last.id := lane], init + [last])
  {
    hide Since, LastUse, Ids;
    var rs := init + [last];
    var q := lanes[last.id := lane];
    assert q.Keys == lanes.Keys + {last.id};
    assert |q| == |q.Keys| == |lanes| + 1;
    FrontRank(init, last);
    SinceBasics(init, last.id);
    forall k ensures k in q <==> AmongLast(rs, k, |q|) {
      if k != last.id { AdmittedRank(lanes, init, last, k); }
    }
    forall k | k in q ensures q[k].lastUsedMs == LastUse(rs, k) {
      SinceLast(init, last, k);
    }
  }

  lemma AdmittedRank(lanes: map<string, Lane>, init: seq<Request>, last: Request, k: string)
    requires NewestIds(lanes, init) && last.id !in lanes && k != last.id
    ensures k in lanes <==> AmongLast(init + [last], k, |lanes| + 1)
  {
    hide Since, Ids;
    SinceBasics(init, last.id);
    Shifted(init, last, k);
    SinceBasics(init, k);
  }

  lemma OldestInPool(lanes: map<string, Lane>)
    requires lanes != map[]
    ensures Oldest(lanes) in lanes && IsOldest(lanes, Oldest(lanes))
  {
  }

  // ---------- Evicting a lane ----------

  /** Of some ids requested, the one whose last use is the earliest. */
  lemma {:induction false} Earliest(rs: seq<Request>, keys: set<string>) returns (e: string)
    requires keys <= Ids(rs) && keys != {}
    ensures e in keys && keys <= Since(rs, e)
    decreases |keys|
  {
    hide Ids, Since;
    var some :| some in keys;
    SinceBasics(rs, some);
    if keys == {some} {
      e := some;
    } else {
      e := Earliest(rs, keys - {some});
      SinceChain(rs, some, e);
      if some !in Since(rs, e) { e := some; }
    }
  }

  /** Since the last use of one of the residents, exactly the residents were requested. */
  lemma LastResident(lanes: map<string, Lane>, rs: seq<Request>) returns (e: string)
    requires Newest(lanes, rs) && lanes != map[]
    ensures e in lanes && Since(rs, e) == lanes.Keys
  {
    hide Since, Ids, LastUse;
    ResidentsRequested(lanes, rs);
    assert lanes.Keys != {} by { var x :| x in lanes; assert x in lanes.Keys; }
    e := Earliest(rs, lanes.Keys);
    SubsetSize(lanes.Keys, Since(rs, e));
    assert |lanes| == |lanes.Keys|;
  }

  lemma SinceResident(lanes: map<string, Lane>, rs: seq<Request>, e: string, k: string)
    requires Newest(lanes, rs) && e in lanes && Since(rs, e) == lanes.Keys && k in lanes && k != e
    ensures |Since(rs, k)| < |lanes|
  {
    hide Since, LastUse, Ids;
    AmongIsRequested(rs, e, |lanes|);
    AmongIsRequested(rs, k, |lanes|);
    SinceBasics(rs, e);
    SinceChain(rs, e, k);
    ProperSize(Since(rs, k), Since(rs, e), e);
    assert |lanes| == |lanes.Keys|;
  }

  /** Evicting the resident used first leaves the last ids but one. */
  lemma EvictLast(lanes: map<string, Lane>, rs: seq<Request>, e: string)
    requires Newest(lanes, rs) && e in lanes && Since(rs, e) == lanes.Keys
    ensures Newest(lanes - {e}, rs)
  {
    hide Since, LastUse, Ids;
    var q := lanes - {e};
    assert q.Keys == lanes.Keys - {e};
    assert |q| == |q.Keys| == |lanes.Keys| - 1 && |lanes| == |lanes.Keys|;
    forall k ensures k in q <==> AmongLast(rs, k, |q|) {
      if k in lanes && k != e { SinceResident(lanes, rs, e, k); }
    }
  }

  /** Evicting any other one leaves a resident that is no longer among the last ids. */
  lemma EvictOther(lanes: map<string, Lane>, rs: seq<Request>, e: string, o: string)
    requires e in lanes && Since(rs, e) == lanes.Keys && o in lanes && o != e
    ensures !NewestIds(lanes - {o}, rs)
  {
    hide Since;
    var q := lanes - {o};
    assert q.Keys == lanes.Keys - {o};
    assert |q| == |q.Keys| == |lanes.Keys| - 1;
    assert e in q && !AmongLast(rs, e, |q|);
  }

  /** The same where a new lane is admitted then. */
  lemma AdmitAfterOther(lanes: map<string, Lane>, rs: seq<Request>, e: string, o: string, last: Request, lane: Lane)
    requires e in lanes && Since(rs, e) == lanes.Keys && o in lanes && o != e && last.id !in lanes
    ensures var q := (lanes - {o})[last.id := lane];
      !NewestIds(q, rs + [last]) && e in q && !AmongLast(rs + [last], e, |lanes|)
  {
    hide Since, Ids;
    var q := (lanes - {o})[last.id := lane];
    assert q.Keys == lanes.Keys - {o} + {last.id};
    assert |q| == |q.Keys| == |lanes.Keys| == |lanes|;
    SinceBasics(rs, e);
    Shifted(rs, last, e);
    assert e in q && !AmongLast(rs + [last], e, |q|);
  }

  /** The resident whose last use is the `n`th from the end has the smallest key of those last
      used in the same millisecond. */
  predicate TieBroken(rs: seq<Request>, n: nat) {
    forall e, j :: e in Ids(rs) && |Since(rs, e)| == n && j in Since(rs, e) && j != e
      && LastUse(rs, j) == LastUse(rs, e)
      ==> KeyLess(e, j)
  }

  /** The oldest lane is the one used first exactly where the tie, if any, is broken in its favour. */
  lemma OldestIsLast(lanes: map<string, Lane>, rs: seq<Request>, e: string)
    requires NonDecreasing(rs) && Newest(lanes, rs) && e in lanes && Since(rs, e) == lanes.Keys
    ensures Oldest(lanes) == e <==> TieBroken(rs, |lanes|)
  {
    hide Since, LastUse, Ids, NonDecreasing, Oldest, KeyLess;
    OldestInPool(lanes);
    AmongIsRequested(rs, e, |lanes|);
    assert |lanes| == |lanes.Keys|;
    if TieBroken(rs, |lanes|) {
      forall j | j in lanes && j != e ensures Before(lanes, e, j) {
        assert j in Since(rs, e);
        LaterUse(rs, e, j);
      }
      OldestUnique(lanes, e, Oldest(lanes));
    }
    if Oldest(lanes) == e {
      forall x, j | x in Ids(rs) && |Since(rs, x)| == |lanes| && j in Since(rs, x) && j != x
        && LastUse(rs, j) == LastUse(rs, x)
        ensures KeyLess(x, j)
      {
        assert AmongLast(rs, x, |lanes|);
        if x != e { SinceResident(lanes, rs, e, x); }
        assert j in lanes.Keys && Before(lanes, e, j);
      }
    }
  }

  /** An eviction leaves the last ids but one if and only if ties are broken in favour of the lane
      used first. */
  lemma EvictNewest(p: Pool, rs: seq<Request>)
    requires NonDecreasing(rs) && Newest(p.lanes, rs) && p.lanes != map[]
    ensures if TieBroken(rs, |p.lanes|) then Newest(Evict(p).lanes, rs) else !NewestIds(Evict(p).lanes, rs)
  {
    hide Newest, NewestIds, NonDecreasing, TieBroken, Clear, Oldest, IsOldest, Since;
    var e := LastResident(p.lanes, rs);
    OldestIsLast(p.lanes, rs, e);
    OldestInPool(p.lanes);
    OldestResides(p.lanes);
    if Oldest(p.lanes) == e {
      EvictLast(p.lanes, rs, e);
    } else {
      EvictOther(p.lanes, rs, e, Oldest(p.lanes));
    }
  }

  lemma OldestResides(lanes: map<string, Lane>)
    requires lanes != map[]
    ensures Oldest(lanes) in lanes
  {
    OldestInPool(lanes);
  }

  // ---------- One request ----------

  /** A request of a new id finds the pool full. */
  predicate MakesRoom(p: Pool, id: string, uuid: nat) {
    uuid != 0 && id !in p.lanes && |p.lanes| == MAX_AGENT_LANES
  }

  /** A granted request keeps the lanes the newest, counting itself; a refused one, which may
      have evicted a lane, keeps them the newest of the requests before it. Both do so if and only
      if ties are broken rightly where a lane is evicted. */
  lemma LaneForNewest(p: Pool, rs: seq<Request>, id: string, uuid: nat, now: int, init: InitOutcome)
    requires Newest(p.lanes, rs) && NonDecreasing(rs) && |p.lanes| <= MAX_AGENT_LANES
    ensures var (q, error) := LaneFor(p, id, uuid, now, init);
      var served := if error.None? then rs + [Request(id, now)] else rs;
      if MakesRoom(p, id, uuid) ==> TieBroken(rs, MAX_AGENT_LANES) then Newest(q.lanes, served)
      else !NewestIds(q.lanes, served)
  {
    hide Newest, NewestIds, NonDecreasing, TieBroken, Evict;
    var last := Request(id, now);
    if uuid != 0 && id in p.lanes {
      TouchNewest(p.lanes, rs, last);
    } else if uuid != 0 && |p.lanes| < MAX_AGENT_LANES {
      if p.hasKeymap && init.Ready? { AdmitNewest(p.lanes, rs, last, FirstLane(p, now)); }
    } else if uuid != 0 {
      EvictingNewest(p, rs, id, uuid, now, init);
    }
  }

  function FirstLane(p: Pool, now: int): Lane {
    Lane(p.nextSeat, None, Point(0.0, 0.0), true, now, [])
  }

  lemma EvictingNewest(p: Pool, rs: seq<Request>, id: string, uuid: nat, now: int, init: InitOutcome)
    requires Newest(p.lanes, rs) && NonDecreasing(rs) && MakesRoom(p, id, uuid)
    ensures var (q, error) := LaneFor(p, id, uuid, now, init);
      var served := if error.None? then rs + [Request(id, now)] else rs;
      if TieBroken(rs, MAX_AGENT_LANES) then Newest(q.lanes, served) else !NewestIds(q.lanes, served)
  {
    hide Newest, NewestIds, NonDecreasing, TieBroken, Clear, Oldest, IsOldest, Since;
    assert p.lanes != map[];
    EvictNewest(p, rs);
    var last, q := Request(id, now), Evict(p);
    if p.hasKeymap && init.Ready? {
      if TieBroken(rs, MAX_AGENT_LANES) {
        AdmitNewest(q.lanes, rs, last, FirstLane(q, now));
      } else {
        var e := LastResident(p.lanes, rs);
        OldestIsLast(p.lanes, rs, e);
        OldestResides(p.lanes);
        AdmitAfterOther(p.lanes, rs, e, Oldest(p.lanes), last, FirstLane(q, now));
      }
    }
  }

  /** As many lanes as distinct ids, up to four: what no refused request has disturbed. */
  ghost predicate Filled(p: Pool, rs: seq<Request>) {
    |p.lanes| == if |Ids(rs)| < MAX_AGENT_LANES then |Ids(rs)| else MAX_AGENT_LANES
  }

  lemma LaneForFilled(p: Pool, rs: seq<Request>, id: string, uuid: nat, now: int, init: InitOutcome)
    requires Newest(p.lanes, rs) && Filled(p, rs) && LaneFor(p, id, uuid, now, init).1.None?
    ensures Filled(LaneFor(p, id, uuid, now, init).0, rs + [Request(id, now)])
  {
    hide Newest, Ids, LaneFor;
    IdsLast(rs, Request(id, now));
    ResidentsRequested(p.lanes, rs);
    SubsetSize(p.lanes.Keys, Ids(rs));
    SubsetSize(Ids(rs), Ids(rs) + {id});
    assert |p.lanes| == |p.lanes.Keys|;
    assert id in Ids(rs) ==> Ids(rs) + {id} == Ids(rs);
    GrantedSize(p, id, uuid, now, init);
  }

  lemma GrantedSize(p: Pool, id: string, uuid: nat, now: int, init: InitOutcome)
    requires |p.lanes| <= MAX_AGENT_LANES && LaneFor(p, id, uuid, now, init).1.None?
    ensures var n := |LaneFor(p, id, uuid, now, init).0.lanes|;
      n == if id in p.lanes || |p.lanes| == MAX_AGENT_LANES then |p.lanes| else |p.lanes| + 1
  {
    hide Clear, IsOldest;
    var q := LaneFor(p, id, uuid, now, init).0;
    assert |p.lanes| == |p.lanes.Keys| && |q.lanes| == |q.lanes.Keys|;
    if id in p.lanes {
      assert q.lanes.Keys == p.lanes.Keys;
    } else if |p.lanes| < MAX_AGENT_LANES {
      assert q.lanes.Keys == p.lanes.Keys + {id};
    } else {
      OldestInPool(p.lanes);
      assert q.lanes.Keys == p.lanes.Keys - {Oldest(p.lanes)} + {id};
    }
  }

  lemma ResidentsRequested(lanes: map<string, Lane>, rs: seq<Request>)
    requires Newest(lanes, rs)
    ensures lanes.Keys <= Ids(rs)
  {
    hide Since, Ids;
    forall k | k in lanes ensures k in Ids(rs) {
      AmongIsRequested(rs, k, |lanes|);
    }
  }

  // ---------- A run of granted requests ----------

  /** The pool holds the last four ids, with their last use. */
  ghost predicate Tracks(p: Pool, rs: seq<Request>) {
    && p.hasKeymap
    && (forall k :: k in p.lanes <==> AmongLast(rs, k, MAX_AGENT_LANES))
    && (forall k :: k in p.lanes ==> p.lanes[k].lastUsedMs == LastUse(rs, k))
    && |p.lanes| == if |Ids(rs)| < MAX_AGENT_LANES then |Ids(rs)| else MAX_AGENT_LANES
  }

  /** Being among the last of a filled pool's ids is being among the last four. */
  lemma FilledTracks(p: Pool, rs: seq<Request>)
    requires p.hasKeymap && Newest(p.lanes, rs) && Filled(p, rs)
    ensures Tracks(p, rs)
  {
    hide Since, LastUse, Ids;
    forall k ensures k in p.lanes <==> AmongLast(rs, k, MAX_AGENT_LANES) {
      SinceBasics(rs, k);
      SubsetSize(Since(rs, k), Ids(rs));
    }
  }

  /** A request of `id` behind `rs` evicts a lane. */
  predicate Evicting(rs: seq<Request>, id: string) {
    |Ids(rs)| >= MAX_AGENT_LANES && !AmongLast(rs, id, MAX_AGENT_LANES)
  }

  /** At every eviction ties are broken in favour of the lane used first. */
  predicate InOrder(rs: seq<Request>) {
    forall i :: 0 <= i < |rs| && Evicting(rs[..i], rs[i].id) ==> TieBroken(rs[..i], MAX_AGENT_LANES)
  }

  lemma InOrderLast(init: seq<Request>, last: Request)
    ensures InOrder(init + [last]) <==>
            InOrder(init) && (Evicting(init, last.id) ==> TieBroken(init, MAX_AGENT_LANES))
  {
    hide Evicting, TieBroken;
    var rs := init + [last];
    assert rs[..|init|] == init && rs[|init|] == last;
    forall i | 0 <= i < |init| ensures rs[..i] == init[..i] && rs[i] == init[i] {
    }
  }

  /** In a filled pool it is the requests of new ids behind four that make room. */
  lemma EvictingMakesRoom(p: Pool, rs: seq<Request>, id: string)
    requires Newest(p.lanes, rs) && Filled(p, rs)
    ensures MakesRoom(p, id, 1) <==> Evicting(rs, id)
  {
    hide AmongLast, Ids;
  }

  lemma {:induction false} ServeNewest(rs: seq<Request>)
    requires NonDecreasing(rs) && InOrder(rs)
    ensures Serve(rs).hasKeymap && Newest(Serve(rs).lanes, rs) && Filled(Serve(rs), rs)
  {
    hide LaneFor, Newest, NewestIds, Filled, NonDecreasing, InOrder, Evicting, TieBroken, MakesRoom;
    if rs == [] {
      NothingYet();
    } else {
      var init, last := rs[..|rs| - 1], rs[|rs| - 1];
      assert rs == init + [last] && last == Request(last.id, last.now);
      Prefix(init, [last]);
      InOrderLast(init, last);
      ServeNewest(init);
      FilledSize(Serve(init), init);
      EvictingMakesRoom(Serve(init), init, last.id);
      GrantedWhenReady(Serve(init), last.id, 1, last.now);
      LaneForNewest(Serve(init), init, last.id, 1, last.now, Ready);
      LaneForFilled(Serve(init), init, last.id, 1, last.now, Ready);
    }
  }

  lemma FilledSize(p: Pool, rs: seq<Request>)
    requires Filled(p, rs)
    ensures |p.lanes| <= MAX_AGENT_LANES
  {
  }

  lemma NothingYet()
    ensures Newest(map[], []) && Filled(EMPTY_POOL, [])
  {
    assert Ids([]) == {};
  }

  /** Where lanes can be initialised, a request is refused for its id's text alone. */
  lemma GrantedWhenReady(p: Pool, id: string, uuid: nat, now: int)
    requires p.hasKeymap
    ensures LaneFor(p, id, uuid, now, Ready).1.None? <==> uuid != 0
    ensures LaneFor(p, id, uuid, now, Ready).0.hasKeymap
  {
    hide Clear, Oldest;
  }

  lemma RunTracks(rs: seq<Request>)
    requires NonDecreasing(rs) && InOrder(rs)
    ensures Tracks(Serve(rs), rs)
  {
    hide Serve, Newest, Filled, Tracks, NonDecreasing, InOrder;
    ServeNewest(rs);
    FilledTracks(Serve(rs), rs);
  }

  /** The ids since the last use are those from the last request of `k` on. */
  lemma {:induction false} SinceIsSuffix(rs: seq<Request>, k: string) returns (i: nat)
    requires k in Ids(rs)
    ensures i < |rs| && rs[i].id == k && Since(rs, k) == Ids(rs[i..])
    ensures forall j :: i < j < |rs| ==> rs[j].id != k
  {
    var init, last := rs[..|rs| - 1], rs[|rs| - 1];
    assert rs == init + [last];
    IdsLast(init, last);
    if last.id == k {
      i := |rs| - 1;
      assert rs[i..] == [] + [last] && Ids([]) == {};
      IdsLast([], last);
    } else {
      i := SinceIsSuffix(init, k);
      SinceBasics(init, k);
      assert rs[i..] == init[i..] + [last];
      IdsLast(init[i..], last);
    }
  }

  /** From one of its requests on, at most `n` distinct ids were requested. */
  predicate WithinLast(rs: seq<Request>, k: string, n: nat) {
    exists i :: 0 <= i < |rs| && rs[i].id == k && |Ids(rs[i..])| <= n
  }

  lemma AmongLastMeans(rs: seq<Request>, k: string, n: nat)
    ensures AmongLast(rs, k, n) <==> WithinLast(rs, k, n)
  {
    hide Since, Ids;
    SinceBasics(rs, k);
    if AmongLast(rs, k, n) {
      var i := SinceIsSuffix(rs, k);
    }
    if i :| 0 <= i < |rs| && rs[i].id == k && |Ids(rs[i..])| <= n {
      assert k in Ids(rs) by { RequestedId(rs, i); }
      var j := SinceIsSuffix(rs, k);
      SuffixIds(rs, i, j);
      SubsetSize(Ids(rs[j..]), Ids(rs[i..]));
    }
  }

  /** The lanes are those of the last `n` distinct ids requested. */
  ghost predicate HoldsLast(lanes: map<string, Lane>, rs: seq<Request>, n: nat) {
    forall k :: k in lanes <==> WithinLast(rs, k, n)
  }

  /** The refinement: where evictions are in order, the residents are exactly the last four distinct
      ids requested. */
  lemma LeastRecentlyUsed(rs: seq<Request>)
    requires NonDecreasing(rs) && InOrder(rs)
    ensures HoldsLast(Serve(rs).lanes, rs, MAX_AGENT_LANES)
    ensures |Serve(rs).lanes| <= MAX_AGENT_LANES
  {
    hide AmongLast, WithinLast, LastUse, Ids, NonDecreasing, InOrder, Serve;
    RunTracks(rs);
    forall k ensures AmongLast(rs, k, MAX_AGENT_LANES) <==> WithinLast(rs, k, MAX_AGENT_LANES) {
      AmongLastMeans(rs, k, MAX_AGENT_LANES);
    }
  }

  /** The pool serves `rs` least recently used: the residents are the last four ids all along. */
  ghost predicate ServesLru(rs: seq<Request>) {
    forall i :: 0 <= i <= |rs| ==> HoldsLast(Serve(rs[..i]).lanes, rs[..i], MAX_AGENT_LANES)
  }

  lemma ServesLruLast(init: seq<Request>, last: Request)
    ensures ServesLru(init + [last]) <==>
            ServesLru(init) && HoldsLast(Serve(init + [last]).lanes, init + [last], MAX_AGENT_LANES)
  {
    hide HoldsLast, Serve;
    var rs := init + [last];
    assert rs[..|rs|] == rs;
    forall i | 0 <= i <= |init| ensures rs[..i] == init[..i] {
    }
  }

  /** Over every run on a clock that does not go back, the pool is least recently used if and only
      if every eviction that meets a tie finds the lane used first under the smallest key. */
  lemma {:induction false} LruExactly(rs: seq<Request>)
    requires NonDecreasing(rs)
    ensures ServesLru(rs) <==> InOrder(rs)
    decreases |rs|
  {
    hide HoldsLast, Serve, NonDecreasing, InOrder, ServesLru, TieBroken, Evicting;
    if rs == [] {
      NothingServed();
    } else {
      var init, last := rs[..|rs| - 1], rs[|rs| - 1];
      assert rs == init + [last];
      Prefix(init, [last]);
      LruExactly(init);
      InOrderLast(init, last);
      ServesLruLast(init, last);
      if InOrder(rs) {
        LeastRecentlyUsed(rs);
      } else if InOrder(init) {
        OutOfOrder(init, last);
      }
    }
  }

  lemma NothingServed()
    ensures ServesLru([]) && InOrder([])
  {
    hide LaneFor;
  }

  /** The first eviction out of order leaves a resident that is not among the last four. */
  lemma OutOfOrder(init: seq<Request>, last: Request)
    requires NonDecreasing(init) && InOrder(init) && Evicting(init, last.id) && !TieBroken(init, MAX_AGENT_LANES)
    ensures !HoldsLast(Serve(init + [last]).lanes, init + [last], MAX_AGENT_LANES)
  {
    hide Serve, NonDecreasing, InOrder, TieBroken, Evicting, AmongLast, WithinLast, Since, Oldest, IsOldest, Filled,
         Newest;
    var p := Serve(init);
    ServeNewest(init);
    FilledSize(p, init);
    EvictingMakesRoom(p, init, last.id);
    assert p.lanes != map[];
    var e := LastResident(p.lanes, init);
    OldestIsLast(p.lanes, init, e);
    OldestResides(p.lanes);
    ServedLast(init, last);
    AdmitAfterOther(p.lanes, init, e, Oldest(p.lanes), last, FirstLane(p, last.now));
    AmongLastMeans(init + [last], e, MAX_AGENT_LANES);
    assert e in Serve(init + [last]).lanes.Keys;
  }

  /** A clock that moves on with every request leaves no ties. */
  lemma IncreasingInOrder(rs: seq<Request>)
    requires Increasing(rs)
    ensures NonDecreasing(rs) && InOrder(rs)
  {
    hide Evicting, TieBroken;
    forall i | 0 <= i < |rs| ensures TieBroken(rs[..i], MAX_AGENT_LANES) {
      assert forall j :: 0 <= j < i ==> rs[..i][j] == rs[j];
      NoTies(rs[..i], MAX_AGENT_LANES);
    }
  }

  lemma NoTies(rs: seq<Request>, n: nat)
    requires Increasing(rs)
    ensures TieBroken(rs, n)
  {
    hide Ids, Since, LastUse, Increasing, KeyLess;
    forall e, j | e in Ids(rs) && j in Since(rs, e) && j != e ensures LastUse(rs, j) != LastUse(rs, e) {
      SinceBasics(rs, e);
      DistinctUses(rs, e, j);
    }
  }

  lemma DistinctUses(rs: seq<Request>, e: string, j: string)
    requires Increasing(rs) && e in Ids(rs) && j in Ids(rs) && j != e
    ensures LastUse(rs, j) != LastUse(rs, e)
  {
    hide Ids, LastUse;
    var m := LastUseAt(rs, e);
    var n := LastUseAt(rs, j);
  }

  lemma RequestedId(rs: seq<Request>, i: nat)
    requires i < |rs|
    ensures rs[i].id in Ids(rs)
  {
  }

  lemma SuffixIds(rs: seq<Request>, i: nat, j: nat)
    requires i <= j <= |rs|
    ensures Ids(rs[j..]) <= Ids(rs[i..])
  {
    forall x | x in Ids(rs[j..]) ensures x in Ids(rs[i..]) {
      var n :| 0 <= n < |rs[j..]| && rs[j..][n].id == x;
      assert rs[i..][j - i + n].id == x;
    }
  }

  // ---------- Requests at the same time ----------

  predicate Distinct(rs: seq<Request>) {
    forall i, j :: 0 <= i < j < |rs| ==> rs[i].id != rs[j].id
  }

  /** Of five distinct ids the fifth evicts the smallest key among those requested in the first
      millisecond, and that is in order exactly if it is the key requested first. */
  lemma TieEvictsByKey(rs: seq<Request>, e: nat)
    requires |rs| == MAX_AGENT_LANES + 1 && Distinct(rs) && NonDecreasing(rs) && e < MAX_AGENT_LANES
    requires rs[e].now == rs[0].now
    requires forall j :: 0 <= j < MAX_AGENT_LANES && j != e && rs[j].now == rs[0].now ==> KeyLess(rs[e].id, rs[j].id)
    ensures Serve(rs).lanes.Keys == Ids(rs) - {rs[e].id}
    ensures ServesLru(rs) <==> e == 0
  {
    hide Serve, LaneFor, Ids, KeyLess, Oldest, NonDecreasing, ServesLru, HoldsLast, Since, InOrder;
    var init, last := rs[..MAX_AGENT_LANES], rs[MAX_AGENT_LANES];
    assert rs == init + [last];
    FewServed(init);
    var lanes := Serve(init).lanes;
    forall j | j in lanes && j != rs[e].id ensures Before(lanes, rs[e].id, j) {
      assert j in Ids(init);
      var n := IndexOf(init, j);
      if n > 0 { NotLater(rs, 0, n); }
    }
    RequestedId(init, e);
    assert init[e].id == rs[e].id && rs[e].id in lanes.Keys;
    OldestInPool(lanes);
    assert IsOldest(lanes, rs[e].id);
    OldestUnique(lanes, Oldest(lanes), rs[e].id);
    IdsLast(init, last);
    NotAmong(init, last);
    ServedLast(init, last);
    assert rs[e].id != last.id;
    FiveServed(init, last);
    assert e > 0 ==> rs[0].id != rs[e].id;
  }

  lemma IndexOf(rs: seq<Request>, k: string) returns (i: nat)
    requires k in Ids(rs)
    ensures i < |rs| && rs[i].id == k
  {
    i :| 0 <= i < |rs| && rs[i].id == k;
  }

  lemma NotAmong(init: seq<Request>, last: Request)
    requires Distinct(init + [last])
    ensures last.id !in Ids(init)
  {
    var rs := init + [last];
    forall i | 0 <= i < |init| ensures init[i].id != last.id {
      assert rs[i].id != rs[|init|].id;
    }
  }

  lemma ServedLast(init: seq<Request>, last: Request)
    requires Serve(init).hasKeymap && last.id !in Serve(init).lanes && |Serve(init).lanes| <= MAX_AGENT_LANES
    ensures var p, q := Serve(init), Serve(init + [last]);
      && q.hasKeymap && last.id in q.lanes && q.lanes[last.id].lastUsedMs == last.now
      && (|p.lanes| == MAX_AGENT_LANES ==>
         p.lanes != map[] && q.lanes.Keys == p.lanes.Keys - {Oldest(p.lanes)} + {last.id})
      && (|p.lanes| < MAX_AGENT_LANES ==> q.lanes.Keys == p.lanes.Keys + {last.id})
      && (forall k :: k in q.lanes && k != last.id ==> k in p.lanes && q.lanes[k] == p.lanes[k])
  {
    hide LaneFor, Oldest;
    assert (init + [last])[..|init|] == init;
    assert Serve(init + [last]) == LaneFor(Serve(init), last.id, 1, last.now, Ready).0;
    if |Serve(init).lanes| == MAX_AGENT_LANES {
      EvictLanes(Serve(init), last.id, last.now);
    } else {
      AddLane(Serve(init), last.id, last.now);
    }
  }

  /** The lanes of a full pool after a request of a new id. */
  lemma EvictLanes(p: Pool, id: string, now: int)
    requires p.hasKeymap && id !in p.lanes && |p.lanes| == MAX_AGENT_LANES
    ensures p.lanes != map[]
    ensures var q := LaneFor(p, id, 1, now, Ready).0;
      && q.hasKeymap && id in q.lanes && q.lanes[id].lastUsedMs == now
      && q.lanes.Keys == p.lanes.Keys - {Oldest(p.lanes)} + {id}
      && forall k :: k in q.lanes && k != id ==> k in p.lanes && q.lanes[k] == p.lanes[k]
  {
    hide Clear, IsOldest;
    assert p.lanes != map[];
  }

  lemma AddLane(p: Pool, id: string, now: int)
    requires p.hasKeymap && id !in p.lanes && |p.lanes| < MAX_AGENT_LANES
    ensures var q := LaneFor(p, id, 1, now, Ready).0;
      && q.hasKeymap && id in q.lanes && q.lanes[id].lastUsedMs == now
      && q.lanes.Keys == p.lanes.Keys + {id}
      && forall k :: k in q.lanes && k != id ==> k in p.lanes && q.lanes[k] == p.lanes[k]
  {
  }

  lemma {:induction false} FewServed(rs: seq<Request>)
    requires |rs| <= MAX_AGENT_LANES && Distinct(rs)
    ensures var p := Serve(rs);
      && p.hasKeymap && |p.lanes| == |rs| && p.lanes.Keys == Ids(rs)
      && (forall i :: 0 <= i < |rs| ==> rs[i].id in p.lanes && p.lanes[rs[i].id].lastUsedMs == rs[i].now)
  {
    hide Serve, LaneFor, Ids, Oldest;
    if rs == [] {
      NothingYet();
      assert Serve(rs) == EMPTY_POOL by { EmptyServed(); }
    } else {
      var init, last := rs[..|rs| - 1], rs[|rs| - 1];
      assert rs == init + [last];
      FewServed(init);
      IdsLast(init, last);
      NotAmong(init, last);
      ServedLast(init, last);
      assert |Serve(rs).lanes| == |Serve(rs).lanes.Keys|;
      forall i | 0 <= i < |rs|
        ensures rs[i].id in Serve(rs).lanes && Serve(rs).lanes[rs[i].id].lastUsedMs == rs[i].now
      {
        if i < |init| {
          assert rs[i] == init[i] && init[i].id in Serve(init).lanes.Keys;
          RequestedId(init, i);
          assert rs[i].id in Serve(rs).lanes.Keys;
        }
      }
    }
  }

  /** Since the first of distinct ids, all of them were requested. */
  lemma {:induction false} FirstSince(rs: seq<Request>)
    requires rs != [] && Distinct(rs)
    ensures Since(rs, rs[0].id) == Ids(rs) && |Ids(rs)| == |rs|
    decreases |rs|
  {
    hide Ids, Since;
    var init, last := rs[..|rs| - 1], rs[|rs| - 1];
    assert rs == init + [last];
    IdsLast(init, last);
    NotAmong(init, last);
    SinceLast(init, last, rs[0].id);
    if init == [] {
      EmptyServed();
    } else {
      FirstSince(init);
      assert init[0] == rs[0];
      RequestedId(init, 0);
    }
  }

  lemma {:induction false} FewInOrder(rs: seq<Request>)
    requires |rs| <= MAX_AGENT_LANES && Distinct(rs)
    ensures InOrder(rs)
  {
    hide InOrder, TieBroken, Ids, AmongLast;
    if rs == [] {
      NothingServed();
    } else {
      var init, last := rs[..|rs| - 1], rs[|rs| - 1];
      assert rs == init + [last];
      FewInOrder(init);
      InOrderLast(init, last);
      if init == [] { EmptyServed(); } else { FirstSince(init); }
    }
  }

  /** Four lanes in order of their requests, and a fifth id: in order exactly where the oldest is
      the first. */
  lemma FiveServed(init: seq<Request>, last: Request)
    requires |init| == MAX_AGENT_LANES && Distinct(init) && last.id !in Ids(init) && NonDecreasing(init + [last])
    ensures Serve(init).lanes != map[]
    ensures ServesLru(init + [last]) <==> Oldest(Serve(init).lanes) == init[0].id
  {
    hide Serve, Ids, Since, LastUse, InOrder, NonDecreasing, ServesLru, TieBroken, Oldest, Newest, Filled;
    Prefix(init, [last]);
    FewInOrder(init);
    ServeNewest(init);
    FewServed(init);
    FirstSince(init);
    RequestedId(init, 0);
    OldestIsLast(Serve(init).lanes, init, init[0].id);
    LruExactly(init + [last]);
    InOrderLast(init, last);
    SinceBasics(init, last.id);
  }

  /** Only the first two requests share a millisecond, and the second one's lane goes. */
  const TWO_TIED := [Request("b", 0), Request("a", 0), Request("c", 1), Request("d", 2), Request("e", 3)]

  lemma TwoTied()
    ensures NonDecreasing(TWO_TIED) && !ServesLru(TWO_TIED)
    ensures Serve(TWO_TIED).lanes.Keys == {"b", "c", "d", "e"}
  {
    hide Serve, ServesLru;
    assert KeyLess("a", "b");
    assert "a"[0] != "b"[0] && "a"[0] != "c"[0] && "a"[0] != "d"[0] && "a"[0] != "e"[0] && "b"[0] != "c"[0];
    assert "b"[0] != "d"[0] && "b"[0] != "e"[0] && "c"[0] != "d"[0] && "c"[0] != "e"[0] && "d"[0] != "e"[0];
    TieEvictsByKey(TWO_TIED, 1);
    forall x ensures x in Ids(TWO_TIED) <==> x in {"a", "b", "c", "d", "e"} {
      assert TWO_TIED[0].id == "b" && TWO_TIED[1].id == "a" && TWO_TIED[2].id == "c";
      assert TWO_TIED[3].id == "d" && TWO_TIED[4].id == "e";
    }
  }

  lemma EmptyServed()
    ensures Serve([]) == EMPTY_POOL && Ids([]) == {}
  {
  }
}
