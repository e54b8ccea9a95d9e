/**
 The readiness cache: one result, kept for one daemon socket and thirty seconds. Proves what a
 read returns from the history of calls alone.
 */
module ReadinessCache {
  import opened Outcome

  /** Nanoseconds. */
  const CACHE_TTL: int := 30_000_000_000

  datatype SocketIdentity = SocketIdentity(device: nat, inode: nat, modifiedSeconds: int, modifiedNanoseconds: int)

  datatype CachedReadiness<V> = CachedReadiness(socket: SocketIdentity, storedAt: int, value: V)

  /** A call at a monotonic time; `socket` is the identity read for it, none where that fails. */
  datatype Call<V> =
    | Get(now: int, socket: Option<SocketIdentity>)
    | Store(now: int, socket: Option<SocketIdentity>, value: V)
    | Invalidate(now: int)

  /** An error where the identity cannot be read; what a read finds; none for the other calls. */
  datatype Reply<V> = Failed | Found(value: Option<V>) | Done

  predicate Fresh<V>(cached: CachedReadiness<V>, socket: SocketIdentity, now: int) {
    cached.socket == socket && now - cached.storedAt <= CACHE_TTL
  }

  function Answer<V>(entry: Option<CachedReadiness<V>>, call: Call<V>): (Option<CachedReadiness<V>>, Reply<V>) {
    if !call.Invalidate? && call.socket.None? then (entry, Failed)
    else
      match call
      case Invalidate(_) => (None, Done)
      case Store(now, socket, value) => (Some(CachedReadiness(socket.value, now, value)), Done)
      case Get(now, socket) =>
        if entry.None? then (None, Found(None))
        else if Fresh(entry.value, socket.value, now) then (entry, Found(Some(entry.value.value)))
        else (None, Found(None))
  }

  class Cache<V> {
    var entry: Option<CachedReadiness<V>>

    constructor ()
      ensures entry == None
    {
      entry := None;
    }

    method Read(now: int, socket: Option<SocketIdentity>) returns (reply: Reply<V>)
      modifies this
      ensures (entry, reply) == Answer(old(entry), Get(now, socket))
    {
      if socket.None? {
        return Failed;
      }
      if entry.None? {
        return Found(None);
      }
      var cached := entry.value;
      if cached.socket != socket.value || now - cached.storedAt > CACHE_TTL {
        entry := None;
        return Found(None);
      }
      reply := Found(Some(cached.value));
    }

    method Write(now: int, socket: Option<SocketIdentity>, value: V) returns (reply: Reply<V>)
      modifies this
      ensures (entry, reply) == Answer(old(entry), Store(now, socket, value))
    {
      if socket.None? {
        return Failed;
      }
      entry := Some(CachedReadiness(socket.value, now, value));
      reply := Done;
    }

    method Clear(now: int) returns (reply: Reply<V>)
      modifies this
      ensures (entry, reply) == Answer(old(entry), Invalidate(now))
    {
      entry := None;
      reply := Done;
    }
  }

  // ---------- Histories ----------

  function EntryAt<V>(run: seq<Call<V>>, n: nat): Option<CachedReadiness<V>>
    requires n <= |run|
  {
    if n == 0 then None else Answer(EntryAt(run, n - 1), run[n - 1]).0
  }

  function ReplyAt<V>(run: seq<Call<V>>, i: nat): Reply<V>
    requires i < |run|
  {
    Answer(EntryAt(run, i), run[i]).1
  }

  predicate Monotonic<V>(run: seq<Call<V>>) {
    forall i, j :: 0 <= i < j < |run| ==> run[i].now <= run[j].now
  }

  /** The call stores something. */
  predicate Stores<V>(call: Call<V>) {
    call.Store? && call.socket.Some?
  }

  /** The call leaves what `store` stored in place: it stores nothing else, does not invalidate,
      and reads, if at all, under the same socket identity. */
  predicate Spares<V>(call: Call<V>, store: Call<V>)
    requires Stores(store)
  {
    !Stores(call) && !call.Invalidate? && (call.Get? && call.socket.Some? ==> call.socket == store.socket)
  }

  /** The j-th call stored the last result, and nothing up to `n` dropped it but perhaps its age. */
  predicate Latest<V(==)>(run: seq<Call<V>>, j: nat, n: nat)
    requires n <= |run|
  {
    j < n && Stores(run[j]) && forall k :: j < k < n ==> Spares(run[k], run[j])
  }

  /** An entry is what the latest store stored. */
  lemma {:induction false} EntryIsLatest<V>(run: seq<Call<V>>, n: nat) returns (j: nat)
    requires n <= |run| && EntryAt(run, n).Some?
    ensures Latest(run, j, n)
    ensures EntryAt(run, n).value == CachedReadiness(run[j].socket.value, run[j].now, run[j].value)
    decreases n
  {
    if Stores(run[n - 1]) {
      j := n - 1;
    } else {
      j := EntryIsLatest(run, n - 1);
    }
  }

  /** What the latest store stored is still there while no read has come too late for it. */
  lemma {:induction false} LatestIsEntry<V>(run: seq<Call<V>>, j: nat, n: nat)
    requires n <= |run| && Latest(run, j, n)
    requires forall k :: j < k < n ==> run[k].now - run[j].now <= 30_000_000_000
    ensures EntryAt(run, n) == Some(CachedReadiness(run[j].socket.value, run[j].now, run[j].value))
    decreases n
  {
    if j < n - 1 { LatestIsEntry(run, j, n - 1); }
  }

  /** The j-th call is the latest to store, stored the value under the identity the i-th call
      reads, and is not too old for it. */
  predicate StillGood<V(==)>(run: seq<Call<V>>, j: nat, i: nat, value: V)
    requires i < |run| && run[i].Get?
  {
    && Latest(run, j, i) && run[j].value == value && run[i].socket == run[j].socket
    && run[i].now - run[j].now <= 30_000_000_000
  }

  /** A read returns a value exactly when the latest store or invalidation stored it under the
      socket identity read now, at most thirty seconds ago, and every read since that could tell
      saw that identity. */
  lemma GetExactly<V>(run: seq<Call<V>>, i: nat, value: V)
    requires Monotonic(run) && i < |run| && run[i].Get?
    ensures ReplyAt(run, i) == Found(Some(value)) <==> exists j: nat :: StillGood(run, j, i, value)
  {
    if ReplyAt(run, i) == Found(Some(value)) {
      var j := EntryIsLatest(run, i);
      assert StillGood(run, j, i, value);
    }
    if j: nat :| StillGood(run, j, i, value) {
      LatestIsEntry(run, j, i);
    }
  }

  /** What is dropped stays dropped until something is stored. */
  lemma {:induction false} StaysDropped<V>(run: seq<Call<V>>, n: nat, m: nat)
    requires n <= m <= |run| && EntryAt(run, n).None?
    requires forall k :: n <= k < m ==> !Stores(run[k])
    ensures EntryAt(run, m).None?
    ensures forall k :: n <= k < m && run[k].Get? ==> !ReplyAt(run, k).Found? || ReplyAt(run, k).value.None?
    decreases m
  {
    if n < m { StaysDropped(run, n, m - 1); }
  }
}
