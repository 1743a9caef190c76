/** The in-process TTL cache and the wallet balance adapter that serves stale answers from it. */
module Cache {
  import opened Common

  datatype Entry<V> = Entry(value: V, expiresAt: real)

  datatype CacheResult<V> = CacheResult(value: V, age: real, ttlRemaining: real) {
    predicate IsExpired() { ttlRemaining <= 0.0 }
  }

  function Lookup<V>(store: map<string, Entry<V>>, key: string): Option<Entry<V>> {
    if key in store then Some(store[key]) else None
  }

  /** get_with_meta on an entry: expired entries are returned too, with nothing remaining. */
  function Meta<V>(e: Entry<V>, ttl: real, now: real): CacheResult<V> {
    CacheResult(e.value, now - (e.expiresAt - ttl), if e.expiresAt - now > 0.0 then e.expiresAt - now else 0.0)
  }

  class TTLCache<V> {
    const ttl: real
    var store: map<string, Entry<V>>

    constructor (ttl: real)
      ensures this.ttl == ttl && store == map[]
    {
      this.ttl := ttl;
      store := map[];
    }

    /** An entry stored at time t is unexpired exactly while its age is below the TTL. */
    method GetWithMeta(key: string, now: real) returns (r: Option<CacheResult<V>>)
      ensures r.Some? <==> key in store
      ensures r.Some? ==> r.value == Meta(store[key], ttl, now)
      ensures r.Some? ==> r.value.value == store[key].value && (r.value.IsExpired() <==> r.value.age >= ttl)
      ensures r.Some? ==> r.value.age == now - (store[key].expiresAt - ttl)
      ensures r.Some? && !r.value.IsExpired() ==> r.value.age + r.value.ttlRemaining == ttl
      ensures r.Some? && r.value.IsExpired() ==> r.value.ttlRemaining == 0.0
    {
      if key !in store { return None; }
      var e := store[key];
      var age := now - (e.expiresAt - ttl);
      var left := e.expiresAt - now;
      if left < 0.0 { left := 0.0; }
      r := Some(CacheResult(e.value, age, left));
    }

    method Set(key: string, value: V, now: real)
      modifies this
      ensures store == old(store)[key := Entry(value, now + ttl)]
    {
      store := store[key := Entry(value, now + ttl)];
    }

    method Invalidate(key: string)
      modifies this
      ensures store == old(store) - {key}
    {
      store := store - {key};
    }
  }

  // ---------------------------------------------------------------------------
  // Balances
  // ---------------------------------------------------------------------------

  datatype Balance = Balance(balances: int, cachedAt: real)

  type Store = map<string, Entry<Balance>>

  /** The parameters of one fetch: what the live source would answer, and the readings of the
      wall clock and of the monotonic clock before and after it is asked. */
  datatype Request = Request(address: string, live: Option<int>, force: bool, asked: real, wall: real, stored: real)

  datatype Answer =
    | FromCache(balance: Balance, ttlRemaining: int)
    | FromLive(balance: Balance)
    | StaleFallback(balance: Balance)
    | FetchFailed

  datatype Event = Fetched(address: string, balance: Balance, at: real) | Invalidated(address: string)

  /** BalanceFetchAdapter.fetch: the new cache, the answer, and the live result if one was stored. */
  function Fetch(ttl: real, store: Store, r: Request): (Store, Answer, seq<Event>) {
    var meta := if r.address in store then Some(Meta(store[r.address], ttl, r.asked)) else None;
    if !r.force && meta.Some? && !meta.value.IsExpired() then
      (store, FromCache(meta.value.value, meta.value.ttlRemaining.Floor), [])
    else match r.live
      case Some(b) =>
        var v := Balance(b, r.wall);
        (store[r.address := Entry(v, r.stored + ttl)], FromLive(v), [Fetched(r.address, v, r.stored)])
      case None =>
        (store, if meta.Some? then StaleFallback(meta.value.value) else FetchFailed, [])
  }

  datatype Op = FetchOp(r: Request) | InvalidateOp(address: string)

  /** The cache after a run, and the log of live results and invalidations. */
  datatype World = World(store: Store, log: seq<Event>)

  function Step(ttl: real, w: World, op: Op): World {
    match op
    case FetchOp(r) => var (store, _, events) := Fetch(ttl, w.store, r); World(store, w.log + events)
    case InvalidateOp(a) => World(w.store - {a}, w.log + [Invalidated(a)])
  }

  function Run(ttl: real, ops: seq<Op>): World {
    if ops == [] then World(map[], []) else Step(ttl, Run(ttl, ops[..|ops| - 1]), ops[|ops| - 1])
  }

  datatype LiveResult = LiveResult(balance: Balance, at: real)

  /** The latest live result for an address since its last invalidation. */
  function Latest(log: seq<Event>, address: string): Option<LiveResult> {
    if log == [] then None
    else
      var e := log[|log| - 1];
      if e.address != address then Latest(log[..|log| - 1], address)
      else if e.Fetched? then Some(LiveResult(e.balance, e.at))
      else None
  }

  /** The cache entry that a live result leaves behind. */
  function EntryOf(latest: Option<LiveResult>, ttl: real): Option<Entry<Balance>> {
    match latest
    case None => None
    case Some(l) => Some(Entry(l.balance, l.at + ttl))
  }

  /** The cache is a function of the log. */
  ghost predicate Mirrors(ttl: real, w: World) {
    forall a :: Lookup(w.store, a) == EntryOf(Latest(w.log, a), ttl)
  }

  lemma LatestAppend(log: seq<Event>, e: Event, a: string)
    ensures Latest(log + [e], a) ==
              if e.address != a then Latest(log, a) else if e.Fetched? then Some(LiveResult(e.balance, e.at)) else None
  {
    assert (log + [e])[..|log|] == log;
  }

  lemma StepKeepsMirror(ttl: real, w: World, op: Op)
    requires Mirrors(ttl, w)
    ensures Mirrors(ttl, Step(ttl, w, op))
  {
    hide Latest;
    var w' := Step(ttl, w, op);
    forall a ensures Lookup(w'.store, a) == EntryOf(Latest(w'.log, a), ttl) {
      assert Lookup(w.store, a) == EntryOf(Latest(w.log, a), ttl);
      match op
      case FetchOp(r) =>
        if Fetch(ttl, w.store, r).2 == [] {
          assert w'.log == w.log;
        } else {
          LatestAppend(w.log, Fetched(r.address, Balance(r.live.value, r.wall), r.stored), a);
        }
      case InvalidateOp(x) =>
        LatestAppend(w.log, Invalidated(x), a);
    }
  }

  lemma {:induction false} RunMirrors(ttl: real, ops: seq<Op>)
    ensures Mirrors(ttl, Run(ttl, ops))
  {
    if ops != [] {
      RunMirrors(ttl, ops[..|ops| - 1]);
      StepKeepsMirror(ttl, Run(ttl, ops[..|ops| - 1]), ops[|ops| - 1]);
    }
  }

  /** After any run of fetches and invalidations, what the next fetch answers is determined by
      the log alone: a cache hit is the latest live result since the last invalidation and is
      younger than the TTL, a stale answer is that same result, and the fetch fails exactly
      when the source fails and no such result exists. */
  lemma AnswersComeFromTheLog(ttl: real, ops: seq<Op>, r: Request)
    ensures var w := Run(ttl, ops);
            var latest := Latest(w.log, r.address);
            var answer := Fetch(ttl, w.store, r).1;
            && (answer.FromCache? <==> !r.force && latest.Some? && r.asked - latest.value.at < ttl)
            && (answer.FromCache? ==> answer.balance == latest.value.balance)
            && (answer.FromCache? ==>
                  answer.ttlRemaining as real <= latest.value.at + ttl - r.asked < answer.ttlRemaining as real + 1.0)
            && (answer.StaleFallback? <==> !answer.FromCache? && r.live.None? && latest.Some?)
            && (answer.StaleFallback? ==> answer.balance == latest.value.balance)
            && (answer.FetchFailed? <==> r.live.None? && latest.None?)
            && (answer.FromLive? <==> !answer.FromCache? && r.live.Some?)
            && (answer.FromLive? ==> answer.balance == Balance(r.live.value, r.wall))
  {
    hide Latest, Run;
    var w := Run(ttl, ops);
    RunMirrors(ttl, ops);
    assert Lookup(w.store, r.address) == EntryOf(Latest(w.log, r.address), ttl);
  }

  class BalanceFetchAdapter {
    const cache: TTLCache<Balance>

    constructor (cache: TTLCache<Balance>)
      ensures this.cache == cache
    {
      this.cache := cache;
    }

    method FetchBalance(r: Request) returns (a: Answer)
      modifies cache
      ensures (cache.store, a) == (Fetch(cache.ttl, old(cache.store), r).0, Fetch(cache.ttl, old(cache.store), r).1)
    {
      var meta := cache.GetWithMeta(r.address, r.asked);
      if !r.force && meta.Some? && !meta.value.IsExpired() {
        return FromCache(meta.value.value, meta.value.ttlRemaining.Floor);
      }
      if r.live.Some? {
        var v := Balance(r.live.value, r.wall);
        cache.Set(r.address, v, r.stored);
        return FromLive(v);
      }
      if meta.Some? {
        return StaleFallback(meta.value.value);
      }
      a := FetchFailed;
    }

    method InvalidateBalance(address: string)
      modifies cache
      ensures cache.store == old(cache.store) - {address}
    {
      cache.Invalidate(address);
    }
  }
}
