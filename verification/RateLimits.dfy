/** The in-process rate limiters: two pruned sliding-window logs and a token bucket. */
module RateLimits {
  import opened Common

  // ---------------------------------------------------------------------------
  // Sliding window: the specification over the full history
  // ---------------------------------------------------------------------------

  /** The entries of a log that are later than `since`. */
  function Later(log: seq<real>, since: real): seq<real> {
    if log == [] then []
    else Later(log[..|log| - 1], since) + if log[|log| - 1] > since then [log[|log| - 1]] else []
  }

  /** How many grants of a history fall in the half-open interval (lo, hi]. */
  function CountIn(log: seq<real>, lo: real, hi: real): nat {
    if log == [] then 0
    else CountIn(log[..|log| - 1], lo, hi) + if lo < log[|log| - 1] <= hi then 1 else 0
  }

  predicate NonDecreasing(log: seq<real>) {
    forall i, j :: 0 <= i < j < |log| ==> log[i] <= log[j]
  }

  predicate NotAfter(log: seq<real>, now: real) {
    forall i :: 0 <= i < |log| ==> log[i] <= now
  }

  /** The rule that the limiters are meant to apply, stated on everything ever granted. */
  predicate Allows(history: seq<real>, limit: int, window: real, now: real) {
    CountIn(history, now - window, now) < limit
  }

  /** The grants that lie in (lo, hi], as a set of positions. */
  ghost function Inside(log: seq<real>, lo: real, hi: real): set<int> {
    set i | 0 <= i < |log| && lo < log[i] <= hi
  }

  lemma {:induction false} CountIsSize(log: seq<real>, lo: real, hi: real)
    ensures CountIn(log, lo, hi) == |Inside(log, lo, hi)|
  {
    if log != [] {
      var init, last := log[..|log| - 1], log[|log| - 1];
      CountIsSize(init, lo, hi);
      if lo < last <= hi {
        assert Inside(log, lo, hi) == Inside(init, lo, hi) + {|log| - 1};
      } else {
        assert Inside(log, lo, hi) == Inside(init, lo, hi);
      }
    }
  }

  /** The rule once more: fewer than `limit` positions of the history hold a time that is
      later than `now - window` and not later than `now`. */
  lemma AllowsIff(history: seq<real>, limit: int, window: real, now: real)
    ensures Allows(history, limit, window, now) <==>
              |set i | 0 <= i < |history| && now - window < history[i] <= now| < limit
  {
    CountIsSize(history, now - window, now);
    assert Inside(history, now - window, now) == set i | 0 <= i < |history| && now - window < history[i] <= now;
  }

  lemma {:induction false} LaterCounts(log: seq<real>, since: real, now: real)
    requires NotAfter(log, now)
    ensures |Later(log, since)| == CountIn(log, since, now)
  {
    if log != [] { LaterCounts(log[..|log| - 1], since, now); }
  }

  /** Pruning twice with an advancing bound is pruning once with the later bound. */
  lemma {:induction false} LaterAgain(log: seq<real>, s: real, t: real)
    requires s <= t
    ensures Later(Later(log, s), t) == Later(log, t)
  {
    if log != [] {
      var init, last := log[..|log| - 1], log[|log| - 1];
      LaterAgain(init, s, t);
      if last > s {
        LaterAppend(Later(init, s), last, t);
      } else {
        assert Later(log, s) == Later(init, s) && Later(log, t) == Later(init, t);
      }
    }
  }

  lemma LaterAppend(log: seq<real>, x: real, t: real)
    ensures Later(log + [x], t) == Later(log, t) + if x > t then [x] else []
  {
    assert (log + [x])[..|log|] == log;
  }

  /** What a pruned log has to do with the full history: they agree on everything the window
      can still see, and the history lies in the past. */
  predicate Prunes(log: seq<real>, history: seq<real>, window: real, clock: real) {
    && NonDecreasing(history) && NotAfter(history, clock)
    && Later(log, clock - window) == Later(history, clock - window)
  }

  lemma PrunesLater(log: seq<real>, history: seq<real>, window: real, clock: real, now: real)
    requires Prunes(log, history, window, clock) && clock <= now
    ensures Prunes(log, history, window, now)
  {
    LaterAgain(log, clock - window, now - window);
    LaterAgain(history, clock - window, now - window);
  }

  /** One call on a pruned log: the decision is that of the full history, and the log
      keeps pruning it. */
  lemma PrunedDecision(log: seq<real>, history: seq<real>, limit: int, window: real, clock: real, now: real)
    requires Prunes(log, history, window, clock) && clock <= now
    ensures var kept := Later(log, now - window);
            && (|kept| < limit <==> Allows(history, limit, window, now))
            && Prunes(kept, history, window, now)
            && Prunes(kept + [now], history + [now], window, now)
  {
    hide Later, CountIn;
    var kept := Later(log, now - window);
    PrunesLater(log, history, window, clock, now);
    LaterAgain(log, now - window, now - window);
    LaterCounts(history, now - window, now);
    LaterAppend(kept, now, now - window);
    LaterAppend(history, now, now - window);
  }

  /** The grant history of one key that obeys the rule at every grant. */
  predicate Obeys(history: seq<real>, limit: int, window: real) {
    history == [] ||
    (Obeys(history[..|history| - 1], limit, window) &&
     Allows(history[..|history| - 1], limit, window, history[|history| - 1]))
  }

  lemma ObeysAppend(history: seq<real>, limit: int, window: real, now: real)
    requires Obeys(history, limit, window) && Allows(history, limit, window, now)
    ensures Obeys(history + [now], limit, window)
  {
    assert (history + [now])[..|history + [now]| - 1] == history;
  }

  lemma {:induction false} CountMonotone(log: seq<real>, lo: real, hi: real, lo': real, hi': real)
    requires lo' <= lo && hi <= hi'
    ensures CountIn(log, lo, hi) <= CountIn(log, lo', hi')
  {
    if log != [] { CountMonotone(log[..|log| - 1], lo, hi, lo', hi'); }
  }

  /** Every interval as long as the window, wherever it starts, holds at most `limit` grants. */
  lemma {:induction false} EveryWindowIsBounded(history: seq<real>, limit: int, window: real, x: real)
    requires NonDecreasing(history) && Obeys(history, limit, window)
    ensures CountIn(history, x, x + window) <= Max(0, limit)
    ensures |set i | 0 <= i < |history| && x < history[i] <= x + window| <= Max(0, limit)
  {
    CountIsSize(history, x, x + window);
    assert Inside(history, x, x + window) == set i | 0 <= i < |history| && x < history[i] <= x + window;
    if history != [] {
      var init, last := history[..|history| - 1], history[|history| - 1];
      EveryWindowIsBounded(init, limit, window, x);
      if x < last <= x + window {
        CountUpTo(init, x, x + window, last);
        CountMonotone(init, x, last, last - window, last);
      }
    }
  }

  lemma {:induction false} CountUpTo(log: seq<real>, lo: real, hi: real, top: real)
    requires NotAfter(log, top) && top <= hi
    ensures CountIn(log, lo, hi) == CountIn(log, lo, top)
  {
    if log != [] { CountUpTo(log[..|log| - 1], lo, hi, top); }
  }

  // ---------------------------------------------------------------------------
  // The two limiters
  // ---------------------------------------------------------------------------

  /** Everything granted so far to one key. */
  ghost function HistoryOf(history: map<string, seq<real>>, key: string): seq<real> {
    if key in history then history[key] else []
  }

  function LogOf(logs: map<string, seq<real>>, key: string): seq<real> {
    if key in logs then logs[key] else []
  }

  predicate KeyOk(log: seq<real>, history: seq<real>, limit: int, window: real, clock: real) {
    Prunes(log, history, window, clock) && Obeys(history, limit, window)
  }

  /** Every key's log prunes its history, and every history obeys the rule. */
  ghost predicate Consistent(logs: map<string, seq<real>>, history: map<string, seq<real>>,
                             limit: int, window: real, clock: real) {
    forall key :: KeyOk(LogOf(logs, key), HistoryOf(history, key), limit, window, clock)
  }

  /** One call for one key, granted or refused, keeps every key consistent. */
  lemma KeyDecision(logs: map<string, seq<real>>, history: map<string, seq<real>>,
                    limit: int, window: real, clock: real, key: string, now: real)
    requires Consistent(logs, history, limit, window, clock) && clock <= now
    ensures var kept := Later(LogOf(logs, key), now - window);
            var past := HistoryOf(history, key);
            && (|kept| < limit <==> Allows(past, limit, window, now))
            && Consistent(logs[key := kept], history, limit, window, now)
            && (|kept| < limit ==>
                  Consistent(logs[key := kept + [now]], history[key := past + [now]], limit, window, now))
  {
    hide Later, Allows, Prunes, Obeys;
    var kept, past := Later(LogOf(logs, key), now - window), HistoryOf(history, key);
    assert KeyOk(LogOf(logs, key), past, limit, window, clock);
    PrunedDecision(LogOf(logs, key), past, limit, window, clock, now);
    forall k | k != key ensures KeyOk(LogOf(logs, k), HistoryOf(history, k), limit, window, now) {
      assert KeyOk(LogOf(logs, k), HistoryOf(history, k), limit, window, clock);
      PrunesLater(LogOf(logs, k), HistoryOf(history, k), window, clock, now);
    }
    if |kept| < limit {
      ObeysAppend(past, limit, window, now);
      var logs', history' := logs[key := kept + [now]], history[key := past + [now]];
      forall k ensures KeyOk(LogOf(logs', k), HistoryOf(history', k), limit, window, now) {
        if k != key { assert LogOf(logs', k) == LogOf(logs, k) && HistoryOf(history', k) == HistoryOf(history, k); }
      }
    }
  }

  /** In any reachable state no key has more than `limit` grants in any window-long interval. */
  lemma GrantsAreBounded(logs: map<string, seq<real>>, history: map<string, seq<real>>,
                         limit: int, window: real, clock: real, key: string, x: real)
    requires Consistent(logs, history, limit, window, clock)
    ensures CountIn(HistoryOf(history, key), x, x + window) <= Max(0, limit)
  {
    assert KeyOk(LogOf(logs, key), HistoryOf(history, key), limit, window, clock);
    EveryWindowIsBounded(HistoryOf(history, key), limit, window, x);
  }

  /** SimpleRateLimiter. `history` records every grant ever made; the code keeps only
      `requests`. */
  class SimpleRateLimiter {
    const limit: int
    const window: real
    var requests: map<string, seq<real>>
    ghost var history: map<string, seq<real>>
    ghost var clock: real

    ghost predicate Valid()
      reads this
    {
      Consistent(requests, history, limit, window, clock)
    }

    constructor (limit: int, window: real, ghost start: real)
      ensures Valid() && history == map[] && clock == start && this.limit == limit && this.window == window
    {
      this.limit, this.window := limit, window;
      requests, history, clock := map[], map[], start;
      new;
      assert Later([], start - window) == [];
    }

    /** The decision depends only on what this key was granted before, within the window. */
    method IsAllowed(key: string, now: real) returns (ok: bool)
      requires Valid() && clock <= now
      modifies this
      ensures Valid() && clock == now
      ensures var past := HistoryOf(old(history), key);
              ok <==> |set i | 0 <= i < |past| && now - window < past[i] <= now| < limit
      ensures history == if ok then old(history)[key := HistoryOf(old(history), key) + [now]] else old(history)
    {
      hide KeyOk, Later, Allows;
      AllowsIff(HistoryOf(history, key), limit, window, now);
      KeyDecision(requests, history, limit, window, clock, key, now);
      var kept := Later(LogOf(requests, key), now - window);
      requests := requests[key := kept];
      clock := now;
      ok := |kept| < limit;
      if ok {
        requests := requests[key := kept + [now]];
        history := history[key := HistoryOf(history, key) + [now]];
      }
      assert requests == if ok then old(requests)[key := kept + [now]] else old(requests)[key := kept];
    }
  }

  datatype Params = Params(mode: Option<string>, address: string, network: Option<string>,
                           amount: Option<real>, user: string)

  datatype Settings = Settings(mode: string, allowed: set<string>, network: string, maxAmount: real, callLimit: int)

  datatype Check = ExecutionMode | ContractAddress | Network | Amount | RateLimit | All

  /** The first of the four stateless checks that refuses the call; All when none does. */
  function FirstRefusal(s: Settings, p: Params): Check {
    if p.mode.Some? && p.mode.value != "" && p.mode.value != s.mode then ExecutionMode
    else if s.allowed != {} && p.address != "" && p.address !in s.allowed then ContractAddress
    else if p.network.Some? && p.network.value != "" && p.network.value != s.network then Network
    else if p.amount.Some? && s.maxAmount > 0.0 && p.amount.value > s.maxAmount then Amount
    else All
  }

  const GUARD_WINDOW: real := 60.0

  /** Which check reports a refusal: a check is skipped when its parameter or its setting is
      absent or empty, and the first that fails is the one reported. */
  lemma FirstRefusalIff(s: Settings, p: Params)
    ensures var mode := p.mode !in {None, Some(""), Some(s.mode)};
            var address := s.allowed != {} && p.address != "" && p.address !in s.allowed;
            var network := p.network !in {None, Some(""), Some(s.network)};
            var amount := p.amount.Some? && 0.0 < s.maxAmount < p.amount.value;
            && (FirstRefusal(s, p) == All <==> !mode && !address && !network && !amount)
            && (FirstRefusal(s, p) == ExecutionMode <==> mode)
            && (FirstRefusal(s, p) == ContractAddress <==> !mode && address)
            && (FirstRefusal(s, p) == Network <==> !mode && !address && network)
            && (FirstRefusal(s, p) == Amount <==> !mode && !address && !network && amount)
            && FirstRefusal(s, p) != RateLimit
  {
    assert p.mode == Some("") <==> p.mode.Some? && p.mode.value == "";
    assert p.mode == Some(s.mode) <==> p.mode.Some? && p.mode.value == s.mode;
    assert p.network == Some("") <==> p.network.Some? && p.network.value == "";
    assert p.network == Some(s.network) <==> p.network.Some? && p.network.value == s.network;
  }

  /** ExecutionGuard: a call uses up rate only after every other check has passed. */
  class ExecutionGuard {
    const settings: Settings
    var tracker: map<string, seq<real>>
    ghost var history: map<string, seq<real>>
    ghost var clock: real

    ghost predicate Valid()
      reads this
    {
      Consistent(tracker, history, settings.callLimit, GUARD_WINDOW, clock)
    }

    constructor (settings: Settings, ghost start: real)
      ensures Valid() && history == map[] && clock == start && this.settings == settings
    {
      this.settings := settings;
      tracker, history, clock := map[], map[], start;
      new;
      assert Later([], start - GUARD_WINDOW) == [];
    }

    method PreCheck(p: Params, now: real) returns (passed: bool, check: Check)
      requires Valid() && clock <= now
      modifies this
      ensures Valid()
      ensures passed <==>
                && FirstRefusal(settings, p) == All
                && var past := HistoryOf(old(history), p.user);
                   |set i | 0 <= i < |past| && now - 60.0 < past[i] <= now| < settings.callLimit
      ensures check == if FirstRefusal(settings, p) != All then FirstRefusal(settings, p)
                       else if passed then All else RateLimit
      ensures history == if passed then old(history)[p.user := HistoryOf(old(history), p.user) + [now]]
                         else old(history)
    {
      check := FirstRefusal(settings, p);
      if check != All {
        return false, check;
      }
      passed := CheckRateLimit(p.user, now);
      check := if passed then All else RateLimit;
    }

    method CheckRateLimit(user: string, now: real) returns (ok: bool)
      requires Valid() && clock <= now
      modifies this
      ensures Valid() && clock == now
      ensures var past := HistoryOf(old(history), user);
              ok <==> |set i | 0 <= i < |past| && now - 60.0 < past[i] <= now| < settings.callLimit
      ensures history == if ok then old(history)[user := HistoryOf(old(history), user) + [now]] else old(history)
    {
      hide KeyOk, Later, Allows, Within;
      AllowsIff(HistoryOf(history, user), settings.callLimit, GUARD_WINDOW, now);
      KeyDecision(tracker, history, settings.callLimit, GUARD_WINDOW, clock, user, now);
      WithinIsLater(LogOf(tracker, user), now);
      var timestamps := Within(LogOf(tracker, user), now);
      tracker := tracker[user := timestamps];
      clock := now;
      if |timestamps| >= settings.callLimit {
        return false;
      }
      tracker := tracker[user := timestamps + [now]];
      history := history[user := HistoryOf(history, user) + [now]];
      assert tracker == old(tracker)[user := timestamps + [now]];
      ok := true;
    }
  }

  /** The guard's own pruning: entries whose age is below the window. */
  function Within(log: seq<real>, now: real): seq<real> {
    if log == [] then []
    else Within(log[..|log| - 1], now) + if now - log[|log| - 1] < GUARD_WINDOW then [log[|log| - 1]] else []
  }

  lemma {:induction false} WithinIsLater(log: seq<real>, now: real)
    ensures Within(log, now) == Later(log, now - GUARD_WINDOW)
  {
    if log != [] { WithinIsLater(log[..|log| - 1], now); }
  }

  // ---------------------------------------------------------------------------
  // Token bucket
  // ---------------------------------------------------------------------------

  datatype Bucket = Bucket(capacity: nat, rate: real, tokens: real, last: real)

  predicate BucketOk(b: Bucket) {
    b.rate >= 0.0 && 0.0 <= b.tokens <= b.capacity as real
  }

  /** Tokens that flow in between two moments. */
  function Flow(rate: real, from: real, to: real): real {
    (to - from) * rate
  }

  lemma FlowAdds(rate: real, a: real, b: real, c: real)
    ensures Flow(rate, a, c) == Flow(rate, a, b) + Flow(rate, b, c) && Flow(rate, a, a) == 0.0
  {
  }

  lemma FlowIs(rate: real, a: real, b: real)
    ensures Flow(rate, a, b) == (b - a) * rate
  {
  }

  lemma FlowIsPositive(rate: real, a: real, b: real)
    requires rate >= 0.0 && a <= b
    ensures Flow(rate, a, b) >= 0.0
  {
  }

  /** One `consume` at time `now`. */
  function Consume(b: Bucket, now: real): (Bucket, bool) {
    var filled := RealMin(b.capacity as real, b.tokens + Flow(b.rate, b.last, now));
    if filled >= 1.0 then (b.(tokens := filled - 1.0, last := now), true)
    else (b.(tokens := filled, last := now), false)
  }

  function After(b: Bucket, calls: seq<real>): Bucket {
    if calls == [] then b else Consume(After(b, calls[..|calls| - 1]), calls[|calls| - 1]).0
  }

  function Grants(b: Bucket, calls: seq<real>): nat {
    if calls == [] then 0
    else
      var init := calls[..|calls| - 1];
      Grants(b, init) + if Consume(After(b, init), calls[|calls| - 1]).1 then 1 else 0
  }

  /** Calls in clock order, none before the bucket was last touched. */
  predicate InOrder(b: Bucket, calls: seq<real>) {
    NonDecreasing(calls) && (calls != [] ==> b.last <= calls[0])
  }

  /** Tokens stay between zero and the capacity, and the ledger of tokens balances: what was
      granted plus what is left is at most what was there plus what flowed in. */
  lemma {:induction false} BucketBalance(b: Bucket, calls: seq<real>)
    requires BucketOk(b) && InOrder(b, calls)
    ensures var e := After(b, calls);
            && BucketOk(e) && e.capacity == b.capacity && e.rate == b.rate
            && e.last == (if calls == [] then b.last else calls[|calls| - 1])
            && Grants(b, calls) as real + e.tokens <= b.tokens + Flow(b.rate, b.last, e.last)
  {
    hide Flow;
    FlowAdds(b.rate, b.last, b.last, b.last);
    if calls != [] {
      var init, now := calls[..|calls| - 1], calls[|calls| - 1];
      BucketBalance(b, init);
      var m := After(b, init);
      assert m.last <= now;
      FlowIsPositive(b.rate, m.last, now);
      FlowAdds(b.rate, b.last, m.last, now);
    }
  }

  /** The same balance counted from the first call, whatever the bucket held before it. */
  lemma {:induction false} StretchBalance(b: Bucket, calls: seq<real>)
    requires BucketOk(b) && InOrder(b, calls) && calls != []
    ensures var e := After(b, calls);
            Grants(b, calls) as real + e.tokens <= b.capacity as real + Flow(b.rate, calls[0], calls[|calls| - 1])
  {
    hide Flow;
    var init, now := calls[..|calls| - 1], calls[|calls| - 1];
    BucketBalance(b, init);
    var m := After(b, init);
    assert m.last <= now;
    FlowIsPositive(b.rate, m.last, now);
    FlowAdds(b.rate, calls[0], m.last, now);
    if init != [] {
      StretchBalance(b, init);
    } else {
      assert Grants(b, init) == 0;
    }
  }

  /** Over any contiguous stretch of any run of calls, the grants are at most the capacity
      plus what flows in between the first and the last call of the stretch. */
  lemma StretchIsBounded(b: Bucket, before: seq<real>, calls: seq<real>)
    requires BucketOk(b) && InOrder(b, before + calls) && calls != []
    ensures Grants(After(b, before), calls) as real <= b.capacity as real + (calls[|calls| - 1] - calls[0]) * b.rate
  {
    hide BucketOk, InOrder, After, Grants, Flow;
    StretchInFlow(b, before, calls);
    FlowIs(b.rate, calls[0], calls[|calls| - 1]);
  }

  lemma StretchInFlow(b: Bucket, before: seq<real>, calls: seq<real>)
    requires BucketOk(b) && InOrder(b, before + calls) && calls != []
    ensures Grants(After(b, before), calls) as real <= b.capacity as real + Flow(b.rate, calls[0], calls[|calls| - 1])
  {
    hide After, Grants, Flow;
    InOrderSplit(b, before, calls);
    BucketBalance(b, before);
    var m := After(b, before);
    assert InOrder(m, calls);
    StretchBalance(m, calls);
    BucketBalance(m, calls);
  }

  lemma InOrderSplit(b: Bucket, before: seq<real>, calls: seq<real>)
    requires InOrder(b, before + calls) && calls != []
    ensures InOrder(b, before) && NonDecreasing(calls)
    ensures (if before == [] then b.last else before[|before| - 1]) <= calls[0]
  {
    var all := before + calls;
    assert forall i :: 0 <= i < |before| ==> before[i] == all[i];
    assert forall i :: 0 <= i < |calls| ==> calls[i] == all[|before| + i];
  }

  /** Successive calls come at least one refill apart. */
  predicate Spaced(b: Bucket, calls: seq<real>) {
    forall i, j :: 0 <= i < j == i + 1 < |calls| ==> (calls[j] - calls[i]) * b.rate >= 1.0
  }

  /** A bucket that holds a token, called no faster than it refills, never refuses. */
  lemma {:induction false} SpacedNeverRefused(b: Bucket, calls: seq<real>)
    requires BucketOk(b) && b.capacity >= 1 && b.tokens >= 1.0 && InOrder(b, calls) && Spaced(b, calls)
    ensures Grants(b, calls) == |calls|
  {
    hide Flow;
    if calls != [] {
      var init, now := calls[..|calls| - 1], calls[|calls| - 1];
      SpacedNeverRefused(b, init);
      BucketBalance(b, init);
      var m := After(b, init);
      FlowIsPositive(b.rate, m.last, now);
      if init != [] {
        RefillIsFlow(b, calls, |init|);
      }
    }
  }

  lemma RefillIsFlow(b: Bucket, calls: seq<real>, i: nat)
    requires Spaced(b, calls) && 0 < i < |calls|
    ensures Flow(b.rate, calls[i - 1], calls[i]) >= 1.0
  {
  }

  /** A refused call leaves the bucket as if it had not been made. */
  lemma RefusalIsFree(b: Bucket, x: real, now: real)
    requires BucketOk(b) && b.last <= x <= now && !Consume(b, x).1
    ensures Consume(Consume(b, x).0, now) == Consume(b, now)
  {
    hide Flow;
    FlowAdds(b.rate, b.last, x, now);
    FlowIsPositive(b.rate, b.last, x);
    FlowIsPositive(b.rate, x, now);
  }

  /** The calls of a run that were granted. */
  function Granted(b: Bucket, calls: seq<real>): seq<real> {
    if calls == [] then []
    else
      var init := calls[..|calls| - 1];
      Granted(b, init) + if Consume(After(b, init), calls[|calls| - 1]).1 then [calls[|calls| - 1]] else []
  }

  /** Calls in clock order, and a moment that is not before any of them. */
  predicate UpTo(b: Bucket, calls: seq<real>, now: real) {
    InOrder(b, calls) && b.last <= now && (calls != [] ==> calls[|calls| - 1] <= now)
  }

  lemma InitUpTo(b: Bucket, calls: seq<real>, now: real)
    requires calls != [] && UpTo(b, calls, now)
    ensures var init, x := calls[..|calls| - 1], calls[|calls| - 1];
            UpTo(b, init, x) && UpTo(b, init, now) && x <= now
  {
  }

  lemma AppendUpTo(b: Bucket, calls: seq<real>, x: real, now: real)
    requires UpTo(b, calls, x) && x <= now
    ensures UpTo(b, calls + [x], now)
  {
    forall i, j | 0 <= i < j < |calls + [x]| ensures (calls + [x])[i] <= (calls + [x])[j] {
      assert i < |calls| && calls[i] <= calls[|calls| - 1];
    }
  }

  lemma AfterAppend(b: Bucket, calls: seq<real>, x: real)
    ensures After(b, calls + [x]) == Consume(After(b, calls), x).0
    ensures Grants(b, calls + [x]) == Grants(b, calls) + if Consume(After(b, calls), x).1 then 1 else 0
  {
    hide Consume;
    assert (calls + [x])[..|calls|] == calls;
  }

  /** Over any run, what the bucket does next is decided by the granted calls alone: without the
      refused ones the same calls are granted, and the next call, at any later time, gets the
      same answer and leaves the same bucket. */
  lemma {:induction false} RefusalsAreFree(b: Bucket, calls: seq<real>, now: real)
    requires BucketOk(b) && UpTo(b, calls, now)
    ensures UpTo(b, Granted(b, calls), now)
    ensures Grants(b, Granted(b, calls)) == |Granted(b, calls)| == Grants(b, calls)
    ensures Consume(After(b, Granted(b, calls)), now) == Consume(After(b, calls), now)
  {
    hide Consume, BucketOk, UpTo;
    if calls != [] {
      var init, x := calls[..|calls| - 1], calls[|calls| - 1];
      var g := Granted(b, init);
      InitUpTo(b, calls, now);
      RefusalsAreFree(b, init, x);
      RefusalsAreFree(b, init, now);
      if Consume(After(b, init), x).1 {
        AppendUpTo(b, g, x, now);
        AfterAppend(b, g, x);
      } else {
        assert Granted(b, calls) == g;
        RefusedStep(b, init, x, now);
      }
    }
  }

  lemma RefusedStep(b: Bucket, init: seq<real>, x: real, now: real)
    requires BucketOk(b) && UpTo(b, init, x) && x <= now && !Consume(After(b, init), x).1
    ensures Consume(Consume(After(b, init), x).0, now) == Consume(After(b, init), now)
  {
    hide Consume, BucketOk, After;
    BucketBalance(b, init);
    RefusalIsFree(After(b, init), x, now);
  }

  /** When exactly a call is refused: what was left after the last granted call, and what has
      flowed in since, together and up to the capacity, do not make a whole token. */
  lemma RefusedIff(b: Bucket, calls: seq<real>, now: real)
    requires BucketOk(b) && UpTo(b, calls, now)
    ensures var e := After(b, Granted(b, calls));
            !Consume(After(b, calls), now).1 <==> b.capacity < 1 || e.tokens + (now - e.last) * b.rate < 1.0
  {
    hide Consume, BucketOk, After, UpTo;
    RefusalsAreFree(b, calls, now);
    var e := After(b, Granted(b, calls));
    GrantedInOrder(b, Granted(b, calls), now);
    BucketBalance(b, Granted(b, calls));
    ConsumeIff(e, now);
  }

  lemma GrantedInOrder(b: Bucket, calls: seq<real>, now: real)
    requires UpTo(b, calls, now)
    ensures InOrder(b, calls)
  {
  }

  lemma ConsumeIff(b: Bucket, now: real)
    ensures Consume(b, now).1 <==> b.capacity >= 1 && b.tokens + (now - b.last) * b.rate >= 1.0
  {
    hide Flow;
    FlowIs(b.rate, b.last, now);
  }

  class TokenBucket {
    const capacity: nat
    const rate: real
    var tokens: real
    var last: real

    function Value(): Bucket
      reads this
    {
      Bucket(capacity, rate, tokens, last)
    }

    constructor (capacity: nat, rate: real, now: real)
      requires rate >= 0.0
      ensures Value() == Bucket(capacity, rate, capacity as real, now) && BucketOk(Value())
    {
      this.capacity, this.rate := capacity, rate;
      tokens, last := capacity as real, now;
    }

    method TryConsume(now: real) returns (ok: bool)
      modifies this
      ensures (Value(), ok) == Consume(old(Value()), now)
    {
      var elapsed := now - last;
      assert Flow(rate, last, now) == elapsed * rate;
      tokens := RealMin(capacity as real, tokens + elapsed * rate);
      last := now;
      if tokens >= 1.0 {
        tokens := tokens - 1.0;
        return true;
      }
      return false;
    }
  }
}
