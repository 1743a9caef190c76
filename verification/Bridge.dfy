/** The contract bridge: one circuit breaker per upstream, a chain of upstreams tried in
    order, and the last successful answer served when all of them fail. */
module Bridge {
  import opened Common
  import opened Cache

  datatype CircuitState = Closed | Open | HalfOpen

  datatype Config = Config(threshold: int, cooldown: real)

  /** One call that was really made to an upstream: when it ended and how. */
  datatype Call = Call(at: real, ok: bool)

  /** Upstream number `idx` of a method; the code prints the pair into one name. */
  datatype Name = Name(method_: string, idx: nat)

  type Logs = map<Name, seq<Call>>

  function LogOf(logs: Logs, n: Name): seq<Call> {
    if n in logs then logs[n] else []
  }

  // ---------------------------------------------------------------------------
  // What a breaker ought to know, read off the log
  // ---------------------------------------------------------------------------

  function TrailingFailures(log: seq<Call>): nat {
    if log == [] || log[|log| - 1].ok then 0 else 1 + TrailingFailures(log[..|log| - 1])
  }

  /** When the last failed call ended; zero if there was none. */
  function LastFailure(log: seq<Call>): real {
    if log == [] then 0.0
    else if !log[|log| - 1].ok then log[|log| - 1].at
    else LastFailure(log[..|log| - 1])
  }

  datatype BreakerValue = BreakerValue(state: CircuitState, failures: nat, lastFailure: real)

  function BreakerOf(cfg: Config, log: seq<Call>): BreakerValue {
    BreakerValue(if TrailingFailures(log) >= cfg.threshold then Open else Closed,
                 TrailingFailures(log), LastFailure(log))
  }

  /** The rule: the current run of failures is short, or the cool-down has passed. */
  predicate MayCall(cfg: Config, log: seq<Call>, now: real) {
    TrailingFailures(log) < cfg.threshold || now - LastFailure(log) >= cfg.cooldown
  }

  /** The count is the length of the run of failures at the end of the log, and the time is that of
      the latest failure. */
  lemma {:induction false} TrailingIsRun(log: seq<Call>)
    ensures var n := TrailingFailures(log);
            && n <= |log|
            && (forall i :: |log| - n <= i < |log| ==> !log[i].ok)
            && (n < |log| ==> log[|log| - n - 1].ok)
  {
    if log != [] && !log[|log| - 1].ok { TrailingIsRun(log[..|log| - 1]); }
  }

  lemma {:induction false} LastFailureIs(log: seq<Call>, k: nat)
    requires k < |log| && !log[k].ok && forall i :: k < i < |log| ==> log[i].ok
    ensures LastFailure(log) == log[k].at
  {
    if k < |log| - 1 { LastFailureIs(log[..|log| - 1], k); }
  }

  lemma LogGrows(log: seq<Call>, c: Call)
    ensures TrailingFailures(log + [c]) == if c.ok then 0 else 1 + TrailingFailures(log)
    ensures LastFailure(log + [c]) == if c.ok then LastFailure(log) else c.at
  {
    assert (log + [c])[..|log|] == log;
  }

  // ---------------------------------------------------------------------------
  // The breaker object
  // ---------------------------------------------------------------------------

  class CircuitBreaker {
    const cfg: Config
    var state: CircuitState
    var failureCount: nat
    var lastFailureTime: real

    function Value(): BreakerValue
      reads this
    {
      BreakerValue(state, failureCount, lastFailureTime)
    }

    /** Between the permission and the record: closed, or half-open for one probe. */
    ghost predicate Ready(log: seq<Call>)
      reads this
    {
      && failureCount == TrailingFailures(log) && lastFailureTime == LastFailure(log)
      && state == if TrailingFailures(log) < cfg.threshold then Closed else HalfOpen
    }

    constructor (cfg: Config)
      ensures this.cfg == cfg && Value() == BreakerValue(Closed, 0, 0.0)
    {
      this.cfg := cfg;
      state, failureCount, lastFailureTime := Closed, 0, 0.0;
    }

    constructor Load(cfg: Config, v: BreakerValue)
      ensures this.cfg == cfg && Value() == v
    {
      this.cfg := cfg;
      state, failureCount, lastFailureTime := v.state, v.failures, v.lastFailure;
    }

    method AllowRequest(now: real, ghost log: seq<Call>) returns (ok: bool)
      requires cfg.threshold >= 1 && (Value() == BreakerOf(cfg, log) || Ready(log))
      modifies this
      ensures old(state) == HalfOpen ==> ok
      ensures old(state) != HalfOpen ==> (ok <==> MayCall(cfg, log, now))
      ensures old(state) != HalfOpen ==>
                (ok <==> TrailingFailures(log) < cfg.threshold || now - LastFailure(log) >= cfg.cooldown)
      ensures if ok then Ready(log) else Value() == old(Value())
    {
      if state == Closed { return true; }
      if state == Open {
        var elapsed := now - lastFailureTime;
        if elapsed >= cfg.cooldown {
          state := HalfOpen;
          return true;
        }
        return false;
      }
      return true;
    }

    method RecordSuccess(ghost log: seq<Call>, at: real)
      requires cfg.threshold >= 1 && Ready(log)
      modifies this
      ensures Value() == BreakerOf(cfg, log + [Call(at, true)])
    {
      LogGrows(log, Call(at, true));
      failureCount := 0;
      state := Closed;
    }

    method RecordFailure(ghost log: seq<Call>, at: real)
      requires Ready(log)
      modifies this
      ensures Value() == BreakerOf(cfg, log + [Call(at, false)])
    {
      LogGrows(log, Call(at, false));
      failureCount := failureCount + 1;
      lastFailureTime := at;
      if failureCount >= cfg.threshold {
        state := Open;
      }
    }
  }

  // ---------------------------------------------------------------------------
  // The fallback chain, as a function of the logs alone
  // ---------------------------------------------------------------------------

  /** What one upstream would do in this invocation: the clock when its breaker is asked, the
      clock when the call has ended, and its answer, None for a raised error. */
  datatype Upstream = Upstream(asked: real, ended: real, outcome: Option<int>)

  function Outcome(u: Upstream): Call {
    Call(u.ended, u.outcome.Some?)
  }

  /** Upstream i is called: it is allowed to be, and no earlier one that was called succeeded. */
  predicate IsCalled(cfg: Config, logs: Logs, method_: string, ups: seq<Upstream>, i: nat)
    requires i < |ups|
  {
    && MayCall(cfg, LogOf(logs, Name(method_, i)), ups[i].asked)
    && forall j :: 0 <= j < i ==> !(ups[j].outcome.Some? && MayCall(cfg, LogOf(logs, Name(method_, j)), ups[j].asked))
  }

  /** The logs after the invocation has dealt with the first n upstreams. */
  function LogsAfter(cfg: Config, logs: Logs, method_: string, ups: seq<Upstream>, n: nat): Logs
    requires n <= |ups|
  {
    if n == 0 then logs
    else
      var before := LogsAfter(cfg, logs, method_, ups, n - 1);
      if IsCalled(cfg, logs, method_, ups, n - 1)
      then before[Name(method_, n - 1) := LogOf(logs, Name(method_, n - 1)) + [Outcome(ups[n - 1])]]
      else before
  }

  /** Each upstream's log gains its call exactly when it is called, and nothing else changes. */
  lemma {:induction false} LogsAfterAt(cfg: Config, logs: Logs, method_: string, ups: seq<Upstream>, n: nat, name: Name)
    requires n <= |ups|
    ensures LogOf(LogsAfter(cfg, logs, method_, ups, n), name) ==
              LogOf(logs, name) +
              if name.method_ == method_ && name.idx < n && IsCalled(cfg, logs, method_, ups, name.idx)
              then [Call(ups[name.idx].ended, ups[name.idx].outcome.Some?)] else []
  {
    if n > 0 { LogsAfterAt(cfg, logs, method_, ups, n - 1, name); }
  }

  /** Nobody among the first n upstreams answered. */
  predicate Unanswered(cfg: Config, logs: Logs, method_: string, ups: seq<Upstream>, n: nat)
    requires n <= |ups|
  {
    forall j :: 0 <= j < n ==> !(ups[j].outcome.Some? && MayCall(cfg, LogOf(logs, Name(method_, j)), ups[j].asked))
  }

  datatype Result = Disabled | Fresh(source: nat, data: int) | StaleCache(data: int) | Exhausted

  ghost predicate BreakersMirror(cfg: Config, breakers: map<Name, BreakerValue>, logs: Logs) {
    forall n :: if n in breakers then breakers[n] == BreakerOf(cfg, LogOf(logs, n)) else LogOf(logs, n) == []
  }

  /** The service's dictionary of breakers is kept as the breakers' field values. */
  class BridgeFallbackService {
    const cfg: Config
    const enabled: bool
    const cache: TTLCache<int>
    var breakers: map<Name, BreakerValue>
    ghost var logs: Logs
    ghost var answers: map<string, int>

    /** Breakers are functions of the logs, none rests half-open, and the cache holds the last
        successful answer for each key. */
    ghost predicate Valid()
      reads this, cache
    {
      && cfg.threshold >= 1
      && BreakersMirror(cfg, breakers, logs)
      && cache.store.Keys == answers.Keys && forall k :: k in answers ==> cache.store[k].value == answers[k]
    }

    constructor (cfg: Config, enabled: bool, ttl: real)
      requires cfg.threshold >= 1
      ensures Valid() && logs == map[] && answers == map[] && fresh(cache)
      ensures this.cfg == cfg && this.enabled == enabled
    {
      this.cfg, this.enabled := cfg, enabled;
      cache := new TTLCache(ttl);
      breakers, logs, answers := map[], map[], map[];
    }

    /** One upstream: skipped when its breaker says so, otherwise called and recorded. */
    method TryUpstream(n: Name, u: Upstream) returns (called: bool)
      requires cfg.threshold >= 1 && BreakersMirror(cfg, breakers, logs)
      modifies this`breakers, this`logs
      ensures BreakersMirror(cfg, breakers, logs)
      ensures called <==> MayCall(cfg, LogOf(old(logs), n), u.asked)
      ensures logs == if called then old(logs)[n := LogOf(old(logs), n) + [Outcome(u)]] else old(logs)
    {
      hide MayCall, TrailingFailures, LastFailure;
      var b: CircuitBreaker;
      assert (if n in breakers then breakers[n] else BreakerValue(Closed, 0, 0.0)) ==
             BreakerOf(cfg, LogOf(logs, n)) by { EmptyLog(cfg); }
      if n in breakers {
        b := new CircuitBreaker.Load(cfg, breakers[n]);
      } else {
        b := new CircuitBreaker(cfg);
      }
      ghost var log := LogOf(logs, n);
      called := b.AllowRequest(u.asked, log);
      if called {
        if u.outcome.Some? {
          b.RecordSuccess(log, u.ended);
        } else {
          b.RecordFailure(log, u.ended);
        }
        logs := logs[n := log + [Outcome(u)]];
      }
      breakers := breakers[n := b.Value()];
      MirrorGrows(cfg, old(breakers), old(logs), n, b.Value(), logs);
    }

    /** The loop over the upstreams: stops at the first one that answers. */
    method TryAll(method_: string, ups: seq<Upstream>) returns (source: Option<nat>)
      requires cfg.threshold >= 1 && BreakersMirror(cfg, breakers, logs)
      modifies this`breakers, this`logs
      ensures BreakersMirror(cfg, breakers, logs)
      ensures logs == LogsAfter(cfg, old(logs), method_, ups, |ups|)
      ensures source.None? ==> Unanswered(cfg, old(logs), method_, ups, |ups|)
      ensures source.Some? ==>
                && source.value < |ups| && IsCalled(cfg, old(logs), method_, ups, source.value)
                && ups[source.value].outcome.Some?
    {
      hide BreakersMirror, MayCall, LogsAfter, IsCalled, Unanswered;
      AtStart(cfg, logs, method_, ups);
      var i := 0;
      while i < |ups|
        invariant 0 <= i <= |ups| && BreakersMirror(cfg, breakers, logs)
        invariant logs == LogsAfter(cfg, old(logs), method_, ups, i)
        invariant Unanswered(cfg, old(logs), method_, ups, i)
      {
        UpstreamStep(cfg, old(logs), method_, ups, i);
        var called := TryUpstream(Name(method_, i), ups[i]);
        if called && ups[i].outcome.Some? {
          NothingAfter(cfg, old(logs), method_, ups, i, |ups|);
          return Some(i);
        }
        i := i + 1;
      }
      source := None;
    }

    /** execute_with_fallback */
    method Execute(method_: string, params: string, ups: seq<Upstream>, now: real) returns (res: Result)
      requires Valid()
      modifies this`breakers, this`logs, this`answers, cache
      ensures Valid()
      ensures res == Disabled <==> !enabled
      ensures !enabled ==> logs == old(logs) && answers == old(answers)
      ensures enabled ==> logs == LogsAfter(cfg, old(logs), method_, ups, |ups|)
      ensures res.Fresh? ==> enabled && res.source < |ups| && IsCalled(cfg, old(logs), method_, ups, res.source)
                             && ups[res.source].outcome == Some(res.data)
                             && answers == old(answers)[method_ + ":" + params := res.data]
      ensures enabled && !res.Fresh? ==>
                && Unanswered(cfg, old(logs), method_, ups, |ups|) && answers == old(answers)
                && res == if method_ + ":" + params in old(answers)
                          then StaleCache(old(answers)[method_ + ":" + params]) else Exhausted
    {
      hide BreakersMirror, LogsAfter, IsCalled, Unanswered;
      if !enabled { return Disabled; }
      var key := method_ + ":" + params;
      var source := TryAll(method_, ups);
      if source.Some? {
        var u := ups[source.value];
        cache.Set(key, u.outcome.value, u.ended);
        answers := answers[key := u.outcome.value];
        return Fresh(source.value, u.outcome.value);
      }
      var cached := cache.GetWithMeta(key, now);
      if cached.Some? {
        return StaleCache(cached.value.value);
      }
      res := Exhausted;
    }
  }

  lemma AtStart(cfg: Config, logs: Logs, method_: string, ups: seq<Upstream>)
    ensures LogsAfter(cfg, logs, method_, ups, 0) == logs && Unanswered(cfg, logs, method_, ups, 0)
  {
  }

  /** While nobody has answered, upstream i is called exactly when its own log allows it. */
  lemma UpstreamStep(cfg: Config, logs: Logs, method_: string, ups: seq<Upstream>, i: nat)
    requires i < |ups| && Unanswered(cfg, logs, method_, ups, i)
    ensures var n := Name(method_, i);
            var before := LogsAfter(cfg, logs, method_, ups, i);
            var called := MayCall(cfg, LogOf(logs, n), ups[i].asked);
            && LogOf(before, n) == LogOf(logs, n)
            && (IsCalled(cfg, logs, method_, ups, i) <==> called)
            && (called <==>
                  || TrailingFailures(LogOf(logs, n)) < cfg.threshold
                  || ups[i].asked - LastFailure(LogOf(logs, n)) >= cfg.cooldown)
            && LogsAfter(cfg, logs, method_, ups, i + 1) ==
                 (if called then before[n := LogOf(logs, n) + [Outcome(ups[i])]] else before)
            && (Unanswered(cfg, logs, method_, ups, i + 1) <==> !(called && ups[i].outcome.Some?))
  {
    hide TrailingFailures, LastFailure;
    LogsAfterAt(cfg, logs, method_, ups, i, Name(method_, i));
  }

  lemma EmptyLog(cfg: Config)
    requires cfg.threshold >= 1
    ensures BreakerOf(cfg, []) == BreakerValue(Closed, 0, 0.0)
  {
  }

  lemma MirrorGrows(cfg: Config, breakers: map<Name, BreakerValue>, logs: Logs, n: Name, v: BreakerValue, logs': Logs)
    requires BreakersMirror(cfg, breakers, logs) && v == BreakerOf(cfg, LogOf(logs', n))
    requires forall m :: m != n ==> LogOf(logs', m) == LogOf(logs, m)
    ensures BreakersMirror(cfg, breakers[n := v], logs')
  {
    hide BreakerOf;
  }

  /** Upstreams after the one that answered are not called. */
  lemma {:induction false} NothingAfter(cfg: Config, logs: Logs, method_: string, ups: seq<Upstream>, i: nat, n: nat)
    requires i < n <= |ups| && IsCalled(cfg, logs, method_, ups, i) && ups[i].outcome.Some?
    ensures LogsAfter(cfg, logs, method_, ups, n) == LogsAfter(cfg, logs, method_, ups, i + 1)
  {
    if n > i + 1 { NothingAfter(cfg, logs, method_, ups, i, n - 1); }
  }
}
