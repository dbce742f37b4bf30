/** Fixed-window rate limiting: the in-memory limiter, and the Redis limiter that falls back
    to a local in-memory window whenever a Redis call fails. */
module RateLimit {
  import opened Common

  datatype Options = Options(windowMs: int, max: int) {
    /** The first attempt of a window is always allowed, so a limit below 1 acts as 1. */
    function Effective(): (m: nat)
      ensures m >= 1
    {
      if max < 1 then 1 else max
    }
  }

  // ---------------------------------------------------------------- the in-memory limiter

  datatype Hit = Hit(count: nat, resetAt: int)
  type Hits = map<string, Hit>

  datatype Answer<S> = Answer(state: S, allowed: bool)

  /** One `allowSync(key)` at time `now`. */
  function MemoryStep(hits: Hits, key: string, now: int, opts: Options): Answer<Hits> {
    if key !in hits || hits[key].resetAt <= now then
      Answer(hits[key := Hit(1, now + opts.windowMs)], true)
    else
      var count := hits[key].count + 1;
      Answer(hits[key := Hit(count, hits[key].resetAt)], count <= opts.max)
  }

  class MemoryRateLimiter {
    var hits: Hits
    const opts: Options

    constructor (opts: Options)
      ensures hits == map[] && this.opts == opts
    {
      this.hits, this.opts := map[], opts;
    }

    method AllowSync(key: string, now: int) returns (allowed: bool)
      modifies this
      ensures Answer(hits, allowed) == MemoryStep(old(hits), key, now, opts)
    {
      if key !in hits || hits[key].resetAt <= now {
        hits := hits[key := Hit(1, now + opts.windowMs)];
        return true;
      }
      hits := hits[key := hits[key].(count := hits[key].count + 1)];
      return hits[key].count <= opts.max;
    }
  }

  // ---------------------------------------------------------------- the Redis limiter

  /** A counter key; without an expiry it lives until someone deletes it. */
  datatype Counter = Counter(count: nat, expiresAt: Option<int>)
  type Counters = map<string, Counter>

  /** What goes wrong during one `allow`: a lost call had no effect, an unacknowledged one
      took effect and still threw. `delay` is the time from INCR to PEXPIRE. */
  datatype Fault =
    | Healthy(delay: nat)
    | IncrLost
    | IncrUnacknowledged
    | ExpireLost
    | ExpireUnacknowledged(delay: nat)

  function LiveCount(counters: Counters, key: string, now: int): nat {
    if key in counters && (counters[key].expiresAt.None? || counters[key].expiresAt.value > now)
    then counters[key].count else 0
  }

  function Incremented(counters: Counters, key: string, now: int): Counters {
    var n := LiveCount(counters, key, now);
    counters[key := Counter(n + 1, if n == 0 then None else counters[key].expiresAt)]
  }

  class RedisServer {
    var counters: Counters

    constructor ()
      ensures counters == map[]
    {
      counters := map[];
    }

    /** INCR; None when the call threw. */
    method Incr(key: string, now: int, fault: Fault) returns (count: Option<nat>)
      modifies this
      ensures counters == if fault.IncrLost? then old(counters) else Incremented(old(counters), key, now)
      ensures count == if fault.IncrLost? || fault.IncrUnacknowledged? then None
                       else Some(LiveCount(old(counters), key, now) + 1)
    {
      if fault.IncrLost? {
        return None;
      }
      counters := Incremented(counters, key, now);
      return if fault.IncrUnacknowledged? then None else Some(counters[key].count);
    }

    /** PEXPIRE; false when the call threw. */
    method PExpire(key: string, at: int, fault: Fault) returns (ok: bool)
      requires key in counters
      modifies this
      ensures counters == if fault.ExpireLost? then old(counters)
                          else old(counters)[key := old(counters)[key].(expiresAt := Some(at))]
      ensures ok == !(fault.ExpireLost? || fault.ExpireUnacknowledged?)
    {
      if fault.ExpireLost? {
        return false;
      }
      counters := counters[key := counters[key].(expiresAt := Some(at))];
      return !fault.ExpireUnacknowledged?;
    }
  }

  function ExpiryDelay(fault: Fault): nat {
    if fault.Healthy? || fault.ExpireUnacknowledged? then fault.delay else 0
  }

  /** The effect of one attempt on Redis, and its answer; None when a call threw. */
  function RedisStep(counters: Counters, key: string, now: int, fault: Fault, opts: Options): (Counters, Option<bool>) {
    if fault.IncrLost? then (counters, None)
    else
      var after := Incremented(counters, key, now);
      var count := LiveCount(counters, key, now) + 1;
      if fault.IncrUnacknowledged? then (after, None)
      else if count != 1 then (after, Some(count <= opts.max))
      else if fault.ExpireLost? then (after, None)
      else
        var expiring := after[key := after[key].(expiresAt := Some(now + ExpiryDelay(fault) + opts.windowMs))];
        (expiring, if fault.ExpireUnacknowledged? then None else Some(count <= opts.max))
  }

  class RedisRateLimiter {
    const redis: RedisServer
    const fallback: MemoryRateLimiter
    const opts: Options
    var degraded: bool
    var lastErrorAt: Option<int>

    constructor (redis: RedisServer, opts: Options)
      ensures this.redis == redis && this.opts == opts && fresh(fallback)
      ensures fallback.opts == opts && fallback.hits == map[] && !degraded && lastErrorAt == None
    {
      this.redis, this.opts := redis, opts;
      fallback := new MemoryRateLimiter(opts);
      degraded, lastErrorAt := false, None;
    }

    /** Redis answers when it can; any thrown call counts the attempt in the local window instead,
        and the degraded flag says which of the two answered last. */
    method Allow(key: string, now: int, fault: Fault) returns (allowed: bool)
      requires fallback.opts == opts
      modifies this, redis, fallback
      ensures redis.counters == RedisStep(old(redis.counters), key, now, fault, opts).0
      ensures var remote := RedisStep(old(redis.counters), key, now, fault, opts).1;
              && degraded == remote.None?
              && lastErrorAt == (if remote.None? then Some(now) else old(lastErrorAt))
              && (remote.Some? ==> allowed == remote.value && fallback.hits == old(fallback.hits))
              && (remote.None? ==> Answer(fallback.hits, allowed) == MemoryStep(old(fallback.hits), key, now, opts))
    {
      var count := redis.Incr(key, now, fault);
      var ok := count.Some?;
      if count == Some(1) {
        ok := redis.PExpire(key, now + ExpiryDelay(fault) + opts.windowMs, fault);
      }
      if ok {
        degraded := false;
        return count.value <= opts.max;
      }
      degraded := true;
      lastErrorAt := Some(now);
      allowed := fallback.AllowSync(key, now);
    }
  }

  // ---------------------------------------------------------------- the window argument

  /** One counted attempt on one key: when, in the window that started when, as which of that
      window's attempts, and whether it was let through. */
  datatype Mark = Mark(at: int, start: int, rank: nat, allowed: bool)

  /** `e` may follow the attempts `before`: it either opens a window no sooner than `width` after
      the previous one opened, or it is the next attempt of the current window. */
  predicate Follows(before: seq<Mark>, e: Mark, width: int, max: nat) {
    && e.rank >= 1
    && (e.allowed ==> e.rank <= max)
    && (before != [] ==> Last(before).at <= e.at)
    && (|| (e.rank == 1 && e.start == e.at && (before != [] ==> Last(before).start + width <= e.at))
        || (before != [] && e.start == Last(before).start && e.rank == Last(before).rank + 1))
  }

  predicate Regular(es: seq<Mark>, width: int, max: nat) {
    es == [] || (Regular(Init(es), width, max) && Follows(Init(es), Last(es), width, max))
  }

  predicate Counts(e: Mark, t: int, width: int) {
    e.allowed && t <= e.at < t + width
  }

  /** Attempts let through in the half-open interval [t, t + width). */
  function Within(es: seq<Mark>, t: int, width: int): nat {
    if es == [] then 0
    else Within(Init(es), t, width) + if Counts(Last(es), t, width) then 1 else 0
  }

  /** Two windows can meet an interval of their own length, and the attempt that opened the
      earlier one falls before it. */
  lemma {:induction false} TwoWindowsMinusOne(es: seq<Mark>, t: int, width: int, max: nat)
    requires Regular(es, width, max) && max >= 1
    ensures Within(es, t, width) <= 2 * max - 1
    ensures es != [] ==> Last(es).start <= Last(es).at
    ensures es != [] && t > Last(es).at ==> Within(es, t, width) == 0
    ensures es != [] && t > Last(es).start ==>
              Within(es, t, width) <= (if Last(es).rank < max then Last(es).rank else max) - 1
    ensures es != [] && Last(es).start - width < t <= Last(es).start ==>
              Within(es, t, width) <= max - 1 + if Last(es).rank < max then Last(es).rank else max
  {
    if es != [] {
      TwoWindowsMinusOne(Init(es), t, width, max);
    }
  }

  // ---------------------------------------------------------------- runs of the in-memory limiter

  datatype Call = Call(key: string, at: int)

  function MemoryRun(calls: seq<Call>, opts: Options): Hits {
    if calls == [] then map[]
    else MemoryStep(MemoryRun(Init(calls), opts), Last(calls).key, Last(calls).at, opts).state
  }

  function MemoryAnswer(calls: seq<Call>, opts: Options): bool
    requires calls != []
  {
    MemoryStep(MemoryRun(Init(calls), opts), Last(calls).key, Last(calls).at, opts).allowed
  }

  ghost predicate Clocked(calls: seq<Call>) {
    forall i, j :: 0 <= i <= j < |calls| ==> calls[i].at <= calls[j].at
  }

  /** Attempts on `key` the limiter allowed in [t, t + windowMs). */
  function MemoryAllowed(calls: seq<Call>, key: string, t: int, opts: Options): nat {
    if calls == [] then 0
    else
      var c := Last(calls);
      MemoryAllowed(Init(calls), key, t, opts)
      + if c.key == key && t <= c.at < t + opts.windowMs && MemoryAnswer(calls, opts) then 1 else 0
  }

  /** The attempts on the key in the interval that the limiter let through. */
  ghost function LetIn(calls: seq<Call>, key: string, t: int, opts: Options): set<nat> {
    set i: nat | i < |calls| && LetInAt(calls, i, key, t, opts)
  }

  predicate LetInAt(calls: seq<Call>, i: nat, key: string, t: int, opts: Options)
    requires i < |calls|
  {
    calls[i].key == key && t <= calls[i].at < t + opts.windowMs && MemoryAnswer(calls[..i + 1], opts)
  }

  lemma {:induction false} LetInOneMore(calls: seq<Call>, key: string, t: int, opts: Options)
    requires calls != []
    ensures var c := Last(calls);
            |LetIn(calls, key, t, opts)| ==
            |LetIn(Init(calls), key, t, opts)|
            + if c.key == key && t <= c.at < t + opts.windowMs && MemoryAnswer(calls, opts) then 1 else 0
  {
    var n, c := |calls| - 1, Last(calls);
    var now := c.key == key && t <= c.at < t + opts.windowMs && MemoryAnswer(calls, opts);
    assert calls[..n + 1] == calls;
    forall i: nat | i < n
      ensures LetInAt(Init(calls), i, key, t, opts) <==> LetInAt(calls, i, key, t, opts)
    {
      assert Init(calls)[..i + 1] == calls[..i + 1];
    }
    assert LetInAt(calls, n, key, t, opts) <==> now;
    assert LetIn(calls, key, t, opts) == LetIn(Init(calls), key, t, opts) + if now then {n} else {};
  }

  /** What is bounded is their number. */
  lemma {:induction false} MemoryAllowedMeans(calls: seq<Call>, key: string, t: int, opts: Options)
    ensures MemoryAllowed(calls, key, t, opts) == |LetIn(calls, key, t, opts)|
  {
    if calls != [] {
      MemoryAllowedMeans(Init(calls), key, t, opts);
      LetInOneMore(calls, key, t, opts);
    } else {
      assert LetIn(calls, key, t, opts) == {};
    }
  }

  function MemoryMarks(calls: seq<Call>, key: string, opts: Options): seq<Mark> {
    if calls == [] then []
    else
      var before := MemoryMarks(Init(calls), key, opts);
      if Last(calls).key != key then before
      else
        var hit := MemoryRun(calls, opts)[key];
        before + [Mark(Last(calls).at, hit.resetAt - opts.windowMs, hit.count, MemoryAnswer(calls, opts))]
  }

  lemma {:induction false} MemoryMarksRegular(calls: seq<Call>, key: string, opts: Options)
    requires Clocked(calls)
    ensures var marks := MemoryMarks(calls, key, opts);
            && Regular(marks, opts.windowMs, opts.Effective())
            && (key in MemoryRun(calls, opts) <==> marks != [])
            && (marks != [] ==> Last(marks).at <= Last(calls).at)
            && (marks != [] ==>
                  MemoryRun(calls, opts)[key] == Hit(Last(marks).rank, Last(marks).start + opts.windowMs))
    ensures forall t :: Within(MemoryMarks(calls, key, opts), t, opts.windowMs) == MemoryAllowed(calls, key, t, opts)
  {
    if calls != [] {
      MemoryMarksRegular(Init(calls), key, opts);
      var before, marks := MemoryMarks(Init(calls), key, opts), MemoryMarks(calls, key, opts);
      if calls[|calls| - 1].key == key {
        assert Init(marks) == before;
      }
    }
  }

  /** MAIN: the exact answer over a run. An attempt opens a window if the key has none or the last one opened
      a window's length ago or earlier, and is otherwise the next one in it; the first of a window is let
      through, and of the others the first max. */
  lemma {:induction false} MemoryAnswerIsRank(calls: seq<Call>, opts: Options)
    requires calls != [] && Clocked(calls)
    ensures var c := Last(calls);
            var before, m := MemoryMarks(Init(calls), c.key, opts), MemoryMarks(calls, c.key, opts);
            && m != [] && Init(m) == before && Last(m).at == c.at
            && (if before != [] && c.at < Last(before).start + opts.windowMs
                then Last(m).start == Last(before).start && Last(m).rank == Last(before).rank + 1
                else Last(m).start == c.at && Last(m).rank == 1)
            && (MemoryAnswer(calls, opts) <==> Last(m).rank == 1 || Last(m).rank <= opts.max)
  {
    var c := Last(calls);
    MemoryMarksRegular(Init(calls), c.key, opts);
    var before, m := MemoryMarks(Init(calls), c.key, opts), MemoryMarks(calls, c.key, opts);
    assert Init(m) == before;
  }

  /** MAIN: under a clock that never goes back, a key gets at most 2·max − 1 attempts through in
      any interval of one window's length (one, when max is below 1). */
  lemma {:induction false} MemorySlidingBound(calls: seq<Call>, key: string, t: int, opts: Options)
    requires Clocked(calls)
    ensures MemoryAllowed(calls, key, t, opts) <= 2 * opts.Effective() - 1
  {
    MemoryMarksRegular(calls, key, opts);
    TwoWindowsMinusOne(MemoryMarks(calls, key, opts), t, opts.windowMs, opts.Effective());
  }

  function Times(c: Call, n: nat): seq<Call> {
    if n == 0 then [] else Times(c, n - 1) + [c]
  }

  /** A run so far, where `key` has an open window with `hit` in it and `n` attempts allowed since t. */
  predicate Reached(calls: seq<Call>, key: string, at: int, hit: Hit, t: int, n: nat, opts: Options) {
    && calls != [] && Last(calls).at <= at
    && key in MemoryRun(calls, opts) && MemoryRun(calls, opts)[key] == hit
    && MemoryAllowed(calls, key, t, opts) == n
  }

  lemma {:induction false} Reopen(calls: seq<Call>, c: Call, t: int, opts: Options)
    requires Clocked(calls) && (calls != [] ==> Last(calls).at <= c.at)
    requires c.key in MemoryRun(calls, opts) ==> MemoryRun(calls, opts)[c.key].resetAt <= c.at
    ensures Clocked(calls + [c])
    ensures Reached(calls + [c], c.key, c.at, Hit(1, c.at + opts.windowMs), t,
                    MemoryAllowed(calls, c.key, t, opts) + (if t <= c.at < t + opts.windowMs then 1 else 0), opts)
  {
    assert Init(calls + [c]) == calls;
  }

  lemma {:induction false} HitAgain(calls: seq<Call>, c: Call, more: seq<Call>, t: int, hit: Hit, sofar: nat,
                                    opts: Options)
    requires more == calls + [c] && Clocked(calls) && Reached(calls, c.key, c.at, hit, t, sofar, opts)
    requires hit.resetAt > c.at && hit.count < opts.max && t <= c.at < t + opts.windowMs
    ensures Clocked(more)
    ensures Reached(more, c.key, c.at, Hit(hit.count + 1, hit.resetAt), t, sofar + 1, opts)
  {
    assert Init(more) == calls;
  }

  /** n more attempts inside an open window that still has room for them are all allowed. */
  lemma {:induction false} Burst(calls: seq<Call>, c: Call, n: nat, t: int, hit: Hit, sofar: nat, opts: Options)
    requires Clocked(calls) && Reached(calls, c.key, c.at, hit, t, sofar, opts)
    requires hit.resetAt > c.at && hit.count + n <= opts.max && t <= c.at < t + opts.windowMs
    ensures Clocked(calls + Times(c, n))
    ensures Reached(calls + Times(c, n), c.key, c.at, Hit(hit.count + n, hit.resetAt), t, sofar + n, opts)
  {
    if n == 0 {
      assert calls + [] == calls;
    } else {
      Burst(calls, c, n - 1, t, hit, sofar, opts);
      HitAgain(calls + Times(c, n - 1), c, calls + Times(c, n), t,
               Hit(hit.count + n - 1, hit.resetAt), sofar + n - 1, opts);
    }
  }

  /** The bound is reached: one attempt opens a window, the rest of its quota comes just before it
      ends, and a full quota just after. */
  lemma {:induction false} MemoryBoundIsReached(key: string, opts: Options) returns (calls: seq<Call>, t: int)
    requires opts.max >= 1 && opts.windowMs >= 2
    ensures Clocked(calls) && MemoryAllowed(calls, key, t, opts) == 2 * opts.max - 1
  {
    var w, rest := opts.windowMs, opts.max - 1;
    t := w - 1;
    calls := [Call(key, 0)];
    assert [] + [Call(key, 0)] == calls;
    Reopen([], Call(key, 0), t, opts);
    Burst(calls, Call(key, t), rest, t, Hit(1, w), 0, opts);
    calls := calls + Times(Call(key, t), rest);
    Reopen(calls, Call(key, w), t, opts);
    calls := calls + [Call(key, w)];
    Burst(calls, Call(key, w), rest, t, Hit(1, w + w), rest + 1, opts);
    calls := calls + Times(Call(key, w), rest);
  }

  // ---------------------------------------------------------------- runs of the Redis limiters

  /** One `allow` on one of several API instances that share a Redis server. */
  datatype Attempt = Attempt(instance: nat, key: string, at: int, fault: Fault)

  function RedisRun(log: seq<Attempt>, opts: Options): Counters {
    if log == [] then map[]
    else RedisStep(RedisRun(Init(log), opts), Last(log).key, Last(log).at, Last(log).fault, opts).0
  }

  function RedisAnswer(log: seq<Attempt>, opts: Options): Option<bool>
    requires log != []
  {
    RedisStep(RedisRun(Init(log), opts), Last(log).key, Last(log).at, Last(log).fault, opts).1
  }

  /** The calls that reached instance i's local fallback window. */
  function FallbackCalls(log: seq<Attempt>, i: nat, opts: Options): seq<Call> {
    if log == [] then []
    else
      var before := FallbackCalls(Init(log), i, opts);
      if Last(log).instance == i && RedisAnswer(log, opts).None?
      then before + [Call(Last(log).key, Last(log).at)] else before
  }

  /** What the last attempt of the log was told: Redis's answer, or its own instance's fallback. */
  function Allowed(log: seq<Attempt>, opts: Options): bool
    requires log != []
  {
    var remote := RedisAnswer(log, opts);
    if remote.Some? then remote.value
    else
      var hits := MemoryRun(FallbackCalls(Init(log), Last(log).instance, opts), opts);
      MemoryStep(hits, Last(log).key, Last(log).at, opts).allowed
  }

  /** What was let through is Redis's answer where its calls returned, and otherwise what the in-memory limiter
      of the attempt's own instance answers to the attempts that Redis left to it. */
  lemma {:induction false} AllowedMeans(log: seq<Attempt>, opts: Options)
    requires log != []
    ensures var a := Last(log);
            var calls := FallbackCalls(log, a.instance, opts);
            && (RedisAnswer(log, opts).Some? ==> Allowed(log, opts) == RedisAnswer(log, opts).value)
            && (RedisAnswer(log, opts).None? ==>
                  calls != [] && Last(calls) == Call(a.key, a.at) && Allowed(log, opts) == MemoryAnswer(calls, opts))
  {
    var a := Last(log);
    if RedisAnswer(log, opts).None? {
      var calls := FallbackCalls(log, a.instance, opts);
      assert Init(calls) == FallbackCalls(Init(log), a.instance, opts);
    }
  }

  /** The attempts on the key in the interval that were let through. */
  ghost function LetThrough(log: seq<Attempt>, key: string, t: int, opts: Options): set<nat> {
    set i: nat | i < |log| && LetThroughAt(log, i, key, t, opts)
  }

  predicate LetThroughAt(log: seq<Attempt>, i: nat, key: string, t: int, opts: Options)
    requires i < |log|
  {
    log[i].key == key && t <= log[i].at < t + opts.windowMs && Allowed(log[..i + 1], opts)
  }

  lemma {:induction false} LetThroughOneMore(log: seq<Attempt>, key: string, t: int, opts: Options)
    requires log != []
    ensures |LetThrough(log, key, t, opts)| ==
            |LetThrough(Init(log), key, t, opts)|
            + if InWindow(Last(log), key, t, opts) && Allowed(log, opts) then 1 else 0
  {
    var n, now := |log| - 1, InWindow(Last(log), key, t, opts) && Allowed(log, opts);
    assert log[..n + 1] == log;
    forall i: nat | i < n
      ensures LetThroughAt(Init(log), i, key, t, opts) <==> LetThroughAt(log, i, key, t, opts)
    {
      assert Init(log)[..i + 1] == log[..i + 1];
    }
    assert LetThroughAt(log, n, key, t, opts) <==> now;
    assert LetThrough(log, key, t, opts) == LetThrough(Init(log), key, t, opts) + if now then {n} else {};
  }

  /** The total that is bounded is their number. */
  lemma {:induction false} TotalAllowedMeans(log: seq<Attempt>, key: string, t: int, opts: Options)
    ensures TotalAllowed(log, key, t, opts) == |LetThrough(log, key, t, opts)|
  {
    if log != [] {
      TotalAllowedMeans(Init(log), key, t, opts);
      LetThroughOneMore(log, key, t, opts);
    } else {
      assert LetThrough(log, key, t, opts) == {};
    }
  }

  predicate InWindow(a: Attempt, key: string, t: int, opts: Options) {
    a.key == key && t <= a.at < t + opts.windowMs
  }

  /** Attempts on `key` let through in [t, t + windowMs), on any instance. */
  function TotalAllowed(log: seq<Attempt>, key: string, t: int, opts: Options): nat {
    if log == [] then 0
    else
      TotalAllowed(Init(log), key, t, opts)
      + if InWindow(Last(log), key, t, opts) && Allowed(log, opts) then 1 else 0
  }

  function RemoteAllowed(log: seq<Attempt>, key: string, t: int, opts: Options): nat {
    if log == [] then 0
    else
      RemoteAllowed(Init(log), key, t, opts)
      + if InWindow(Last(log), key, t, opts) && RedisAnswer(log, opts) == Some(true) then 1 else 0
  }

  function LocalAllowed(log: seq<Attempt>, n: nat, key: string, t: int, opts: Options): nat {
    if n == 0 then 0
    else LocalAllowed(log, n - 1, key, t, opts) + MemoryAllowed(FallbackCalls(log, n - 1, opts), key, t, opts)
  }

  ghost predicate ClockedLog(log: seq<Attempt>) {
    forall i, j :: 0 <= i <= j < |log| ==> log[i].at <= log[j].at
  }

  ghost predicate OnInstances(log: seq<Attempt>, n: nat) {
    forall i :: 0 <= i < |log| ==> log[i].instance < n
  }

  /** Every attempt that incremented the key, with its place in the key's life. */
  function RedisMarks(log: seq<Attempt>, key: string, opts: Options): seq<Mark> {
    if log == [] then []
    else
      var before := RedisMarks(Init(log), key, opts);
      var a := Last(log);
      if a.key != key || a.fault.IncrLost? then before
      else
        var n := LiveCount(RedisRun(Init(log), opts), key, a.at);
        before + [Mark(a.at, if n == 0 || before == [] then a.at else Last(before).start, n + 1,
                       RedisAnswer(log, opts) == Some(true))]
  }

  lemma {:induction false} RedisMarksRegular(log: seq<Attempt>, key: string, opts: Options)
    requires ClockedLog(log)
    ensures var marks, run := RedisMarks(log, key, opts), RedisRun(log, opts);
            && Regular(marks, opts.windowMs, opts.Effective())
            && (key in run <==> marks != [])
            && (marks != [] ==>
                  && Last(marks).at <= Last(log).at
                  && run[key].count == Last(marks).rank >= 1
                  && (run[key].expiresAt.Some? ==> run[key].expiresAt.value >= Last(marks).start + opts.windowMs))
    ensures forall t :: Within(RedisMarks(log, key, opts), t, opts.windowMs) == RemoteAllowed(log, key, t, opts)
  {
    if log != [] {
      RedisMarksRegular(Init(log), key, opts);
      var before, marks := RedisMarks(Init(log), key, opts), RedisMarks(log, key, opts);
      if Last(log).key == key && !Last(log).fault.IncrLost? {
        assert Init(marks) == before;
      }
    }
  }

  /** The attempt that opened the counter's current life, if the key has one. */
  function Opener(log: seq<Attempt>, key: string, opts: Options): Option<Attempt> {
    if log == [] then None
    else if Last(log).key != key || Last(log).fault.IncrLost? then Opener(Init(log), key, opts)
    else
      var opener := Opener(Init(log), key, opts);
      if opener.Some? && !Expired(opener.value, Last(log).at, opts) then opener else Some(Last(log))
  }

  /** The life that the attempt opened has ended: its PEXPIRE took effect and a window's length has passed. */
  predicate Expired(opener: Attempt, now: int, opts: Options) {
    match opener.fault
    case Healthy(delay) => opener.at + delay + opts.windowMs <= now
    case ExpireUnacknowledged(delay) => opener.at + delay + opts.windowMs <= now
    case _ => false
  }

  lemma {:induction false} OpenerExpiry(log: seq<Attempt>, key: string, opts: Options)
    ensures var opener, run := Opener(log, key, opts), RedisRun(log, opts);
            && (key in run <==> opener.Some?)
            && (opener.Some? ==>
                  && run[key].count >= 1
                  && (forall now :: Expired(opener.value, now, opts) <==>
                        run[key].expiresAt.Some? && run[key].expiresAt.value <= now))
  {
    if log != [] {
      OpenerExpiry(Init(log), key, opts);
    }
  }

  /** MAIN: the exact answer of the shared counter over a run, whatever was lost. An attempt whose INCR takes
      effect is the first of a life if the key has none or the last one has expired, and is otherwise the next
      one of it. If its calls return, it is let through exactly if its rank is at most max; and they return
      unless INCR fails, or it is the first of a life and PEXPIRE fails. */
  lemma {:induction false} RedisAnswerIsRank(log: seq<Attempt>, opts: Options)
    requires log != [] && !Last(log).fault.IncrLost?
    ensures var a := Last(log);
            var before, m := RedisMarks(Init(log), a.key, opts), RedisMarks(log, a.key, opts);
            var opener := Opener(Init(log), a.key, opts);
            && m != [] && Init(m) == before && Last(m).at == a.at
            && (before != [] <==> opener.Some?)
            && Last(m).rank == (if before != [] && !Expired(opener.value, a.at, opts) then Last(before).rank + 1 else 1)
            && (RedisAnswer(log, opts).Some? <==>
                !a.fault.IncrUnacknowledged? && (Last(m).rank == 1 ==> a.fault.Healthy?))
            && (RedisAnswer(log, opts).Some? ==> RedisAnswer(log, opts) == Some(Last(m).rank <= opts.max))
  {
    var a := Last(log);
    RankIsCount(Init(log), a.key, opts);
    OpenerExpiry(Init(log), a.key, opts);
    var before, m := RedisMarks(Init(log), a.key, opts), RedisMarks(log, a.key, opts);
    assert Init(m) == before;
  }

  lemma {:induction false} RankIsCount(log: seq<Attempt>, key: string, opts: Options)
    ensures var m, run := RedisMarks(log, key, opts), RedisRun(log, opts);
            && (key in run <==> m != [])
            && (m != [] ==> run[key].count == Last(m).rank >= 1)
  {
    if log != [] {
      RankIsCount(Init(log), key, opts);
    }
  }

  /** How many of the attempts are on the key. */
  function OnKey(log: seq<Attempt>, key: string): nat {
    if log == [] then 0 else OnKey(Init(log), key) + if Last(log).key == key then 1 else 0
  }

  /** MAIN: what Redis lets through when nothing fails, for every key and limit: of the attempts on a key within
      one window's length of the first one after its counter expired, each is let through exactly if it is
      among the first max, whatever else is tried on other keys in between. */
  lemma {:induction false} HealthyWindow(before: seq<Attempt>, log: seq<Attempt>, key: string, from: int, opts: Options)
    requires log != [] && Last(log).key == key
    requires Opener(before, key, opts).Some? ==> Expired(Opener(before, key, opts).value, from, opts)
    requires forall i :: 0 <= i < |log| && log[i].key == key ==>
               log[i].fault.Healthy? && from <= log[i].at < from + opts.windowMs
    ensures RedisAnswer(before + log, opts) == Some(OnKey(log, key) <= opts.max)
  {
    HealthyCount(before, Init(log), key, from, opts);
    var all := before + log;
    assert Init(all) == before + Init(log) && Last(all) == Last(log);
    assert Last(log) == log[|log| - 1];
  }

  function Healthies(key: string, at: int, n: nat): seq<Attempt> {
    seq(n, _ => Attempt(0, key, at, Healthy(0)))
  }

  /** For every key and limit, of n healthy attempts at one moment the first max are let through. */
  lemma {:induction false} FirstMaxAreLetThrough(key: string, at: int, n: nat, opts: Options)
    requires n >= 1 && opts.windowMs >= 1
    ensures RedisAnswer(Healthies(key, at, n), opts) == Some(n <= opts.max)
  {
    var log := Healthies(key, at, n);
    HealthiesAre(key, at, n);
    assert [] + log == log;
    HealthyWindow([], log, key, at, opts);
  }

  lemma {:induction false} HealthiesAre(key: string, at: int, n: nat)
    ensures OnKey(Healthies(key, at, n), key) == n
  {
    if n > 0 {
      HealthiesAre(key, at, n - 1);
      assert Init(Healthies(key, at, n)) == Healthies(key, at, n - 1);
    }
  }

  /** So far the counter has counted the attempts of the window, and lives on to its end. */
  lemma {:induction false} HealthyCount(before: seq<Attempt>, log: seq<Attempt>, key: string, from: int, opts: Options)
    requires Opener(before, key, opts).Some? ==> Expired(Opener(before, key, opts).value, from, opts)
    requires forall i :: 0 <= i < |log| && log[i].key == key ==>
               log[i].fault.Healthy? && from <= log[i].at < from + opts.windowMs
    ensures forall now :: from <= now < from + opts.windowMs ==>
              LiveCount(RedisRun(before + log, opts), key, now) == OnKey(log, key)
  {
    if log == [] {
      assert before + log == before;
      OpenerExpiry(before, key, opts);
      var run := RedisRun(before, opts);
      assert key in run ==> run[key].expiresAt.Some? && run[key].expiresAt.value <= from;
    } else {
      HealthyCount(before, Init(log), key, from, opts);
      var a := Last(log);
      assert a == log[|log| - 1];
      RunStep(before + Init(log), a, before + log, opts);
      if a.key == key {
        HealthyStep(RedisRun(before + Init(log), opts), a, from, OnKey(Init(log), key), opts);
      } else {
        forall now | from <= now < from + opts.windowMs
          ensures LiveCount(RedisRun(before + log, opts), key, now) == OnKey(log, key)
        {
          OtherKeyStep(RedisRun(before + Init(log), opts), a, key, now, opts);
        }
      }
    }
  }

  lemma {:induction false} HealthyStep(counters: Counters, a: Attempt, from: int, n: nat, opts: Options)
    requires a.fault.Healthy? && from <= a.at < from + opts.windowMs
    requires forall now :: from <= now < from + opts.windowMs ==> LiveCount(counters, a.key, now) == n
    ensures forall now :: from <= now < from + opts.windowMs ==>
              LiveCount(RedisStep(counters, a.key, a.at, a.fault, opts).0, a.key, now) == n + 1
  {
    assert LiveCount(counters, a.key, a.at) == n;
    forall now | from <= now < from + opts.windowMs
      ensures LiveCount(RedisStep(counters, a.key, a.at, a.fault, opts).0, a.key, now) == n + 1
    {
      assert LiveCount(counters, a.key, now) == n;
    }
  }

  lemma {:induction false} OtherKeyStep(counters: Counters, a: Attempt, key: string, now: int, opts: Options)
    requires a.key != key
    ensures LiveCount(RedisStep(counters, a.key, a.at, a.fault, opts).0, key, now) == LiveCount(counters, key, now)
  {}

  lemma {:induction false} FallbackClocked(log: seq<Attempt>, i: nat, opts: Options)
    requires ClockedLog(log)
    ensures Clocked(FallbackCalls(log, i, opts))
    ensures forall c :: c in FallbackCalls(log, i, opts) ==> log != [] && c.at <= Last(log).at
  {
    if log != [] {
      FallbackClocked(Init(log), i, opts);
      var before := FallbackCalls(Init(log), i, opts);
      assert forall j :: 0 <= j < |before| ==> before[j] in before;
    }
  }

  /** One more attempt adds to exactly one instance's fallback count, and only if it was local. */
  lemma {:induction false} LocalStep(log: seq<Attempt>, n: nat, key: string, t: int, opts: Options)
    requires log != []
    ensures LocalAllowed(log, n, key, t, opts) ==
            LocalAllowed(Init(log), n, key, t, opts)
            + if Last(log).instance < n && LetThroughLocally(log, key, t, opts) then 1 else 0
  {
    forall i: nat | i < n
      ensures MemoryAllowed(FallbackCalls(log, i, opts), key, t, opts) ==
              MemoryAllowed(FallbackCalls(Init(log), i, opts), key, t, opts)
              + if i == Last(log).instance && LetThroughLocally(log, key, t, opts) then 1 else 0
    {
      FallbackStep(log, i, key, t, opts);
    }
    var counted := if LetThroughLocally(log, key, t, opts) then 1 else 0;
    LocalSum(Init(log), log, n, Last(log).instance, counted, key, t, opts);
  }

  predicate LetThroughLocally(log: seq<Attempt>, key: string, t: int, opts: Options)
    requires log != []
  {
    InWindow(Last(log), key, t, opts) && RedisAnswer(log, opts).None? && Allowed(log, opts)
  }

  lemma {:induction false} LocalSum(a: seq<Attempt>, b: seq<Attempt>, n: nat, i: nat, d: nat, key: string, t: int,
                                    opts: Options)
    requires forall j: nat :: j < n ==>
               MemoryAllowed(FallbackCalls(b, j, opts), key, t, opts) ==
               MemoryAllowed(FallbackCalls(a, j, opts), key, t, opts) + if j == i then d else 0
    ensures LocalAllowed(b, n, key, t, opts) == LocalAllowed(a, n, key, t, opts) + if i < n then d else 0
  {
    if n > 0 {
      LocalSum(a, b, n - 1, i, d, key, t, opts);
    }
  }

  lemma {:induction false} FallbackStep(log: seq<Attempt>, i: nat, key: string, t: int, opts: Options)
    requires log != []
    ensures MemoryAllowed(FallbackCalls(log, i, opts), key, t, opts) ==
            MemoryAllowed(FallbackCalls(Init(log), i, opts), key, t, opts)
            + if i == Last(log).instance && LetThroughLocally(log, key, t, opts) then 1 else 0
  {
    var a, before := Last(log), FallbackCalls(Init(log), i, opts);
    if a.instance == i && RedisAnswer(log, opts).None? {
      var calls := before + [Call(a.key, a.at)];
      assert FallbackCalls(log, i, opts) == calls && Init(calls) == before && Last(calls) == Call(a.key, a.at);
    }
  }

  lemma {:induction false} AllowedSplits(log: seq<Attempt>, n: nat, key: string, t: int, opts: Options)
    requires OnInstances(log, n)
    ensures TotalAllowed(log, key, t, opts) == RemoteAllowed(log, key, t, opts) + LocalAllowed(log, n, key, t, opts)
  {
    if log == [] {
      NothingLocal(n, key, t, opts);
    } else {
      AllowedSplits(Init(log), n, key, t, opts);
      LocalStep(log, n, key, t, opts);
    }
  }

  lemma {:induction false} NothingLocal(n: nat, key: string, t: int, opts: Options)
    ensures LocalAllowed([], n, key, t, opts) == 0
  {
    if n > 0 {
      NothingLocal(n - 1, key, t, opts);
    }
  }

  lemma {:induction false} LocalBound(log: seq<Attempt>, n: nat, key: string, t: int, opts: Options)
    requires ClockedLog(log)
    ensures LocalAllowed(log, n, key, t, opts) <= n * (2 * opts.Effective() - 1)
  {
    if n > 0 {
      LocalBound(log, n - 1, key, t, opts);
      FallbackClocked(log, n - 1, opts);
      MemorySlidingBound(FallbackCalls(log, n - 1, opts), key, t, opts);
      assert n * (2 * opts.Effective() - 1) == (n - 1) * (2 * opts.Effective() - 1) + (2 * opts.Effective() - 1);
    }
  }

  /** MAIN: n instances sharing one Redis let at most (n + 1)·(2·max − 1) attempts on a key through
      in any window length, under every pattern of lost and unacknowledged Redis calls. */
  lemma {:induction false} RedisSlidingBound(log: seq<Attempt>, n: nat, key: string, t: int, opts: Options)
    requires ClockedLog(log) && OnInstances(log, n)
    ensures TotalAllowed(log, key, t, opts) <= (n + 1) * (2 * opts.Effective() - 1)
  {
    AllowedSplits(log, n, key, t, opts);
    RedisMarksRegular(log, key, opts);
    TwoWindowsMinusOne(RedisMarks(log, key, opts), t, opts.windowMs, opts.Effective());
    LocalBound(log, n, key, t, opts);
    assert (n + 1) * (2 * opts.Effective() - 1) == n * (2 * opts.Effective() - 1) + (2 * opts.Effective() - 1);
  }

  /** For the single instance of the source: at most 4·max − 2. */
  lemma {:induction false} SingleInstanceBound(log: seq<Attempt>, key: string, t: int, opts: Options)
    requires ClockedLog(log) && OnInstances(log, 1) && opts.max >= 1
    ensures TotalAllowed(log, key, t, opts) <= 4 * opts.max - 2
  {
    RedisSlidingBound(log, 1, key, t, opts);
    assert opts.Effective() == opts.max;
  }

  /** A counter that lost its PEXPIRE never opens again: it fails closed, not open. */
  lemma {:induction false} LostExpiryFailsClosed(log: seq<Attempt>, more: seq<Attempt>, key: string, opts: Options)
    requires key in RedisRun(log, opts) && RedisRun(log, opts)[key].expiresAt == None
    requires RedisRun(log, opts)[key].count >= 1
    requires RedisRun(log, opts)[key].count >= opts.max
    ensures var run := RedisRun(log + more, opts);
            key in run && run[key].expiresAt == None && run[key].count >= RedisRun(log, opts)[key].count
    ensures more != [] && Last(more).key == key ==> RedisAnswer(log + more, opts) != Some(true)
  {
    if more == [] {
      assert log + more == log;
    } else {
      LostExpiryFailsClosed(log, Init(more), key, opts);
      assert Init(log + more) == log + Init(more);
    }
  }

  /** After the log, no attempt on the key is ever let through by Redis again. */
  ghost predicate NeverOpens(log: seq<Attempt>, key: string, opts: Options) {
    forall more: seq<Attempt> ::
      more != [] && ClockedLog(log + more) && Last(more).key == key ==> RedisAnswer(log + more, opts) != Some(true)
  }

  /** MAIN: a full counter never opens again exactly when it has no expiry. */
  lemma {:induction false} NeverOpensIff(log: seq<Attempt>, key: string, opts: Options)
    requires ClockedLog(log) && key in RedisRun(log, opts) && RedisRun(log, opts)[key].count >= opts.max >= 1
    ensures NeverOpens(log, key, opts) <==> RedisRun(log, opts)[key].expiresAt == None
  {
    if RedisRun(log, opts)[key].expiresAt == None {
      forall more: seq<Attempt> | more != [] && Last(more).key == key
        ensures RedisAnswer(log + more, opts) != Some(true)
      {
        LostExpiryFailsClosed(log, more, key, opts);
      }
    } else {
      var expiry := RedisRun(log, opts)[key].expiresAt.value;
      var at := if log != [] && Last(log).at > expiry then Last(log).at else expiry;
      var more := [Attempt(0, key, at, Healthy(0))];
      assert Init(log + more) == log && Last(log + more) == more[0];
      assert ClockedLog(log + more) && RedisAnswer(log + more, opts) == Some(true);
    }
  }

  /** The first attempt's PEXPIRE is lost, and n more attempts follow. */
  function LostThenHealthy(key: string, at: int, n: nat): (log: seq<Attempt>)
    ensures log != []
  {
    if n == 0 then [Attempt(0, key, at, ExpireLost)]
    else LostThenHealthy(key, at, n - 1) + [Attempt(0, key, at, Healthy(0))]
  }

  lemma {:induction false} LostClocked(key: string, at: int, n: nat)
    ensures forall a :: a in LostThenHealthy(key, at, n) ==> a.at == at
    ensures ClockedLog(LostThenHealthy(key, at, n))
  {
    if n > 0 {
      LostClocked(key, at, n - 1);
    }
  }

  lemma {:induction false} RunStep(before: seq<Attempt>, a: Attempt, log: seq<Attempt>, opts: Options)
    requires log == before + [a]
    ensures RedisRun(log, opts) == RedisStep(RedisRun(before, opts), a.key, a.at, a.fault, opts).0
  {
    assert Init(log) == before && Last(log) == a;
  }

  lemma {:induction false} NoExpiryStep(key: string, at: int, n: nat, opts: Options)
    ensures RedisStep(map[], key, at, ExpireLost, opts).0 == map[key := Counter(1, None)]
    ensures n >= 1 ==>
              RedisStep(map[key := Counter(n, None)], key, at, Healthy(0), opts).0 == map[key := Counter(n + 1, None)]
  {}

  /** The counter counts on without an expiry. */
  lemma {:induction false} LostCounter(key: string, at: int, n: nat, opts: Options)
    ensures RedisRun(LostThenHealthy(key, at, n), opts) == map[key := Counter(n + 1, None)]
  {
    NoExpiryStep(key, at, n, opts);
    if n == 0 {
      RunStep([], Attempt(0, key, at, ExpireLost), LostThenHealthy(key, at, n), opts);
    } else {
      LostCounter(key, at, n - 1, opts);
      RunStep(LostThenHealthy(key, at, n - 1), Attempt(0, key, at, Healthy(0)), LostThenHealthy(key, at, n), opts);
    }
  }

  /** So a single lost PEXPIRE closes a key for good, for every key and every limit. */
  lemma {:induction false} LostExpiryIsReached(key: string, at: int, n: nat, opts: Options)
    requires 1 <= opts.max <= n + 1
    ensures ClockedLog(LostThenHealthy(key, at, n)) && NeverOpens(LostThenHealthy(key, at, n), key, opts)
  {
    LostClocked(key, at, n);
    LostCounter(key, at, n, opts);
    NeverOpensIff(LostThenHealthy(key, at, n), key, opts);
  }
}
