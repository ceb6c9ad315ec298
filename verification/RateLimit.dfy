/**
 * The Redis rate limiter for one key. INCR and EXPIRE of concurrent requests are separate atomic commands;
 * any Redis failure lets the request through.
 */
module RateLimit {
  import opened Foundations

  // ---------------------------------------------------------------------------------------------
  // The key in Redis
  // ---------------------------------------------------------------------------------------------

  datatype Key = Absent | Live(count: nat, deadline: Option<int>)

  /** A key whose deadline has come no longer exists. */
  function Purge(key: Key, at: int): Key {
    if key.Live? && key.deadline.Some? && key.deadline.value <= at then Absent else key
  }

  function Incremented(key: Key, at: int): Key {
    match Purge(key, at)
    case Absent => Live(1, None)
    case Live(count, deadline) => Live(count + 1, deadline)
  }

  /** A time to live that is not positive deletes the key. */
  function WithDeadline(key: Key, at: int, window: int): Key {
    match Purge(key, at)
    case Absent => Absent
    case Live(count, _) => if window <= 0 then Absent else Live(count, Some(at + window))
  }

  function TimeToLive(key: Key, at: int): int {
    match Purge(key, at)
    case Absent => -2
    case Live(_, None) => -1
    case Live(_, Some(deadline)) => deadline - at
  }

  class Redis {
    var key: Key

    constructor ()
      ensures key == Absent
    {
      key := Absent;
    }

    method Incr(at: int) returns (current: nat)
      modifies this
      ensures key == Incremented(old(key), at) && key.Live? && current == key.count
    {
      key := Incremented(key, at);
      current := key.count;
    }

    method Expire(at: int, window: int)
      modifies this
      ensures key == WithDeadline(old(key), at, window)
    {
      key := WithDeadline(key, at, window);
    }

    method Ttl(at: int) returns (ttl: int)
      ensures ttl == TimeToLive(key, at)
    {
      ttl := TimeToLive(key, at);
    }
  }

  function AtLeastOne(seconds: int): int {
    if seconds > 1 then seconds else 1
  }

  datatype Verdict = Allow | TooManyRequests(retryAfter: int)

  class RateLimiter {
    const maxRequests: int
    const windowSeconds: int

    constructor (maxRequests: int, windowSeconds: int)
      ensures this.maxRequests == maxRequests && this.windowSeconds == windowSeconds
    {
      this.maxRequests, this.windowSeconds := maxRequests, windowSeconds;
    }

    /** One request whose commands reach Redis at the times given, with nothing in between. */
    method Check(redis: Redis, incrAt: int, expireAt: int, ttlAt: int) returns (verdict: Verdict)
      modifies redis
      ensures var counted := Incremented(old(redis.key), incrAt);
        && redis.key == (if counted.count == 1 then WithDeadline(counted, expireAt, windowSeconds) else counted)
        && verdict == if counted.count <= maxRequests then Allow
                      else TooManyRequests(AtLeastOne(TimeToLive(redis.key, ttlAt)))
      // While the key lives the announced wait is exact; without a deadline no wait is long enough.
      ensures verdict.TooManyRequests? && Purge(redis.key, ttlAt).Live? ==>
        forall t :: ttlAt <= t ==>
          (Incremented(redis.key, t).count <= maxRequests <==>
           maxRequests >= 1 && redis.key.deadline.Some? && ttlAt + verdict.retryAfter <= t)
    {
      var current := redis.Incr(incrAt);
      if current == 1 {
        redis.Expire(expireAt, windowSeconds);
      }
      if current > maxRequests {
        var ttl := redis.Ttl(ttlAt);
        return TooManyRequests(AtLeastOne(ttl));
      }
      return Allow;
    }
  }

  // ---------------------------------------------------------------------------------------------
  // Concurrent requests
  // ---------------------------------------------------------------------------------------------

  datatype Limits = Limits(maxRequests: int, window: int)

  /** A request has got count 1 and owes an EXPIRE, is about to be refused, or is settled. */
  datatype Phase = Expiring | Refusing | Allowed | Refused

  /** An allowed request: counted within a lifetime of the key, or let through by a failure of Redis. */
  datatype Grant = Counted(p: nat, at: int, lifetime: nat, count: nat) | FailedOpen(p: nat, at: int)

  /** Besides the key: when each lifetime of the key began, the requests, and which were allowed. */
  datatype State = State(key: Key, starts: seq<int>, phases: map<nat, Phase>, log: seq<Grant>, now: int)

  /** For a failing command it is unknown whether Redis still carried it out. */
  datatype Event =
    | Incr(p: nat, at: int)
    | Expire(p: nat, at: int)
    | Ttl(p: nat, at: int)
    | IncrFails(p: nat, at: int, applied: bool)
    | ExpireFails(p: nat, at: int, applied: bool)
    | TtlFails(p: nat, at: int)

  ghost predicate Enabled(s: State, e: Event) {
    && s.now <= e.at
    && match e
       case Incr(p, _) => p !in s.phases
       case IncrFails(p, _, _) => p !in s.phases
       case Expire(p, _) => p in s.phases && s.phases[p] == Expiring
       case ExpireFails(p, _, _) => p in s.phases && s.phases[p] == Expiring
       case Ttl(p, _) => p in s.phases && s.phases[p] == Refusing
       case TtlFails(p, _) => p in s.phases && s.phases[p] == Refusing
  }

  /** INCR on the key; a count of 1 begins a lifetime. */
  function Count(s: State, at: int): State {
    var key := Incremented(s.key, at);
    s.(key := key, starts := if key.count == 1 then s.starts + [at] else s.starts, now := at)
  }

  function Step(l: Limits, s: State, e: Event): State {
    match e
    case Incr(p, at) =>
      var t := Count(s, at);
      var c := t.key.count;
      t.(phases := s.phases[p := if c == 1 then Expiring else if c <= l.maxRequests then Allowed else Refusing],
         log := if c <= l.maxRequests && |t.starts| > 0 then s.log + [Counted(p, at, |t.starts| - 1, c)] else s.log)
    case Expire(p, at) =>
      s.(key := WithDeadline(s.key, at, l.window), now := at,
         phases := s.phases[p := if 1 <= l.maxRequests then Allowed else Refusing])
    case Ttl(p, at) =>
      s.(now := at, phases := s.phases[p := Refused])
    case IncrFails(p, at, applied) =>
      var t := if applied then Count(s, at) else s.(now := at);
      t.(phases := s.phases[p := Allowed], log := s.log + [FailedOpen(p, at)])
    case ExpireFails(p, at, applied) =>
      s.(key := if applied then WithDeadline(s.key, at, l.window) else s.key, now := at,
         phases := s.phases[p := Allowed],
         log := if 1 <= l.maxRequests then s.log else s.log + [FailedOpen(p, at)])
    case TtlFails(p, at) =>
      s.(now := at, phases := s.phases[p := Allowed], log := s.log + [FailedOpen(p, at)])
  }

  ghost predicate IsRun(l: Limits, s: State, es: seq<Event>)
    decreases |es|
  {
    es == [] || (Enabled(s, es[0]) && IsRun(l, Step(l, s, es[0]), es[1..]))
  }

  function After(l: Limits, s: State, es: seq<Event>): State
    decreases |es|
  {
    if es == [] then s else After(l, Step(l, s, es[0]), es[1..])
  }

  function Initial(now: int): State {
    State(Absent, [], map[], [], now)
  }

  // ---------------------------------------------------------------------------------------------
  // What the key holds
  // ---------------------------------------------------------------------------------------------

  predicate Increments(e: Event) {
    e.Incr? || (e.IncrFails? && e.applied)
  }

  /** The INCR commands of a run since one of them last began a lifetime, given how many there were before it. */
  function HitsOfLifetime(l: Limits, s: State, es: seq<Event>, hits: nat): nat
    decreases |es|
  {
    if es == [] then hits
    else
      var t := Step(l, s, es[0]);
      HitsOfLifetime(l, t, es[1..],
                     if !Increments(es[0]) then hits else if |t.starts| > |s.starts| then 1 else hits + 1)
  }

  /** While the key lives its value is the number of INCR commands of its lifetime, failed ones included. */
  lemma {:induction false} KeyCountsItsLifetime(l: Limits, s: State, es: seq<Event>, hits: nat)
    requires IsRun(l, s, es) && (s.key.Live? ==> s.key.count == hits > 0)
    ensures var t := After(l, s, es); t.key.Live? ==> t.key.count == HitsOfLifetime(l, s, es, hits)
    decreases |es|
  {
    if es != [] {
      var t := Step(l, s, es[0]);
      var now := if !Increments(es[0]) then hits else if |t.starts| > |s.starts| then 1 else hits + 1;
      assert t.key.Live? ==> t.key.count == now > 0;
      KeyCountsItsLifetime(l, t, es[1..], now);
    }
  }

  /**
   * Only the request that begins a lifetime sets the deadline. If its EXPIRE is lost, the key never goes
   * away: once the limit is reached, whatever is let through later is let through by a failure of Redis.
   */
  lemma {:induction false} LostExpireBlocksForGood(l: Limits, s: State, es: seq<Event>)
    requires IsRun(l, s, es)
    requires s.key.Live? && s.key.deadline == None && s.key.count >= l.maxRequests && s.key.count >= 1
    requires forall p :: p in s.phases ==> s.phases[p] != Expiring
    ensures var t := After(l, s, es);
      && t.key.Live? && t.key.deadline == None && s.log <= t.log
      && forall k :: |s.log| <= k < |t.log| ==> t.log[k].FailedOpen?
    decreases |es|
  {
    if es != [] {
      LostExpireBlocksForGood(l, Step(l, s, es[0]), es[1..]);
    }
  }

  // ---------------------------------------------------------------------------------------------
  // Counting grants
  // ---------------------------------------------------------------------------------------------

  /** Grants of one lifetime whose count is at least c. */
  function CountFrom(log: seq<Grant>, lifetime: nat, c: nat): nat {
    if log == [] then 0
    else
      var g := log[|log| - 1];
      CountFrom(log[..|log| - 1], lifetime, c) +
        if g.Counted? && g.lifetime == lifetime && g.count >= c then 1 else 0
  }

  predicate InWindow(g: Grant, from: int, window: int) {
    g.Counted? && from <= g.at < from + window
  }

  /** Counted grants in the half-open interval [from, from + window). */
  function CountWindow(log: seq<Grant>, from: int, window: int): nat {
    if log == [] then 0
    else CountWindow(log[..|log| - 1], from, window) + if InWindow(log[|log| - 1], from, window) then 1 else 0
  }

  /** What is left of the limit from count c on. */
  function Room(limit: int, c: nat): nat {
    if c <= limit then limit - c + 1 else 0
  }

  function Min(a: int, b: int): int {
    if a < b then a else b
  }

  // ---------------------------------------------------------------------------------------------
  // The invariant
  // ---------------------------------------------------------------------------------------------

  ghost predicate GrantSound(l: Limits, s: State, g: Grant) {
    g.Counted? ==>
      && 1 <= g.count <= l.maxRequests
      && g.lifetime < |s.starts| && s.starts[g.lifetime] <= g.at <= s.now
      && (g.lifetime + 1 < |s.starts| ==> g.at <= s.starts[g.lifetime + 1])
      && (g.count == 1 ==> g.at == s.starts[g.lifetime])
  }

  /** Lifetimes are at least a window apart, and so is the end of the current one from its start. */
  ghost predicate Timeline(l: Limits, s: State) {
    && (forall k :: 0 < k < |s.starts| ==> s.starts[k - 1] + l.window <= s.starts[k])
    && (forall k :: 0 <= k < |s.starts| ==> s.starts[k] <= s.now)
    && (s.key.Live? ==> s.key.count > 0 && |s.starts| > 0)
    && (|s.starts| > 0 ==>
        var start := s.starts[|s.starts| - 1];
        match s.key
        case Absent => start + l.window <= s.now
        case Live(_, deadline) => deadline.Some? ==> start + l.window <= deadline.value)
  }

  ghost predicate GrantsSound(l: Limits, s: State) {
    forall k :: 0 <= k < |s.log| ==> GrantSound(l, s, s.log[k])
  }

  /** At most limit - c + 1 grants of a lifetime have a count of c or more. */
  ghost predicate Filled(log: seq<Grant>, lifetime: nat, limit: int) {
    forall c: nat :: 1 <= c ==> CountFrom(log, lifetime, c) <= Room(limit, c)
  }

  ghost predicate CountsSound(l: Limits, s: State) {
    && (forall n: nat :: Filled(s.log, n, l.maxRequests))
    && (forall n: nat :: |s.starts| <= n ==> Filled(s.log, n, 0))
    && (s.key.Live? && |s.starts| > 0 ==> Filled(s.log, |s.starts| - 1, Min(s.key.count, l.maxRequests)))
  }

  ghost predicate Invariant(l: Limits, s: State) {
    Timeline(l, s) && GrantsSound(l, s) && CountsSound(l, s)
  }

  lemma FilledMonotone(log: seq<Grant>, lifetime: nat, limit: int, limit': int)
    requires Filled(log, lifetime, limit) && limit <= limit'
    ensures Filled(log, lifetime, limit')
  {
  }

  lemma FilledAppend(log: seq<Grant>, g: Grant, lifetime: nat, limit: int)
    requires Filled(log, lifetime, limit)
    ensures !(g.Counted? && g.lifetime == lifetime) ==> Filled(log + [g], lifetime, limit)
    ensures g.Counted? && 1 <= g.count <= limit + 1 && limit >= 0 ==> Filled(log + [g], lifetime, limit + 1)
  {
    assert (log + [g])[..|log|] == log;
    forall c: nat | 1 <= c
      ensures CountFrom(log + [g], lifetime, c) <=
        CountFrom(log, lifetime, c) + if g.Counted? && g.lifetime == lifetime && g.count >= c then 1 else 0
      ensures CountFrom(log, lifetime, c) <= Room(limit, c)
    {
    }
  }

  lemma BeginKeepsCounts(l: Limits, s: State, at: int)
    requires CountsSound(l, s) && Purge(s.key, at) == Absent
    ensures CountsSound(l, Count(s, at)) && Filled(s.log, |s.starts|, 0)
  {
    var t := Count(s, at);
    assert t.log == s.log && |t.starts| == |s.starts| + 1 && t.key == Live(1, None);
    assert Filled(s.log, |s.starts|, 0) && Filled(s.log, |s.starts|, l.maxRequests);
    if l.maxRequests >= 0 {
      FilledMonotone(s.log, |s.starts|, 0, Min(1, l.maxRequests));
    }
  }

  lemma CountBegins(l: Limits, s: State, at: int)
    requires Invariant(l, s) && s.now <= at && Purge(s.key, at) == Absent
    ensures Invariant(l, Count(s, at))
    ensures Filled(s.log, |s.starts|, 0) && Count(s, at).starts == s.starts + [at]
  {
    BeginKeepsCounts(l, s, at);
    var t := Count(s, at);
    forall k | 0 <= k < |t.log| ensures GrantSound(l, t, t.log[k]) {
      assert GrantSound(l, s, s.log[k]);
    }
  }

  lemma CountContinues(l: Limits, s: State, at: int)
    requires Invariant(l, s) && s.now <= at && Purge(s.key, at) != Absent
    ensures Invariant(l, Count(s, at)) && Count(s, at).starts == s.starts
    ensures Filled(s.log, |s.starts| - 1, Min(s.key.count, l.maxRequests))
  {
  }

  lemma CountKeeps(l: Limits, s: State, at: int)
    requires Invariant(l, s) && s.now <= at
    ensures Invariant(l, Count(s, at))
    ensures l.maxRequests >= 0 ==>
      Filled(s.log, |Count(s, at).starts| - 1, Min(Count(s, at).key.count - 1, l.maxRequests))
  {
    if Purge(s.key, at) == Absent {
      CountBegins(l, s, at);
    } else {
      CountContinues(l, s, at);
    }
  }

  lemma AppendCounted(l: Limits, s: State, p: nat)
    requires Invariant(l, s) && s.key.Live? && 1 <= s.key.count <= l.maxRequests
    requires Filled(s.log, |s.starts| - 1, s.key.count - 1)
    requires GrantSound(l, s, Counted(p, s.now, |s.starts| - 1, s.key.count))
    ensures Invariant(l, s.(log := s.log + [Counted(p, s.now, |s.starts| - 1, s.key.count)]))
  {
    var g := Counted(p, s.now, |s.starts| - 1, s.key.count);
    var t := s.(log := s.log + [g]);
    forall n: nat | n != g.lifetime ensures Filled(t.log, n, l.maxRequests) {
      FilledAppend(s.log, g, n, l.maxRequests);
    }
    forall n: nat | |s.starts| <= n ensures Filled(t.log, n, 0) {
      FilledAppend(s.log, g, n, 0);
    }
    FilledAppend(s.log, g, g.lifetime, s.key.count - 1);
    FilledMonotone(t.log, g.lifetime, s.key.count, l.maxRequests);
    forall k | 0 <= k < |t.log| ensures GrantSound(l, t, t.log[k]) {
      assert k < |s.log| ==> GrantSound(l, s, s.log[k]);
    }
  }

  lemma AppendFailedOpen(l: Limits, s: State, p: nat, at: int)
    requires Invariant(l, s)
    ensures Invariant(l, s.(log := s.log + [FailedOpen(p, at)]))
  {
    var t := s.(log := s.log + [FailedOpen(p, at)]);
    forall n: nat ensures Filled(t.log, n, l.maxRequests) {
      FilledAppend(s.log, FailedOpen(p, at), n, l.maxRequests);
    }
    forall n: nat | |s.starts| <= n ensures Filled(t.log, n, 0) {
      FilledAppend(s.log, FailedOpen(p, at), n, 0);
    }
    if s.key.Live? {
      FilledAppend(s.log, FailedOpen(p, at), |s.starts| - 1, Min(s.key.count, l.maxRequests));
    }
    forall k | 0 <= k < |t.log| ensures GrantSound(l, t, t.log[k]) {
      assert k < |s.log| ==> GrantSound(l, s, s.log[k]);
    }
  }

  lemma ClockKeeps(l: Limits, s: State, at: int, phases: map<nat, Phase>)
    requires Invariant(l, s) && s.now <= at
    ensures Invariant(l, s.(now := at, phases := phases))
    ensures Invariant(l, s.(now := at, phases := phases, key := WithDeadline(s.key, at, l.window)))
  {
  }

  lemma IncrKeepsInvariant(l: Limits, s: State, p: nat, at: int)
    requires Invariant(l, s) && Enabled(s, Incr(p, at))
    ensures Invariant(l, Step(l, s, Incr(p, at)))
  {
    CountKeeps(l, s, at);
    var t := Count(s, at);
    var u := t.(phases := Step(l, s, Incr(p, at)).phases);
    ClockKeeps(l, t, at, u.phases);
    if t.key.count <= l.maxRequests {
      AppendCounted(l, u, p);
    }
  }

  lemma StepKeepsInvariant(l: Limits, s: State, e: Event)
    requires Invariant(l, s) && Enabled(s, e)
    ensures Invariant(l, Step(l, s, e))
  {
    var phases := Step(l, s, e).phases;
    match e
    case Incr(p, at) =>
      IncrKeepsInvariant(l, s, p, at);
    case Expire(p, at) =>
      ClockKeeps(l, s, at, phases);
    case Ttl(p, at) =>
      ClockKeeps(l, s, at, phases);
    case IncrFails(p, at, applied) =>
      CountKeeps(l, s, at);
      var t := if applied then Count(s, at) else s;
      ClockKeeps(l, t, at, phases);
      AppendFailedOpen(l, t.(phases := phases, now := at), p, at);
    case ExpireFails(p, at, applied) =>
      ClockKeeps(l, s, at, phases);
      AppendFailedOpen(l, s.(now := at, phases := phases, key := if applied then WithDeadline(s.key, at, l.window) else s.key), p, at);
    case TtlFails(p, at) =>
      ClockKeeps(l, s, at, phases);
      AppendFailedOpen(l, s.(now := at, phases := phases), p, at);
  }

  lemma {:induction false} RunsKeepInvariant(l: Limits, s: State, es: seq<Event>)
    requires Invariant(l, s) && IsRun(l, s, es)
    ensures Invariant(l, After(l, s, es))
    decreases |es|
  {
    if es != [] {
      StepKeepsInvariant(l, s, es[0]);
      RunsKeepInvariant(l, Step(l, s, es[0]), es[1..]);
    }
  }

  // ---------------------------------------------------------------------------------------------
  // The log is complete
  // ---------------------------------------------------------------------------------------------

  ghost predicate Logged(log: seq<Grant>, p: nat) {
    exists k :: 0 <= k < |log| && log[k].p == p
  }

  /** A request is logged once it is bound to be allowed; a first request is, unless nothing ever is. */
  ghost predicate BoundToBeAllowed(l: Limits, s: State, p: nat) {
    p in s.phases && (s.phases[p] == Allowed || (s.phases[p] == Expiring && 1 <= l.maxRequests))
  }

  ghost predicate LogComplete(l: Limits, s: State) {
    && (forall p: nat :: Logged(s.log, p) <==> BoundToBeAllowed(l, s, p))
    && (forall i, j :: 0 <= i < j < |s.log| ==> s.log[i].p != s.log[j].p)
  }

  lemma LoggedAppend(log: seq<Grant>, g: Grant, p: nat)
    ensures Logged(log + [g], p) <==> Logged(log, p) || g.p == p
  {
    if Logged(log, p) {
      var k :| 0 <= k < |log| && log[k].p == p;
      assert (log + [g])[k].p == p;
    }
    assert (log + [g])[|log|] == g;
  }

  lemma StepKeepsLogComplete(l: Limits, s: State, e: Event)
    requires LogComplete(l, s) && Enabled(s, e)
    requires Timeline(l, s)
    ensures LogComplete(l, Step(l, s, e))
  {
    var t := Step(l, s, e);
    assert !BoundToBeAllowed(l, s, e.p) || t.log == s.log;
    assert !Logged(s.log, e.p) || t.log == s.log;
    forall p: nat ensures Logged(t.log, p) <==> BoundToBeAllowed(l, t, p) {
      assert Logged(s.log, p) <==> BoundToBeAllowed(l, s, p);
      if t.log != s.log {
        LoggedAppend(s.log, t.log[|s.log|], p);
      }
    }
  }

  /** Over every run the log lists each allowed request once and no refused one. */
  lemma {:induction false} RunsKeepLogComplete(l: Limits, s: State, es: seq<Event>)
    requires Invariant(l, s) && LogComplete(l, s) && IsRun(l, s, es)
    ensures LogComplete(l, After(l, s, es))
    decreases |es|
  {
    if es != [] {
      StepKeepsInvariant(l, s, es[0]);
      StepKeepsLogComplete(l, s, es[0]);
      RunsKeepLogComplete(l, Step(l, s, es[0]), es[1..]);
    }
  }

  // ---------------------------------------------------------------------------------------------
  // The bound over time
  // ---------------------------------------------------------------------------------------------

  /** Each lifetime of the key allows at most maxRequests, over every interleaving. */
  lemma LifetimeBound(l: Limits, now: int, es: seq<Event>, lifetime: nat)
    requires IsRun(l, Initial(now), es)
    ensures CountFrom(After(l, Initial(now), es).log, lifetime, 1) <= if l.maxRequests >= 0 then l.maxRequests else 0
  {
    RunsKeepInvariant(l, Initial(now), es);
    assert Filled(After(l, Initial(now), es).log, lifetime, l.maxRequests);
  }

  /** Grants in a window come from one lifetime after its first request, or from the next lifetime. */
  ghost predicate WithinTwo(g: Grant, n: nat) {
    g.Counted? && ((g.lifetime == n && g.count >= 2) || (g.lifetime == n + 1 && g.count >= 1))
  }

  lemma {:induction false} WindowOfTwo(log: seq<Grant>, from: int, window: int, n: nat)
    requires forall k :: 0 <= k < |log| && InWindow(log[k], from, window) ==> WithinTwo(log[k], n)
    ensures CountWindow(log, from, window) <= CountFrom(log, n, 2) + CountFrom(log, n + 1, 1)
  {
    if log != [] {
      WindowOfTwo(log[..|log| - 1], from, window, n);
    }
  }

  lemma {:induction false} WindowOfOne(log: seq<Grant>, from: int, window: int, n: nat)
    requires forall k :: 0 <= k < |log| && InWindow(log[k], from, window) ==> log[k].lifetime == n && log[k].count >= 1
    ensures CountWindow(log, from, window) <= CountFrom(log, n, 1)
  {
    if log != [] {
      WindowOfOne(log[..|log| - 1], from, window, n);
    }
  }

  lemma {:induction false} EmptyWindow(log: seq<Grant>, from: int, window: int)
    requires forall k :: 0 <= k < |log| ==> !InWindow(log[k], from, window)
    ensures CountWindow(log, from, window) == 0
  {
    if log != [] {
      EmptyWindow(log[..|log| - 1], from, window);
    }
  }

  lemma {:induction false} StartsApart(l: Limits, s: State, i: nat, j: nat)
    requires Timeline(l, s) && l.window >= 0 && i < j < |s.starts|
    ensures s.starts[i] + l.window <= s.starts[j]
    decreases j
  {
    if i + 1 < j {
      StartsApart(l, s, i, j - 1);
    }
  }

  /** Two counted grants of one window lie in one lifetime or in neighbouring ones. */
  lemma NeighbouringLifetimes(l: Limits, s: State, from: int, g: Grant, f: Grant)
    requires Invariant(l, s) && GrantSound(l, s, g) && GrantSound(l, s, f)
    requires InWindow(g, from, l.window) && InWindow(f, from, l.window) && g.lifetime < f.lifetime
    ensures f.lifetime == g.lifetime + 1 && g.count >= 2
  {
    StartsApart(l, s, g.lifetime, f.lifetime);
    if g.lifetime + 1 < f.lifetime {
      StartsApart(l, s, g.lifetime + 1, f.lifetime);
    }
  }

  /** The latest lifetime with a grant in the window. */
  lemma {:induction false} LatestInWindow(log: seq<Grant>, from: int, window: int) returns (k: nat)
    requires exists j :: 0 <= j < |log| && InWindow(log[j], from, window)
    ensures k < |log| && InWindow(log[k], from, window)
    ensures forall j :: 0 <= j < |log| && InWindow(log[j], from, window) ==> log[j].lifetime <= log[k].lifetime
    decreases |log|
  {
    var init := log[..|log| - 1];
    if exists j :: 0 <= j < |init| && InWindow(init[j], from, window) {
      k := LatestInWindow(init, from, window);
      assert forall j :: 0 <= j < |log| && j != |log| - 1 ==> log[j] == init[j];
      if InWindow(log[|log| - 1], from, window) && log[|log| - 1].lifetime > log[k].lifetime {
        k := |log| - 1;
      }
    } else {
      assert forall j :: 0 <= j < |log| && j != |log| - 1 ==> log[j] == init[j];
      k := |log| - 1;
    }
  }

  lemma OneLifetimeInWindow(l: Limits, s: State, from: int, n: nat)
    requires Invariant(l, s)
    requires forall j :: 0 <= j < |s.log| && InWindow(s.log[j], from, l.window) ==> s.log[j].lifetime == n
    ensures CountWindow(s.log, from, l.window) <= Room(l.maxRequests, 1)
  {
    forall j | 0 <= j < |s.log| && InWindow(s.log[j], from, l.window) ensures s.log[j].count >= 1 {
      assert GrantSound(l, s, s.log[j]);
    }
    WindowOfOne(s.log, from, l.window, n);
    assert Filled(s.log, n, l.maxRequests);
  }

  lemma TwoLifetimesInWindow(l: Limits, s: State, from: int, i: nat, k: nat)
    requires Invariant(l, s) && i < |s.log| && k < |s.log|
    requires InWindow(s.log[i], from, l.window) && InWindow(s.log[k], from, l.window)
    requires s.log[i].lifetime < s.log[k].lifetime
    requires forall j :: 0 <= j < |s.log| && InWindow(s.log[j], from, l.window) ==> s.log[j].lifetime <= s.log[k].lifetime
    ensures CountWindow(s.log, from, l.window) <= Room(l.maxRequests, 2) + Room(l.maxRequests, 1)
  {
    var n: nat := s.log[k].lifetime - 1;
    assert GrantSound(l, s, s.log[k]);
    forall j | 0 <= j < |s.log| && InWindow(s.log[j], from, l.window) ensures WithinTwo(s.log[j], n) {
      assert GrantSound(l, s, s.log[j]);
      if s.log[j].lifetime <= n {
        NeighbouringLifetimes(l, s, from, s.log[j], s.log[k]);
      }
    }
    WindowOfTwo(s.log, from, l.window, n);
    assert Filled(s.log, n, l.maxRequests) && Filled(s.log, n + 1, l.maxRequests);
  }

  lemma WindowBoundInState(l: Limits, s: State, from: int)
    requires Invariant(l, s)
    ensures CountWindow(s.log, from, l.window) <= if l.maxRequests >= 1 then 2 * l.maxRequests - 1 else 0
  {
    if exists j :: 0 <= j < |s.log| && InWindow(s.log[j], from, l.window) {
      var k := LatestInWindow(s.log, from, l.window);
      if i :| 0 <= i < |s.log| && InWindow(s.log[i], from, l.window) && s.log[i].lifetime != s.log[k].lifetime {
        TwoLifetimesInWindow(l, s, from, i, k);
      } else {
        OneLifetimeInWindow(l, s, from, s.log[k].lifetime);
      }
    } else {
      EmptyWindow(s.log, from, l.window);
    }
  }

  /**
   * Over every run, every half-open interval of one window allows at most 2 * maxRequests - 1 counted
   * requests, timed by their INCR. Any further request in it was let through by a failure of Redis.
   */
  lemma WindowBound(l: Limits, now: int, es: seq<Event>, from: int)
    requires IsRun(l, Initial(now), es)
    ensures CountWindow(After(l, Initial(now), es).log, from, l.window)
         <= if l.maxRequests >= 1 then 2 * l.maxRequests - 1 else 0
  {
    RunsKeepInvariant(l, Initial(now), es);
    WindowBoundInState(l, After(l, Initial(now), es), from);
  }

  // ---------------------------------------------------------------------------------------------
  // The bound is reached
  // ---------------------------------------------------------------------------------------------

  /** n requests at one instant. */
  function Burst(p: nat, n: nat, at: int): seq<Event>
    decreases n
  {
    if n == 0 then [] else [Incr(p, at)] + Burst(p + 1, n - 1, at)
  }

  ghost predicate FreshFrom(s: State, p: nat) {
    forall q :: q in s.phases ==> q < p
  }

  lemma CountWindowAppend(log: seq<Grant>, g: Grant, from: int, window: int)
    ensures CountWindow(log + [g], from, window) == CountWindow(log, from, window) + if InWindow(g, from, window) then 1 else 0
  {
  }

  /** Ready for n more requests at the given instant, all within the limit. */
  ghost predicate Ready(l: Limits, s: State, p: nat, n: nat, at: int) {
    && |s.starts| > 0 && FreshFrom(s, p) && s.now <= at && Purge(s.key, at) == s.key
    && s.key.Live? && s.key.count + n <= l.maxRequests
  }

  lemma RequestIsGranted(l: Limits, s: State, p: nat, n: nat, at: int, from: int) returns (t: State)
    requires Ready(l, s, p, n, at) && n > 0 && from <= at < from + l.window
    ensures Enabled(s, Incr(p, at)) && t == Step(l, s, Incr(p, at))
    ensures Ready(l, t, p + 1, n - 1, at) && t.key == s.key.(count := s.key.count + 1)
    ensures CountWindow(t.log, from, l.window) == CountWindow(s.log, from, l.window) + 1
  {
    t := Step(l, s, Incr(p, at));
    CountWindowAppend(s.log, Counted(p, at, |s.starts| - 1, s.key.count + 1), from, l.window);
  }

  lemma RunCons(l: Limits, s: State, e: Event, rest: seq<Event>)
    requires Enabled(s, e) && IsRun(l, Step(l, s, e), rest)
    ensures IsRun(l, s, [e] + rest) && After(l, s, [e] + rest) == After(l, Step(l, s, e), rest)
  {
  }

  /** Within a lifetime, requests up to the limit are all granted. */
  lemma {:induction false} BurstIsGranted(l: Limits, s: State, p: nat, n: nat, at: int, from: int) returns (t: State)
    requires Ready(l, s, p, n, at) && from <= at < from + l.window
    ensures IsRun(l, s, Burst(p, n, at)) && t == After(l, s, Burst(p, n, at))
    ensures Ready(l, t, p + n, 0, at) && t.key == s.key.(count := s.key.count + n)
    ensures CountWindow(t.log, from, l.window) == CountWindow(s.log, from, l.window) + n
    decreases n
  {
    if n == 0 {
      t := s;
    } else {
      var u := RequestIsGranted(l, s, p, n, at, from);
      t := BurstIsGranted(l, u, p + 1, n - 1, at, from);
      RunCons(l, s, Incr(p, at), Burst(p + 1, n - 1, at));
    }
  }

  lemma {:induction false} RunsCompose(l: Limits, s: State, es: seq<Event>, fs: seq<Event>)
    requires IsRun(l, s, es) && IsRun(l, After(l, s, es), fs)
    ensures IsRun(l, s, es + fs) && After(l, s, es + fs) == After(l, After(l, s, es), fs)
    decreases |es|
  {
    if es == [] {
      assert es + fs == fs;
    } else {
      RunsCompose(l, Step(l, s, es[0]), es[1..], fs);
      RunCons(l, s, es[0], es[1..] + fs);
      assert es + fs == [es[0]] + (es[1..] + fs);
    }
  }

  lemma NewLifetime(l: Limits, s: State, p: nat, at: int, from: int) returns (t: State)
    requires l.maxRequests >= 1 && FreshFrom(s, p) && s.now <= at && from <= at < from + l.window
    requires Purge(s.key, at) == Absent
    ensures Enabled(s, Incr(p, at)) && t == Step(l, s, Incr(p, at))
    ensures Ready(l, t, p + 1, l.maxRequests - 1, at)
    ensures CountWindow(t.log, from, l.window) == CountWindow(s.log, from, l.window) + 1
  {
    t := Step(l, s, Incr(p, at));
    CountWindowAppend(s.log, Counted(p, at, |s.starts|, 1), from, l.window);
  }

  lemma FirstExpire(l: Limits, s: State, p: nat, at: int, later: int) returns (t: State)
    requires s.now == at && p in s.phases && s.phases[p] == Expiring && s.key == Live(1, None) && |s.starts| > 0
    requires FreshFrom(s, p + 1) && at <= later < at + l.window && l.maxRequests >= 1
    ensures Enabled(s, Expire(p, at)) && t == Step(l, s, Expire(p, at))
    ensures Ready(l, t, p + 1, l.maxRequests - 1, later) && t.log == s.log && t.key == Live(1, Some(at + l.window))
  {
    t := Step(l, s, Expire(p, at));
  }

  lemma OpeningRequest(l: Limits) returns (t: State)
    requires l.maxRequests >= 1
    ensures Enabled(Initial(0), Incr(0, 0)) && t == Step(l, Initial(0), Incr(0, 0))
    ensures t.now == 0 && t.phases == map[0 := Expiring] && t.key == Live(1, None) && t.starts == [0]
    ensures t.log == [Counted(0, 0, 0, 1)] && CountWindow(t.log, 1, l.window) == 0
  {
    t := Step(l, Initial(0), Incr(0, 0));
    EmptyWindow(t.log, 1, l.window);
  }

  /** The first lifetime: one request at 0, the rest of the limit in the last unit before the deadline. */
  lemma FirstLifetime(l: Limits) returns (es: seq<Event>, t: State)
    requires l.maxRequests >= 1 && l.window >= 2
    ensures IsRun(l, Initial(0), es) && t == After(l, Initial(0), es)
    ensures FreshFrom(t, l.maxRequests) && t.now < l.window
    ensures t.key == Live(l.maxRequests, Some(l.window)) && CountWindow(t.log, 1, l.window) == l.maxRequests - 1
  {
    var s1 := OpeningRequest(l);
    var n: nat := l.maxRequests - 1;
    var s2 := FirstExpire(l, s1, 0, 0, l.window - 1);
    t := BurstIsGranted(l, s2, 1, n, l.window - 1, 1);
    RunCons(l, s1, Expire(0, 0), Burst(1, n, l.window - 1));
    es := [Expire(0, 0)] + Burst(1, n, l.window - 1);
    RunCons(l, Initial(0), Incr(0, 0), es);
    es := [Incr(0, 0)] + es;
  }

  /** A later lifetime: the whole limit at one instant. */
  lemma WholeLimitAtOnce(l: Limits, s: State, p: nat, at: int, from: int) returns (es: seq<Event>, t: State)
    requires l.maxRequests >= 1 && FreshFrom(s, p) && s.now <= at && from <= at < from + l.window
    requires Purge(s.key, at) == Absent
    ensures IsRun(l, s, es) && t == After(l, s, es)
    ensures CountWindow(t.log, from, l.window) == CountWindow(s.log, from, l.window) + l.maxRequests
  {
    var u := NewLifetime(l, s, p, at, from);
    t := BurstIsGranted(l, u, p + 1, l.maxRequests - 1, at, from);
    RunCons(l, s, Incr(p, at), Burst(p + 1, l.maxRequests - 1, at));
    es := [Incr(p, at)] + Burst(p + 1, l.maxRequests - 1, at);
  }

  /**
   * The bound is exact: for every limit and every window of at least two time units some run without any
   * failure gets 2 * maxRequests - 1 requests through one window, so the counter is not a sliding one.
   */
  lemma WindowBoundIsReached(l: Limits) returns (es: seq<Event>)
    requires l.maxRequests >= 1 && l.window >= 2
    ensures IsRun(l, Initial(0), es)
    ensures CountWindow(After(l, Initial(0), es).log, 1, l.window) == 2 * l.maxRequests - 1
  {
    var first, s := FirstLifetime(l);
    var second, t := WholeLimitAtOnce(l, s, l.maxRequests, l.window, 1);
    RunsCompose(l, Initial(0), first, second);
    es := first + second;
  }

  /** What a sliding window would promise: never more than the limit in any window. */
  ghost predicate SlidingLimitHolds(l: Limits) {
    forall now, es, from :: IsRun(l, Initial(now), es) ==>
      CountWindow(After(l, Initial(now), es).log, from, l.window) <= if l.maxRequests >= 0 then l.maxRequests else 0
  }

  /** The documented sliding window holds exactly for limits of one request or none. */
  lemma SlidingLimitExactly(l: Limits)
    requires l.window >= 2
    ensures SlidingLimitHolds(l) <==> l.maxRequests <= 1
  {
    if l.maxRequests >= 2 {
      var es := WindowBoundIsReached(l);
    } else {
      forall now, es, from | IsRun(l, Initial(now), es) {
        WindowBound(l, now, es, from);
      }
    }
  }
}
