/** The per-user token bucket: what it admits, and why sweeping stale buckets is not noticed. */
module RateLimit {

  datatype Config = Config(rate: real, burst: int) {
    predicate Valid() {
      rate >= 0.0 && burst >= 0
    }
  }

  datatype BucketState = BucketState(tokens: real, lastTime: real)
  type Buckets = map<string, BucketState>

  function Capped(x: real, cfg: Config): real {
    if x > cfg.burst as real then cfg.burst as real else x
  }

  /** Tokens that dt seconds bring. */
  function Gain(dt: real, cfg: Config): real {
    dt * cfg.rate
  }

  /** The tokens a request at time now finds: an absent bucket is created full. */
  function Level(bs: Buckets, user: string, now: real, cfg: Config): real {
    if user in bs then Capped(bs[user].tokens + Gain(now - bs[user].lastTime, cfg), cfg)
    else cfg.burst as real
  }

  function Allow(bs: Buckets, user: string, now: real, cfg: Config): (Buckets, bool) {
    var level := Level(bs, user, now, cfg);
    if level >= 1.0 then (bs[user := BucketState(level - 1.0, now)], true)
    else (bs[user := BucketState(level, now)], false)
  }

  function Cleanup(bs: Buckets, now: real, maxAge: real): Buckets {
    map user | user in bs && now - bs[user].lastTime <= maxAge :: bs[user]
  }

  // ---- Runs ----

  datatype Event = Request(user: string, at: real) | Sweep(maxAge: real, at: real)

  predicate Ordered(events: seq<Event>) {
    forall i, j | 0 <= i < j < |events| :: events[i].at <= events[j].at
  }

  function Step(bs: Buckets, e: Event, cfg: Config): Buckets {
    match e
    case Request(user, at) => Allow(bs, user, at, cfg).0
    case Sweep(maxAge, at) => Cleanup(bs, at, maxAge)
  }

  function After(events: seq<Event>, cfg: Config): Buckets {
    if |events| == 0 then map[] else Step(After(events[..|events| - 1], cfg), events[|events| - 1], cfg)
  }

  function Times(events: seq<Event>, user: string): seq<real> {
    if |events| == 0 then []
    else
      var last := events[|events| - 1];
      Times(events[..|events| - 1], user) + if last.Request? && last.user == user then [last.at] else []
  }

  /** The answers user received, in order. */
  function Answers(events: seq<Event>, user: string, cfg: Config): (r: seq<bool>)
    ensures |r| == |Times(events, user)|
  {
    if |events| == 0 then []
    else
      var last, rest := events[|events| - 1], events[..|events| - 1];
      Answers(rest, user, cfg) +
      if last.Request? && last.user == user then [Allow(After(rest, cfg), user, last.at, cfg).1] else []
  }

  function WithoutSweeps(events: seq<Event>): seq<Event> {
    if |events| == 0 then []
    else
      var last := events[|events| - 1];
      WithoutSweeps(events[..|events| - 1]) + if last.Sweep? then [] else [last]
  }

  /** Long enough for an idle bucket to fill up. */
  predicate Adequate(e: Event, cfg: Config) {
    e.Sweep? ==> e.maxAge >= 0.0 && cfg.rate * e.maxAge >= cfg.burst as real
  }

  predicate AllAdequate(events: seq<Event>, cfg: Config) {
    forall e | e in events :: Adequate(e, cfg)
  }

  lemma Snoc(rest: seq<Event>, e: Event, user: string, cfg: Config)
    ensures After(rest + [e], cfg) == Step(After(rest, cfg), e, cfg)
    ensures WithoutSweeps(rest + [e]) == WithoutSweeps(rest) + if e.Sweep? then [] else [e]
    ensures var own := e.Request? && e.user == user;
            && Times(rest + [e], user) == Times(rest, user) + (if own then [e.at] else [])
            && Answers(rest + [e], user, cfg) == Answers(rest, user, cfg) +
                (if own then [Allow(After(rest, cfg), user, e.at, cfg).1] else [])
  {
  }

  // ---- Admission policies for one user's requests ----

  predicate Nondecreasing(ts: seq<real>) {
    forall i, j | 0 <= i < j < |ts| :: ts[i] <= ts[j]
  }

  /** Requests i up to, not including, j that the policy admits. */
  function Count(admit: seq<bool>, i: nat, j: nat): nat
    requires i <= j <= |admit|
  {
    if i == j then 0 else Count(admit, i, j - 1) + if admit[j - 1] then 1 else 0
  }

  /** No window of requests is admitted beyond the burst plus what the rate allows in its time. */
  ghost predicate Conforms(ts: seq<real>, admit: seq<bool>, cfg: Config) {
    |admit| == |ts| &&
    forall i, j | 0 <= i <= j < |ts| :: Count(admit, i, j + 1) as real <= cfg.burst as real + Gain(ts[j] - ts[i], cfg)
  }

  /** Tokens left in a bucket that starts full and serves the policy's first k requests. */
  function LevelAfter(ts: seq<real>, admit: seq<bool>, k: nat, cfg: Config): real
    requires |admit| == |ts| && k <= |ts|
    decreases k, 0
  {
    if k == 0 then cfg.burst as real
    else LevelBefore(ts, admit, k - 1, cfg) - if admit[k - 1] then 1.0 else 0.0
  }

  /** Tokens that request k finds. */
  function LevelBefore(ts: seq<real>, admit: seq<bool>, k: nat, cfg: Config): real
    requires |admit| == |ts| && k < |ts|
    decreases k, 1
  {
    if k == 0 then cfg.burst as real
    else Capped(LevelAfter(ts, admit, k, cfg) + Gain(ts[k] - ts[k - 1], cfg), cfg)
  }

  /** The limiter's policy: admit whenever a token is there. */
  ghost predicate Greedy(ts: seq<real>, admit: seq<bool>, cfg: Config) {
    |admit| == |ts| && forall k | 0 <= k < |ts| :: admit[k] <==> LevelBefore(ts, admit, k, cfg) >= 1.0
  }

  lemma GainNonneg(dt: real, cfg: Config)
    requires cfg.Valid() && dt >= 0.0
    ensures Gain(dt, cfg) >= 0.0
  {
  }

  lemma GainAdds(a: real, b: real, c: real, cfg: Config)
    ensures Gain(c - a, cfg) == Gain(b - a, cfg) + Gain(c - b, cfg)
  {
  }

  lemma {:induction false} GreedyLevelNonneg(ts: seq<real>, admit: seq<bool>, k: nat, cfg: Config)
    requires cfg.Valid() && Nondecreasing(ts) && Greedy(ts, admit, cfg) && k <= |ts|
    ensures 0.0 <= LevelAfter(ts, admit, k, cfg) <= cfg.burst as real
  {
    if k > 0 {
      GreedyLevelNonneg(ts, admit, k - 1, cfg);
      if k > 1 {
        GainNonneg(ts[k - 1] - ts[k - 2], cfg);
        assert LevelAfter(ts, admit, k - 1, cfg) + Gain(ts[k - 1] - ts[k - 2], cfg) >= 0.0;
      }
      assert admit[k - 1] <==> LevelBefore(ts, admit, k - 1, cfg) >= 1.0;
    }
  }

  /** What a window admits comes out of the tokens at its start and the gain during it. */
  lemma {:induction false} GreedyWindow(ts: seq<real>, admit: seq<bool>, i: nat, j: nat, cfg: Config)
    requires cfg.Valid() && Nondecreasing(ts) && Greedy(ts, admit, cfg) && i <= j < |ts|
    ensures Count(admit, i, j + 1) as real + LevelAfter(ts, admit, j + 1, cfg)
         <= LevelBefore(ts, admit, i, cfg) + Gain(ts[j] - ts[i], cfg)
  {
    if i == j {
      assert Count(admit, i, i) == 0;
    } else {
      GreedyWindow(ts, admit, i, j - 1, cfg);
      GainAdds(ts[i], ts[j - 1], ts[j], cfg);
      assert LevelBefore(ts, admit, j, cfg) <= LevelAfter(ts, admit, j, cfg) + Gain(ts[j] - ts[j - 1], cfg);
      assert LevelAfter(ts, admit, j + 1, cfg) == LevelBefore(ts, admit, j, cfg) - if admit[j] then 1.0 else 0.0;
      assert Count(admit, i, j + 1) == Count(admit, i, j) + if admit[j] then 1 else 0;
    }
  }

  /** Greedy admission never exceeds the bound. */
  lemma GreedyConforms(ts: seq<real>, admit: seq<bool>, cfg: Config)
    requires cfg.Valid() && Nondecreasing(ts) && Greedy(ts, admit, cfg)
    ensures Conforms(ts, admit, cfg)
  {
    forall i, j | 0 <= i <= j < |ts|
      ensures Count(admit, i, j + 1) as real <= cfg.burst as real + Gain(ts[j] - ts[i], cfg)
    {
      GreedyWindow(ts, admit, i, j, cfg);
      GreedyLevelNonneg(ts, admit, j + 1, cfg);
    }
  }

  /** The level was last full at request i, and has only gained and paid since. */
  ghost predicate FullAt(ts: seq<real>, admit: seq<bool>, i: nat, k: nat, cfg: Config)
    requires |admit| == |ts|
  {
    i <= k < |ts| &&
    LevelBefore(ts, admit, k, cfg) == cfg.burst as real + Gain(ts[k] - ts[i], cfg) - Count(admit, i, k) as real
  }

  lemma {:induction false} LastFull(ts: seq<real>, admit: seq<bool>, k: nat, cfg: Config) returns (i: nat)
    requires |admit| == |ts| && k < |ts|
    ensures FullAt(ts, admit, i, k, cfg)
  {
    if k == 0 || LevelAfter(ts, admit, k, cfg) + Gain(ts[k] - ts[k - 1], cfg) > cfg.burst as real {
      i := k;
      assert Count(admit, k, k) == 0 && Gain(ts[k] - ts[k], cfg) == 0.0;
    } else {
      i := LastFull(ts, admit, k - 1, cfg);
      GainAdds(ts[i], ts[k - 1], ts[k], cfg);
      assert LevelAfter(ts, admit, k, cfg) == LevelBefore(ts, admit, k - 1, cfg) - if admit[k - 1] then 1.0 else 0.0;
      assert LevelBefore(ts, admit, k, cfg) == LevelAfter(ts, admit, k, cfg) + Gain(ts[k] - ts[k - 1], cfg);
      assert Count(admit, i, k) == Count(admit, i, k - 1) + if admit[k - 1] then 1 else 0;
    }
  }

  /** A policy within the bound only ever spends tokens that are there. */
  lemma ConformingSpendsTokens(ts: seq<real>, admit: seq<bool>, k: nat, cfg: Config)
    requires Conforms(ts, admit, cfg) && k < |ts| && admit[k]
    ensures LevelBefore(ts, admit, k, cfg) >= 1.0
  {
    var i := LastFull(ts, admit, k, cfg);
    assert Count(admit, i, k + 1) == Count(admit, i, k) + 1;
  }

  /** The greedy policy is ahead of any other in admissions, and in admissions plus tokens. */
  lemma {:induction false} GreedyAhead(ts: seq<real>, greedy: seq<bool>, other: seq<bool>, k: nat, cfg: Config)
    requires cfg.Valid() && Nondecreasing(ts) && Greedy(ts, greedy, cfg) && Conforms(ts, other, cfg) && k <= |ts|
    ensures Count(other, 0, k) <= Count(greedy, 0, k)
    ensures Count(other, 0, k) as real + LevelAfter(ts, other, k, cfg) <=
            Count(greedy, 0, k) as real + LevelAfter(ts, greedy, k, cfg)
  {
    if k > 0 {
      GreedyAhead(ts, greedy, other, k - 1, cfg);
      if other[k - 1] { ConformingSpendsTokens(ts, other, k - 1, cfg); }
    }
  }

  /** No policy that keeps every window within the bound has admitted more at any point. */
  lemma GreedyIsOptimal(ts: seq<real>, greedy: seq<bool>, other: seq<bool>, cfg: Config)
    requires cfg.Valid() && Nondecreasing(ts) && Greedy(ts, greedy, cfg)
    requires Conforms(ts, other, cfg)
    ensures forall k | 0 <= k <= |ts| :: Count(other, 0, k) <= Count(greedy, 0, k)
  {
    forall k | 0 <= k <= |ts| ensures Count(other, 0, k) <= Count(greedy, 0, k) {
      GreedyAhead(ts, greedy, other, k, cfg);
    }
  }

  lemma {:induction false} SameDecisionsSameLevel(ts: seq<real>, a: seq<bool>, ts': seq<real>, b: seq<bool>, k: nat,
      cfg: Config)
    requires |a| == |ts| && |b| == |ts'| && k <= |ts| && k <= |ts'|
    requires ts[..k] == ts'[..k] && a[..k] == b[..k]
    ensures LevelAfter(ts, a, k, cfg) == LevelAfter(ts', b, k, cfg)
    ensures k < |ts| && k < |ts'| && ts[k] == ts'[k] ==> LevelBefore(ts, a, k, cfg) == LevelBefore(ts', b, k, cfg)
  {
    if k > 0 {
      assert ts[k - 1] == ts[..k][k - 1] == ts'[..k][k - 1] == ts'[k - 1];
      assert a[k - 1] == a[..k][k - 1] == b[..k][k - 1] == b[k - 1];
      assert ts[..k - 1] == ts[..k][..k - 1] && ts'[..k - 1] == ts'[..k][..k - 1];
      assert a[..k - 1] == a[..k][..k - 1] && b[..k - 1] == b[..k][..k - 1];
      SameDecisionsSameLevel(ts, a, ts', b, k - 1, cfg);
    }
  }

  lemma {:induction false} GreedyPrefixUnique(ts: seq<real>, a: seq<bool>, b: seq<bool>, k: nat, cfg: Config)
    requires Greedy(ts, a, cfg) && Greedy(ts, b, cfg) && k <= |ts|
    ensures a[..k] == b[..k]
  {
    if k > 0 {
      GreedyPrefixUnique(ts, a, b, k - 1, cfg);
      SameDecisionsSameLevel(ts, a, ts, b, k - 1, cfg);
      assert a[..k] == a[..k - 1] + [a[k - 1]] && b[..k] == b[..k - 1] + [b[k - 1]];
    }
  }

  // ---- The limiter is the greedy policy, for each user separately ----

  /** What a bucket holds later is what it holds now plus the gain, up to the burst. */
  lemma LevelGains(bs: Buckets, user: string, now: real, later: real, cfg: Config)
    requires cfg.Valid() && now <= later
    ensures Level(bs, user, later, cfg) == Capped(Level(bs, user, now, cfg) + Gain(later - now, cfg), cfg)
  {
    GainNonneg(later - now, cfg);
    if user in bs { GainAdds(bs[user].lastTime, now, later, cfg); }
  }

  /** A swept bucket had filled up: afterwards, present or absent, it reads the same. */
  lemma SweepKeepsLevel(bs: Buckets, user: string, e: Event, later: real, cfg: Config)
    requires cfg.Valid() && e.Sweep? && Adequate(e, cfg) && e.at <= later
    requires user in bs ==> bs[user].tokens >= 0.0
    ensures Level(Step(bs, e, cfg), user, later, cfg) == Level(bs, user, later, cfg)
  {
    if user in bs && e.at - bs[user].lastTime > e.maxAge {
      var idle := later - bs[user].lastTime;
      GainNonneg(idle - e.maxAge, cfg);
      GainAdds(0.0, e.maxAge, idle, cfg);
      assert Gain(e.maxAge - 0.0, cfg) == cfg.rate * e.maxAge;
      assert Gain(idle - 0.0, cfg) == Gain(idle, cfg) >= cfg.burst as real;
    }
  }

  /** Tokens stay within [0, burst], and no bucket is ahead of the clock. */
  ghost predicate InRange(bs: Buckets, now: real, cfg: Config) {
    forall user | user in bs :: 0.0 <= bs[user].tokens <= cfg.burst as real && bs[user].lastTime <= now
  }

  lemma StepInRange(bs: Buckets, e: Event, now: real, cfg: Config)
    requires cfg.Valid() && InRange(bs, now, cfg) && now <= e.at
    ensures InRange(Step(bs, e, cfg), e.at, cfg)
  {
    if e.Request? {
      if e.user in bs { GainNonneg(e.at - bs[e.user].lastTime, cfg); }
      assert 0.0 <= Level(bs, e.user, e.at, cfg) <= cfg.burst as real;
    }
  }

  lemma RestIsEarlier(events: seq<Event>, cfg: Config)
    requires Ordered(events) && |events| > 0
    ensures var rest, last := events[..|events| - 1], events[|events| - 1];
            && Ordered(rest) && (forall e | e in rest :: e.at <= last.at) && last in events
            && (AllAdequate(events, cfg) ==> AllAdequate(rest, cfg) && Adequate(last, cfg))
  {
  }

  lemma {:induction false} TokensInRange(events: seq<Event>, now: real, cfg: Config)
    requires cfg.Valid() && Ordered(events) && forall e | e in events :: e.at <= now
    ensures InRange(After(events, cfg), now, cfg)
  {
    if |events| > 0 {
      var rest, last := events[..|events| - 1], events[|events| - 1];
      RestIsEarlier(events, cfg);
      TokensInRange(rest, last.at, cfg);
      StepInRange(After(rest, cfg), last, last.at, cfg);
    }
  }

  /** The level a user's bucket will read later, from that user's requests and answers alone. */
  function Predicted(ts: seq<real>, admit: seq<bool>, later: real, cfg: Config): real
    requires |admit| == |ts|
  {
    if |ts| == 0 then cfg.burst as real
    else Capped(LevelAfter(ts, admit, |ts|, cfg) + Gain(later - ts[|ts| - 1], cfg), cfg)
  }

  lemma {:induction false} TimesAreEventTimes(events: seq<Event>, user: string, now: real)
    requires Ordered(events) && forall e | e in events :: e.at <= now
    ensures Nondecreasing(Times(events, user)) && forall t | t in Times(events, user) :: t <= now
  {
    if |events| > 0 {
      var rest, last := events[..|events| - 1], events[|events| - 1];
      RestIsEarlier(events, Config(0.0, 0));
      TimesAreEventTimes(rest, user, last.at);
      assert forall i | 0 <= i < |Times(rest, user)| :: Times(rest, user)[i] in Times(rest, user);
    }
  }

  /** Appending a request decided by the level it finds keeps a greedy history greedy. */
  lemma GreedyExtends(ts: seq<real>, admit: seq<bool>, at: real, ok: bool, cfg: Config)
    requires Greedy(ts, admit, cfg) && (ok <==> Predicted(ts, admit, at, cfg) >= 1.0)
    ensures Greedy(ts + [at], admit + [ok], cfg)
    ensures LevelAfter(ts + [at], admit + [ok], |ts| + 1, cfg) == Predicted(ts, admit, at, cfg) -
            if ok then 1.0 else 0.0
  {
    var ts', admit', n := ts + [at], admit + [ok], |ts|;
    forall k | 0 <= k <= n
      ensures k < n ==> LevelBefore(ts', admit', k, cfg) == LevelBefore(ts, admit, k, cfg)
      ensures LevelAfter(ts', admit', k, cfg) == LevelAfter(ts, admit, k, cfg)
    {
      assert ts'[..k] == ts[..k] && admit'[..k] == admit[..k];
      SameDecisionsSameLevel(ts', admit', ts, admit, k, cfg);
    }
    assert LevelBefore(ts', admit', n, cfg) == Predicted(ts, admit, at, cfg);
  }

  /**
   * In any run, with other users' requests and adequate sweeps interleaved, a user's answers are those of the
   * greedy policy on that user's own request times.
   */
  lemma {:induction false} LimiterIsGreedy(events: seq<Event>, user: string, now: real, later: real, cfg: Config)
    requires cfg.Valid() && Ordered(events) && AllAdequate(events, cfg)
    requires (forall e | e in events :: e.at <= now) && now <= later
    ensures Greedy(Times(events, user), Answers(events, user, cfg), cfg)
    ensures Level(After(events, cfg), user, later, cfg) ==
            Predicted(Times(events, user), Answers(events, user, cfg), later, cfg)
  {
    if |events| > 0 {
      var rest, last := events[..|events| - 1], events[|events| - 1];
      assert events == rest + [last];
      RestIsEarlier(events, cfg);
      if last.Request? && last.user == user {
        LimiterIsGreedy(rest, user, last.at, last.at, cfg);
        OwnRequest(rest, user, last.at, later, cfg);
      } else {
        LimiterIsGreedy(rest, user, last.at, later, cfg);
        OtherEvent(rest, last, user, later, cfg);
      }
    }
  }

  /** The user's own request is decided by the level it finds, and leaves what greedy leaves. */
  lemma OwnRequest(rest: seq<Event>, user: string, at: real, later: real, cfg: Config)
    requires Greedy(Times(rest, user), Answers(rest, user, cfg), cfg)
    requires Level(After(rest, cfg), user, at, cfg) == Predicted(Times(rest, user), Answers(rest, user, cfg), at, cfg)
    ensures var events := rest + [Request(user, at)];
            && Greedy(Times(events, user), Answers(events, user, cfg), cfg)
            && Level(After(events, cfg), user, later, cfg) ==
                Predicted(Times(events, user), Answers(events, user, cfg), later, cfg)
  {
    Snoc(rest, Request(user, at), user, cfg);
    GreedyExtends(Times(rest, user), Answers(rest, user, cfg), at, Allow(After(rest, cfg), user, at, cfg).1, cfg);
  }

  /** Another user's request, or a sweep, leaves this user's level and answers alone. */
  lemma OtherEvent(rest: seq<Event>, e: Event, user: string, later: real, cfg: Config)
    requires cfg.Valid() && Ordered(rest) && (forall x | x in rest :: x.at <= e.at) && Adequate(e, cfg) && e.at <= later
    requires e.Request? ==> e.user != user
    ensures Times(rest + [e], user) == Times(rest, user) && Answers(rest + [e], user, cfg) == Answers(rest, user, cfg)
    ensures Level(After(rest + [e], cfg), user, later, cfg) == Level(After(rest, cfg), user, later, cfg)
  {
    Snoc(rest, e, user, cfg);
    if e.Sweep? {
      TokensInRange(rest, e.at, cfg);
      SweepKeepsLevel(After(rest, cfg), user, e, later, cfg);
    }
  }

  // ---- What callers can rely on ----

  /** Admissions among the first k requests whose time lies in [lo, hi]. */
  function Inside(ts: seq<real>, admit: seq<bool>, lo: real, hi: real, k: nat): nat
    requires |admit| == |ts| && k <= |ts|
  {
    if k == 0 then 0
    else Inside(ts, admit, lo, hi, k - 1) + if admit[k - 1] && lo <= ts[k - 1] <= hi then 1 else 0
  }

  /** The requests of an interval are consecutive. */
  lemma {:induction false} InsideIsBlock(ts: seq<real>, admit: seq<bool>, lo: real, hi: real, k: nat) returns (i: nat)
    requires |admit| == |ts| && Nondecreasing(ts) && 0 < k <= |ts| && lo <= ts[k - 1] <= hi
    ensures i < k && lo <= ts[i] && Inside(ts, admit, lo, hi, k) == Count(admit, i, k)
  {
    if k == 1 || ts[k - 2] < lo {
      i := k - 1;
      NoneInside(ts, admit, lo, hi, k - 1);
      assert Count(admit, k - 1, k - 1) == 0;
    } else {
      i := InsideIsBlock(ts, admit, lo, hi, k - 1);
    }
  }

  lemma {:induction false} NoneInside(ts: seq<real>, admit: seq<bool>, lo: real, hi: real, k: nat)
    requires |admit| == |ts| && Nondecreasing(ts) && k <= |ts| && (k > 0 ==> ts[k - 1] < lo)
    ensures Inside(ts, admit, lo, hi, k) == 0
  {
    if k > 0 { NoneInside(ts, admit, lo, hi, k - 1); }
  }

  lemma {:induction false} ConformingInterval(ts: seq<real>, admit: seq<bool>, lo: real, hi: real, k: nat, cfg: Config)
    requires cfg.Valid() && Nondecreasing(ts) && Conforms(ts, admit, cfg) && k <= |ts| && lo <= hi
    ensures Inside(ts, admit, lo, hi, k) as real <= cfg.burst as real + Gain(hi - lo, cfg)
  {
    GainNonneg(hi - lo, cfg);
    if k > 0 && lo <= ts[k - 1] <= hi {
      var i := InsideIsBlock(ts, admit, lo, hi, k);
      GainNonneg(ts[i] - lo, cfg);
      GainNonneg(hi - ts[k - 1], cfg);
      GainAdds(lo, ts[i], hi, cfg);
      GainAdds(ts[i], ts[k - 1], hi, cfg);
    } else if k > 0 {
      ConformingInterval(ts, admit, lo, hi, k - 1, cfg);
    }
  }

  /** For every user, run and interval [lo, hi]: the user's admissions in it are at most burst + rate * (hi - lo). */
  lemma WindowBound(events: seq<Event>, user: string, now: real, lo: real, hi: real, cfg: Config)
    requires cfg.Valid() && Ordered(events) && AllAdequate(events, cfg) && (forall e | e in events :: e.at <= now) &&
             lo <= hi
    ensures var ts, admit := Times(events, user), Answers(events, user, cfg);
            Inside(ts, admit, lo, hi, |ts|) as real <= cfg.burst as real + Gain(hi - lo, cfg)
  {
    var ts, admit := Times(events, user), Answers(events, user, cfg);
    LimiterIsGreedy(events, user, now, now, cfg);
    TimesAreEventTimes(events, user, now);
    GreedyConforms(ts, admit, cfg);
    ConformingInterval(ts, admit, lo, hi, |ts|, cfg);
  }

  /** Between the request and the one before lies time for a token. */
  predicate Earns(ts: seq<real>, k: nat, cfg: Config)
    requires 0 < k < |ts|
  {
    (ts[k] - ts[k - 1]) * cfg.rate >= 1.0
  }

  /** A user that leaves at least the time of one token between any two requests is never refused. */
  lemma SteadyAdmitted(events: seq<Event>, user: string, now: real, cfg: Config)
    requires cfg.Valid() && cfg.burst >= 1
    requires Ordered(events) && AllAdequate(events, cfg) && forall e | e in events :: e.at <= now
    requires forall k | 0 < k < |Times(events, user)| :: Earns(Times(events, user), k, cfg)
    ensures forall admitted | admitted in Answers(events, user, cfg) :: admitted
  {
    var ts, admit := Times(events, user), Answers(events, user, cfg);
    LimiterIsGreedy(events, user, now, now, cfg);
    TimesAreEventTimes(events, user, now);
    forall k | 0 <= k < |ts| ensures admit[k] {
      SteadyLevel(ts, admit, k, cfg);
    }
  }

  lemma SteadyLevel(ts: seq<real>, admit: seq<bool>, k: nat, cfg: Config)
    requires cfg.Valid() && cfg.burst >= 1 && Nondecreasing(ts) && Greedy(ts, admit, cfg) && k < |ts|
    requires k > 0 ==> Earns(ts, k, cfg)
    ensures admit[k]
  {
    GreedyLevelNonneg(ts, admit, k, cfg);
    if k > 0 { EarnsToken(ts[k] - ts[k - 1], cfg); }
  }

  lemma EarnsToken(dt: real, cfg: Config)
    requires dt * cfg.rate >= 1.0
    ensures Gain(dt, cfg) >= 1.0
  {
  }

  /** And no assignment of answers that keeps the bound has admitted more of them at any point. */
  lemma LimiterIsOptimal(events: seq<Event>, user: string, now: real, other: seq<bool>, cfg: Config)
    requires cfg.Valid() && Ordered(events) && AllAdequate(events, cfg) && forall e | e in events :: e.at <= now
    requires Conforms(Times(events, user), other, cfg)
    ensures forall k | 0 <= k <= |other| :: Count(other, 0, k) <= Count(Answers(events, user, cfg), 0, k)
  {
    LimiterIsGreedy(events, user, now, now, cfg);
    TimesAreEventTimes(events, user, now);
    GreedyIsOptimal(Times(events, user), Answers(events, user, cfg), other, cfg);
  }

  lemma {:induction false} SweepsHaveNoTimes(events: seq<Event>, user: string)
    ensures Times(WithoutSweeps(events), user) == Times(events, user)
  {
    if |events| > 0 {
      var rest, last := events[..|events| - 1], events[|events| - 1];
      SweepsHaveNoTimes(rest, user);
      assert events == rest + [last];
      Snoc(rest, last, user, Config(0.0, 0));
      if last.Request? {
        Snoc(WithoutSweeps(rest), last, user, Config(0.0, 0));
      } else {
        assert WithoutSweeps(events) == WithoutSweeps(rest);
        assert Times(events, user) == Times(rest, user);
      }
    }
  }

  lemma {:induction false} WithoutSweepsMembers(events: seq<Event>)
    ensures forall e | e in WithoutSweeps(events) :: e in events && e.Request?
  {
    if |events| > 0 {
      WithoutSweepsMembers(events[..|events| - 1]);
    }
  }

  lemma {:induction false} WithoutSweepsOrdered(events: seq<Event>)
    requires Ordered(events)
    ensures Ordered(WithoutSweeps(events))
  {
    if |events| > 0 {
      var rest, last := events[..|events| - 1], events[|events| - 1];
      RestIsEarlier(events, Config(0.0, 0));
      WithoutSweepsOrdered(rest);
      WithoutSweepsMembers(rest);
      var kept := WithoutSweeps(rest);
      assert forall i | 0 <= i < |kept| :: kept[i] in kept && kept[i].at <= last.at;
    }
  }

  /** Sweeps of an adequate age, inserted anywhere, change no answer to any user. */
  lemma CleanupUnobservable(events: seq<Event>, user: string, now: real, cfg: Config)
    requires cfg.Valid() && Ordered(events) && AllAdequate(events, cfg) && forall e | e in events :: e.at <= now
    ensures Answers(events, user, cfg) == Answers(WithoutSweeps(events), user, cfg)
  {
    var plain := WithoutSweeps(events);
    SweepsHaveNoTimes(events, user);
    WithoutSweepsOrdered(events);
    WithoutSweepsMembers(events);
    LimiterIsGreedy(events, user, now, now, cfg);
    LimiterIsGreedy(plain, user, now, now, cfg);
    var a, b := Answers(events, user, cfg), Answers(plain, user, cfg);
    GreedyPrefixUnique(Times(events, user), a, b, |a|, cfg);
    assert a == a[..|a|] && b == b[..|a|];
  }

  // ---- The age is exactly what it must be ----

  function Requests(user: string, at: real, n: nat): seq<Event> {
    seq(n, i requires 0 <= i < n => Request(user, at))
  }

  lemma RequestsSnoc(before: seq<Event>, user: string, at: real, n: nat)
    requires n > 0
    ensures before + Requests(user, at, n) == (before + Requests(user, at, n - 1)) + [Request(user, at)]
  {
  }

  function Yes(n: nat): seq<bool> {
    seq(n, _ => true)
  }

  lemma YesSnoc(s: seq<bool>, n: nat)
    requires n > 0
    ensures s + Yes(n) == (s + Yes(n - 1)) + [true]
  {
  }

  lemma OneMoreAdmitted(before: seq<Event>, user: string, at: real, cfg: Config)
    requires cfg.Valid() && 1.0 <= Level(After(before, cfg), user, at, cfg)
    ensures var events := before + [Request(user, at)];
            && Answers(events, user, cfg) == Answers(before, user, cfg) + [true]
            && Level(After(events, cfg), user, at, cfg) == Level(After(before, cfg), user, at, cfg) - 1.0
  {
  }

  /** n requests at one instant are all admitted when the bucket holds n tokens. */
  lemma {:induction false} BurstAdmitted(before: seq<Event>, user: string, at: real, n: nat, cfg: Config)
    requires cfg.Valid() && n as real <= Level(After(before, cfg), user, at, cfg)
    ensures var events := before + Requests(user, at, n);
            && Answers(events, user, cfg) == Answers(before, user, cfg) + Yes(n)
            && Level(After(events, cfg), user, at, cfg) == Level(After(before, cfg), user, at, cfg) - n as real
  {
    if n == 0 {
      assert before + Requests(user, at, 0) == before;
      assert Yes(0) == [];
    } else {
      BurstAdmitted(before, user, at, n - 1, cfg);
      RequestsSnoc(before, user, at, n);
      OneMoreAdmitted(before + Requests(user, at, n - 1), user, at, cfg);
      YesSnoc(Answers(before, user, cfg), n);
    }
  }

  /** They are not all admitted when it holds fewer. */
  lemma {:induction false} BurstRefused(before: seq<Event>, user: string, at: real, n: nat, cfg: Config)
    requires cfg.Valid() && 0.0 <= Level(After(before, cfg), user, at, cfg) < n as real
    ensures Answers(before + Requests(user, at, n), user, cfg) != Answers(before, user, cfg) + Yes(n)
  {
    var level := Level(After(before, cfg), user, at, cfg);
    var shorter := before + Requests(user, at, n - 1);
    RequestsSnoc(before, user, at, n);
    Snoc(shorter, Request(user, at), user, cfg);
    var answers := Answers(before + Requests(user, at, n), user, cfg);
    var hoped := Answers(before, user, cfg) + Yes(n);
    assert hoped[..|hoped| - 1] == Answers(before, user, cfg) + Yes(n - 1) && hoped[|hoped| - 1];
    assert answers[..|answers| - 1] == Answers(shorter, user, cfg);
    if (n - 1) as real <= level {
      BurstAdmitted(before, user, at, n - 1, cfg);
      assert !answers[|answers| - 1];
    } else {
      BurstRefused(before, user, at, n - 1, cfg);
    }
  }

  /** Just past maxAge there is a moment at which an idle bucket is still not full. */
  lemma NotYetFull(maxAge: real, cfg: Config) returns (at: real)
    requires cfg.Valid() && maxAge >= 0.0 && cfg.rate * maxAge < cfg.burst as real
    ensures at > maxAge && Gain(at, cfg) < cfg.burst as real && cfg.burst > 0
  {
    GainNonneg(maxAge, cfg);
    assert Gain(maxAge, cfg) == cfg.rate * maxAge;
    var gap := cfg.burst as real - cfg.rate * maxAge;
    var extra := gap / (cfg.rate + 1.0);
    assert extra > 0.0 && extra * (cfg.rate + 1.0) == gap;
    at := maxAge + extra;
    assert at * cfg.rate == cfg.burst as real - extra;
  }

  /** With a shorter age, a user who empties the bucket and is then swept gets a whole new burst too early. */
  lemma ShortAgeObservable(user: string, maxAge: real, cfg: Config) returns (events: seq<Event>, at: real)
    requires cfg.Valid() && maxAge >= 0.0 && cfg.rate * maxAge < cfg.burst as real
    ensures OneSweepAge(events, at, maxAge)
    ensures Answers(events, user, cfg) != Answers(WithoutSweeps(events), user, cfg)
  {
    var n: nat := cfg.burst;
    at := NotYetFull(maxAge, cfg);
    var first, second := Requests(user, 0.0, n), Requests(user, at, n);
    var sweep := Sweep(maxAge, at);
    events := (first + [sweep]) + second;
    EmptiedThenSwept(user, n, at, maxAge, cfg);
    BurstAdmitted(first + [sweep], user, at, n, cfg);
    BurstRefused(first, user, at, n, cfg);
    PlainRequests(first, second, sweep);
    AllAtMost(user, n, at, maxAge);
  }

  lemma AllAtMost(user: string, n: nat, at: real, maxAge: real)
    requires at >= 0.0
    ensures OneSweepAge((Requests(user, 0.0, n) + [Sweep(maxAge, at)]) + Requests(user, at, n), at, maxAge)
  {
  }

  lemma EmptiedThenSwept(user: string, n: nat, at: real, maxAge: real, cfg: Config)
    requires cfg.Valid() && n == cfg.burst && n > 0 && at > maxAge >= 0.0 && Gain(at, cfg) < cfg.burst as real
    ensures var first := Requests(user, 0.0, n);
            && 0.0 <= Level(After(first, cfg), user, at, cfg) < n as real
            && Answers(first + [Sweep(maxAge, at)], user, cfg) == Answers(first, user, cfg)
            && Level(After(first + [Sweep(maxAge, at)], cfg), user, at, cfg) == n as real
  {
    var first := Requests(user, 0.0, n);
    Emptied(user, n, cfg);
    LevelGains(After(first, cfg), user, 0.0, at, cfg);
    GainNonneg(at, cfg);
    SweptIsFull(first, user, at, maxAge, cfg);
  }

  lemma Emptied(user: string, n: nat, cfg: Config)
    requires cfg.Valid() && n == cfg.burst && n > 0
    ensures var bs := After(Requests(user, 0.0, n), cfg);
            Level(bs, user, 0.0, cfg) == 0.0 && user in bs && bs[user].lastTime == 0.0
  {
    var first := Requests(user, 0.0, n);
    BurstAdmitted([], user, 0.0, n, cfg);
    assert [] + first == first;
    assert first[n - 1] == Request(user, 0.0);
    LastRequestStamps(first, user, cfg);
  }

  lemma SweptIsFull(events: seq<Event>, user: string, at: real, maxAge: real, cfg: Config)
    requires cfg.Valid() && user in After(events, cfg) && After(events, cfg)[user].lastTime == 0.0 && at > maxAge
    ensures Answers(events + [Sweep(maxAge, at)], user, cfg) == Answers(events, user, cfg)
    ensures Level(After(events + [Sweep(maxAge, at)], cfg), user, at, cfg) == cfg.burst as real
  {
  }

  lemma LastRequestStamps(events: seq<Event>, user: string, cfg: Config)
    requires |events| > 0 && events[|events| - 1] == Request(user, 0.0)
    ensures user in After(events, cfg) && After(events, cfg)[user].lastTime == 0.0
  {
  }

  lemma {:induction false} PlainRequests(first: seq<Event>, second: seq<Event>, sweep: Event)
    requires sweep.Sweep? && (forall e | e in first :: e.Request?) && (forall e | e in second :: e.Request?)
    ensures WithoutSweeps((first + [sweep]) + second) == first + second
  {
    if |second| == 0 {
      assert (first + [sweep]) + second == first + [sweep] && first + second == first;
      assert (first + [sweep])[..|first|] == first;
      RequestsStay(first);
    } else {
      var rest, last := second[..|second| - 1], second[|second| - 1];
      PlainRequests(first, rest, sweep);
      var events := (first + [sweep]) + second;
      assert events[..|events| - 1] == (first + [sweep]) + rest && events[|events| - 1] == last;
      assert last in second;
      assert first + second == first + rest + [last];
    }
  }

  lemma {:induction false} RequestsStay(events: seq<Event>)
    requires forall e | e in events :: e.Request?
    ensures WithoutSweeps(events) == events
  {
    if |events| > 0 {
      RequestsStay(events[..|events| - 1]);
      assert events[|events| - 1] in events;
      assert events == events[..|events| - 1] + [events[|events| - 1]];
    }
  }

  /** Sweeping at an age goes unnoticed in every run exactly when an idle bucket fills up within that age. */
  lemma CleanupUnobservableIff(user: string, maxAge: real, cfg: Config)
    requires cfg.Valid() && maxAge >= 0.0
    ensures (forall events, now | OneSweepAge(events, now, maxAge) ::
            Answers(events, user, cfg) == Answers(WithoutSweeps(events), user, cfg))
       <==> cfg.rate * maxAge >= cfg.burst as real
  {
    if cfg.rate * maxAge >= cfg.burst as real {
      forall events, now | OneSweepAge(events, now, maxAge)
        ensures Answers(events, user, cfg) == Answers(WithoutSweeps(events), user, cfg)
      {
        CleanupUnobservable(events, user, now, cfg);
      }
    } else {
      var events, at := ShortAgeObservable(user, maxAge, cfg);
      assert OneSweepAge(events, at, maxAge);
    }
  }

  /** An ordered run up to now whose sweeps all use the given age. */
  ghost predicate OneSweepAge(events: seq<Event>, now: real, maxAge: real) {
    Ordered(events) && (forall e | e in events :: e.at <= now) &&
    forall e | e in events :: e.Sweep? ==> e.maxAge == maxAge
  }
}
