/** The limiter as the object the node shares, with its buckets updated in place. */
module Limiter {
  import opened RateLimit

  class Bucket {
    var tokens: real
    var lastTime: real

    constructor (tokens: real, lastTime: real)
      ensures this.tokens == tokens && this.lastTime == lastTime
    {
      this.tokens := tokens;
      this.lastTime := lastTime;
    }

    function State(): BucketState
      reads this
    {
      BucketState(tokens, lastTime)
    }

    /** Refills for the time since the last request, then takes a token if one is there. */
    method Take(now: real, cfg: Config) returns (ok: bool)
      modifies this
      ensures var level := Capped(old(tokens) + Gain(now - old(lastTime), cfg), cfg);
              ok == (level >= 1.0) && State() == BucketState(if ok then level - 1.0 else level, now)
    {
      var elapsed := now - lastTime;
      tokens := tokens + elapsed * cfg.rate;
      if tokens > cfg.burst as real {
        tokens := cfg.burst as real;
      }
      lastTime := now;
      ok := tokens >= 1.0;
      if ok {
        tokens := tokens - 1.0;
      }
    }
  }

  class Limiter {
    const cfg: Config
    var buckets: map<string, Bucket>

    /** Users do not share buckets. */
    ghost predicate Valid()
      reads this
    {
      forall u, v | u in buckets && v in buckets && u != v :: buckets[u] != buckets[v]
    }

    ghost function Cells(): set<object>
      reads this
    {
      set u | u in buckets :: buckets[u]
    }

    ghost function View(): Buckets
      reads this, Cells()
    {
      map u | u in buckets :: buckets[u].State()
    }

    constructor (rate: real, burst: int)
      ensures Valid() && cfg == Config(rate, burst) && View() == map[]
    {
      cfg := Config(rate, burst);
      buckets := map[];
    }

    method Allow(user: string, now: real) returns (ok: bool)
      requires Valid()
      modifies this, Cells()
      ensures Valid() && fresh(Cells() - old(Cells()))
      ensures (View(), ok) == RateLimit.Allow(old(View()), user, now, cfg)
    {
      var b: Bucket;
      if user in buckets {
        b := buckets[user];
      } else {
        b := new Bucket(cfg.burst as real, now);
        buckets := buckets[user := b];
      }
      assert Level(old(View()), user, now, cfg) == Capped(b.tokens + Gain(now - b.lastTime, cfg), cfg) by {
        assert Gain(now - now, cfg) == 0.0;
      }
      ok := b.Take(now, cfg);
      ghost var expected := RateLimit.Allow(old(View()), user, now, cfg).0;
      forall u | u in buckets ensures View()[u] == expected[u] {
        assert u != user ==> u in old(buckets) && buckets[u] == old(buckets)[u];
      }
      assert View() == expected;
    }

    method Cleanup(maxAge: real, now: real)
      requires Valid()
      modifies this
      ensures Valid() && Cells() <= old(Cells())
      ensures forall u :: u in buckets <==> u in old(buckets) && now - old(buckets[u].lastTime) <= maxAge
      ensures forall u | u in buckets :: buckets[u] == old(buckets)[u] && View()[u] == old(View())[u]
      ensures View() == RateLimit.Cleanup(old(View()), now, maxAge)
    {
      var users := buckets.Keys;
      ghost var all := buckets;
      while users != {}
        invariant users <= all.Keys && buckets.Keys <= all.Keys && users <= buckets.Keys
        invariant forall u | u in buckets :: buckets[u] == all[u]
        invariant forall u | u in all && u !in users :: u in buckets <==> now - all[u].lastTime <= maxAge
        decreases |users|
      {
        var u :| u in users;
        users := users - {u};
        if now - buckets[u].lastTime > maxAge {
          buckets := buckets - {u};
        }
      }
    }
  }

  /** Ten messages a second, bursts of twenty, buckets swept after ten idle minutes. */
  const NODE_LIMIT := Config(10.0, 20)
  const NODE_MAX_AGE := 600.0

  /** With the node's settings no sweep is ever noticed, and no user exceeds 20 + 10 (hi - lo) messages in [lo, hi]. */
  lemma NodeSettings(events: seq<Event>, user: string, now: real, lo: real, hi: real)
    requires OneSweepAge(events, now, NODE_MAX_AGE) && lo <= hi
    ensures Answers(events, user, NODE_LIMIT) == Answers(WithoutSweeps(events), user, NODE_LIMIT)
    ensures var ts := Times(events, user);
            Inside(ts, Answers(events, user, NODE_LIMIT), lo, hi, |ts|) as real <= 20.0 + 10.0 * (hi - lo)
  {
    CleanupUnobservable(events, user, now, NODE_LIMIT);
    WindowBound(events, user, now, lo, hi, NODE_LIMIT);
  }
}
