/** The in-process limiter as the program runs it: bucket objects updated in place in a map. */
module MemoryLimiter {
  import opened TokenBucket

  class BucketCell {
    var tokens: real
    var lastCheck: real
    var lastAccess: real

    constructor (tokens: real, lastCheck: real, lastAccess: real)
      ensures View() == Bucket(tokens, lastCheck, lastAccess)
    {
      this.tokens, this.lastCheck, this.lastAccess := tokens, lastCheck, lastAccess;
    }

    function View(): Bucket
      reads this
    {
      Bucket(tokens, lastCheck, lastAccess)
    }

    /** Refills up to the limit and takes one token if there is one. */
    method Take(limit: int, window: real, now: real) returns (taken: bool)
      requires window > 0.0
      modifies this
      ensures var full := old(tokens + Gained(now - lastCheck, limit, window));
              var refilled := if full > limit as real then limit as real else full;
              && taken == (refilled >= 1.0)
              && View() == Bucket(if taken then refilled - 1.0 else refilled, now, now)
    {
      hide Gained;
      lastAccess := now;
      var elapsed := now - lastCheck;
      tokens := tokens + Gained(elapsed, limit, window);
      if tokens > limit as real {
        tokens := limit as real;
      }
      lastCheck := now;
      taken := tokens >= 1.0;
      if taken {
        tokens := tokens - 1.0;
      }
    }
  }

  lemma AllowIs(table: Table, c: Call)
    requires c.window > 0.0
    ensures var b := BucketFor(table, c);
            var full := b.tokens + Gained(c.now - b.lastCheck, c.limit, c.window);
            var refilled := if full > c.limit as real then c.limit as real else full;
            && Admits(table, c) == (refilled >= 1.0)
            && AfterAllow(table, c) ==
               table[c.key := Bucket(if refilled >= 1.0 then refilled - 1.0 else refilled, c.now, c.now)]
  {
    hide Gained;
  }

  class Limiter {
    var buckets: map<string, BucketCell>
    const bucketTTL: real

    /** No two keys share a bucket. */
    ghost predicate Valid()
      reads this
    {
      forall k, l :: k in buckets && l in buckets && k != l ==> buckets[k] != buckets[l]
    }

    ghost function Contents(): Table
      reads this, buckets.Values
    {
      map k | k in buckets :: buckets[k].View()
    }

    constructor ()
      ensures Valid() && Contents() == map[] && bucketTTL == BUCKET_TTL
    {
      buckets := map[];
      bucketTTL := BUCKET_TTL;
    }

    /** `Allow` for a key that has a bucket. */
    method AllowKnown(key: string, limit: int, window: real, created: real, now: real) returns (allowed: bool)
      requires Valid() && window > 0.0 && key in buckets
      modifies buckets[key]
      ensures allowed == old(Admits(Contents(), Call(key, limit, window, created, now)))
      ensures Contents() == old(AfterAllow(Contents(), Call(key, limit, window, created, now)))
    {
      hide Gained, Admits, Refilled, AfterAllow;
      AllowIs(Contents(), Call(key, limit, window, created, now));
      allowed := buckets[key].Take(limit, window, now);
    }

    /** `Allow` for a key without a bucket: a full one is made. */
    method AllowNew(key: string, limit: int, window: real, created: real, now: real) returns (allowed: bool)
      requires Valid() && window > 0.0 && key !in buckets
      modifies this
      ensures Valid() && fresh(buckets.Values - old(buckets.Values))
      ensures allowed == old(Admits(Contents(), Call(key, limit, window, created, now)))
      ensures Contents() == old(AfterAllow(Contents(), Call(key, limit, window, created, now)))
    {
      hide Gained, Admits, Refilled, AfterAllow;
      AllowIs(Contents(), Call(key, limit, window, created, now));
      var b := new BucketCell(limit as real, created, created);
      allowed := b.Take(limit, window, now);
      buckets := buckets[key := b];
    }

    /** One mutex-held `Allow`; `created` is the clock when a missing bucket is made,
        `now` the clock when tokens are counted. */
    method Allow(key: string, limit: int, window: real, created: real, now: real) returns (allowed: bool)
      requires Valid() && window > 0.0
      modifies this, buckets.Values
      ensures Valid() && fresh(buckets.Values - old(buckets.Values))
      ensures allowed == old(Admits(Contents(), Call(key, limit, window, created, now)))
      ensures Contents() == old(AfterAllow(Contents(), Call(key, limit, window, created, now)))
    {
      hide Admits, AfterAllow;
      if key in buckets {
        allowed := AllowKnown(key, limit, window, created, now);
      } else {
        allowed := AllowNew(key, limit, window, created, now);
      }
    }

    /** Deletes every bucket that was not used for longer than `bucketTTL`. */
    method Cleanup(now: real)
      requires Valid()
      modifies this
      ensures Valid() && buckets.Values <= old(buckets.Values)
      ensures Contents() == old(AfterCleanup(Contents(), now, bucketTTL))
    {
      ghost var before := buckets;
      var todo := buckets.Keys;
      while todo != {}
        invariant Valid()
        invariant todo <= buckets.Keys <= before.Keys
        invariant forall k :: k in buckets ==> buckets[k] == before[k]
        invariant forall k :: k in before && k !in todo ==>
          (k in buckets <==> !(now - before[k].lastAccess > bucketTTL))
      {
        var key :| key in todo;
        if now - buckets[key].lastAccess > bucketTTL {
          buckets := buckets - {key};
        }
        todo := todo - {key};
      }
    }
  }
}
