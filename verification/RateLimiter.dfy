/** The in-memory rate limiter itself: the loops and table updates, proved against the table functions. */
module RateLimiter {
  import opened Filtering
  import opened RateLimitTables

  class InMemoryRateLimiter {
    var attempts: map<Bucket, seq<real>>
    var blockedUntil: map<Bucket, real>
    var lastSeen: seq<Bucket>
    var hitsSinceSweep: nat
    const maxBuckets: int

    function State(): Tables
      reads this
    {
      Tables(attempts, blockedUntil, lastSeen, hitsSinceSweep)
    }

    ghost predicate Valid()
      reads this
    {
      State().Valid() && maxBuckets >= 1 && |lastSeen| <= maxBuckets
    }

    constructor (maxBuckets: int)
      requires maxBuckets >= 1
      ensures Valid() && State() == EMPTY && this.maxBuckets == maxBuckets
    {
      this.maxBuckets := maxBuckets;
      attempts, blockedUntil, lastSeen, hitsSinceSweep := map[], map[], [], 0;
    }

    /** `_sweep_expired` */
    method SweepExpired(now: real)
      requires State().Valid()
      modifies this
      ensures State() == Swept(old(State()), now)
    {
      ForgetStaleAttempts(now);
      ForgetExpiredBlocks(now);
      ForgetUnknown();
    }

    method ForgetStaleAttempts(now: real)
      modifies this`attempts
      ensures attempts == Swept(old(State()), now).attempts
    {
      var todo := attempts.Keys;
      while todo != {}
        invariant todo <= old(attempts).Keys
        invariant attempts == map b | b in old(attempts) && (b in todo || Fresh(old(attempts)[b], now)) ::
          old(attempts)[b]
        decreases todo
      {
        var b :| b in todo;
        if attempts[b] == [] || attempts[b][|attempts[b]| - 1] <= now - STALE_BUCKET_AGE {
          attempts := attempts - {b};
        }
        todo := todo - {b};
      }
    }

    method ForgetExpiredBlocks(now: real)
      modifies this`blockedUntil
      ensures blockedUntil == Swept(old(State()), now).blockedUntil
    {
      var todo := blockedUntil.Keys;
      while todo != {}
        invariant todo <= old(blockedUntil).Keys
        invariant blockedUntil == map b | b in old(blockedUntil) && (b in todo || old(blockedUntil)[b] > now) ::
          old(blockedUntil)[b]
        decreases todo
      {
        var b :| b in todo;
        if blockedUntil[b] <= now { blockedUntil := blockedUntil - {b}; }
        todo := todo - {b};
      }
    }

    method ForgetUnknown()
      requires Distinct(lastSeen)
      modifies this`lastSeen
      ensures lastSeen == Select(old(lastSeen), Known(attempts, blockedUntil))
    {
      var keys, i := lastSeen, 0;
      ghost var p := Known(attempts, blockedUntil);
      while i < |keys|
        invariant 0 <= i <= |keys|
        invariant lastSeen == Select(keys[..i], p) + keys[i..]
      {
        SelectNext(keys, i, p);
        if keys[i] !in attempts && keys[i] !in blockedUntil {
          lastSeen := Without(lastSeen, keys[i]);
        }
        i := i + 1;
      }
      assert keys[..i] == keys;
    }

    method Drop(b: Bucket)
      modifies this`attempts, this`blockedUntil, this`lastSeen
      ensures State() == RateLimitTables.Drop(old(State()), b)
    {
      attempts, blockedUntil, lastSeen := attempts - {b}, blockedUntil - {b}, Without(lastSeen, b);
    }

    /** One phase of the pruning, over the keys as they were when it starts. */
    method EvictPhase(now: real, keep: Bucket, target: int, sparing: bool)
      modifies this`attempts, this`blockedUntil, this`lastSeen
      ensures State() == Evict(old(State()), old(lastSeen), now, keep, target, sparing)
    {
      var keys, i := lastSeen, 0;
      while i < |keys|
        invariant 0 <= i <= |keys|
        invariant Evict(State(), keys[i..], now, keep, target, sparing)
          == Evict(old(State()), keys, now, keep, target, sparing)
      {
        assert keys[i..][1..] == keys[i + 1..];
        if |lastSeen| <= target { break; }
        if keys[i] == keep || (sparing && State().Blocked(keys[i], now)) {
          i := i + 1;
          continue;
        }
        Drop(keys[i]);
        i := i + 1;
      }
    }

    method PruneCapacity(now: real, keep: Bucket)
      requires State().Valid()
      modifies this
      ensures State() == Pruned(old(State()), now, keep, maxBuckets)
    {
      SweepExpired(now);
      if |lastSeen| < maxBuckets { return; }
      var target := maxBuckets * 9 / 10;
      EvictPhase(now, keep, target, true);
      if |lastSeen| >= maxBuckets {
        EvictPhase(now, keep, target, false);
      }
    }

    method Hit(b: Bucket, rule: Rule, now: real) returns (verdict: Verdict)
      requires Valid()
      modifies this
      ensures Valid()
      ensures (State(), verdict) == RateLimitTables.Hit(old(State()), b, rule, now, maxBuckets)
    {
      HitBounded(State(), b, rule, now, maxBuckets);
      Prepare(b, now);
      verdict := Count(b, rule, now);
    }

    /** The opportunistic sweep and the capacity check at the start of a hit. */
    method Prepare(b: Bucket, now: real)
      requires Valid()
      modifies this
      ensures State() == Prepared(old(State()), b, now, maxBuckets)
    {
      hitsSinceSweep := hitsSinceSweep + 1;
      if hitsSinceSweep >= SWEEP_INTERVAL {
        hitsSinceSweep := 0;
        SweptLaw(State(), now);
        SweepExpired(now);
      }
      if |lastSeen| >= maxBuckets {
        PruneCapacity(now, b);
      }
    }

    /** The decision proper. */
    method Count(b: Bucket, rule: Rule, now: real) returns (verdict: Verdict)
      modifies this`attempts, this`blockedUntil, this`lastSeen
      ensures (State(), verdict) == Counted(old(State()), b, rule, now)
    {
      ghost var p := State();
      lastSeen := Without(lastSeen, b) + [b];
      var until := State().BlockedUntil(b);
      if until > now { return Rejected(AtLeastOne(Ceil(until - now))); }
      var times, cutoff := State().Attempts(b), now - rule.Window();
      while times != [] && times[0] <= cutoff
        invariant DropStale(times, cutoff) == DropStale(p.Attempts(b), cutoff)
        decreases |times|
      {
        times := times[1..];
      }
      times := times + [now];
      if |times| > rule.Limit() + 2 { times := times[1..]; }
      if |times| <= rule.Limit() {
        attempts := attempts[b := times];
        return Accepted;
      }
      blockedUntil := blockedUntil[b := now + rule.Block() as real];
      attempts := attempts[b := []];
      verdict := Rejected(rule.Block());
    }

    method Reset(b: Bucket)
      requires Valid()
      modifies this
      ensures Valid() && State() == RateLimitTables.Reset(old(State()), b)
    {
      DropLaw(State(), b);
      Drop(b);
    }

    method DiscardLatestAttempt(b: Bucket)
      requires Valid()
      modifies this
      ensures Valid() && State() == Discarded(old(State()), b)
    {
      var times := State().Attempts(b);
      if times == [] { return; }
      times := times[..|times| - 1];
      attempts := if times == [] then attempts - {b} else attempts[b := times];
    }

    method ResetAll()
      requires Valid()
      modifies this
      ensures Valid() && State() == EMPTY
    {
      attempts, blockedUntil, lastSeen, hitsSinceSweep := map[], map[], [], 0;
    }
  }
}
