/** The three tables of the in-memory rate limiter and what each operation does to them. */
module RateLimitTables {
  import opened Filtering

  datatype Bucket = Bucket(scope: string, key: string)

  /** The limits of one scope, as the middleware rules give them. */
  datatype Rule = Rule(maxAttempts: int, windowSeconds: int, blockSeconds: int)
  {
    function Limit(): nat { if maxAttempts > 1 then maxAttempts else 1 }

    function Window(): real { (if windowSeconds > 1 then windowSeconds else 1) as real }

    function Block(): int { if blockSeconds > 1 then blockSeconds else 1 }
  }

  const STALE_BUCKET_AGE := 3600.0
  const SWEEP_INTERVAL := 256

  datatype Verdict = Accepted | Rejected(retryAfter: int)

  /** `lastSeen` lists the keys of the ordered table; the times stored there are never read. */
  datatype Tables = Tables(attempts: map<Bucket, seq<real>>, blockedUntil: map<Bucket, real>, lastSeen: seq<Bucket>,
                           hitsSinceSweep: nat)
  {
    function Attempts(b: Bucket): seq<real> { if b in attempts then attempts[b] else [] }

    function BlockedUntil(b: Bucket): real { if b in blockedUntil then blockedUntil[b] else 0.0 }

    predicate Blocked(b: Bucket, now: real) { BlockedUntil(b) > now }

    /** Keys of the side tables are a subset of the ordered one, which lists no key twice. */
    ghost predicate Valid()
    {
      && Distinct(lastSeen)
      && (forall b :: b in attempts ==> b in lastSeen)
      && (forall b :: b in blockedUntil ==> b in lastSeen)
    }
  }

  const EMPTY := Tables(map[], map[], [], 0)

  // ---------- sweep ----------

  predicate Fresh(times: seq<real>, now: real)
  {
    times != [] && times[|times| - 1] > now - STALE_BUCKET_AGE
  }

  function Known(attempts: map<Bucket, seq<real>>, blockedUntil: map<Bucket, real>): Bucket -> bool
  {
    b => b in attempts || b in blockedUntil
  }

  function Swept(t: Tables, now: real): Tables
  {
    var attempts := map b | b in t.attempts && Fresh(t.attempts[b], now) :: t.attempts[b];
    var blocked := map b | b in t.blockedUntil && t.blockedUntil[b] > now :: t.blockedUntil[b];
    Tables(attempts, blocked, Select(t.lastSeen, Known(attempts, blocked)), t.hitsSinceSweep)
  }

  lemma SweptLaw(t: Tables, now: real)
    requires t.Valid()
    ensures Swept(t, now).Valid() && |Swept(t, now).lastSeen| <= |t.lastSeen|
    ensures forall b :: b in Swept(t, now).lastSeen <==> b in Swept(t, now).attempts || b in Swept(t, now).blockedUntil
  {
    var u := Swept(t, now);
    var p := Known(u.attempts, u.blockedUntil);
    SelectDistinct(t.lastSeen, p);
    SelectMembers(t.lastSeen, p);
  }

  /** A bucket survives the sweep, as it was, exactly if it was tried within the last hour or is still blocked. */
  lemma SweepSpares(t: Tables, now: real, b: Bucket)
    requires t.Valid()
    ensures var times, u := t.Attempts(b), Swept(t, now);
      var tried := times != [] && times[|times| - 1] > now - 3600.0;
      && (b in u.lastSeen <==> tried || (b in t.blockedUntil && t.blockedUntil[b] > now))
      && u.Attempts(b) == (if tried then times else [])
      && (b in u.blockedUntil <==> b in t.blockedUntil && t.blockedUntil[b] > now)
      && (b in u.blockedUntil ==> u.blockedUntil[b] == t.blockedUntil[b])
  {
    SelectMembers(t.lastSeen, Known(Swept(t, now).attempts, Swept(t, now).blockedUntil));
  }

  // ---------- eviction ----------

  function Drop(t: Tables, b: Bucket): Tables
  {
    t.(attempts := t.attempts - {b}, blockedUntil := t.blockedUntil - {b}, lastSeen := Without(t.lastSeen, b))
  }

  /**
   * One phase of the pruning: drop buckets in order until `target` remain, never `keep`, and when `sparing` no
   * blocked one.
   */
  function Evict(t: Tables, keys: seq<Bucket>, now: real, keep: Bucket, target: int, sparing: bool): Tables
    decreases |keys|
  {
    if keys == [] || |t.lastSeen| <= target then t
    else if keys[0] == keep || (sparing && t.Blocked(keys[0], now)) then Evict(t, keys[1..], now, keep, target, sparing)
    else Evict(Drop(t, keys[0]), keys[1..], now, keep, target, sparing)
  }

  function Target(maxBuckets: int): int
  {
    maxBuckets * 9 / 10
  }

  function Pruned(t: Tables, now: real, keep: Bucket, maxBuckets: int): Tables
  {
    var s := Swept(t, now);
    if |s.lastSeen| < maxBuckets then s
    else
      var one := Evict(s, s.lastSeen, now, keep, Target(maxBuckets), true);
      if |one.lastSeen| >= maxBuckets then Evict(one, one.lastSeen, now, keep, Target(maxBuckets), false) else one
  }

  lemma DropLaw(t: Tables, b: Bucket)
    requires t.Valid()
    ensures Drop(t, b).Valid()
    ensures forall x :: x in Drop(t, b).lastSeen <==> x in t.lastSeen && x != b
    ensures |Drop(t, b).lastSeen| == if b in t.lastSeen then |t.lastSeen| - 1 else |t.lastSeen|
  {
    WithoutLaw(t.lastSeen, b);
  }

  /** `u` has lost buckets of `t` and is otherwise the same. */
  ghost predicate Shrunk(t: Tables, u: Tables)
  {
    && (forall b :: b in u.lastSeen ==> b in t.lastSeen)
    && (forall b :: b in u.lastSeen ==>
      (b in u.attempts <==> b in t.attempts) && (b in u.attempts ==> u.attempts[b] == t.attempts[b])
      && (b in u.blockedUntil <==> b in t.blockedUntil)
        && (b in u.blockedUntil ==> u.blockedUntil[b] == t.blockedUntil[b]))
    && u.hitsSinceSweep == t.hitsSinceSweep
  }

  lemma ShrunkDrop(t: Tables, b: Bucket, u: Tables)
    requires t.Valid() && Shrunk(Drop(t, b), u)
    ensures Shrunk(t, u) && b !in u.lastSeen
  {
    DropLaw(t, b);
  }

  /** Survivors of a phase are untouched. */
  lemma {:induction false} EvictShrinks(t: Tables, keys: seq<Bucket>, now: real, keep: Bucket, target: int,
                                        sparing: bool)
    requires t.Valid()
    ensures var u := Evict(t, keys, now, keep, target, sparing);
      u.Valid() && Shrunk(t, u) && |u.lastSeen| <= |t.lastSeen|
    decreases |keys|
  {
    if keys == [] || |t.lastSeen| <= target {
    } else if keys[0] == keep || (sparing && t.Blocked(keys[0], now)) {
      EvictShrinks(t, keys[1..], now, keep, target, sparing);
    } else {
      DropLaw(t, keys[0]);
      EvictShrinks(Drop(t, keys[0]), keys[1..], now, keep, target, sparing);
      ShrunkDrop(t, keys[0], Evict(Drop(t, keys[0]), keys[1..], now, keep, target, sparing));
    }
  }

  /** A protected bucket survives a phase. */
  lemma {:induction false} EvictSpares(t: Tables, keys: seq<Bucket>, now: real, keep: Bucket, target: int,
                                       sparing: bool, b: Bucket)
    requires t.Valid() && b in t.lastSeen && (b == keep || (sparing && t.Blocked(b, now)))
    ensures b in Evict(t, keys, now, keep, target, sparing).lastSeen
    decreases |keys|
  {
    if keys == [] || |t.lastSeen| <= target {
    } else if keys[0] == keep || (sparing && t.Blocked(keys[0], now)) {
      EvictSpares(t, keys[1..], now, keep, target, sparing, b);
    } else {
      DropLaw(t, keys[0]);
      EvictSpares(Drop(t, keys[0]), keys[1..], now, keep, target, sparing, b);
    }
  }

  /** A phase reaches its target unless only protected buckets are left. */
  lemma {:induction false} EvictReaches(t: Tables, keys: seq<Bucket>, now: real, keep: Bucket, target: int,
                                        sparing: bool, b: Bucket)
    requires t.Valid() && |Evict(t, keys, now, keep, target, sparing).lastSeen| > target
    requires b in keys && b in Evict(t, keys, now, keep, target, sparing).lastSeen
    ensures b == keep || (sparing && t.Blocked(b, now))
    decreases |keys|
  {
    var u := Evict(t, keys, now, keep, target, sparing);
    EvictShrinks(t, keys, now, keep, target, sparing);
    if keys[0] == keep || (sparing && t.Blocked(keys[0], now)) {
      if b != keys[0] { EvictReaches(t, keys[1..], now, keep, target, sparing, b); }
    } else {
      var d := Drop(t, keys[0]);
      DropLaw(t, keys[0]);
      EvictShrinks(d, keys[1..], now, keep, target, sparing);
      ShrunkDrop(t, keys[0], u);
      EvictReaches(d, keys[1..], now, keep, target, sparing, b);
    }
  }

  /** What one phase guarantees, when it runs over all buckets. */
  lemma EvictLaw(t: Tables, now: real, keep: Bucket, target: int, sparing: bool)
    requires t.Valid()
    ensures var u := Evict(t, t.lastSeen, now, keep, target, sparing);
      && u.Valid() && Shrunk(t, u) && |u.lastSeen| <= |t.lastSeen|
      && (forall b :: b in t.lastSeen && (b == keep || (sparing && t.Blocked(b, now))) ==> b in u.lastSeen)
      && (|u.lastSeen| <= target || forall b :: b in u.lastSeen ==> b == keep || (sparing && t.Blocked(b, now)))
  {
    var u := Evict(t, t.lastSeen, now, keep, target, sparing);
    EvictShrinks(t, t.lastSeen, now, keep, target, sparing);
    forall b | b in t.lastSeen && (b == keep || (sparing && t.Blocked(b, now))) ensures b in u.lastSeen {
      EvictSpares(t, t.lastSeen, now, keep, target, sparing, b);
    }
    if |u.lastSeen| > target {
      forall b | b in u.lastSeen ensures b == keep || (sparing && t.Blocked(b, now)) {
        EvictReaches(t, t.lastSeen, now, keep, target, sparing, b);
      }
    }
  }

  /** The buckets pruning should spare: those actively blocked, and the current one. */
  function Spared(t: Tables, now: real, keep: Bucket): seq<Bucket>
  {
    Select(t.lastSeen, b => b == keep || t.Blocked(b, now))
  }

  /**
   * Pruning keeps the current bucket's counts, makes room, and drops an actively blocked bucket only when
   * blocked buckets and the current one alone fill the table.
   */
  lemma PrunedLaw(t: Tables, now: real, keep: Bucket, maxBuckets: int)
    requires t.Valid() && maxBuckets >= 1
    ensures var s, u := Swept(t, now), Pruned(t, now, keep, maxBuckets);
      && u.Valid() && Shrunk(s, u)
      && (keep in s.lastSeen ==> keep in u.lastSeen && |u.lastSeen| <= maxBuckets)
      && (keep !in s.lastSeen ==> |u.lastSeen| < maxBuckets)
      && (forall b :: b in s.lastSeen && b !in u.lastSeen && s.Blocked(b, now) ==> |Spared(s, now, keep)| >= maxBuckets)
  {
    SweptLaw(t, now);
    var s := Swept(t, now);
    if |s.lastSeen| >= maxBuckets {
      var target := Target(maxBuckets);
      var one := Evict(s, s.lastSeen, now, keep, target, true);
      EvictLaw(s, now, keep, target, true);
      if |one.lastSeen| >= maxBuckets {
        EvictLaw(one, now, keep, target, false);
        OnlySparedLeft(s, one, now, keep);
        var two := Evict(one, one.lastSeen, now, keep, target, false);
        if |two.lastSeen| > target { OnlyOneLeft(two.lastSeen, keep); }
      }
    }
  }

  lemma OnlyOneLeft(s: seq<Bucket>, keep: Bucket)
    requires Distinct(s) && forall b :: b in s ==> b == keep
    ensures |s| <= 1 && (keep !in s ==> |s| == 0)
  {
    DistinctSubset(s, if keep in s then [keep] else []);
  }

  lemma OnlySparedLeft(s: Tables, one: Tables, now: real, keep: Bucket)
    requires s.Valid() && one.Valid() && Shrunk(s, one)
    requires forall b :: b in one.lastSeen ==> b == keep || s.Blocked(b, now)
    ensures |Spared(s, now, keep)| >= |one.lastSeen|
  {
    var p := b => b == keep || s.Blocked(b, now);
    SelectMembers(s.lastSeen, p);
    DistinctSubset(one.lastSeen, Spared(s, now, keep));
  }

  lemma {:induction false} DistinctSubset<T>(a: seq<T>, b: seq<T>)
    requires Distinct(a) && forall x :: x in a ==> x in b
    ensures |a| <= |b|
    decreases |a|
  {
    if a != [] {
      var x := a[0];
      assert x in a;
      var i :| 0 <= i < |b| && b[i] == x;
      var c := b[..i] + b[i + 1..];
      forall y | y in a[1..] ensures y in c {
        assert y in b && y != x;
        var j :| 0 <= j < |b| && b[j] == y;
        assert if j < i then c[j] == y else c[j - 1] == y;
      }
      DistinctSubset(a[1..], c);
    }
  }

  // ---------- a hit ----------

  /** Drop expired attempts from the front of the deque. */
  function DropStale(times: seq<real>, cutoff: real): seq<real>
  {
    if times != [] && times[0] <= cutoff then DropStale(times[1..], cutoff) else times
  }

  function Ceil(x: real): int
  {
    -((-x).Floor)
  }

  function AtLeastOne(n: int): int
  {
    if n > 1 then n else 1
  }

  /** The tables after the periodic sweep, before capacity is considered. */
  function Ticked(t: Tables, now: real): Tables
  {
    var n := t.hitsSinceSweep + 1;
    if n >= SWEEP_INTERVAL then Swept(t.(hitsSinceSweep := 0), now) else t.(hitsSinceSweep := n)
  }

  /** The tables after the opportunistic sweep and pruning at the start of a hit. */
  function Prepared(t: Tables, b: Bucket, now: real, maxBuckets: int): Tables
  {
    var s := Ticked(t, now);
    if |s.lastSeen| >= maxBuckets then Pruned(s, now, b, maxBuckets) else s
  }

  /** The counting half of a hit, on prepared tables. */
  function Counted(t: Tables, b: Bucket, rule: Rule, now: real): (Tables, Verdict)
  {
    var seen := t.(lastSeen := Without(t.lastSeen, b) + [b]);
    if t.Blocked(b, now) then (seen, Rejected(AtLeastOne(Ceil(t.BlockedUntil(b) - now))))
    else
      var kept := DropStale(t.Attempts(b), now - rule.Window()) + [now];
      var trimmed := if |kept| > rule.Limit() + 2 then kept[1..] else kept;
      if |trimmed| <= rule.Limit() then (seen.(attempts := t.attempts[b := trimmed]), Accepted)
      else
        (seen.(attempts := t.attempts[b := []], blockedUntil := t.blockedUntil[b := now + rule.Block() as real]),
         Rejected(rule.Block()))
  }

  function Hit(t: Tables, b: Bucket, rule: Rule, now: real, maxBuckets: int): (Tables, Verdict)
  {
    Counted(Prepared(t, b, now, maxBuckets), b, rule, now)
  }

  function Reset(t: Tables, b: Bucket): Tables
  {
    Drop(t, b)
  }

  function Discarded(t: Tables, b: Bucket): Tables
  {
    var times := t.Attempts(b);
    if times == [] then t
    else if |times| == 1 then t.(attempts := t.attempts - {b})
    else t.(attempts := t.attempts[b := times[..|times| - 1]])
  }

  lemma PreparedLaw(t: Tables, b: Bucket, now: real, maxBuckets: int)
    requires t.Valid() && maxBuckets >= 1 && |t.lastSeen| <= maxBuckets
    ensures var p := Prepared(t, b, now, maxBuckets);
      && p.Valid() && |p.lastSeen| <= maxBuckets && (b !in p.lastSeen ==> |p.lastSeen| < maxBuckets)
      && p.hitsSinceSweep < SWEEP_INTERVAL
  {
    var s := Ticked(t, now);
    if t.hitsSinceSweep + 1 >= SWEEP_INTERVAL { SweptLaw(t.(hitsSinceSweep := 0), now); }
    assert s.Valid();
    if |s.lastSeen| >= maxBuckets {
      PrunedLaw(s, now, b, maxBuckets);
    }
  }

  /** Bounded memory: the table never exceeds its capacity, and the side tables never outgrow it. */
  lemma HitBounded(t: Tables, b: Bucket, rule: Rule, now: real, maxBuckets: int)
    requires t.Valid() && maxBuckets >= 1 && |t.lastSeen| <= maxBuckets
    ensures var u := Hit(t, b, rule, now, maxBuckets).0;
      u.Valid() && |u.lastSeen| <= maxBuckets && b in u.lastSeen
  {
    PreparedLaw(t, b, now, maxBuckets);
    var p := Prepared(t, b, now, maxBuckets);
    WithoutLaw(p.lastSeen, b);
    var seen := Without(p.lastSeen, b) + [b];
    assert seen[|seen| - 1] == b;
    assert forall x :: x in p.lastSeen ==> x in seen;
  }
}
