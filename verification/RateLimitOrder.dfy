/** Which buckets the rate limiter forgets first when its table is full: those that were hit longest ago. */
module RateLimitOrder {
  import opened Filtering
  import opened RateLimitTables
  import opened RateLimitRuns

  /** Listed by increasing rank. */
  ghost predicate Ranked<T>(s: seq<T>, rank: T -> int)
  {
    forall i, j :: 0 <= i < j < |s| ==> Below(s, rank, i, j)
  }

  predicate Below<T>(s: seq<T>, rank: T -> int, i: nat, j: nat)
    requires i < |s| && j < |s|
  {
    rank(s[i]) < rank(s[j])
  }

  lemma RankedAppend<T(!new)>(s: seq<T>, x: T, rank: T -> int)
    requires Ranked(s, rank) && forall y :: y in s ==> rank(y) < rank(x)
    ensures Ranked(s + [x], rank)
  {
    var t := s + [x];
    forall i, j | 0 <= i < j < |t| ensures Below(t, rank, i, j) {
      assert s[i] in s && (j < |s| ==> Below(s, rank, i, j));
    }
  }

  lemma RankedTail<T(!new)>(s: seq<T>, rank: T -> int)
    requires Ranked(s, rank) && s != []
    ensures Ranked(s[1..], rank) && forall y :: y in s[1..] ==> rank(s[0]) < rank(y)
  {
    var t := s[1..];
    forall i, j | 0 <= i < j < |t| ensures Below(t, rank, i, j) { assert Below(s, rank, i + 1, j + 1); }
    forall y | y in t ensures rank(s[0]) < rank(y) {
      var i :| 0 <= i < |t| && t[i] == y;
      assert Below(s, rank, 0, i + 1);
    }
  }

  /** Selection keeps the order. */
  lemma {:induction false} SelectRanked<T(!new)>(s: seq<T>, p: T -> bool, rank: T -> int)
    requires Ranked(s, rank)
    ensures Ranked(Select(s, p), rank)
  {
    if s != [] {
      var c, x := s[..|s| - 1], s[|s| - 1];
      forall i, j | 0 <= i < j < |c| ensures Below(c, rank, i, j) { assert Below(s, rank, i, j); }
      SelectRanked(c, p, rank);
      forall y | y in Select(c, p) ensures rank(y) < rank(x) {
        SelectMember(c, p, y);
        var i :| 0 <= i < |c| && c[i] == y;
        assert Below(s, rank, i, |s| - 1);
      }
      RankedAppend(Select(c, p), x, rank);
    }
  }

  lemma WithoutRanked<T(!new)>(s: seq<T>, x: T, rank: T -> int)
    requires Ranked(s, rank)
    ensures Ranked(Without(s, x), rank)
  {
    SelectRanked(s, y => y != x, rank);
  }

  lemma {:induction false} EvictRanked(t: Tables, keys: seq<Bucket>, now: real, keep: Bucket, target: int,
                                       sparing: bool, rank: Bucket -> int)
    requires Ranked(t.lastSeen, rank)
    ensures Ranked(Evict(t, keys, now, keep, target, sparing).lastSeen, rank)
    decreases |keys|
  {
    if keys == [] || |t.lastSeen| <= target {
    } else if keys[0] == keep || (sparing && t.Blocked(keys[0], now)) {
      EvictRanked(t, keys[1..], now, keep, target, sparing, rank);
    } else {
      WithoutRanked(t.lastSeen, keys[0], rank);
      EvictRanked(Drop(t, keys[0]), keys[1..], now, keep, target, sparing, rank);
    }
  }

  /** A bucket that a phase drops ranks below every unprotected one that it keeps. */
  lemma {:induction false} EvictLowest(t: Tables, keys: seq<Bucket>, now: real, keep: Bucket, target: int,
                                       sparing: bool, rank: Bucket -> int, x: Bucket, y: Bucket)
    requires t.Valid() && Ranked(keys, rank) && y in keys && y != keep && !(sparing && t.Blocked(y, now))
    requires var u := Evict(t, keys, now, keep, target, sparing);
      x in t.lastSeen && x !in u.lastSeen && y in u.lastSeen
    ensures rank(x) < rank(y)
    decreases |keys|
  {
    var k := keys[0];
    RankedTail(keys, rank);
    assert y != k ==> y in keys[1..];
    if k == keep || (sparing && t.Blocked(k, now)) {
      EvictLowest(t, keys[1..], now, keep, target, sparing, rank, x, y);
    } else {
      DropLaw(t, k);
      EvictShrinks(Drop(t, k), keys[1..], now, keep, target, sparing);
      assert y != k;
      if x != k { EvictLowest(Drop(t, k), keys[1..], now, keep, target, sparing, rank, x, y); }
    }
  }

  /** A phase never drops more than it has to. */
  lemma {:induction false} EvictEnough(t: Tables, keys: seq<Bucket>, now: real, keep: Bucket, target: int,
                                        sparing: bool)
    requires t.Valid()
    ensures var u := Evict(t, keys, now, keep, target, sparing);
      |u.lastSeen| >= if |t.lastSeen| <= target then |t.lastSeen| else target
    decreases |keys|
  {
    if keys == [] || |t.lastSeen| <= target {
    } else if keys[0] == keep || (sparing && t.Blocked(keys[0], now)) {
      EvictEnough(t, keys[1..], now, keep, target, sparing);
    } else {
      DropLaw(t, keys[0]);
      EvictEnough(Drop(t, keys[0]), keys[1..], now, keep, target, sparing);
    }
  }

  lemma PrunedRanked(t: Tables, now: real, keep: Bucket, maxBuckets: int, rank: Bucket -> int)
    requires Ranked(t.lastSeen, rank)
    ensures Ranked(Swept(t, now).lastSeen, rank) && Ranked(Pruned(t, now, keep, maxBuckets).lastSeen, rank)
  {
    var s, target := Swept(t, now), Target(maxBuckets);
    SelectRanked(t.lastSeen, Known(s.attempts, s.blockedUntil), rank);
    var one := Evict(s, s.lastSeen, now, keep, target, true);
    EvictRanked(s, s.lastSeen, now, keep, target, true, rank);
    EvictRanked(one, one.lastSeen, now, keep, target, false, rank);
  }

  /**
   * Pruning forgets the lowest ranks: a bucket that it drops ranks below every bucket it keeps, other than the current
   * one and, if the dropped one was not blocked, the blocked ones.
   */
  lemma PrunedLowest(t: Tables, now: real, keep: Bucket, maxBuckets: int, rank: Bucket -> int, x: Bucket, y: Bucket)
    requires t.Valid() && Ranked(t.lastSeen, rank)
    requires var s, u := Swept(t, now), Pruned(t, now, keep, maxBuckets);
      x in s.lastSeen && x !in u.lastSeen && y in u.lastSeen && y != keep && (s.Blocked(y, now) ==> s.Blocked(x, now))
    ensures rank(x) < rank(y)
  {
    var s, target := Swept(t, now), Target(maxBuckets);
    SweptLaw(t, now);
    PrunedRanked(t, now, keep, maxBuckets, rank);
    var one := Evict(s, s.lastSeen, now, keep, target, true);
    EvictLaw(s, now, keep, target, true);
    EvictRanked(s, s.lastSeen, now, keep, target, true, rank);
    EvictLaw(one, now, keep, target, false);
    if x in one.lastSeen {
      EvictLowest(one, one.lastSeen, now, keep, target, false, rank, x, y);
    } else {
      EvictLowest(s, s.lastSeen, now, keep, target, true, rank, x, y);
    }
  }

  /** How much a full table is pruned: to nine tenths of its capacity, unless protected buckets fill more than that. */
  lemma PrunedAmount(t: Tables, now: real, keep: Bucket, maxBuckets: int)
    requires t.Valid() && maxBuckets >= 1 && |Swept(t, now).lastSeen| >= maxBuckets
    ensures var n, spared := |Pruned(t, now, keep, maxBuckets).lastSeen|, |Spared(Swept(t, now), now, keep)|;
      && 10 * n > 9 * maxBuckets - 10
      && (10 * spared <= 9 * maxBuckets ==> 10 * n <= 9 * maxBuckets)
  {
    var s, target := Swept(t, now), Target(maxBuckets);
    SweptLaw(t, now);
    var one := Evict(s, s.lastSeen, now, keep, target, true);
    EvictLaw(s, now, keep, target, true);
    EvictEnough(s, s.lastSeen, now, keep, target, true);
    EvictEnough(one, one.lastSeen, now, keep, target, false);
    if |one.lastSeen| > target { OnlySparedLeft(s, one, now, keep); }
  }

  // ---------- whole runs ----------

  /** The position of the bucket's latest hit in the run, or -1. */
  function LastHit(events: seq<Event>, b: Bucket): (n: int)
    ensures -1 <= n < |events|
    ensures n >= 0 ==> events[n].HitAt? && events[n].bucket == b
    ensures forall i :: n < i < |events| ==> !(events[i].HitAt? && events[i].bucket == b)
  {
    if events == [] then -1
    else
      var e := events[|events| - 1];
      if e.HitAt? && e.bucket == b then |events| - 1 else LastHit(events[..|events| - 1], b)
  }

  function Recency(events: seq<Event>): Bucket -> int
  {
    b => LastHit(events, b)
  }

  lemma RankedSame(s: seq<Bucket>, rank: Bucket -> int, other: Bucket -> int)
    requires Ranked(s, rank) && forall b :: b in s ==> other(b) == rank(b)
    ensures Ranked(s, other)
  {
    forall i, j | 0 <= i < j < |s| ensures Below(s, other, i, j) { assert Below(s, rank, i, j); }
  }

  lemma PreparedRanked(t: Tables, b: Bucket, now: real, maxBuckets: int, rank: Bucket -> int)
    requires Ranked(t.lastSeen, rank)
    ensures Ranked(Ticked(t, now).lastSeen, rank) && Ranked(Prepared(t, b, now, maxBuckets).lastSeen, rank)
  {
    PrunedRanked(t.(hitsSinceSweep := 0), now, b, maxBuckets, rank);
    PrunedRanked(Ticked(t, now), now, b, maxBuckets, rank);
  }

  /** A hit moves its bucket to the end. */
  lemma HitRanked(t: Tables, b: Bucket, rule: Rule, now: real, maxBuckets: int, rank: Bucket -> int,
                  after: Bucket -> int)
    requires Ranked(t.lastSeen, rank)
    requires forall x :: x != b ==> after(x) == rank(x) < after(b)
    ensures Ranked(Hit(t, b, rule, now, maxBuckets).0.lastSeen, after)
  {
    var p := Prepared(t, b, now, maxBuckets);
    PreparedRanked(t, b, now, maxBuckets, rank);
    WithoutRanked(p.lastSeen, b, rank);
    WithoutLaw(p.lastSeen, b);
    RankedSame(Without(p.lastSeen, b), rank, after);
    RankedAppend(Without(p.lastSeen, b), b, after);
  }

  lemma StepRanked(s: System, rules: Rules, maxBuckets: int, events: seq<Event>, e: Event)
    requires Ranked(s.tables.lastSeen, Recency(events))
    ensures Ranked(Step(s, rules, maxBuckets, e).tables.lastSeen, Recency(events + [e]))
  {
    assert (events + [e])[..|events|] == events;
    match e
    case HitAt(b, now) =>
      HitRanked(s.tables, b, rules(b.scope), now, maxBuckets, Recency(events), Recency(events + [e]));
    case ResetOf(b) =>
      WithoutRanked(s.tables.lastSeen, b, Recency(events));
      RankedSame(Without(s.tables.lastSeen, b), Recency(events), Recency(events + [e]));
    case DiscardOf(b) => RankedSame(s.tables.lastSeen, Recency(events), Recency(events + [e]));
    case ResetAll =>
  }

  /** After any run the ordered table lists its buckets by their latest hits, the most recent one last. */
  lemma {:induction false} LeastRecentFirst(rules: Rules, maxBuckets: int, events: seq<Event>)
    ensures Ranked(Run(INITIAL, rules, maxBuckets, events).tables.lastSeen, Recency(events))
    decreases |events|
  {
    if events != [] {
      var before, e := events[..|events| - 1], events[|events| - 1];
      assert before + [e] == events;
      LeastRecentFirst(rules, maxBuckets, before);
      RunAppend(INITIAL, rules, maxBuckets, before, e);
      StepRanked(Run(INITIAL, rules, maxBuckets, before), rules, maxBuckets, before, e);
    }
  }

  lemma SweptBlocked(t: Tables, now: real, b: Bucket)
    requires now >= 0.0
    ensures Swept(t, now).Blocked(b, now) == t.Blocked(b, now)
  {
  }

  /**
   * Least recently used goes first: if a hit makes the limiter forget bucket `x` for want of room and keep bucket `y`,
   * then `x` was last hit before `y`, unless `y` is the bucket being hit, or is blocked while `x` is not.
   */
  lemma ForgetsLeastRecent(rules: Rules, maxBuckets: int, events: seq<Event>, b: Bucket, now: real, x: Bucket,
                           y: Bucket)
    requires maxBuckets >= 1 && SweepSafe(rules) && Timed(0.0, events)
    requires now >= Run(INITIAL, rules, maxBuckets, events).clock
    requires var t := Run(INITIAL, rules, maxBuckets, events).tables;
      var p := Prepared(t, b, now, maxBuckets);
      && x in Swept(Ticked(t, now), now).lastSeen && x !in p.lastSeen && y in p.lastSeen && y != b
      && (t.Blocked(y, now) ==> t.Blocked(x, now))
    ensures LastHit(events, x) < LastHit(events, y)
  {
    var s := Run(INITIAL, rules, maxBuckets, events);
    InitialInvariant(rules, maxBuckets);
    RunKeepsInvariant(INITIAL, rules, maxBuckets, events);
    LeastRecentFirst(rules, maxBuckets, events);
    var t := Ticked(s.tables, now);
    PreparedRanked(s.tables, b, now, maxBuckets, Recency(events));
    SweptLaw(s.tables.(hitsSinceSweep := 0), now);
    SweptLaw(t, now);
    SelectMembers(t.lastSeen, Known(Swept(t, now).attempts, Swept(t, now).blockedUntil));
    SweptBlocked(s.tables.(hitsSinceSweep := 0), now, x);
    SweptBlocked(s.tables.(hitsSinceSweep := 0), now, y);
    SweptBlocked(t, now, x);
    SweptBlocked(t, now, y);
    PrunedLowest(t, now, b, maxBuckets, Recency(events), x, y);
  }

  /** The hits since all buckets were forgotten. */
  function HitsSince(events: seq<Event>): nat
  {
    if events == [] then 0
    else
      match events[|events| - 1]
      case ResetAll => 0
      case HitAt(_, _) => HitsSince(events[..|events| - 1]) + 1
      case _ => HitsSince(events[..|events| - 1])
  }

  lemma PreparedTicks(t: Tables, b: Bucket, now: real, maxBuckets: int)
    requires t.Valid() && maxBuckets >= 1
    ensures Prepared(t, b, now, maxBuckets).hitsSinceSweep == Ticked(t, now).hitsSinceSweep
  {
    var u := Ticked(t, now);
    SweptLaw(t.(hitsSinceSweep := 0), now);
    PrunedLaw(u, now, b, maxBuckets);
  }

  /** Every 256th hit sweeps. */
  lemma {:induction false} SweepsRegularly(rules: Rules, maxBuckets: int, events: seq<Event>)
    requires maxBuckets >= 1 && SweepSafe(rules) && Timed(0.0, events)
    ensures Run(INITIAL, rules, maxBuckets, events).tables.hitsSinceSweep == HitsSince(events) % 256
    decreases |events|
  {
    if events != [] {
      var before, e := events[..|events| - 1], events[|events| - 1];
      assert before + [e] == events;
      TimedPrefix(0.0, before, e);
      SweepsRegularly(rules, maxBuckets, before);
      RunAppend(INITIAL, rules, maxBuckets, before, e);
      InitialInvariant(rules, maxBuckets);
      RunKeepsInvariant(INITIAL, rules, maxBuckets, before);
      StepTicks(Run(INITIAL, rules, maxBuckets, before), rules, maxBuckets, e, HitsSince(before));
    }
  }

  lemma StepTicks(s: System, rules: Rules, maxBuckets: int, e: Event, hits: nat)
    requires s.tables.Valid() && maxBuckets >= 1 && s.tables.hitsSinceSweep == hits % 256
    ensures Step(s, rules, maxBuckets, e).tables.hitsSinceSweep
      == if e.ResetAll? then 0 else if e.HitAt? then (hits + 1) % 256 else hits % 256
  {
    if e.HitAt? { PreparedTicks(s.tables, e.bucket, e.now, maxBuckets); }
  }

  /** ... which forgets every bucket that was not tried within the last hour and is not blocked. */
  lemma RegularSweepForgets(rules: Rules, maxBuckets: int, events: seq<Event>, b: Bucket, now: real, x: Bucket)
    requires maxBuckets >= 1 && SweepSafe(rules) && Timed(0.0, events) && (HitsSince(events) + 1) % 256 == 0
    requires now >= Run(INITIAL, rules, maxBuckets, events).clock
    requires x in Prepared(Run(INITIAL, rules, maxBuckets, events).tables, b, now, maxBuckets).lastSeen
    ensures var t := Run(INITIAL, rules, maxBuckets, events).tables;
      t.Blocked(x, now) || (t.Attempts(x) != [] && t.Attempts(x)[|t.Attempts(x)| - 1] > now - 3600.0)
  {
    SweepsRegularly(rules, maxBuckets, events);
    InitialInvariant(rules, maxBuckets);
    RunKeepsInvariant(INITIAL, rules, maxBuckets, events);
    SweptLaw(Run(INITIAL, rules, maxBuckets, events).tables.(hitsSinceSweep := 0), now);
    PreparedWithin(Run(INITIAL, rules, maxBuckets, events).tables, b, now, maxBuckets, x);
    SweepForgets(Run(INITIAL, rules, maxBuckets, events).tables, now, x);
  }

  lemma PreparedWithin(t: Tables, b: Bucket, now: real, maxBuckets: int, x: Bucket)
    requires Ticked(t, now).Valid() && maxBuckets >= 1 && x in Prepared(t, b, now, maxBuckets).lastSeen
    ensures x in Ticked(t, now).lastSeen
  {
    var u := Ticked(t, now);
    PrunedLaw(u, now, b, maxBuckets);
    SelectMember(u.lastSeen, Known(Swept(u, now).attempts, Swept(u, now).blockedUntil), x);
  }

  lemma SweepForgets(t: Tables, now: real, x: Bucket)
    requires t.Valid() && t.hitsSinceSweep + 1 >= 256 && x in Ticked(t, now).lastSeen
    ensures t.Blocked(x, now) || (t.Attempts(x) != [] && t.Attempts(x)[|t.Attempts(x)| - 1] > now - 3600.0)
  {
    SweepSpares(t.(hitsSinceSweep := 0), now, x);
  }

  lemma {:induction false} TimedPrefix(clock: real, events: seq<Event>, e: Event)
    requires Timed(clock, events + [e])
    ensures Timed(clock, events)
    decreases |events|
  {
    if events != [] {
      assert (events + [e])[1..] == events[1..] + [e];
      TimedPrefix(if events[0].HitAt? then events[0].now else clock, events[1..], e);
    }
  }
}
