/** Whole runs of the rate limiter: refinement to a plain log of accepted hits, and the sliding-window guarantee. */
module RateLimitRuns {
  import opened Filtering
  import opened RateLimitTables

  // ---------- the plain log ----------

  /**
   * What one bucket has been granted since it was last forgotten: the accepted hits `before` the latest
   * block and `since` then; `until` is the end of that block.
   */
  datatype Log = Log(before: seq<real>, since: seq<real>, until: real)
  {
    function Accepted(): seq<real> { before + since }
  }

  const FORGOTTEN := Log([], [], 0.0)

  function After(cutoff: real): real -> bool
  {
    x => x > cutoff
  }

  /** The accepted hits since the latest block that are younger than `cutoff`. */
  function Recent(log: Log, cutoff: real): seq<real>
  {
    Select(log.since, After(cutoff))
  }

  /** The decision the plain log makes: reject while blocked, otherwise count the window. */
  function Decide(log: Log, rule: Rule, now: real): (Log, Verdict)
  {
    if log.until > now then (log, Rejected(AtLeastOne(Ceil(log.until - now))))
    else if |Recent(log, now - rule.Window())| + 1 <= rule.Limit() then
      (Log(log.before, log.since + [now], log.until), Accepted)
    else (Log(log.Accepted(), [], now + rule.Block() as real), Rejected(rule.Block()))
  }

  // ---------- runs ----------

  datatype Event = HitAt(bucket: Bucket, now: real) | ResetOf(bucket: Bucket) | DiscardOf(bucket: Bucket) | ResetAll

  /** The tables together with the logs they stand for; `clock` is the time of the last hit. */
  datatype System = System(tables: Tables, logs: map<Bucket, Log>, clock: real)
  {
    function LogOf(b: Bucket): Log { if b in logs then logs[b] else FORGOTTEN }
  }

  const INITIAL := System(EMPTY, map[], 0.0)

  /** The limits are fixed per scope. */
  type Rules = string -> Rule

  /** Logs of buckets that pruning evicts are forgotten; sweeping forgets nothing. */
  function Remembered(logs: map<Bucket, Log>, t: Tables, b: Bucket, now: real, maxBuckets: int): map<Bucket, Log>
  {
    var s := Ticked(t, now);
    if |s.lastSeen| >= maxBuckets then
      map x | x in logs && !(x in Swept(s, now).lastSeen && x !in Pruned(s, now, b, maxBuckets).lastSeen) :: logs[x]
    else logs
  }

  function Step(s: System, rules: Rules, maxBuckets: int, e: Event): System
  {
    match e
    case HitAt(b, now) =>
      var logs := Remembered(s.logs, s.tables, b, now, maxBuckets);
      var log := System(s.tables, logs, now).LogOf(b);
      System(Hit(s.tables, b, rules(b.scope), now, maxBuckets).0, logs[b := Decide(log, rules(b.scope), now).0], now)
    case ResetOf(b) => System(Reset(s.tables, b), s.logs - {b}, s.clock)
    case DiscardOf(b) =>
      var log := s.LogOf(b);
      System(Discarded(s.tables, b),
        if s.tables.Attempts(b) == [] || log.since == [] then s.logs
        else s.logs[b := log.(since := log.since[..|log.since| - 1])],
        s.clock)
    case ResetAll => System(EMPTY, map[], s.clock)
  }

  // ---------- the refinement invariant ----------

  ghost predicate Sorted(times: seq<real>)
  {
    forall i, j :: 0 <= i < j < |times| ==> times[i] <= times[j]
  }

  /** The tables of one bucket carry exactly what its log says, except for attempts that left the window. */
  ghost predicate Carries(t: Tables, log: Log, rule: Rule, clock: real, b: Bucket)
  {
    && Tail(t.Attempts(b), log.since, clock - rule.Window())
    && |t.Attempts(b)| <= rule.Limit()
    && (if b in t.blockedUntil then t.blockedUntil[b] == log.until else log.until <= clock)
  }

  /** `a` is `s` without some first elements, all of them up to `cutoff`. */
  ghost predicate Tail(a: seq<real>, s: seq<real>, cutoff: real)
  {
    |a| <= |s| && a == s[|s| - |a|..] && forall i :: 0 <= i < |s| - |a| ==> s[i] <= cutoff
  }

  /** The shape of a log: hits in order, none later than the clock, and a block apart from those before it. */
  ghost predicate Consistent(log: Log, rule: Rule, clock: real)
  {
    && Sorted(log.before) && Sorted(log.since)
    && (forall i :: 0 <= i < |log.since| ==> log.until <= log.since[i] <= clock)
    && (forall i :: 0 <= i < |log.before| ==> log.before[i] + rule.Block() as real <= log.until)
    && (forall i :: 0 <= i < |log.before| ==> log.before[i] <= clock)
  }

  /** Any Limit() + 1 consecutive accepted hits span at least a window. */
  ghost predicate Spaced(log: Log, rule: Rule)
  {
    var all := log.Accepted();
    forall i, j :: 0 <= i && j == i + rule.Limit() && j < |all| ==> all[j] - all[i] >= rule.Window()
  }

  ghost predicate Invariant(s: System, rules: Rules, maxBuckets: int)
  {
    && s.tables.Valid() && |s.tables.lastSeen| <= maxBuckets && s.clock >= 0.0
    && forall b :: Good(s, rules, b)
  }

  ghost predicate Good(s: System, rules: Rules, b: Bucket)
  {
    && Carries(s.tables, s.LogOf(b), rules(b.scope), s.clock, b)
    && Consistent(s.LogOf(b), rules(b.scope), s.clock)
    && (BlocksCoverWindow(rules(b.scope)) ==> Spaced(s.LogOf(b), rules(b.scope)))
  }

  predicate BlocksCoverWindow(rule: Rule)
  {
    rule.Block() as real >= rule.Window()
  }

  /** No window outlives the sweep. */
  ghost predicate SweepSafe(rules: Rules)
  {
    forall scope :: rules(scope).Window() <= STALE_BUCKET_AGE
  }

  // ---------- one bucket through sweep and pruning ----------

  lemma TailLater(a: seq<real>, s: seq<real>, cutoff: real, later: real)
    requires Tail(a, s, cutoff) && cutoff <= later
    ensures Tail(a, s, later)
  {
  }

  /** The sweep drops only what no later decision can see. */
  lemma SweptCarries(t: Tables, log: Log, rule: Rule, clock: real, now: real, b: Bucket)
    requires Carries(t, log, rule, clock, b) && Consistent(log, rule, clock) && clock <= now
    requires rule.Window() <= STALE_BUCKET_AGE
    ensures Carries(Swept(t, now), log, rule, now, b)
  {
    var times, window := t.Attempts(b), rule.Window();
    var kept := Swept(t, now).Attempts(b);
    if times != [] && !Fresh(times, now) {
      assert kept == [];
      TailLater([], log.since, now - STALE_BUCKET_AGE, now - window);
    } else {
      assert kept == times;
      TailLater(times, log.since, clock - window, now - window);
    }
  }

  lemma PrunedCarries(t: Tables, log: Log, rule: Rule, now: real, b: Bucket, keep: Bucket, maxBuckets: int)
    requires t.Valid() && maxBuckets >= 1 && Carries(Swept(t, now), log, rule, now, b) && now >= 0.0
    ensures var s, u := Swept(t, now), Pruned(t, now, keep, maxBuckets);
      Carries(u, if b in s.lastSeen && b !in u.lastSeen then FORGOTTEN else log, rule, now, b)
  {
    SweptLaw(t, now);
    PrunedLaw(t, now, keep, maxBuckets);
  }

  lemma TickedCarries(t: Tables, log: Log, rule: Rule, clock: real, now: real, x: Bucket)
    requires t.Valid() && Carries(t, log, rule, clock, x) && Consistent(log, rule, clock) && clock <= now
    requires rule.Window() <= STALE_BUCKET_AGE
    ensures Ticked(t, now).Valid() && Carries(Ticked(t, now), log, rule, now, x) && Consistent(log, rule, now)
  {
    var n := t.hitsSinceSweep + 1;
    var u := t.(hitsSinceSweep := if n >= SWEEP_INTERVAL then 0 else n);
    assert Carries(u, log, rule, clock, x);
    SweptCarries(u, log, rule, clock, now, x);
    SweptLaw(u, now);
  }

  /** Sweeping and pruning before a hit leave every bucket's tables in step with what is remembered of its log. */
  lemma PreparedCarries(s: System, rules: Rules, maxBuckets: int, b: Bucket, now: real, x: Bucket)
    requires Invariant(s, rules, maxBuckets) && maxBuckets >= 1 && SweepSafe(rules) && now >= s.clock
    ensures var logs := Remembered(s.logs, s.tables, b, now, maxBuckets);
      var log := System(s.tables, logs, now).LogOf(x);
      && (log == s.LogOf(x) || log == FORGOTTEN)
      && Carries(Prepared(s.tables, b, now, maxBuckets), log, rules(x.scope), now, x)
  {
    assert Good(s, rules, x);
    var rule, log := rules(x.scope), s.LogOf(x);
    TickedCarries(s.tables, log, rule, s.clock, now, x);
    var u := Ticked(s.tables, now);
    if |u.lastSeen| >= maxBuckets {
      SweptCarries(u, log, rule, now, now, x);
      PrunedCarries(u, log, rule, now, x, b, maxBuckets);
    }
  }

  // ---------- the counting half ----------

  lemma {:induction false} SelectNone(times: seq<real>, cutoff: real)
    requires forall i :: 0 <= i < |times| ==> times[i] <= cutoff
    ensures Select(times, After(cutoff)) == []
  {
    if times != [] { SelectNone(times[..|times| - 1], cutoff); }
  }

  lemma SelectSplit(times: seq<real>, cutoff: real, k: nat)
    requires k <= |times|
    requires forall i :: 0 <= i < k ==> times[i] <= cutoff
    requires forall i :: k <= i < |times| ==> times[i] > cutoff
    ensures Select(times, After(cutoff)) == times[k..]
  {
    SelectNone(times[..k], cutoff);
    SelectAll(times[k..], After(cutoff));
    SelectConcat(times[..k], times[k..], After(cutoff));
    assert times == times[..k] + times[k..];
    assert [] + times[k..] == times[k..];
  }

  /** Dropping from the front of an ordered deque separates the expired attempts from the recent ones. */
  lemma {:induction false} DropStaleSplit(times: seq<real>, cutoff: real) returns (k: nat)
    requires Sorted(times)
    ensures k <= |times| && DropStale(times, cutoff) == times[k..]
    ensures forall i :: 0 <= i < k ==> times[i] <= cutoff
    ensures forall i :: k <= i < |times| ==> times[i] > cutoff
    decreases |times|
  {
    k := 0;
    if times != [] && times[0] <= cutoff {
      var rest := times[1..];
      assert Sorted(rest) by { assert forall i :: 0 <= i < |rest| ==> rest[i] == times[i + 1]; }
      k := DropStaleSplit(rest, cutoff);
      k := k + 1;
      assert forall i :: 1 <= i < |times| ==> times[i] == rest[i - 1];
    }
  }

  /** What the tables keep of the window is what the log has in it. */
  lemma TailIsRecent(a: seq<real>, s: seq<real>, cutoff: real)
    requires Sorted(s) && Tail(a, s, cutoff)
    ensures DropStale(a, cutoff) == Select(s, After(cutoff)) && Tail(DropStale(a, cutoff), s, cutoff)
    ensures |DropStale(a, cutoff)| <= |a|
  {
    var gone := |s| - |a|;
    assert forall i :: 0 <= i < |a| ==> a[i] == s[gone + i];
    var k := DropStaleSplit(a, cutoff);
    assert forall i :: gone <= i < |s| ==> s[i] == a[i - gone];
    assert s[gone + k..] == a[k..];
    SelectSplit(s, cutoff, gone + k);
  }

  lemma TrimTail(a: seq<real>, s: seq<real>, cutoff: real, now: real)
    requires Sorted(s) && Tail(a, s, cutoff)
    ensures |DropStale(a, cutoff)| <= |a| && DropStale(a, cutoff) == Select(s, After(cutoff))
    ensures Tail(DropStale(a, cutoff) + [now], s + [now], cutoff)
  {
    TailIsRecent(a, s, cutoff);
  }

  /** The window holds at most Limit() attempts before a hit, so the trim to Limit() + 2 never fires. */
  lemma TrimNeverFires(t: Tables, log: Log, rule: Rule, now: real, b: Bucket)
    requires Carries(t, log, rule, now, b) && Consistent(log, rule, now)
    ensures |DropStale(t.Attempts(b), now - rule.Window()) + [now]| <= rule.Limit() + 1
    ensures DropStale(t.Attempts(b), now - rule.Window()) == Recent(log, now - rule.Window())
    ensures Tail(DropStale(t.Attempts(b), now - rule.Window()) + [now], log.since + [now], now - rule.Window())
  {
    TrimTail(t.Attempts(b), log.since, now - rule.Window(), now);
  }

  /** The hit's verdict is the log's verdict, and the bucket stays in step. */
  lemma CountedRefines(t: Tables, log: Log, rule: Rule, now: real, b: Bucket)
    requires Carries(t, log, rule, now, b) && Consistent(log, rule, now) && now >= 0.0
    ensures Counted(t, b, rule, now).1 == Decide(log, rule, now).1
    ensures Carries(Counted(t, b, rule, now).0, Decide(log, rule, now).0, rule, now, b)
  {
    if t.Blocked(b, now) {
    } else {
      CountedOpen(t, log, rule, now, b);
    }
  }

  lemma CountedOpen(t: Tables, log: Log, rule: Rule, now: real, b: Bucket)
    requires Carries(t, log, rule, now, b) && Consistent(log, rule, now) && now >= 0.0 && !t.Blocked(b, now)
    ensures Counted(t, b, rule, now).1 == Decide(log, rule, now).1
    ensures Carries(Counted(t, b, rule, now).0, Decide(log, rule, now).0, rule, now, b)
  {
    TrimNeverFires(t, log, rule, now, b);
    var u, next := Counted(t, b, rule, now).0, Decide(log, rule, now).0;
    var kept := Recent(log, now - rule.Window()) + [now];
    if |kept| <= rule.Limit() {
      assert u.Attempts(b) == kept && next.since == log.since + [now];
    } else {
      assert u.Attempts(b) == [] && next.since == [];
    }
  }

  lemma DecideConsistent(log: Log, rule: Rule, now: real)
    requires Consistent(log, rule, now)
    ensures Consistent(Decide(log, rule, now).0, rule, now)
  {
  }

  lemma {:induction false} SelectSuffixLength(times: seq<real>, cutoff: real, i: nat)
    requires Sorted(times) && i < |times| && times[i] > cutoff
    ensures |Select(times, After(cutoff))| >= |times| - i
  {
    SelectConcat(times[..i], times[i..], After(cutoff));
    assert times == times[..i] + times[i..];
    SelectSplit(times[i..], cutoff, 0);
  }

  /** A granted hit keeps the spacing: were it too close, the window would have been full. */
  lemma DecideSpaced(log: Log, rule: Rule, now: real)
    requires Consistent(log, rule, now) && Spaced(log, rule) && BlocksCoverWindow(rule)
    ensures Spaced(Decide(log, rule, now).0, rule)
  {
    var all := log.Accepted();
    var i := |all| - rule.Limit();
    if Decide(log, rule, now).1.Accepted? {
      assert Decide(log, rule, now).0.Accepted() == all + [now];
      if i >= 0 {
        assert now - all[i] >= rule.Window() by {
          if |log.before| <= i && all[i] > now - rule.Window() {
            SelectSuffixLength(log.since, now - rule.Window(), i - |log.before|);
          }
        }
      }
    } else if log.until <= now {
      assert Decide(log, rule, now).0.Accepted() == all;
    }
  }

  // ---------- whole runs ----------

  /** One hit: the verdict is the plain log's, and every bucket stays in step with its log. */
  lemma HitStep(s: System, rules: Rules, maxBuckets: int, b: Bucket, now: real)
    requires Invariant(s, rules, maxBuckets) && maxBuckets >= 1 && SweepSafe(rules) && now >= s.clock
    ensures Invariant(Step(s, rules, maxBuckets, HitAt(b, now)), rules, maxBuckets)
    ensures var logs := Remembered(s.logs, s.tables, b, now, maxBuckets);
      Hit(s.tables, b, rules(b.scope), now, maxBuckets).1
        == Decide(System(s.tables, logs, now).LogOf(b), rules(b.scope), now).1
  {
    var p := Prepared(s.tables, b, now, maxBuckets);
    HitBounded(s.tables, b, rules(b.scope), now, maxBuckets);
    forall x ensures Good(Step(s, rules, maxBuckets, HitAt(b, now)), rules, x) {
      HitStepBucket(s, rules, maxBuckets, b, now, x);
    }
    PreparedFor(s, rules, maxBuckets, b, now, b);
    HitBucket(p, System(s.tables, Remembered(s.logs, s.tables, b, now, maxBuckets), now).LogOf(b), rules(b.scope), now,
      b);
  }

  /** Everything known about bucket `x` when the counting half of a hit starts. */
  lemma PreparedFor(s: System, rules: Rules, maxBuckets: int, b: Bucket, now: real, x: Bucket)
    requires Invariant(s, rules, maxBuckets) && maxBuckets >= 1 && SweepSafe(rules) && now >= s.clock
    ensures var log := System(s.tables, Remembered(s.logs, s.tables, b, now, maxBuckets), now).LogOf(x);
      && Carries(Prepared(s.tables, b, now, maxBuckets), log, rules(x.scope), now, x)
      && Consistent(log, rules(x.scope), now)
      && (BlocksCoverWindow(rules(x.scope)) ==> Spaced(log, rules(x.scope)))
  {
    assert Good(s, rules, x);
    PreparedCarries(s, rules, maxBuckets, b, now, x);
  }

  /** A hit leaves the counts and blocks of other buckets alone. */
  lemma CountedElsewhere(p: Tables, b: Bucket, rule: Rule, now: real, x: Bucket, log: Log, rule2: Rule)
    requires x != b && Carries(p, log, rule2, now, x)
    ensures Carries(Counted(p, b, rule, now).0, log, rule2, now, x)
  {
  }

  lemma HitStepBucket(s: System, rules: Rules, maxBuckets: int, b: Bucket, now: real, x: Bucket)
    requires Invariant(s, rules, maxBuckets) && maxBuckets >= 1 && SweepSafe(rules) && now >= s.clock
    ensures Good(Step(s, rules, maxBuckets, HitAt(b, now)), rules, x)
  {
    var p := Prepared(s.tables, b, now, maxBuckets);
    var log := System(s.tables, Remembered(s.logs, s.tables, b, now, maxBuckets), now).LogOf(x);
    PreparedFor(s, rules, maxBuckets, b, now, x);
    if x == b {
      HitBucket(p, log, rules(b.scope), now, b);
    } else {
      CountedElsewhere(p, b, rules(b.scope), now, x, log, rules(x.scope));
      assert Step(s, rules, maxBuckets, HitAt(b, now)).LogOf(x) == log;
    }
  }

  lemma HitBucket(p: Tables, log: Log, rule: Rule, now: real, b: Bucket)
    requires Carries(p, log, rule, now, b) && Consistent(log, rule, now) && now >= 0.0
    requires BlocksCoverWindow(rule) ==> Spaced(log, rule)
    ensures Counted(p, b, rule, now).1 == Decide(log, rule, now).1
    ensures Carries(Counted(p, b, rule, now).0, Decide(log, rule, now).0, rule, now, b)
    ensures Consistent(Decide(log, rule, now).0, rule, now)
    ensures BlocksCoverWindow(rule) ==> Spaced(Decide(log, rule, now).0, rule)
  {
    CountedRefines(p, log, rule, now, b);
    DecideConsistent(log, rule, now);
    if BlocksCoverWindow(rule) { DecideSpaced(log, rule, now); }
  }

  /** Resetting a bucket forgets it ... */
  lemma ResetStep(s: System, rules: Rules, maxBuckets: int, b: Bucket)
    requires Invariant(s, rules, maxBuckets)
    ensures Invariant(Step(s, rules, maxBuckets, ResetOf(b)), rules, maxBuckets)
  {
    var next := Step(s, rules, maxBuckets, ResetOf(b));
    DropLaw(s.tables, b);
    forall x ensures Good(next, rules, x) {
      assert Good(s, rules, x);
      if x != b { GoodSame(s, next, rules, x); }
    }
  }

  /** ... and discarding its latest attempt takes the latest accepted hit out of the log. */
  lemma DiscardStep(s: System, rules: Rules, maxBuckets: int, b: Bucket)
    requires Invariant(s, rules, maxBuckets)
    ensures Invariant(Step(s, rules, maxBuckets, DiscardOf(b)), rules, maxBuckets)
  {
    forall x ensures Good(Step(s, rules, maxBuckets, DiscardOf(b)), rules, x) {
      assert Good(s, rules, x);
      if x == b { DiscardHere(s, rules, maxBuckets, b); } else { DiscardElsewhere(s, rules, maxBuckets, b, x); }
    }
    assert Discarded(s.tables, b).Valid();
  }

  lemma DiscardElsewhere(s: System, rules: Rules, maxBuckets: int, b: Bucket, x: Bucket)
    requires x != b && Good(s, rules, x)
    ensures Good(Step(s, rules, maxBuckets, DiscardOf(b)), rules, x)
  {
    var next := Step(s, rules, maxBuckets, DiscardOf(b));
    assert next.tables.Attempts(x) == s.tables.Attempts(x);
    assert next.LogOf(x) == s.LogOf(x);
    GoodSame(s, next, rules, x);
  }

  lemma DiscardHere(s: System, rules: Rules, maxBuckets: int, b: Bucket)
    requires Good(s, rules, b)
    ensures Good(Step(s, rules, maxBuckets, DiscardOf(b)), rules, b)
  {
    var log := s.LogOf(b);
    if s.tables.Attempts(b) != [] {
      DiscardKeeps(s.tables, log, rules(b.scope), s.clock, b);
      assert Step(s, rules, maxBuckets, DiscardOf(b)).LogOf(b) == log.(since := log.since[..|log.since| - 1]);
    }
  }

  lemma GoodSame(s: System, next: System, rules: Rules, x: Bucket)
    requires Good(s, rules, x) && next.LogOf(x) == s.LogOf(x) && next.clock == s.clock
    requires next.tables.Attempts(x) == s.tables.Attempts(x)
    requires x in next.tables.blockedUntil <==> x in s.tables.blockedUntil
    requires x in next.tables.blockedUntil ==> next.tables.blockedUntil[x] == s.tables.blockedUntil[x]
    ensures Good(next, rules, x)
  {
  }

  lemma OtherStep(s: System, rules: Rules, maxBuckets: int, e: Event)
    requires Invariant(s, rules, maxBuckets) && maxBuckets >= 1 && !e.HitAt?
    ensures Invariant(Step(s, rules, maxBuckets, e), rules, maxBuckets)
  {
    match e
    case ResetOf(b) => ResetStep(s, rules, maxBuckets, b);
    case DiscardOf(b) => DiscardStep(s, rules, maxBuckets, b);
    case ResetAll => forall x ensures Good(Step(s, rules, maxBuckets, e), rules, x) { assert Good(s, rules, x); }
  }

  lemma DiscardKeeps(t: Tables, log: Log, rule: Rule, clock: real, b: Bucket)
    requires Carries(t, log, rule, clock, b) && Consistent(log, rule, clock)
    requires t.Attempts(b) != []
    ensures log.since != []
    ensures var shorter := log.(since := log.since[..|log.since| - 1]);
      && Carries(Discarded(t, b), shorter, rule, clock, b) && Consistent(shorter, rule, clock)
      && (Spaced(log, rule) ==> Spaced(shorter, rule))
  {
    var times, since := t.Attempts(b), log.since;
    var shorter := log.(since := since[..|since| - 1]);
    assert Discarded(t, b).Attempts(b) == times[..|times| - 1];
    assert times[..|times| - 1] == since[..|since| - 1][|since| - |times|..];
    assert shorter.Accepted() == log.Accepted()[..|log.Accepted()| - 1];
  }

  /** Times of hits never decrease along a run. */
  ghost predicate Timed(clock: real, events: seq<Event>)
    decreases |events|
  {
    events == [] ||
    match events[0]
    case HitAt(_, now) => now >= clock && Timed(now, events[1..])
    case _ => Timed(clock, events[1..])
  }

  function Run(s: System, rules: Rules, maxBuckets: int, events: seq<Event>): System
    decreases |events|
  {
    if events == [] then s else Run(Step(s, rules, maxBuckets, events[0]), rules, maxBuckets, events[1..])
  }

  lemma {:induction false} RunKeepsInvariant(s: System, rules: Rules, maxBuckets: int, events: seq<Event>)
    requires Invariant(s, rules, maxBuckets) && maxBuckets >= 1 && SweepSafe(rules) && Timed(s.clock, events)
    ensures Invariant(Run(s, rules, maxBuckets, events), rules, maxBuckets)
    decreases |events|
  {
    if events != [] {
      match events[0] {
        case HitAt(b, now) => HitStep(s, rules, maxBuckets, b, now);
        case _ => OtherStep(s, rules, maxBuckets, events[0]);
      }
      RunKeepsInvariant(Step(s, rules, maxBuckets, events[0]), rules, maxBuckets, events[1..]);
    }
  }

  lemma InitialInvariant(rules: Rules, maxBuckets: int)
    requires maxBuckets >= 1
    ensures Invariant(INITIAL, rules, maxBuckets)
  {
    forall b ensures Good(INITIAL, rules, b) { }
  }

  /**
   * Refinement: after any run, the verdict on a hit is the one the plain log of that bucket gives, whatever
   * was swept in the meantime; and the capacity is respected.
   */
  lemma LimiterRefinesLog(rules: Rules, maxBuckets: int, events: seq<Event>, b: Bucket, now: real)
    requires maxBuckets >= 1 && SweepSafe(rules) && Timed(0.0, events)
    requires now >= Run(INITIAL, rules, maxBuckets, events).clock
    ensures var s := Run(INITIAL, rules, maxBuckets, events);
      var log := System(s.tables, Remembered(s.logs, s.tables, b, now, maxBuckets), now).LogOf(b);
      && Hit(s.tables, b, rules(b.scope), now, maxBuckets).1 == Decide(log, rules(b.scope), now).1
      && |s.tables.lastSeen| <= maxBuckets && s.tables.Valid()
  {
    InitialInvariant(rules, maxBuckets);
    RunKeepsInvariant(INITIAL, rules, maxBuckets, events);
    HitStep(Run(INITIAL, rules, maxBuckets, events), rules, maxBuckets, b, now);
  }

  /** The accepted hits in the half-open interval [start, start + width). */
  function Within(times: seq<real>, start: real, width: real): seq<real>
  {
    Select(times, Inside(start, width))
  }

  function Inside(start: real, width: real): real -> bool
  {
    x => start <= x < start + width
  }

  /**
   * Sliding-window safety: no interval as long as the window holds more than Limit() accepted hits of a remembered
   * bucket.
   */
  lemma WindowSafety(rules: Rules, maxBuckets: int, events: seq<Event>, b: Bucket, start: real)
    requires maxBuckets >= 1 && SweepSafe(rules) && Timed(0.0, events) && BlocksCoverWindow(rules(b.scope))
    ensures var log := Run(INITIAL, rules, maxBuckets, events).LogOf(b);
      |Within(log.Accepted(), start, rules(b.scope).Window())| <= rules(b.scope).Limit()
  {
    InitialInvariant(rules, maxBuckets);
    RunKeepsInvariant(INITIAL, rules, maxBuckets, events);
    var s := Run(INITIAL, rules, maxBuckets, events);
    assert Good(s, rules, b);
    var log := s.LogOf(b);
    var all := log.Accepted();
    assert Sorted(all) by {
      forall i, j | 0 <= i < j < |all| ensures all[i] <= all[j] {
        if i < |log.before| <= j { assert log.before[i] <= log.until <= log.since[j - |log.before|]; }
      }
    }
    SpacedWindow(all, rules(b.scope), start);
  }

  lemma {:induction false} SpacedWindow(times: seq<real>, rule: Rule, start: real)
    requires Sorted(times)
    requires forall i, j :: 0 <= i && j == i + rule.Limit() && j < |times| ==> times[j] - times[i] >= rule.Window()
    ensures |Within(times, start, rule.Window())| <= rule.Limit()
    decreases |times|
  {
    var n := |times|;
    if n > rule.Limit() {
      if start <= times[n - 1] < start + rule.Window() {
        // the hit Limit() places before the last one is already outside the interval
        var k := n - rule.Limit();
        assert times[n - 1] - times[k - 1] >= rule.Window();
        SplitWindow(times, k, start, rule.Window());
      } else {
        SpacedWindow(times[..n - 1], rule, start);
      }
    }
  }

  lemma SplitWindow(times: seq<real>, k: nat, start: real, width: real)
    requires Sorted(times) && 0 < k <= |times| && times[k - 1] < start
    ensures |Within(times, start, width)| <= |times| - k
  {
    OutsideInterval(times[..k], start, width);
    SelectConcat(times[..k], times[k..], Inside(start, width));
    assert times == times[..k] + times[k..];
  }

  lemma {:induction false} OutsideInterval(times: seq<real>, start: real, width: real)
    requires forall i :: 0 <= i < |times| ==> times[i] < start
    ensures Within(times, start, width) == []
    decreases |times|
  {
    if times != [] { OutsideInterval(times[..|times| - 1], start, width); }
  }

  // ---------- a block shorter than the window does not protect it ----------

  /** Pruning on behalf of a bucket never forgets that bucket. */
  lemma CurrentRemembered(s: System, b: Bucket, now: real, maxBuckets: int)
    requires s.tables.Valid() && maxBuckets >= 1
    ensures System(s.tables, Remembered(s.logs, s.tables, b, now, maxBuckets), now).LogOf(b) == s.LogOf(b)
  {
    var t := Ticked(s.tables, now);
    if s.tables.hitsSinceSweep + 1 >= SWEEP_INTERVAL { SweptLaw(s.tables.(hitsSinceSweep := 0), now); }
    PrunedLaw(t, now, b, maxBuckets);
  }

  lemma {:induction false} RunAppend(s: System, rules: Rules, maxBuckets: int, events: seq<Event>, e: Event)
    ensures Run(s, rules, maxBuckets, events + [e]) == Step(Run(s, rules, maxBuckets, events), rules, maxBuckets, e)
    decreases |events|
  {
    if events == [] {
      assert [] + [e] == [e];
      assert Run(s, rules, maxBuckets, [e]) == Run(Step(s, rules, maxBuckets, e), rules, maxBuckets, []);
    } else {
      RunAppend(Step(s, rules, maxBuckets, events[0]), rules, maxBuckets, events[1..], e);
      assert (events + [e])[1..] == events[1..] + [e];
    }
  }

  lemma {:induction false} TimedAppend(clock: real, rules: Rules, maxBuckets: int, s: System, events: seq<Event>,
                                       b: Bucket, now: real)
    requires Timed(clock, events) && s.clock == clock && Run(s, rules, maxBuckets, events).clock <= now
    ensures Timed(clock, events + [HitAt(b, now)])
    decreases |events|
  {
    if events == [] {
      assert [] + [HitAt(b, now)] == [HitAt(b, now)];
      assert Timed(now, []);
    } else {
      var t := Step(s, rules, maxBuckets, events[0]);
      TimedAppend(t.clock, rules, maxBuckets, t, events[1..], b, now);
      assert (events + [HitAt(b, now)])[1..] == events[1..] + [HitAt(b, now)];
    }
  }

  /** One more hit at the end of a run, in terms of the bucket's log. */
  lemma HitAppended(rules: Rules, maxBuckets: int, events: seq<Event>, b: Bucket, now: real)
    requires maxBuckets >= 1 && SweepSafe(rules) && Timed(0.0, events)
    requires now >= Run(INITIAL, rules, maxBuckets, events).clock
    ensures var more := events + [HitAt(b, now)];
      && Timed(0.0, more) && Run(INITIAL, rules, maxBuckets, more).clock == now
      && Run(INITIAL, rules, maxBuckets, more).LogOf(b)
        == Decide(Run(INITIAL, rules, maxBuckets, events).LogOf(b), rules(b.scope), now).0
  {
    InitialInvariant(rules, maxBuckets);
    RunKeepsInvariant(INITIAL, rules, maxBuckets, events);
    RunAppend(INITIAL, rules, maxBuckets, events, HitAt(b, now));
    TimedAppend(0.0, rules, maxBuckets, INITIAL, events, b, now);
    CurrentRemembered(Run(INITIAL, rules, maxBuckets, events), b, now, maxBuckets);
  }

  /** `n` hits of one bucket at time zero. */
  function Burst(b: Bucket, n: nat): seq<Event>
  {
    if n == 0 then [] else Burst(b, n - 1) + [HitAt(b, 0.0)]
  }

  function Zeros(n: nat): seq<real>
  {
    if n == 0 then [] else Zeros(n - 1) + [0.0]
  }

  lemma {:induction false} ZerosLaw(n: nat)
    ensures |Zeros(n)| == n && forall i :: 0 <= i < n ==> Zeros(n)[i] == 0.0
  {
    if n > 0 { ZerosLaw(n - 1); }
  }

  lemma ZerosRecent(n: nat, cutoff: real)
    requires cutoff < 0.0
    ensures |Zeros(n)| == n && Select(Zeros(n), After(cutoff)) == Zeros(n)
    ensures forall i :: 0 <= i < n ==> Zeros(n)[i] == 0.0
  {
    ZerosLaw(n);
    SelectSplit(Zeros(n), cutoff, 0);
  }

  lemma ZeroAccepted(rule: Rule, n: nat)
    requires n < rule.Limit()
    ensures Decide(Log([], Zeros(n), 0.0), rule, 0.0).0 == Log([], Zeros(n + 1), 0.0)
  {
    ZerosRecent(n, 0.0 - rule.Window());
  }

  lemma {:induction false} BurstLog(rules: Rules, maxBuckets: int, b: Bucket, n: nat)
    requires maxBuckets >= 1 && SweepSafe(rules) && n <= rules(b.scope).Limit()
    ensures Timed(0.0, Burst(b, n)) && Run(INITIAL, rules, maxBuckets, Burst(b, n)).clock == 0.0
    ensures Run(INITIAL, rules, maxBuckets, Burst(b, n)).LogOf(b) == Log([], Zeros(n), 0.0)
  {
    if n > 0 {
      BurstLog(rules, maxBuckets, b, n - 1);
      ZeroAccepted(rules(b.scope), n - 1);
      HitAppended(rules, maxBuckets, Burst(b, n - 1), b, 0.0);
    }
  }

  /** A run that squeezes Limit() + 1 accepted hits into one window when blocks are shorter than the window. */
  function Squeeze(rule: Rule, b: Bucket): seq<Event>
  {
    Burst(b, rule.Limit()) + [HitAt(b, 0.0)] + [HitAt(b, rule.Block() as real)]
  }

  lemma SqueezeBreaksWindow(rules: Rules, maxBuckets: int, b: Bucket)
    requires maxBuckets >= 1 && SweepSafe(rules) && !BlocksCoverWindow(rules(b.scope))
    ensures Timed(0.0, Squeeze(rules(b.scope), b))
    ensures var log := Run(INITIAL, rules, maxBuckets, Squeeze(rules(b.scope), b)).LogOf(b);
      |Within(log.Accepted(), 0.0, rules(b.scope).Window())| > rules(b.scope).Limit()
  {
    var rule := rules(b.scope);
    var n, end := rule.Limit(), rule.Block() as real;
    BurstLog(rules, maxBuckets, b, n);
    HitAppended(rules, maxBuckets, Burst(b, n), b, 0.0);
    ZerosRecent(n, 0.0 - rule.Window());
    var log := Log([] + Zeros(n), [], end);
    assert Run(INITIAL, rules, maxBuckets, Burst(b, n) + [HitAt(b, 0.0)]).LogOf(b) == log;
    HitAppended(rules, maxBuckets, Burst(b, n) + [HitAt(b, 0.0)], b, end);
    var all := Zeros(n) + [end];
    assert Run(INITIAL, rules, maxBuckets, Squeeze(rule, b)).LogOf(b).Accepted() == all;
    forall x | x in all ensures Inside(0.0, rule.Window())(x) {
      var i :| 0 <= i < |all| && all[i] == x;
    }
    SelectAll(all, Inside(0.0, rule.Window()));
  }

  /** The sliding window is safe over every run exactly when a block lasts at least as long as the window. */
  lemma WindowSafetyExactly(rules: Rules, maxBuckets: int, b: Bucket)
    requires maxBuckets >= 1 && SweepSafe(rules)
    ensures BlocksCoverWindow(rules(b.scope)) <==>
      forall events, start :: Timed(0.0, events) ==>
        |Within(Run(INITIAL, rules, maxBuckets, events).LogOf(b).Accepted(), start, rules(b.scope).Window())|
          <= rules(b.scope).Limit()
  {
    if BlocksCoverWindow(rules(b.scope)) {
      forall events, start | Timed(0.0, events)
        ensures |Within(Run(INITIAL, rules, maxBuckets, events).LogOf(b).Accepted(), start, rules(b.scope).Window())|
          <= rules(b.scope).Limit()
      {
        WindowSafety(rules, maxBuckets, events, b, start);
      }
    } else {
      SqueezeBreaksWindow(rules, maxBuckets, b);
    }
  }
}
