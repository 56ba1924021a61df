/** What the rate limiter tells its callers: when a hit is accepted, and how honest its retry time is. */
module RateLimitAnswers {
  import opened Filtering
  import opened RateLimitTables
  import opened RateLimitRuns

  /** The smallest integer that is not below `x`. */
  lemma CeilLaw(x: real)
    ensures x <= Ceil(x) as real < x + 1.0
  {
  }

  /** The bucket's log as a hit at the end of a run finds it. */
  function LogBefore(rules: Rules, maxBuckets: int, events: seq<Event>, b: Bucket): Log
  {
    Run(INITIAL, rules, maxBuckets, events).LogOf(b)
  }

  /** The answer to one more hit. */
  function Answer(rules: Rules, maxBuckets: int, events: seq<Event>, b: Bucket, now: real): Verdict
  {
    Hit(Run(INITIAL, rules, maxBuckets, events).tables, b, rules(b.scope), now, maxBuckets).1
  }

  lemma AnswerIsDecision(rules: Rules, maxBuckets: int, events: seq<Event>, b: Bucket, now: real)
    requires maxBuckets >= 1 && SweepSafe(rules) && Timed(0.0, events)
    requires now >= Run(INITIAL, rules, maxBuckets, events).clock
    ensures var log := LogBefore(rules, maxBuckets, events, b);
      && Answer(rules, maxBuckets, events, b, now) == Decide(log, rules(b.scope), now).1
      && Consistent(log, rules(b.scope), now)
  {
    LimiterRefinesLog(rules, maxBuckets, events, b, now);
    CurrentRemembered(Run(INITIAL, rules, maxBuckets, events), b, now, maxBuckets);
    InitialInvariant(rules, maxBuckets);
    RunKeepsInvariant(INITIAL, rules, maxBuckets, events);
    assert Good(Run(INITIAL, rules, maxBuckets, events), rules, b);
  }

  lemma RecentCount(log: Log, rule: Rule, now: real)
    requires Sorted(log.since)
    ensures var n, limit := |log.since|, rule.Limit();
      |Recent(log, now - rule.Window())| < limit <==> n < limit || log.since[n - limit] <= now - rule.Window()
  {
    var k := DropStaleSplit(log.since, now - rule.Window());
    SelectSplit(log.since, now - rule.Window(), k);
  }

  lemma DecisionAccepts(log: Log, rule: Rule, now: real)
    requires Sorted(log.since)
    ensures Decide(log, rule, now).1.Accepted? <==>
      && log.until <= now
      && (|log.since| < rule.Limit() || log.since[|log.since| - rule.Limit()] + rule.Window() <= now)
  {
    RecentCount(log, rule, now);
  }

  /**
   * A hit is accepted exactly if no block is running and the hit accepted `Limit()` places before it, since the latest
   * block, has left the window or does not exist.
   */
  lemma AcceptedExactly(rules: Rules, maxBuckets: int, events: seq<Event>, b: Bucket, now: real)
    requires maxBuckets >= 1 && SweepSafe(rules) && Timed(0.0, events)
    requires now >= Run(INITIAL, rules, maxBuckets, events).clock
    ensures var log, limit := LogBefore(rules, maxBuckets, events, b), rules(b.scope).Limit();
      Answer(rules, maxBuckets, events, b, now).Accepted? <==>
        && log.until <= now
        && (|log.since| < limit || log.since[|log.since| - limit] + rules(b.scope).Window() <= now)
  {
    AnswerIsDecision(rules, maxBuckets, events, b, now);
    DecisionAccepts(LogBefore(rules, maxBuckets, events, b), rules(b.scope), now);
  }

  lemma RejectionLaw(log: Log, rule: Rule, now: real)
    requires Consistent(log, rule, now) && Decide(log, rule, now).1.Rejected?
    ensures var (next, v) := Decide(log, rule, now);
      && v.retryAfter >= 1 && next.since == []
      && now < next.until <= now + v.retryAfter as real
      && next.until > now + v.retryAfter as real - 1.0
  {
    CeilLaw(log.until - now);
    assert log.since != [] ==> log.until <= log.since[0] <= now;
  }

  /**
   * The retry time is honest: after a rejection the next hit is accepted if it comes no sooner than the time given, and
   * rejected if it comes a whole second too soon.
   */
  lemma RetryAfterHonest(rules: Rules, maxBuckets: int, events: seq<Event>, b: Bucket, now: real, later: real)
    requires maxBuckets >= 1 && SweepSafe(rules) && Timed(0.0, events)
    requires Run(INITIAL, rules, maxBuckets, events).clock <= now <= later
    requires Answer(rules, maxBuckets, events, b, now).Rejected?
    ensures var wait := Answer(rules, maxBuckets, events, b, now).retryAfter as real;
      var next := Answer(rules, maxBuckets, events + [HitAt(b, now)], b, later);
      && wait >= 1.0
      && (later >= now + wait ==> next.Accepted?)
      && (later <= now + wait - 1.0 ==> next.Rejected?)
  {
    var log, rule := LogBefore(rules, maxBuckets, events, b), rules(b.scope);
    AnswerIsDecision(rules, maxBuckets, events, b, now);
    RejectionLaw(log, rule, now);
    HitAppended(rules, maxBuckets, events, b, now);
    AnswerIsDecision(rules, maxBuckets, events + [HitAt(b, now)], b, later);
    assert Recent(Decide(log, rule, now).0, later - rule.Window()) == [];
  }

  /** Hits made during a block are rejected, count for nothing and do not prolong it. */
  lemma BlockNotProlonged(rules: Rules, maxBuckets: int, events: seq<Event>, b: Bucket, now: real)
    requires maxBuckets >= 1 && SweepSafe(rules) && Timed(0.0, events)
    requires Run(INITIAL, rules, maxBuckets, events).clock <= now < LogBefore(rules, maxBuckets, events, b).until
    ensures Answer(rules, maxBuckets, events, b, now).Rejected?
    ensures LogBefore(rules, maxBuckets, events + [HitAt(b, now)], b) == LogBefore(rules, maxBuckets, events, b)
  {
    AnswerIsDecision(rules, maxBuckets, events, b, now);
    HitAppended(rules, maxBuckets, events, b, now);
  }

  /** A rejection that no running block explains starts one, of the rule's length. */
  lemma BlockStarts(rules: Rules, maxBuckets: int, events: seq<Event>, b: Bucket, now: real)
    requires maxBuckets >= 1 && SweepSafe(rules) && Timed(0.0, events)
    requires now >= Run(INITIAL, rules, maxBuckets, events).clock
    requires LogBefore(rules, maxBuckets, events, b).until <= now && Answer(rules, maxBuckets, events, b, now).Rejected?
    ensures LogBefore(rules, maxBuckets, events + [HitAt(b, now)], b).until == now + rules(b.scope).Block() as real
    ensures Answer(rules, maxBuckets, events, b, now) == Rejected(rules(b.scope).Block())
  {
    AnswerIsDecision(rules, maxBuckets, events, b, now);
    HitAppended(rules, maxBuckets, events, b, now);
  }
}
