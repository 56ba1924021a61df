/** What availability checks answer, and after how many reads of the shared state. */
module BreakerAnswers {
  import opened Text
  import opened CircuitBreaker
  import opened BreakerProtocol

  // ---------- when a proxy is available ----------

  /** The time of the latest recorded failure, if there is one since the latest success. */
  function LastFailure(events: seq<Event>, cooldown: real): Option<real>
    decreases |events|
  {
    if events == [] then None else
      var before, e := events[..|events| - 1], events[|events| - 1];
      if !Records(Run(Initial, before, cooldown), e) then LastFailure(before, cooldown)
      else if e.Failure? || (e.Probe? && !e.success) then Some(e.now)
      else None
  }

  /** A tripped proxy carries the time of the latest failure, whatever was written back late. */
  lemma {:induction false} TrippedAtLastFailure(events: seq<Event>, cooldown: real)
    ensures var s := Run(Initial, events, cooldown);
      s.entry.Some? && s.entry.value.state.Tripped? ==> LastFailure(events, cooldown) == Some(s.entry.value.trippedAt)
    decreases |events|
  {
    if events != [] { TrippedAtLastFailure(events[..|events| - 1], cooldown); }
  }

  ghost predicate AsksAt(s: System, id: CallId)
  {
    id in s.calls && s.calls[id].phase.Asking?
  }

  function PhaseAfter(s: System, id: CallId, now: real, cooldown: real): Phase
    requires AsksAt(s, id)
  {
    Step(s, Ask(id, now), cooldown).calls[id].phase
  }

  lemma ReadAvailable(entry: Option<Entry>, polls: nat, now: real, cooldown: real)
    requires entry.Some? ==> Consistent(entry.value)
    ensures Read(entry, polls, now, cooldown) == Answered(true) <==> entry.None? || entry.value.fails < 3
  {
  }

  /**
   * In an undisturbed run a read answers "available" exactly with fewer than three failures since the latest success.
   */
  lemma AvailableExactly(events: seq<Event>, cooldown: real, id: CallId, now: real)
    requires Undisturbed(events, cooldown) && AsksAt(Run(Initial, events, cooldown), id)
    ensures var s := Run(Initial, events, cooldown);
      PhaseAfter(s, id, now, cooldown) == Answered(true) <==> s.fails < 3
  {
    CountExact(events, cooldown);
    var s := Run(Initial, events, cooldown);
    ReadAvailable(s.entry, s.calls[id].phase.polls, now, cooldown);
  }

  /**
   * A read of a tripped proxy answers "not available" exactly until the cooldown after the latest failure is over;
   * from then on the check goes on to reopen it.
   */
  lemma ClosedWhileCooling(events: seq<Event>, cooldown: real, id: CallId, now: real)
    requires var s := Run(Initial, events, cooldown);
      AsksAt(s, id) && s.entry.Some? && s.entry.value.state.Tripped?
    ensures LastFailure(events, cooldown).Some?
    ensures var phase := PhaseAfter(Run(Initial, events, cooldown), id, now, cooldown);
      && (phase == Answered(false) <==> now <= LastFailure(events, cooldown).value + cooldown)
      && (phase.Reopening? <==> now > LastFailure(events, cooldown).value + cooldown)
  {
    TrippedAtLastFailure(events, cooldown);
  }

  /**
   * A check that reads a tripped proxy after its cooldown, and that no other process disturbs, answers what its probe
   * found; a success clears the proxy, a failure trips it anew at its own time.
   */
  lemma ProbeDecides(s: System, id: CallId, cooldown: real, now: real, success: bool, later: real)
    requires Sound(s) && id in s.calls && s.calls[id].phase == Asking(0) && s.lease.None?
    requires s.entry.Some? && s.entry.value.state.Tripped? && now - s.entry.value.trippedAt > cooldown
    ensures var asked := Step(Step(s, Ask(id, now), cooldown), WriteBack(id), cooldown);
      var probed := Step(Step(asked, TryLease(id), cooldown), Probe(id, success, later), cooldown);
      var done := Step(probed, Release(id), cooldown);
      && done.calls[id].phase == Answered(success) && done.lease.None?
      && done.entry == Some(if success then Cleared else Entry(Tripped, s.entry.value.fails + 1, later))
  {
    var a := Step(s, Ask(id, now), cooldown);
    assert a.calls[id].phase == Reopening(s.entry.value, 0);
    var b := Step(a, WriteBack(id), cooldown);
    assert b.calls[id].phase == Waiting && b.entry == Some(s.entry.value.(state := HalfOpen));
    var c := Step(b, TryLease(id), cooldown);
    assert c.calls[id].phase == Probing;
  }

  // ---------- how often a check reads ----------

  /** How often the present check of this number has read the shared state. */
  function Reads(events: seq<Event>, cooldown: real, id: CallId): nat
    decreases |events|
  {
    if events == [] then 0 else
      var before, e := events[..|events| - 1], events[|events| - 1];
      var s := Run(Initial, before, cooldown);
      if e == Begin(id) && id !in s.calls then 0
      else if e.Ask? && e.id == id && id in s.calls && s.calls[id].phase.Asking? then Reads(before, cooldown, id) + 1
      else Reads(before, cooldown, id)
  }

  /** The polls counted in a phase are the reads so far. */
  ghost predicate ReadsFit(p: Phase, count: nat)
  {
    match p
    case Asking(polls) => count == polls <= POLLS
    case Reopening(_, polls) => count == polls + 1 && polls <= POLLS
    case Waiting => count == 1
    case Probing => count == 1
    case Releasing(_) => count == 1
    case Answered(_) => 1 <= count <= POLLS + 1
  }

  lemma ReadsStep(s: System, e: Event, cooldown: real, id: CallId, count: nat)
    requires id in s.calls && ReadsFit(s.calls[id].phase, count) && id in Step(s, e, cooldown).calls
    ensures ReadsFit(Step(s, e, cooldown).calls[id].phase,
      if e.Ask? && e.id == id && s.calls[id].phase.Asking? then count + 1 else count)
  {
  }

  /** A check answers after at most 41 reads: the first one and forty polls. */
  lemma {:induction false} AnswersInTime(events: seq<Event>, cooldown: real, id: CallId)
    ensures var s := Run(Initial, events, cooldown);
      id in s.calls ==>
        && ReadsFit(s.calls[id].phase, Reads(events, cooldown, id)) && Reads(events, cooldown, id) <= 41
        && (Reads(events, cooldown, id) == 41 && !s.calls[id].phase.Reopening? ==> s.calls[id].phase.Answered?)
    decreases |events|
  {
    if events != [] {
      var before, e := events[..|events| - 1], events[|events| - 1];
      AnswersInTime(before, cooldown, id);
      var s := Run(Initial, before, cooldown);
      if id in s.calls && id in Step(s, e, cooldown).calls {
        ReadsStep(s, e, cooldown, id, Reads(before, cooldown, id));
      }
    }
  }

  /** As long as the proxy stays half-open, a waiting check goes on polling, and gives up exactly at its 41st read. */
  lemma WaitsForTheProbe(events: seq<Event>, cooldown: real, id: CallId, now: real)
    requires var s := Run(Initial, events, cooldown);
      AsksAt(s, id) && s.entry.Some? && s.entry.value.state.HalfOpen?
    ensures var phase, n := PhaseAfter(Run(Initial, events, cooldown), id, now, cooldown), Reads(events, cooldown, id);
      && n <= 40 && (n == 0 <==> phase.Waiting?)
      && (n == 40 ==> phase == Answered(false)) && (0 < n < 40 ==> phase == Asking(n + 1))
  {
    AnswersInTime(events, cooldown, id);
  }
}
