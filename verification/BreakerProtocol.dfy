/** Availability checks of many processes on one proxy, interleaved step by step. */
module BreakerProtocol {
  import opened Text
  import opened CircuitBreaker

  type CallId = nat

  const POLLS := 40

  /** Where an availability check stands between two of its atomic steps. */
  datatype Phase =
    | Asking(polls: nat)                  // about to read the state: first (0) or while polling (1 to 40)
    | Reopening(seen: Entry, polls: nat)  // read a tripped entry past its cooldown, about to write it back half-open
    | Waiting                             // saw half-open, about to try the lease
    | Probing                             // holds the lease
    | Releasing(success: bool)            // has recorded the probe's result, still holds the lease
    | Answered(available: bool)

  /**
   * `late` marks a check that started after three failures without a success; `since` counts the successes before
   * it.
   */
  datatype Call = Call(phase: Phase, late: bool, since: nat)

  /** `fails` counts the failures since the last success, over all processes. */
  datatype System = System(entry: Option<Entry>, lease: Option<CallId>, calls: map<CallId, Call>, fails: nat,
                           successes: nat)

  datatype Event =
    | Begin(id: CallId)
    | Ask(id: CallId, now: real)
    | WriteBack(id: CallId)
    | TryLease(id: CallId)
    | Probe(id: CallId, success: bool, now: real)
    | Release(id: CallId)
    | Cancel(id: CallId)
    | Failure(now: real)
    | Success

  const Initial := System(None, None, map[], 0, 0)

  function AfterState(state: State, polls: nat): Phase
  {
    if polls == 0 then
      if state.HalfOpen? then Waiting else Answered(!state.Tripped?)
    else if state.HalfOpen? then (if polls < POLLS then Asking(polls + 1) else Answered(false))
    else Answered(!state.Tripped?)
  }

  function Move(s: System, id: CallId, phase: Phase): System
    requires id in s.calls
  {
    s.(calls := s.calls[id := s.calls[id].(phase := phase)])
  }

  function RecordFailure(s: System, now: real): System
  {
    s.(entry := Some(Failed(s.entry, now)), fails := s.fails + 1)
  }

  function RecordSuccess(s: System): System
  {
    s.(entry := Some(Cleared), fails := 0, successes := s.successes + 1)
  }

  /** Reading the shared state; before any result was recorded there is none, and the proxy counts as healthy. */
  function Read(entry: Option<Entry>, polls: nat, now: real, cooldown: real): Phase
  {
    if entry.None? then AfterState(Healthy, polls)
    else if Cooled(entry.value, now, cooldown) then Reopening(entry.value, polls)
    else AfterState(entry.value.state, polls)
  }

  /** An event that does not fit the state changes nothing. */
  function Step(s: System, e: Event, cooldown: real): System
  {
    match e
    case Begin(id) =>
      if id in s.calls then s else s.(calls := s.calls[id := Call(Asking(0), s.fails >= 3, s.successes)])
    case Ask(id, now) =>
      if id in s.calls && s.calls[id].phase.Asking? then
        Move(s, id, Read(s.entry, s.calls[id].phase.polls, now, cooldown))
      else s
    case WriteBack(id) =>
      if id in s.calls && s.calls[id].phase.Reopening? then
        Move(s.(entry := Some(s.calls[id].phase.seen.(state := HalfOpen))), id,
          AfterState(HalfOpen, s.calls[id].phase.polls))
      else s
    case TryLease(id) =>
      if id in s.calls && s.calls[id].phase.Waiting? then
        if s.lease.Some? then Move(s, id, Asking(1)) else Move(s.(lease := Some(id)), id, Probing)
      else s
    case Probe(id, success, now) =>
      if id in s.calls && s.calls[id].phase.Probing? then
        Move(if success then RecordSuccess(s) else RecordFailure(s, now), id, Releasing(success))
      else s
    case Release(id) =>
      if id in s.calls && s.calls[id].phase.Releasing? then
        Move(s.(lease := None), id, Answered(s.calls[id].phase.success))
      else s
    case Cancel(id) =>
      s.(calls := s.calls - {id}, lease := if s.lease == Some(id) then None else s.lease)
    case Failure(now) => RecordFailure(s, now)
    case Success => RecordSuccess(s)
  }

  function Run(s: System, events: seq<Event>, cooldown: real): System
    decreases |events|
  {
    if events == [] then s else Step(Run(s, events[..|events| - 1], cooldown), events[|events| - 1], cooldown)
  }

  // ---------- safety ----------

  predicate HoldsLease(p: Phase)
  {
    p.Probing? || p.Releasing?
  }

  function AtMostThree(n: nat): nat
  {
    if n <= 3 then n else 3
  }

  /** The stored entry is consistent and never counts fewer failures than matter. */
  ghost predicate EntrySound(s: System)
  {
    if s.entry.None? then s.fails == 0 && s.successes == 0
    else Consistent(s.entry.value) && s.entry.value.fails >= AtMostThree(s.fails)
  }

  /** A call that started late has no way to a positive answer as long as there was no success since. */
  ghost predicate CallSound(s: System, id: CallId)
    requires id in s.calls
  {
    var c := s.calls[id];
    && c.since <= s.successes
    && (c.phase.Reopening? ==> c.phase.seen.state.Tripped? && c.phase.seen.fails >= 3 && s.entry.Some?)
    && (HoldsLease(c.phase) <==> s.lease == Some(id))
    && (c.late && s.successes == c.since ==> s.fails >= 3 && c.phase != Answered(true) && c.phase != Releasing(true))
  }

  ghost predicate Sound(s: System)
  {
    && EntrySound(s)
    && (forall id :: id in s.calls ==> CallSound(s, id))
    && (s.lease.Some? ==> s.lease.value in s.calls)
  }

  lemma EntryStaysSound(s: System, e: Event, cooldown: real)
    requires Sound(s)
    ensures EntrySound(Step(s, e, cooldown))
  {
    if e.WriteBack? && e.id in s.calls { assert CallSound(s, e.id); }
  }

  lemma CallStaysSound(s: System, e: Event, cooldown: real, id: CallId)
    requires Sound(s) && id in Step(s, e, cooldown).calls
    ensures CallSound(Step(s, e, cooldown), id)
  {
    if id in s.calls { assert CallSound(s, id); }
  }

  lemma StepSound(s: System, e: Event, cooldown: real)
    requires Sound(s)
    ensures Sound(Step(s, e, cooldown))
  {
    EntryStaysSound(s, e, cooldown);
    var t := Step(s, e, cooldown);
    forall id | id in t.calls ensures CallSound(t, id) {
      CallStaysSound(s, e, cooldown, id);
    }
    if s.lease.Some? { assert CallSound(s, s.lease.value); }
  }

  lemma {:induction false} RunSound(events: seq<Event>, cooldown: real)
    ensures Sound(Run(Initial, events, cooldown))
    decreases |events|
  {
    if events != [] {
      RunSound(events[..|events| - 1], cooldown);
      StepSound(Run(Initial, events[..|events| - 1], cooldown), events[|events| - 1], cooldown);
    }
  }

  /**
   * A check that started after the third failure never answers "available" unless a success was recorded after its
   * start.
   */
  lemma ClosedUntilSuccess(events: seq<Event>, cooldown: real, id: CallId)
    ensures var s := Run(Initial, events, cooldown);
      id in s.calls && s.calls[id].late && s.calls[id].phase == Answered(true) ==> s.successes > s.calls[id].since
  {
    RunSound(events, cooldown);
    var s := Run(Initial, events, cooldown);
    if id in s.calls { assert CallSound(s, id); }
  }

  /** At most one check probes at a time. */
  lemma SingleFlight(events: seq<Event>, cooldown: real, id: CallId, other: CallId)
    ensures var s := Run(Initial, events, cooldown);
      id in s.calls && other in s.calls && HoldsLease(s.calls[id].phase) && HoldsLease(s.calls[other].phase) ==>
        id == other
  {
    RunSound(events, cooldown);
    var s := Run(Initial, events, cooldown);
    if id in s.calls && other in s.calls { assert CallSound(s, id) && CallSound(s, other); }
  }

  // ---------- exact counting ----------

  ghost predicate NoneReopening(s: System)
  {
    forall id :: id in s.calls ==> !s.calls[id].phase.Reopening?
  }

  /** The event records a result. */
  predicate Records(s: System, e: Event)
  {
    e.Failure? || e.Success? || (e.Probe? && e.id in s.calls && s.calls[e.id].phase.Probing?)
  }

  /** No result is recorded while some check is between reading a tripped entry and writing it back. */
  ghost predicate Undisturbed(events: seq<Event>, cooldown: real)
  {
    forall i :: 0 <= i < |events| && Records(Run(Initial, events[..i], cooldown), events[i]) ==>
      NoneReopening(Run(Initial, events[..i], cooldown))
  }

  /** The stored count is the number of failures since the last success. */
  predicate Counted(s: System)
  {
    if s.entry.None? then s.fails == 0 else s.entry.value.fails == s.fails
  }

  ghost predicate Exact(s: System)
  {
    && Counted(s)
    && (s.entry.Some? ==> Consistent(s.entry.value))
    && (forall id :: id in s.calls && s.calls[id].phase.Reopening? ==>
          s.entry.Some? && s.calls[id].phase.seen.fails == s.fails >= 3)
  }

  lemma StepExact(s: System, e: Event, cooldown: real)
    requires Exact(s) && (Records(s, e) ==> NoneReopening(s))
    ensures Exact(Step(s, e, cooldown))
  {
  }

  /** In an undisturbed run the stored count is exactly the number of failures since the last success. */
  lemma {:induction false} CountExact(events: seq<Event>, cooldown: real)
    requires Undisturbed(events, cooldown)
    ensures Exact(Run(Initial, events, cooldown))
    decreases |events|
  {
    if events != [] {
      var before := events[..|events| - 1];
      forall i | 0 <= i < |before| && Records(Run(Initial, before[..i], cooldown), before[i])
        ensures NoneReopening(Run(Initial, before[..i], cooldown))
      {
        assert before[..i] == events[..i] && before[i] == events[i];
      }
      CountExact(before, cooldown);
      StepExact(Run(Initial, before, cooldown), events[|events| - 1], cooldown);
    }
  }

  /** Recording any result under a pending write-back makes that write-back store a wrong count. */
  lemma DisturbedMiscounts(s: System, e: Event, cooldown: real, id: CallId)
    requires Exact(s) && Records(s, e) && id in s.calls && s.calls[id].phase.Reopening?
    ensures !Counted(Step(Step(s, e, cooldown), WriteBack(id), cooldown))
  {
    var t := Step(s, e, cooldown);
    assert id in t.calls && t.calls[id].phase == s.calls[id].phase;
    assert t.fails == s.fails + 1 || t.fails == 0;
  }

  /**
   * The discipline is necessary: from an exact state, recording a result leaves the count right through every
   * write-back that may follow exactly if no check is between its two halves.
   */
  lemma RecordingExactly(s: System, e: Event, cooldown: real)
    requires Exact(s) && Records(s, e)
    ensures NoneReopening(s) <==> forall id :: Counted(Step(Step(s, e, cooldown), WriteBack(id), cooldown))
  {
    if NoneReopening(s) {
      StepExact(s, e, cooldown);
      var t := Step(s, e, cooldown);
      forall id ensures Counted(Step(t, WriteBack(id), cooldown)) { StepExact(t, WriteBack(id), cooldown); }
    } else {
      var id :| id in s.calls && s.calls[id].phase.Reopening?;
      DisturbedMiscounts(s, e, cooldown, id);
    }
  }

  /** A late write-back undoes a success: the proxy is half-open again although nothing failed since. */
  lemma StaleWriteUndoesSuccess(now: real, cooldown: real)
    ensures var events :=
      [Failure(now), Failure(now), Failure(now), Begin(0), Ask(0, now + cooldown + 1.0), Success, WriteBack(0)];
      var s := Run(Initial, events, cooldown);
      s.fails == 0 && s.successes == 1 && s.entry == Some(Entry(HalfOpen, 3, now))
  {
    var later := now + cooldown + 1.0;
    var events := [Failure(now), Failure(now), Failure(now), Begin(0), Ask(0, later), Success, WriteBack(0)];
    Unroll(events, cooldown, 6);
    Unroll(events, cooldown, 5);
    Unroll(events, cooldown, 4);
    Unroll(events, cooldown, 3);
    Unroll(events, cooldown, 2);
    Unroll(events, cooldown, 1);
    Unroll(events, cooldown, 0);
    assert events[..7] == events;
  }

  lemma Unroll(events: seq<Event>, cooldown: real, n: nat)
    requires n < |events|
    ensures Run(Initial, events[..n + 1], cooldown) == Step(Run(Initial, events[..n], cooldown), events[n], cooldown)
  {
    assert events[..n + 1][..n] == events[..n];
  }
}
