/** The per-proxy circuit breaker of one process on top of the state file all processes share. */
module CircuitBreaker {
  import opened Text

  datatype State = Healthy | Degraded | Tripped | HalfOpen

  datatype Entry = Entry(state: State, fails: nat, trippedAt: real)

  const Cleared := Entry(Healthy, 0, 0.0)

  /** The entry after one more failure. */
  function Failed(entry: Option<Entry>, now: real): Entry
  {
    var e := if entry.Some? then entry.value else Cleared;
    var count := e.fails + 1;
    if count >= 3 then Entry(Tripped, count, now)
    else Entry(if count >= 2 then Degraded else Healthy, count, e.trippedAt)
  }

  /** State and failure count of an entry belong together. */
  predicate Consistent(e: Entry)
  {
    match e.state
    case Healthy => e.fails <= 1
    case Degraded => e.fails == 2
    case Tripped => e.fails >= 3
    case HalfOpen => e.fails >= 3
  }

  /** Failures at these times, one after the other. */
  function AfterFailures(entry: Option<Entry>, times: seq<real>): Option<Entry>
  {
    if times == [] then entry else Some(Failed(AfterFailures(entry, times[..|times| - 1]), times[|times| - 1]))
  }

  /**
   * After a success, or at the very start, failures count up: one leaves the proxy healthy, two degrade it, and the
   * third and every later one trips it, each at its own time.
   */
  lemma {:induction false} FailuresLaw(start: Option<Entry>, times: seq<real>)
    requires (start.None? || start == Some(Cleared)) && times != []
    ensures AfterFailures(start, times).Some?
    ensures var e := AfterFailures(start, times).value;
      && e.fails == |times| && Consistent(e) && !e.state.HalfOpen?
      && (e.state.Tripped? <==> |times| >= 3)
      && e.trippedAt == if |times| >= 3 then times[|times| - 1] else 0.0
  {
    if |times| > 1 { FailuresLaw(start, times[..|times| - 1]); }
  }

  predicate Cooled(e: Entry, now: real, cooldown: real)
  {
    e.state.Tripped? && now - e.trippedAt > cooldown
  }

  /** The entry of one proxy in the shared file. */
  class StateFile {
    var entry: Option<Entry>

    constructor ()
      ensures entry == None
    {
      entry := None;
    }
  }

  class Breaker {
    const file: StateFile
    const cooldown: real
    var memory: Option<Entry>

    constructor (file: StateFile, cooldown: real)
      ensures this.file == file && this.cooldown == cooldown && memory == None
    {
      this.file, this.cooldown, memory := file, cooldown, None;
    }

    /** A process remembers an entry only after the file has one, which no operation takes away again. */
    ghost predicate Valid()
      reads this, file
    {
      file.entry.None? ==> memory.None?
    }

    /**
     * First half of reading the state: the file is read, and a tripped proxy whose cooldown is over is
     * reported as half-open; `pending` says that this still has to be written back.
     */
    method ReadState(now: real) returns (state: State, pending: bool)
      requires Valid()
      modifies this`memory
      ensures Valid() && file.entry == old(file.entry)
      ensures file.entry.None? ==> state == Healthy && !pending
      ensures file.entry.Some? ==> var e := file.entry.value;
        && (pending <==> e.state == Tripped && now - e.trippedAt > cooldown)
        && state == (if pending then HalfOpen else e.state)
      ensures memory == if pending then Some(file.entry.value.(state := HalfOpen)) else file.entry
    {
      if file.entry.Some? { memory := file.entry; }
      state := if memory.Some? then memory.value.state else Healthy;
      pending := false;
      if state == Tripped && now - memory.value.trippedAt > cooldown {
        memory := Some(memory.value.(state := HalfOpen));
        state, pending := HalfOpen, true;
      }
    }

    /** Second half: the remembered entry replaces whatever other processes wrote in the meantime. */
    method WriteBack()
      requires Valid() && memory.Some?
      modifies file
      ensures Valid() && file.entry == memory
    {
      file.entry := memory;
    }

    method RecordFailure(now: real)
      requires Valid()
      modifies this`memory, file
      ensures Valid() && file.entry == Some(Failed(old(file.entry), now)) && memory == file.entry
    {
      var e := if file.entry.Some? then file.entry.value else Cleared;
      var count := e.fails + 1;
      e := e.(fails := count);
      if count >= 3 {
        e := e.(state := Tripped, trippedAt := now);
      } else if count >= 2 {
        e := e.(state := Degraded);
      } else {
        e := e.(state := Healthy);
      }
      file.entry := Some(e);
      memory := file.entry;
    }

    method RecordSuccess()
      requires Valid()
      modifies this`memory, file
      ensures Valid() && file.entry == Some(Cleared) && memory == Some(Cleared)
    {
      file.entry := Some(Cleared);
      memory := file.entry;
    }
  }
}
