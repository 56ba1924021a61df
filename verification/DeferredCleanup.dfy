/** Deferred cleanup tasks on one event loop: schedules, cancellations and wake-ups in any order. */
module DeferredCleanup {
  import opened Text

  type Key = nat
  type TaskId = nat

  /** A task that was cancelled before its first step never runs its `finally` block. */
  datatype Status = Fresh | Sleeping | Cancelling(started: bool) | Done

  datatype Task = Task(key: Key, status: Status)

  datatype State = State(tasks: map<TaskId, Task>, registry: map<Key, TaskId>, active: set<Key>, target: set<Key>)

  predicate Uncancelled(s: Status)
  {
    s.Fresh? || s.Sleeping?
  }

  function CancelledStatus(s: Status): Status
  {
    match s
    case Fresh => Cancelling(false)
    case Sleeping => Cancelling(true)
    case _ => s
  }

  function Cancelled(tasks: map<TaskId, Task>, id: TaskId): map<TaskId, Task>
  {
    if id in tasks then tasks[id := tasks[id].(status := CancelledStatus(tasks[id].status))] else tasks
  }

  /** The `finally` block: a task unregisters itself only if it is still the registered one. */
  function Unregistered(registry: map<Key, TaskId>, key: Key, id: TaskId): map<Key, TaskId>
  {
    if key in registry && registry[key] == id then registry - {key} else registry
  }

  datatype Event =
    | Schedule(key: Key, id: TaskId)
    | Start(id: TaskId)
    | Wake(id: TaskId)
    | Unwind(id: TaskId)
    | Cancel(id: TaskId)
    | SetActive(key: Key, value: bool)
    | Put(key: Key)

  /** An event that does not fit the state changes nothing; a schedule needs a new task. */
  function Step(s: State, e: Event): State
  {
    match e
    case Schedule(key, id) =>
      if id in s.tasks then s else
      var tasks := if key in s.registry then Cancelled(s.tasks, s.registry[key]) else s.tasks;
      s.(tasks := tasks[id := Task(key, Fresh)], registry := s.registry[key := id])
    case Start(id) =>
      if id in s.tasks && s.tasks[id].status.Fresh? then
        s.(tasks := s.tasks[id := s.tasks[id].(status := Sleeping)])
      else s
    case Wake(id) =>
      if id in s.tasks && s.tasks[id].status.Sleeping? then
        var key := s.tasks[id].key;
        State(s.tasks[id := Task(key, Done)], Unregistered(s.registry, key, id), s.active,
              if key in s.active then s.target else s.target - {key})
      else s
    case Unwind(id) =>
      if id in s.tasks && s.tasks[id].status.Cancelling? then
        var key := s.tasks[id].key;
        s.(tasks := s.tasks[id := Task(key, Done)],
           registry := if s.tasks[id].status.started then Unregistered(s.registry, key, id) else s.registry)
      else s
    case Cancel(id) => s.(tasks := Cancelled(s.tasks, id))
    case SetActive(key, value) => s.(active := if value then s.active + {key} else s.active - {key})
    case Put(key) => s.(target := s.target + {key})
  }

  function Run(events: seq<Event>): State
  {
    if events == [] then State(map[], map[], {}, {}) else Step(Run(events[..|events| - 1]), events[|events| - 1])
  }

  /** The task scheduled last for a key, in the whole run. */
  function Latest(events: seq<Event>, key: Key): Option<TaskId>
  {
    if events == [] then None else
      var before, e := events[..|events| - 1], events[|events| - 1];
      if e.Schedule? && e.key == key && e.id !in Run(before).tasks then Some(e.id) else Latest(before, key)
  }

  // ---------- the two dictionaries in place ----------

  class Cleanups {
    var tasks: map<TaskId, Task>
    var registry: map<Key, TaskId>
    var active: set<Key>
    var target: set<Key>

    constructor ()
      ensures Now() == Run([])
    {
      tasks, registry, active, target := map[], map[], {}, {};
    }

    ghost function Now(): State
      reads this
    {
      State(tasks, registry, active, target)
    }

    method ScheduleDeferredCleanup(key: Key, id: TaskId)
      requires id !in tasks
      modifies this
      ensures Now() == Step(old(Now()), Schedule(key, id))
    {
      if key in registry {
        var previous := registry[key];
        if previous in tasks && !tasks[previous].status.Done? {
          tasks := tasks[previous := tasks[previous].(status := CancelledStatus(tasks[previous].status))];
        }
      }
      tasks := tasks[id := Task(key, Fresh)];
      registry := registry[key := id];
    }

    /** The end of a task's body, after its sleep or its cancellation. */
    method Finish(id: TaskId, cancelled: bool)
      requires id in tasks && (if cancelled then tasks[id].status == Cancelling(true) else tasks[id].status == Sleeping)
      modifies this
      ensures Now() == Step(old(Now()), if cancelled then Unwind(id) else Wake(id))
    {
      var key := tasks[id].key;
      if !cancelled && key !in active {
        target := target - {key};
      }
      if key in registry && registry[key] == id {
        registry := registry - {key};
      }
      tasks := tasks[id := Task(key, Done)];
    }
  }

  // ---------- the protocol ----------

  /** A registered task belongs to its key, and an uncancelled task is the registered one of its key. */
  ghost predicate Registered(s: State)
  {
    && (forall k :: k in s.registry ==> s.registry[k] in s.tasks && s.tasks[s.registry[k]].key == k)
    && (forall id :: id in s.tasks && Uncancelled(s.tasks[id].status) ==>
          s.tasks[id].key in s.registry && s.registry[s.tasks[id].key] == id)
  }

  ghost predicate Sound(events: seq<Event>)
  {
    && Registered(Run(events))
    && (forall k :: k in Run(events).registry ==> Latest(events, k) == Some(Run(events).registry[k]))
  }

  lemma StepRegistered(s: State, e: Event)
    requires Registered(s)
    ensures Registered(Step(s, e))
  {
  }

  lemma {:induction false} RunSound(events: seq<Event>)
    ensures Sound(events)
  {
    if events != [] {
      var before, e := events[..|events| - 1], events[|events| - 1];
      RunSound(before);
      StepRegistered(Run(before), e);
      forall k | k in Run(events).registry ensures Latest(events, k) == Some(Run(events).registry[k]) {
        assert !(e.Schedule? && e.id !in Run(before).tasks && e.key == k) ==>
          k in Run(before).registry && Run(before).registry[k] == Run(events).registry[k];
      }
    }
  }

  /** Each key has at most one uncancelled sleeper, and it is the registered and the latest one. */
  lemma OneSleeperPerKey(events: seq<Event>, id: TaskId)
    ensures var s := Run(events);
      id in s.tasks && Uncancelled(s.tasks[id].status) ==>
        && Latest(events, s.tasks[id].key) == Some(id)
        && s.tasks[id].key in s.registry && s.registry[s.tasks[id].key] == id
        && forall other ::
          other in s.tasks && s.tasks[other].key == s.tasks[id].key && Uncancelled(s.tasks[other].status) ==>
            other == id
  {
    RunSound(events);
  }

  /** A registration only disappears when that very task ends, and only changes hands by a new schedule. */
  lemma OnlySelfUnregisters(events: seq<Event>, e: Event, key: Key)
    ensures var s, t := Run(events), Step(Run(events), e);
      key in s.registry && (key !in t.registry || t.registry[key] != s.registry[key]) ==>
        if key in t.registry then e == Schedule(key, t.registry[key])
          else e == Wake(s.registry[key]) || e == Unwind(s.registry[key])
  {
    RunSound(events);
  }

  /** A target is only removed by the latest task of its key, waking up while the key is inactive. */
  lemma ActiveTargetsKept(events: seq<Event>, e: Event, key: Key)
    ensures var s, t := Run(events), Step(Run(events), e);
      key in s.target && key !in t.target ==> key !in s.active && e.Wake? && Latest(events, key) == Some(e.id)
  {
    RunSound(events);
  }

  /** A cleanup that is not superseded, not cancelled and not held off by activity does take place. */
  lemma LatestCleansUp(events: seq<Event>, key: Key, id: TaskId)
    requires Latest(events, key) == Some(id)
    ensures var s := Run(events);
      && id in s.tasks && s.tasks[id].key == key
      && (s.tasks[id].status.Sleeping? && key !in s.active ==>
            var t := Step(s, Wake(id)); key !in t.target && key !in t.registry)
  {
    RunSound(events);
    LatestIsTask(events, key, id);
  }

  lemma {:induction false} LatestIsTask(events: seq<Event>, key: Key, id: TaskId)
    requires Latest(events, key) == Some(id)
    ensures id in Run(events).tasks && Run(events).tasks[id].key == key
  {
    var before, e := events[..|events| - 1], events[|events| - 1];
    if !(e.Schedule? && e.key == key && e.id !in Run(before).tasks) {
      LatestIsTask(before, key, id);
      RunSound(before);
    }
  }
}
