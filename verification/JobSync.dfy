/** Reconciling the scheduler's jobs with the configured sign tasks. */
module JobSync {
  import opened Text

  datatype Trigger = Trigger(expression: string, jitter: int) | Once(time: int)

  datatype Job = Job(trigger: Trigger, account: string, task: string, direct: bool)

  datatype Mode = Fixed | Range | Listen

  /** A task as listed; a name may be missing, and the jitter or the time may be of a form that cannot be used. */
  datatype Task = Task(account: Option<string>, name: Option<string>, enabled: bool, mode: Mode,
                       signAt: Option<string>, jitter: Option<int>, rangeStart: string)

  const SIGN := "sign-"
  const ONESHOT := "range-oneshot-"

  predicate StartsWith(s: string, prefix: string)
  {
    prefix <= s
  }

  function Stripped(name: Option<string>): string
  {
    if name.Some? then Strip(name.value) else ""
  }

  /** A missing name is formatted as "None". */
  function Shown(name: Option<string>): string
  {
    if name.Some? then name.value else "None"
  }

  predicate Named(t: Task)
  {
    Stripped(t.account) != "" && Stripped(t.name) != ""
  }

  function JobId(t: Task): string
  {
    SIGN + Stripped(t.account) + "-" + Stripped(t.name)
  }

  function OneShotPrefix(account: string, task: string): string
  {
    ONESHOT + account + "-" + task + "-"
  }

  /**
   * The trigger of a task, or None if building it raises; a range start replaces the sign time, which must be
   * readable too.
   */
  function TriggerOf(t: Task, parses: string -> bool): Option<Trigger>
  {
    if t.jitter.None? || t.signAt.None? || !parses(t.signAt.value) then None
    else if t.mode.Range? && t.rangeStart != "" then
      if parses(t.rangeStart) then Some(Trigger(t.rangeStart, 0)) else None
    else Some(Trigger(t.signAt.value, t.jitter.value))
  }

  /** What the synchronisation wants for one task: a job with a trigger, if it is active. */
  datatype Plan = Plan(id: string, active: bool, trigger: Option<Trigger>, account: string, task: string)

  function PlanOf(t: Task, parses: string -> bool): Plan
  {
    Plan(JobId(t), t.enabled && !t.mode.Listen?, TriggerOf(t, parses), Stripped(t.account), Stripped(t.name))
  }

  /** The plans of all tasks that have both names. */
  function Plans(tasks: seq<Task>, parses: string -> bool): seq<Plan>
  {
    if tasks == [] then [] else
      var t := tasks[|tasks| - 1];
      Plans(tasks[..|tasks| - 1], parses) + (if Named(t) then [PlanOf(t, parses)] else [])
  }

  type Jobs = map<string, Job>

  /** What one plan does to the jobs; `existing` are the sign jobs from before the synchronisation. */
  function AfterPlan(jobs: Jobs, existing: set<string>, p: Plan): Jobs
  {
    if !p.active then (if p.id in existing then jobs - {p.id} else jobs)
    else if p.trigger.None? then jobs
    else if p.id in existing then (if p.id in jobs then jobs[p.id := jobs[p.id].(trigger := p.trigger.value)] else jobs)
    else jobs[p.id := Job(p.trigger.value, p.account, p.task, false)]
  }

  function AfterPlans(jobs: Jobs, existing: set<string>, plans: seq<Plan>): Jobs
  {
    if plans == [] then jobs
    else AfterPlan(AfterPlans(jobs, existing, plans[..|plans| - 1]), existing, plans[|plans| - 1])
  }

  function SignJobs(jobs: Jobs): set<string>
  {
    set id | id in jobs && StartsWith(id, SIGN)
  }

  function Ids(plans: seq<Plan>): set<string>
  {
    set i | 0 <= i < |plans| :: plans[i].id
  }

  /** Some enabled range task owns the one-shot job. */
  predicate Owned(tasks: seq<Task>, id: string)
  {
    exists i :: 0 <= i < |tasks| && tasks[i].enabled && tasks[i].mode.Range?
      && StartsWith(id, OneShotPrefix(Shown(tasks[i].account), Shown(tasks[i].name)))
  }

  /** The jobs after a synchronisation with the scheduling lock held. */
  function Synced(jobs: Jobs, plans: seq<Plan>, owned: string -> bool): Jobs
  {
    var after := AfterPlans(jobs, SignJobs(jobs), plans);
    map id | id in after && id !in SignJobs(jobs) - Ids(plans) && !(StartsWith(id, ONESHOT) && !owned(id)) :: after[id]
  }

  /** The jobs after a delay of the task was turned into a one-shot job. */
  function Converted(jobs: Jobs, account: string, task: string, runTime: int, timestamp: string): Jobs
  {
    (map id | id in jobs && !StartsWith(id, OneShotPrefix(account, task)) :: jobs[id])
    [OneShotPrefix(account, task) + timestamp := Job(Once(runTime), account, task, true)]
  }

  class Scheduler {
    var jobs: Jobs
    var running: bool

    constructor ()
      ensures jobs == map[] && !running
    {
      jobs, running := map[], false;
    }

    method SyncJobs(tasks: seq<Task>, parses: string -> bool, lock: bool)
      modifies this`jobs
      ensures !lock ==> jobs == if running then old(jobs) - SignJobs(old(jobs)) else old(jobs)
      ensures lock ==> jobs == Synced(old(jobs), Plans(tasks, parses), id => Owned(tasks, id))
    {
      if !lock {
        if running { RemoveWhere(jobs.Keys, id => StartsWith(id, SIGN)); }
        return;
      }
      var existing := SignJobs(jobs);
      var desired := {};
      for i := 0 to |tasks|
        invariant jobs == AfterPlans(old(jobs), existing, Plans(tasks[..i], parses))
        invariant desired == Ids(Plans(tasks[..i], parses))
      {
        PlansStep(tasks, parses, i);
        if Named(tasks[i]) {
          ghost var plans := Plans(tasks[..i], parses);
          PlansGrow(old(jobs), existing, plans, PlanOf(tasks[i], parses));
          desired := desired + {JobId(tasks[i])};
          SyncTask(PlanOf(tasks[i], parses), existing);
        }
      }
      assert tasks[..|tasks|] == tasks;
      RemoveWhere(existing - desired, id => true);
      RemoveWhere(jobs.Keys, id => StartsWith(id, ONESHOT) && !Owned(tasks, id));
    }

    method SyncTask(p: Plan, existing: set<string>)
      modifies this`jobs
      ensures jobs == AfterPlan(old(jobs), existing, p)
    {
      if !p.active {
        if p.id in existing { jobs := jobs - {p.id}; }
        return;
      }
      if p.trigger.None? { return; }
      if p.id in existing {
        if p.id in jobs { jobs := jobs[p.id := jobs[p.id].(trigger := p.trigger.value)]; }
      } else {
        jobs := jobs[p.id := Job(p.trigger.value, p.account, p.task, false)];
      }
    }

    /** Removing listed jobs one by one; a job that is gone already is skipped. */
    method RemoveWhere(ids: set<string>, doomed: string -> bool)
      modifies this`jobs
      ensures jobs == map id | id in old(jobs) && !(id in ids && doomed(id)) :: old(jobs)[id]
    {
      var rest := ids;
      while rest != {}
        invariant rest <= ids
        invariant jobs == map id | id in old(jobs) && !(id in ids - rest && doomed(id)) :: old(jobs)[id]
        decreases |rest|
      {
        var id :| id in rest;
        if doomed(id) { jobs := jobs - {id}; }
        rest := rest - {id};
      }
    }

    /** A long random delay becomes a single one-shot job, which replaces every earlier one with the task's prefix. */
    method ConvertDelay(account: string, task: string, runTime: int, timestamp: string)
      modifies this`jobs
      ensures var id := OneShotPrefix(account, task) + timestamp;
        && id in jobs && jobs[id] == Job(Once(runTime), account, task, true)
        && (forall other :: other in jobs && StartsWith(other, OneShotPrefix(account, task)) ==> other == id)
        && (forall other :: !StartsWith(other, OneShotPrefix(account, task)) ==>
              (other in jobs <==> other in old(jobs)) && (other in jobs ==> jobs[other] == old(jobs)[other]))
      ensures jobs == Converted(old(jobs), account, task, runTime, timestamp)
    {
      var prefix := OneShotPrefix(account, task);
      RemoveWhere(jobs.Keys, id => StartsWith(id, prefix));
      jobs := jobs[prefix + timestamp := Job(Once(runTime), account, task, true)];
    }
  }

  lemma PlansStep(tasks: seq<Task>, parses: string -> bool, i: nat)
    requires i < |tasks|
    ensures var plans := Plans(tasks[..i], parses);
      Plans(tasks[..i + 1], parses) == if Named(tasks[i]) then plans + [PlanOf(tasks[i], parses)] else plans
  {
    assert tasks[..i + 1][..i] == tasks[..i];
  }

  lemma PlansGrow(jobs: Jobs, existing: set<string>, plans: seq<Plan>, p: Plan)
    ensures AfterPlans(jobs, existing, plans + [p]) == AfterPlan(AfterPlans(jobs, existing, plans), existing, p)
    ensures Ids(plans + [p]) == Ids(plans) + {p.id}
  {
    assert (plans + [p])[..|plans|] == plans;
    forall id | id in Ids(plans) ensures id in Ids(plans + [p]) {
      var i :| 0 <= i < |plans| && plans[i].id == id;
      assert (plans + [p])[i] == plans[i];
    }
    assert (plans + [p])[|plans|] == p;
  }
}
