/** What a synchronisation of the sign jobs achieves, and exactly when it does. */
module JobSyncLaws {
  import opened Text
  import opened JobSync

  // ---------- one identifier through a synchronisation ----------

  ghost predicate HasActive(plans: seq<Plan>, id: string)
  {
    exists i :: 0 <= i < |plans| && plans[i].id == id && plans[i].active
  }

  ghost predicate HasInactive(plans: seq<Plan>, id: string)
  {
    exists i :: 0 <= i < |plans| && plans[i].id == id && !plans[i].active
  }

  /** The last active plan with the identifier whose trigger can be built. */
  function LastReadable(plans: seq<Plan>, id: string): (r: Option<Plan>)
    ensures r.Some? ==> r.value in plans && r.value.id == id && r.value.active && r.value.trigger.Some?
    ensures r.None? ==> forall i :: 0 <= i < |plans| && plans[i].id == id && plans[i].active ==> plans[i].trigger.None?
  {
    if plans == [] then None else
      var p := plans[|plans| - 1];
      if p.id == id && p.active && p.trigger.Some? then Some(p) else LastReadable(plans[..|plans| - 1], id)
  }

  /**
   * A job from before is gone for good once an inactive plan has its identifier; otherwise it takes the last
   * readable trigger.
   */
  lemma {:induction false} ExistingEntry(jobs: Jobs, existing: set<string>, plans: seq<Plan>, id: string)
    requires id in existing && id in jobs
    ensures var all, last := AfterPlans(jobs, existing, plans), LastReadable(plans, id);
      && (id in all <==> !HasInactive(plans, id))
      && (id in all ==> all[id] == if last.Some? then jobs[id].(trigger := last.value.trigger.value) else jobs[id])
  {
    if plans != [] {
      ExistingEntry(jobs, existing, plans[..|plans| - 1], id);
    }
  }

  /**
   * An identifier without a job from before gets the job of the last readable plan, whatever inactive plans there
   * are.
   */
  lemma {:induction false} FreshEntry(jobs: Jobs, existing: set<string>, plans: seq<Plan>, id: string)
    requires id !in existing && id !in jobs
    ensures var all, last := AfterPlans(jobs, existing, plans), LastReadable(plans, id);
      && (id in all <==> last.Some?)
      && (id in all ==> all[id] == JobOf(last.value))
  {
    if plans != [] { FreshEntry(jobs, existing, plans[..|plans| - 1], id); }
  }

  function JobOf(p: Plan): Job
    requires p.trigger.Some?
  {
    Job(p.trigger.value, p.account, p.task, false)
  }

  /** Identifiers without a plan are left alone. */
  lemma {:induction false} UnplannedEntry(jobs: Jobs, existing: set<string>, plans: seq<Plan>, id: string)
    requires forall i :: 0 <= i < |plans| ==> plans[i].id != id
    ensures var all := AfterPlans(jobs, existing, plans);
      (id in all <==> id in jobs) && (id in jobs ==> all[id] == jobs[id])
  {
    if plans != [] { UnplannedEntry(jobs, existing, plans[..|plans| - 1], id); }
  }

  lemma PrefixesApart(id: string)
    requires StartsWith(id, SIGN)
    ensures !StartsWith(id, ONESHOT)
  {
    assert id[0] == SIGN[0] == 's' && ONESHOT[0] == 'r';
  }

  /** The sign job of any identifier after a synchronisation, for every job set and every list of plans. */
  lemma SignEntry(jobs: Jobs, plans: seq<Plan>, owned: string -> bool, id: string)
    requires StartsWith(id, SIGN)
    ensures var done, last := Synced(jobs, plans, owned), LastReadable(plans, id);
      && (id in done <==> if id in jobs then HasActive(plans, id) && !HasInactive(plans, id) else last.Some?)
      && (id in done && id !in jobs ==> done[id] == JobOf(last.value))
      && (id in done && id in jobs ==>
        done[id] == if last.Some? then jobs[id].(trigger := last.value.trigger.value) else jobs[id])
  {
    PrefixesApart(id);
    if id in jobs {
      ExistingEntry(jobs, SignJobs(jobs), plans, id);
    } else {
      FreshEntry(jobs, SignJobs(jobs), plans, id);
    }
  }

  // ---------- exactly one job per active task ----------

  ghost predicate SignIds(plans: seq<Plan>)
  {
    forall i :: 0 <= i < |plans| ==> StartsWith(plans[i].id, SIGN)
  }

  ghost predicate Readable(plans: seq<Plan>)
  {
    forall i :: 0 <= i < |plans| && plans[i].active ==> plans[i].trigger.Some?
  }

  /** No active task shares its identifier with an inactive one. */
  ghost predicate Unclashing(plans: seq<Plan>)
  {
    forall i, j :: 0 <= i < |plans| && 0 <= j < |plans| && plans[i].active && !plans[j].active ==>
      plans[i].id != plans[j].id
  }

  function ActiveIds(plans: seq<Plan>): set<string>
  {
    set i | 0 <= i < |plans| && plans[i].active :: plans[i].id
  }

  /** The sign jobs after a synchronisation belong to active tasks, come what may. */
  lemma SignJobsWithin(jobs: Jobs, plans: seq<Plan>, owned: string -> bool)
    ensures SignJobs(Synced(jobs, plans, owned)) <= ActiveIds(plans)
  {
    forall id | id in SignJobs(Synced(jobs, plans, owned)) ensures id in ActiveIds(plans) {
      SignEntry(jobs, plans, owned, id);
      var last := LastReadable(plans, id);
      if last.Some? { var i :| 0 <= i < |plans| && plans[i] == last.value; }
    }
  }

  lemma UnclashingSyncs(jobs: Jobs, plans: seq<Plan>, owned: string -> bool)
    requires SignIds(plans) && Readable(plans) && Unclashing(plans)
    ensures SignJobs(Synced(jobs, plans, owned)) == ActiveIds(plans)
  {
    SignJobsWithin(jobs, plans, owned);
    forall id | id in ActiveIds(plans) ensures id in SignJobs(Synced(jobs, plans, owned)) {
      SignEntry(jobs, plans, owned, id);
    }
  }

  /** A clash takes the job of an active task away, in whatever order the two tasks are listed, if it exists already. */
  lemma ClashLosesJob(jobs: Jobs, plans: seq<Plan>, owned: string -> bool, i: nat, j: nat)
    requires SignIds(plans) && i < |plans| && j < |plans| && plans[i].active && !plans[j].active
    requires plans[i].id == plans[j].id
    requires plans[i].id in jobs
    ensures plans[i].id in ActiveIds(plans) && plans[i].id !in Synced(jobs, plans, owned)
  {
    SignEntry(jobs, plans, owned, plans[i].id);
  }

  /** If no such job exists, the synchronisation creates it, for the next one to take away. */
  lemma ClashAlternates(jobs: Jobs, plans: seq<Plan>, owned: string -> bool, i: nat, j: nat)
    requires SignIds(plans) && Readable(plans) && i < |plans| && j < |plans| && plans[i].active && !plans[j].active
    requires plans[i].id == plans[j].id
    requires plans[i].id !in jobs
    ensures plans[i].id in Synced(jobs, plans, owned)
    ensures plans[i].id !in Synced(Synced(jobs, plans, owned), plans, owned)
  {
    SignEntry(jobs, plans, owned, plans[i].id);
    SignEntry(Synced(jobs, plans, owned), plans, owned, plans[i].id);
  }

  /** Some job for an identifier. */
  function Dummy(id: string): Jobs
  {
    map[id := Job(Once(0), "", "", false)]
  }

  /**
   * With readable triggers, the sign jobs are always those of the active tasks exactly if no active task clashes
   * with an inactive one.
   */
  lemma ActiveTasksExactly(plans: seq<Plan>, owned: string -> bool)
    requires SignIds(plans) && Readable(plans)
    ensures Unclashing(plans) <==> forall jobs :: SignJobs(Synced(jobs, plans, owned)) == ActiveIds(plans)
  {
    if Unclashing(plans) {
      forall jobs ensures SignJobs(Synced(jobs, plans, owned)) == ActiveIds(plans) {
        UnclashingSyncs(jobs, plans, owned);
      }
    } else {
      var i, j :| 0 <= i < |plans| && 0 <= j < |plans| && plans[i].active && !plans[j].active
        && plans[i].id == plans[j].id;
      ClashLosesJob(Dummy(plans[i].id), plans, owned, i, j);
    }
  }

  ghost predicate ActiveDistinct(plans: seq<Plan>)
  {
    forall i, j :: 0 <= i < j < |plans| && plans[i].active && plans[j].active ==> plans[i].id != plans[j].id
  }

  function ActiveCount(plans: seq<Plan>): nat
  {
    if plans == [] then 0 else ActiveCount(plans[..|plans| - 1]) + (if plans[|plans| - 1].active then 1 else 0)
  }

  lemma {:induction false} CountLaw(plans: seq<Plan>)
    ensures |ActiveIds(plans)| <= ActiveCount(plans)
    ensures |ActiveIds(plans)| == ActiveCount(plans) <==> ActiveDistinct(plans)
  {
    if plans != [] {
      var before, p := plans[..|plans| - 1], plans[|plans| - 1];
      CountLaw(before);
      ActiveIdsStep(plans);
      DistinctStep(plans);
    }
  }

  lemma ActiveIdsStep(plans: seq<Plan>)
    requires plans != []
    ensures var before, p := plans[..|plans| - 1], plans[|plans| - 1];
      ActiveIds(plans) == ActiveIds(before) + (if p.active then {p.id} else {})
  {
    var before, p := plans[..|plans| - 1], plans[|plans| - 1];
    forall id ensures id in ActiveIds(plans) <==> id in ActiveIds(before) || (p.active && id == p.id) {
    }
  }

  lemma DistinctStep(plans: seq<Plan>)
    requires plans != []
    ensures var before, p := plans[..|plans| - 1], plans[|plans| - 1];
      ActiveDistinct(plans) <==> ActiveDistinct(before) && (p.active ==> p.id !in ActiveIds(before))
  {
    var before := plans[..|plans| - 1];
    assert forall i :: 0 <= i < |before| ==> before[i] == plans[i];
  }

  lemma SubsetSize<T>(a: set<T>, b: set<T>)
    requires a <= b
    ensures |a| <= |b|
    ensures |a| == |b| ==> a == b
  {
    assert b == a + (b - a);
  }

  /**
   * One job for every active task, whatever jobs there were before: with readable triggers this holds exactly if the
   * active tasks have identifiers of their own, among each other and against the inactive ones.
   */
  lemma OneJobEachExactly(plans: seq<Plan>, owned: string -> bool)
    requires SignIds(plans) && Readable(plans)
    ensures Unclashing(plans) && ActiveDistinct(plans) <==> forall jobs ::
      |SignJobs(Synced(jobs, plans, owned))| == ActiveCount(plans)
  {
    CountLaw(plans);
    ActiveTasksExactly(plans, owned);
    if Unclashing(plans) && ActiveDistinct(plans) {
      assert forall jobs :: SignJobs(Synced(jobs, plans, owned)) == ActiveIds(plans);
    } else if !Unclashing(plans) {
      var jobs :| SignJobs(Synced(jobs, plans, owned)) != ActiveIds(plans);
      SignJobsWithin(jobs, plans, owned);
      SubsetSize(SignJobs(Synced(jobs, plans, owned)), ActiveIds(plans));
      assert |SignJobs(Synced(jobs, plans, owned))| != ActiveCount(plans);
    } else {
      var none: Jobs := map[];
      assert SignJobs(Synced(none, plans, owned)) == ActiveIds(plans);
      assert |SignJobs(Synced(none, plans, owned))| != ActiveCount(plans);
    }
  }

  // ---------- repeating a synchronisation ----------

  /** An active task with a readable trigger shares its identifier with an inactive one. */
  ghost predicate Flickers(plans: seq<Plan>, id: string)
  {
    LastReadable(plans, id).Some? && HasInactive(plans, id)
  }

  /** Jobs that are no sign jobs survive untouched, except one-shot jobs that no enabled range task owns. */
  lemma OtherJobsKept(jobs: Jobs, plans: seq<Plan>, owned: string -> bool, id: string)
    requires SignIds(plans) && !StartsWith(id, SIGN)
    ensures var done := Synced(jobs, plans, owned);
      && (id in done <==> id in jobs && (StartsWith(id, ONESHOT) ==> owned(id)))
      && (id in done ==> done[id] == jobs[id])
  {
    UnplannedEntry(jobs, SignJobs(jobs), plans, id);
  }

  lemma SyncTwiceAt(jobs: Jobs, plans: seq<Plan>, owned: string -> bool, id: string)
    requires SignIds(plans) && !Flickers(plans, id)
    ensures var once := Synced(jobs, plans, owned);
      var twice := Synced(once, plans, owned);
      (id in twice <==> id in once) && (id in once ==> twice[id] == once[id])
  {
    var once := Synced(jobs, plans, owned);
    if StartsWith(id, SIGN) {
      SignEntry(jobs, plans, owned, id);
      SignEntry(once, plans, owned, id);
      var last := LastReadable(plans, id);
      if last.Some? { var i :| 0 <= i < |plans| && plans[i] == last.value; }
    } else {
      OtherJobsKept(jobs, plans, owned, id);
      OtherJobsKept(once, plans, owned, id);
    }
  }

  /** Synchronising twice changes no more than synchronising once, for every job set, exactly if no job flickers. */
  lemma SyncIdempotentExactly(plans: seq<Plan>, owned: string -> bool)
    requires SignIds(plans)
    ensures (forall id :: !Flickers(plans, id))
      <==> forall jobs :: Synced(Synced(jobs, plans, owned), plans, owned) == Synced(jobs, plans, owned)
  {
    if forall id :: !Flickers(plans, id) {
      forall jobs ensures Synced(Synced(jobs, plans, owned), plans, owned) == Synced(jobs, plans, owned) {
        forall id { SyncTwiceAt(jobs, plans, owned, id); }
      }
    } else {
      var id :| Flickers(plans, id);
      var none: Jobs := map[];
      var i :| 0 <= i < |plans| && plans[i] == LastReadable(plans, id).value;
      SignEntry(none, plans, owned, id);
      SignEntry(Synced(none, plans, owned), plans, owned, id);
    }
  }

  // ---------- from tasks to plans ----------

  /** The plans are those of the tasks with both names. */
  lemma {:induction false} PlansLaw(tasks: seq<Task>, parses: string -> bool, p: Plan)
    ensures p in Plans(tasks, parses) <==> exists t :: t in tasks && Named(t) && PlanOf(t, parses) == p
  {
    if tasks != [] {
      var before, last := tasks[..|tasks| - 1], tasks[|tasks| - 1];
      assert tasks == before + [last];
      PlansLaw(before, parses, p);
    }
  }

  lemma {:induction false} PlansSign(tasks: seq<Task>, parses: string -> bool)
    ensures SignIds(Plans(tasks, parses))
  {
    if tasks != [] {
      PlansSign(tasks[..|tasks| - 1], parses);
    }
  }

  /** Task `z` of account `x-y` and task `y-z` of account `x`. */
  predicate Colliding(first: Task, second: Task, x: string, y: string, z: string)
  {
    && first.account == Some(x + "-" + y) && first.name == Some(z)
    && second.account == Some(x) && second.name == Some(y + "-" + z)
    && Trimmed(x + "-" + y) && Trimmed(z) && Trimmed(x) && Trimmed(y + "-" + z) && x != "" && z != ""
  }

  /** Two pairs of names with the same identifier. */
  lemma IdsCollide(first: Task, second: Task, x: string, y: string, z: string)
    requires Colliding(first, second, x, y, z)
    ensures JobId(first) == JobId(second) && Named(first) && Named(second)
  {
    assert SIGN + (x + "-" + y) + "-" + z == SIGN + x + "-" + (y + "-" + z);
  }

  predicate Active(t: Task)
  {
    t.enabled && !t.mode.Listen?
  }

  lemma TaskHasPlan(tasks: seq<Task>, parses: string -> bool, t: Task) returns (i: nat)
    requires t in tasks && Named(t)
    ensures var plans := Plans(tasks, parses);
      i < |plans| && plans[i].id == JobId(t) && plans[i].active == Active(t)
  {
    var p := PlanOf(t, parses);
    PlansLaw(tasks, parses, p);
    i :| 0 <= i < |Plans(tasks, parses)| && Plans(tasks, parses)[i] == p;
  }

  /** Wherever an active and an inactive task with one identifier stand in the list, the active one loses its job. */
  lemma SharedIdLosesJob(tasks: seq<Task>, parses: string -> bool, jobs: Jobs, on: Task, off: Task, id: string)
    requires Named(on) && Named(off) && JobId(on) == id && JobId(off) == id
    requires on in tasks && Active(on) && off in tasks && !Active(off) && id in jobs
    ensures id !in Synced(jobs, Plans(tasks, parses), id => Owned(tasks, id))
  {
    var i := TaskHasPlan(tasks, parses, on);
    var j := TaskHasPlan(tasks, parses, off);
    PlansSign(tasks, parses);
    ClashLosesJob(jobs, Plans(tasks, parses), id => Owned(tasks, id), i, j);
  }

  /** So it is for tasks of different accounts whose names are split differently. */
  lemma CollidingTasksClash(tasks: seq<Task>, parses: string -> bool, jobs: Jobs, on: Task, off: Task,
                            x: string, y: string, z: string)
    requires Colliding(on, off, x, y, z) || Colliding(off, on, x, y, z)
    requires on in tasks && Active(on) && off in tasks && !Active(off) && JobId(on) in jobs
    ensures JobId(on) !in Synced(jobs, Plans(tasks, parses), id => Owned(tasks, id))
  {
    if Colliding(on, off, x, y, z) { IdsCollide(on, off, x, y, z); } else { IdsCollide(off, on, x, y, z); }
    SharedIdLosesJob(tasks, parses, jobs, on, off, JobId(on));
  }

  // ---------- when the tasks run ----------

  /** A range task with a start runs at that start, without jitter; any other task at its sign time. */
  predicate AtRangeStart(t: Task)
  {
    t.mode.Range? && t.rangeStart != ""
  }

  /** All the times a task states can be read; a range task needs a readable sign time although it does not use it. */
  predicate TimesReadable(t: Task, parses: string -> bool)
  {
    t.jitter.Some? && t.signAt.Some? && parses(t.signAt.value) && (AtRangeStart(t) ==> parses(t.rangeStart))
  }

  ghost predicate OwnId(tasks: seq<Task>, t: Task)
  {
    t in tasks && Named(t) && forall u :: u in tasks && Named(u) && JobId(u) == JobId(t) ==> u == t
  }

  lemma OwnPlans(tasks: seq<Task>, parses: string -> bool, t: Task)
    requires OwnId(tasks, t)
    ensures var plans := Plans(tasks, parses);
      && (forall i :: 0 <= i < |plans| && plans[i].id == JobId(t) ==> plans[i] == PlanOf(t, parses))
      && PlanOf(t, parses) in plans
  {
    var plans := Plans(tasks, parses);
    PlansLaw(tasks, parses, PlanOf(t, parses));
    forall i | 0 <= i < |plans| && plans[i].id == JobId(t) ensures plans[i] == PlanOf(t, parses) {
      PlansLaw(tasks, parses, plans[i]);
    }
  }

  lemma OwnFate(tasks: seq<Task>, parses: string -> bool, t: Task)
    requires OwnId(tasks, t) && Active(t)
    ensures var plans := Plans(tasks, parses);
      && HasActive(plans, JobId(t)) && !HasInactive(plans, JobId(t))
      && LastReadable(plans, JobId(t)) == if TimesReadable(t, parses) then Some(PlanOf(t, parses)) else None
  {
    var plans := Plans(tasks, parses);
    OwnPlans(tasks, parses, t);
    var i :| 0 <= i < |plans| && plans[i] == PlanOf(t, parses);
    var last := LastReadable(plans, JobId(t));
    if last.Some? { var j :| 0 <= j < |plans| && plans[j] == last.value; }
  }

  /** What the job of a task with an identifier of its own is after a synchronisation, given the job before, if any. */
  predicate Fires(t: Task, before: Option<Job>, after: Option<Job>, parses: string -> bool)
    requires Named(t)
  {
    var job := if before.Some? then before
      else Some(Job(Once(0), Strip(t.account.value), Strip(t.name.value), false));
    if !TimesReadable(t, parses) then after == before
    else if AtRangeStart(t) then after == Some(job.value.(trigger := Trigger(t.rangeStart, 0)))
    else after == Some(job.value.(trigger := Trigger(t.signAt.value, t.jitter.value)))
  }

  function JobAt(jobs: Jobs, id: string): Option<Job>
  {
    if id in jobs then Some(jobs[id]) else None
  }

  /**
   * After a synchronisation an active task with an identifier of its own runs at the time it states; a job that exists
   * keeps what it does, and the time it had if the stated one cannot be read.
   */
  lemma TaskFires(jobs: Jobs, tasks: seq<Task>, parses: string -> bool, owned: string -> bool, t: Task)
    requires OwnId(tasks, t) && Active(t)
    ensures var id := "sign-" + Strip(t.account.value) + "-" + Strip(t.name.value);
      Fires(t, JobAt(jobs, id), JobAt(Synced(jobs, Plans(tasks, parses), owned), id), parses)
  {
    OwnFate(tasks, parses, t);
    SignEntry(jobs, Plans(tasks, parses), owned, JobId(t));
  }
}
