/** Whose pending one-shot jobs a conversion removes, and whose a synchronisation keeps. */
module OneShotJobs {
  import opened Text
  import opened JobSync
  import opened JobSyncLaws

  /** The names as they stand in a one-shot identifier, up to the timestamp. */
  function Dashed(account: string, task: string): string
  {
    account + "-" + task + "-"
  }

  function OneShotId(account: string, task: string, timestamp: string): string
  {
    OneShotPrefix(account, task) + timestamp
  }

  /** What the prefix test of one pair of names takes the one-shot jobs of another pair for: its own. */
  predicate Claims(account: string, task: string, otherAccount: string, otherTask: string)
  {
    Dashed(account, task) <= Dashed(otherAccount, otherTask)
  }

  lemma PrefixOfBoth(common: string, s: string, t: string)
    ensures common + s <= common + t <==> s <= t
  {
    assert (common + s)[|common|..] == s && (common + t)[|common|..] == t;
    if common + s <= common + t { assert (common + t)[..|common + s|] == common + s; assert t[..|s|] == s; }
  }

  /** A text that ends with a dash is a prefix of `t + digits` only if it is one of `t`. */
  lemma PrefixBeforeDigits(s: string, t: string, digits: string)
    requires s != "" && s[|s| - 1] == '-' && '-' !in digits
    ensures s <= t + digits <==> s <= t
  {
    if s <= t + digits {
      assert (t + digits)[|s| - 1] == '-';
      assert s == t[..|s|];
    }
  }

  /** The prefix test on identifiers, as a condition on the names alone; a timestamp has no dash. */
  lemma PrefixMatchesExactly(account: string, task: string, otherAccount: string, otherTask: string, timestamp: string)
    requires '-' !in timestamp
    ensures StartsWith(OneShotId(otherAccount, otherTask, timestamp), OneShotPrefix(account, task))
      <==> Claims(account, task, otherAccount, otherTask)
  {
    var mine, theirs := Dashed(account, task), Dashed(otherAccount, otherTask);
    assert OneShotPrefix(account, task) == ONESHOT + mine;
    assert OneShotId(otherAccount, otherTask, timestamp) == ONESHOT + (theirs + timestamp);
    PrefixOfBoth(ONESHOT, mine, theirs + timestamp);
    PrefixBeforeDigits(mine, theirs, timestamp);
  }

  /** Within one account, a task claims itself and the tasks whose name extends its own by a dash. */
  lemma ClaimsWithinAccount(account: string, task: string, other: string)
    ensures Claims(account, task, account, other) <==> other == task || task + "-" <= other
  {
    assert Dashed(account, task) == (account + "-") + (task + "-");
    assert Dashed(account, other) == (account + "-") + (other + "-");
    PrefixOfBoth(account + "-", task + "-", other + "-");
    if task + "-" <= other + "-" && |task| == |other| { assert (other + "-")[..|task|] == task; }
  }

  /** Names without dashes are safe. */
  lemma DashlessApart(account: string, task: string, otherAccount: string, otherTask: string)
    requires '-' !in account && '-' !in task && '-' !in otherAccount && '-' !in otherTask
    ensures Claims(account, task, otherAccount, otherTask) <==> account == otherAccount && task == otherTask
  {
    if Claims(account, task, otherAccount, otherTask) {
      assert Dashed(account, task) == account + "-" + (task + "-");
      assert Dashed(otherAccount, otherTask) == otherAccount + "-" + (otherTask + "-");
      FirstDash(account, task + "-", otherAccount, otherTask + "-");
      ClaimsWithinAccount(account, task, otherTask);
      PrefixHas(task + "-", otherTask, |task|);
    }
  }

  lemma PrefixHas(s: string, t: string, k: nat)
    requires k < |s|
    ensures s <= t ==> s[k] in t
  {
    if s <= t { assert t[k] == s[k]; }
  }

  /** Dashless texts before a dash are equal if one whole is a prefix of the other. */
  lemma FirstDash(a: string, s: string, b: string, t: string)
    requires '-' !in a && '-' !in b && a + "-" + s <= b + "-" + t
    ensures a == b
  {
    var mine, theirs := a + "-" + s, b + "-" + t;
    assert mine[|a|] == '-' && theirs[|b|] == '-';
    forall k | 0 <= k < |a| ensures theirs[k] == a[k] { assert mine[k] == a[k]; }
    forall k | 0 <= k < |b| ensures theirs[k] == b[k] { }
    assert theirs[|a|] == '-';
    assert |a| == |b|;
  }

  // ---------- conversions ----------

  /**
   * Turning a delay of one task into a one-shot job removes the one-shot job of another one exactly if it claims it;
   * whatever it does not claim stays as it is.
   */
  lemma ConversionRemovesExactly(jobs: Jobs, account: string, task: string, runTime: int, timestamp: string,
                                 otherAccount: string, otherTask: string, otherTimestamp: string)
    requires '-' !in otherTimestamp && OneShotId(otherAccount, otherTask, otherTimestamp) in jobs
    requires OneShotId(otherAccount, otherTask, otherTimestamp) != OneShotId(account, task, timestamp)
    ensures var id, done :=
      OneShotId(otherAccount, otherTask, otherTimestamp), Converted(jobs, account, task, runTime, timestamp);
      && (id !in done <==> Claims(account, task, otherAccount, otherTask))
      && (id in done ==> done[id] == jobs[id])
  {
    PrefixMatchesExactly(account, task, otherAccount, otherTask, otherTimestamp);
  }

  lemma OtherNameOtherId(account: string, task: string, timestamp: string,
                         otherAccount: string, otherTask: string, otherTimestamp: string)
    requires '-' !in timestamp && '-' !in otherTimestamp && Dashed(account, task) != Dashed(otherAccount, otherTask)
    ensures OneShotId(account, task, timestamp) != OneShotId(otherAccount, otherTask, otherTimestamp)
  {
    PrefixMatchesExactly(account, task, otherAccount, otherTask, otherTimestamp);
    PrefixMatchesExactly(otherAccount, otherTask, account, task, timestamp);
  }

  /** Converting a delay of `task` removes a pending job of the same account's `task-rest`. */
  lemma ConversionRemovesSibling(jobs: Jobs, account: string, task: string, rest: string, runTime: int,
                                 timestamp: string, pending: string)
    requires '-' !in timestamp && '-' !in pending && OneShotId(account, task + "-" + rest, pending) in jobs
    ensures OneShotId(account, task + "-" + rest, pending) !in Converted(jobs, account, task, runTime, timestamp)
  {
    var other := task + "-" + rest;
    ClaimsWithinAccount(account, task, other);
    assert |Dashed(account, task)| < |Dashed(account, other)|;
    OtherNameOtherId(account, task, timestamp, account, other, pending);
    ConversionRemovesExactly(jobs, account, task, runTime, timestamp, account, other, pending);
  }

  /** It also removes the pending jobs of every task of the account `account-task`. */
  lemma ConversionRemovesStranger(jobs: Jobs, account: string, task: string, other: string, runTime: int,
                                  timestamp: string, pending: string)
    requires '-' !in timestamp && '-' !in pending && OneShotId(account + "-" + task, other, pending) in jobs
    ensures OneShotId(account + "-" + task, other, pending) !in Converted(jobs, account, task, runTime, timestamp)
  {
    var stranger := account + "-" + task;
    assert |Dashed(account, task)| < |Dashed(stranger, other)|;
    OtherNameOtherId(account, task, timestamp, stranger, other, pending);
    ConversionRemovesExactly(jobs, account, task, runTime, timestamp, stranger, other, pending);
  }

  // ---------- synchronisations ----------

  predicate Ranged(t: Task)
  {
    t.enabled && t.mode.Range?
  }

  /** The names as stored, padding included, claim the names of a pending job. */
  predicate TaskClaims(t: Task, account: string, task: string)
  {
    Claims(Shown(t.account), Shown(t.name), account, task)
  }

  lemma OwnedExactly(tasks: seq<Task>, account: string, task: string, timestamp: string)
    requires '-' !in timestamp
    ensures Owned(tasks, OneShotId(account, task, timestamp))
      <==> exists i :: 0 <= i < |tasks| && Ranged(tasks[i]) && TaskClaims(tasks[i], account, task)
  {
    forall i | 0 <= i < |tasks|
      ensures StartsWith(OneShotId(account, task, timestamp),
        OneShotPrefix(Shown(tasks[i].account), Shown(tasks[i].name)))
        <==> TaskClaims(tasks[i], account, task)
    {
      PrefixMatchesExactly(Shown(tasks[i].account), Shown(tasks[i].name), account, task, timestamp);
    }
  }

  lemma OneShotIdKind(account: string, task: string, timestamp: string)
    ensures StartsWith(OneShotId(account, task, timestamp), ONESHOT)
    ensures !StartsWith(OneShotId(account, task, timestamp), SIGN)
  {
    var id := OneShotId(account, task, timestamp);
    assert id == ONESHOT + (Dashed(account, task) + timestamp);
    assert id[0] == ONESHOT[0] == 'r' && SIGN[0] == 's';
  }

  lemma OneShotIfOwned(jobs: Jobs, plans: seq<Plan>, owned: string -> bool, id: string)
    requires SignIds(plans) && StartsWith(id, ONESHOT) && !StartsWith(id, SIGN) && id in jobs
    ensures id in Synced(jobs, plans, owned) <==> owned(id)
  {
    OtherJobsKept(jobs, plans, owned, id);
  }

  /** A synchronisation keeps a pending one-shot job exactly if an enabled range task claims it. */
  lemma OneShotKeptExactly(jobs: Jobs, tasks: seq<Task>, parses: string -> bool, account: string, task: string,
                           timestamp: string)
    requires '-' !in timestamp && OneShotId(account, task, timestamp) in jobs
    ensures OneShotId(account, task, timestamp) in Synced(jobs, Plans(tasks, parses), id => Owned(tasks, id))
      <==> exists i :: 0 <= i < |tasks| && Ranged(tasks[i]) && TaskClaims(tasks[i], account, task)
  {
    OneShotIdKind(account, task, timestamp);
    PlansSign(tasks, parses);
    OneShotIfOwned(jobs, Plans(tasks, parses), id => Owned(tasks, id), OneShotId(account, task, timestamp));
    OwnedExactly(tasks, account, task, timestamp);
  }

  /** Names as stored claim their own stripped form exactly if stripping changes neither. */
  lemma OwnClaimExactly(account: string, task: string)
    ensures Claims(account, task, Strip(account), Strip(task)) <==> Trimmed(account) && Trimmed(task)
  {
  }

  /**
   * A pending one-shot job of an enabled range task survives a synchronisation exactly if its stored names carry no
   * padding, or some other enabled range task happens to claim it.
   */
  lemma OwnOneShotKeptExactly(jobs: Jobs, tasks: seq<Task>, parses: string -> bool, k: nat, timestamp: string)
    requires k < |tasks| && Ranged(tasks[k]) && Named(tasks[k]) && '-' !in timestamp
    requires OneShotId(Stripped(tasks[k].account), Stripped(tasks[k].name), timestamp) in jobs
    ensures var account, task := Stripped(tasks[k].account), Stripped(tasks[k].name);
      OneShotId(account, task, timestamp) in Synced(jobs, Plans(tasks, parses), id => Owned(tasks, id))
      <==> (Trimmed(tasks[k].account.value) && Trimmed(tasks[k].name.value))
           || exists i :: 0 <= i < |tasks| && i != k && Ranged(tasks[i]) && TaskClaims(tasks[i], account, task)
  {
    var account, task := Stripped(tasks[k].account), Stripped(tasks[k].name);
    OneShotKeptExactly(jobs, tasks, parses, account, task, timestamp);
    OwnClaimExactly(tasks[k].account.value, tasks[k].name.value);
    assert TaskClaims(tasks[k], account, task) <==> Trimmed(tasks[k].account.value) && Trimmed(tasks[k].name.value);
  }
}
